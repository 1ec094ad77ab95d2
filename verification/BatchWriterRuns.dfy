/** Runs of the batch writer: whatever the interleaving of writers and workers, it
    stands for one sequential map. */
module BatchWriterRuns {
  import opened Common
  import opened BatchWriterSpec

  /** Steps that are not enabled when their turn comes do nothing. */
  function Run(w: Writer, steps: seq<Step>): (w': Writer)
    requires w.Shaped()
    ensures w'.Shaped()
    decreases |steps|
  {
    if steps == [] then w
    else
      var w1 := Run(w, steps[..|steps| - 1]);
      var last := steps[|steps| - 1];
      if Enabled(w1, last) then Next(w1, last) else w1
  }

  /** The request a step adds. */
  function Accepted(w: Writer, step: Step): seq<Request>
    requires w.Shaped()
  {
    if step.Write? && Enabled(w, step) then [Request(step.key, step.value)] else []
  }

  /** All writes the run accepted, in order. */
  function Log(w: Writer, steps: seq<Step>): seq<Request>
    requires w.Shaped()
    decreases |steps|
  {
    if steps == [] then []
    else Log(w, steps[..|steps| - 1]) + Accepted(Run(w, steps[..|steps| - 1]), steps[|steps| - 1])
  }

  predicate Succeeds(step: Step) {
    match step
    case Take(_, ok) => ok
    case Tick(_, ok) => ok
    case Stop(_, ok) => ok
    case _ => true
  }

  predicate FlushesSucceed(steps: seq<Step>) {
    forall i :: 0 <= i < |steps| ==> Succeeds(steps[i])
  }

  // ---------------------------------------------------------------------------
  // Maps key by key

  function Look(m: map<Key, Value>, k: Key): Option<Value> {
    if k in m then Some(m[k]) else None
  }

  lemma SameLookups(m1: map<Key, Value>, m2: map<Key, Value>)
    requires forall k: Key :: Look(m1, k) == Look(m2, k)
    ensures m1 == m2
  {
    forall k: Key | k in m1 || k in m2 ensures k in m1 && k in m2 && m1[k] == m2[k] {
      assert Look(m1, k) == Look(m2, k);
    }
  }

  function KeyOwner(workers: nat, k: Key): nat
    requires workers > 0
  {
    k[0] % workers
  }

  /** The writes routed to worker `i`. */
  function Routed(log: seq<Request>, workers: nat, i: nat): seq<Request>
    requires workers > 0
    decreases |log|
  {
    if log == [] then []
    else
      var rest, r := Routed(log[..|log| - 1], workers, i), log[|log| - 1];
      if KeyOwner(workers, r.key) == i then rest + [r] else rest
  }

  lemma {:induction false} PutAllConcat(m: map<Key, Value>, a: seq<Request>, b: seq<Request>)
    ensures PutAll(PutAll(m, a), b) == PutAll(m, a + b)
    decreases |b|
  {
    if b == [] {
      assert a + b == a;
    } else {
      var b' := b[..|b| - 1];
      assert (a + b)[..|a + b| - 1] == a + b';
      PutAllConcat(m, a, b');
    }
  }

  lemma {:induction false} LookPutAll(m1: map<Key, Value>, m2: map<Key, Value>, log: seq<Request>, k: Key)
    requires Look(m1, k) == Look(m2, k)
    ensures Look(PutAll(m1, log), k) == Look(PutAll(m2, log), k)
    decreases |log|
  {
    if log != [] {
      LookPutAll(m1, m2, log[..|log| - 1], k);
    }
  }

  lemma PutAllSnoc(m: map<Key, Value>, log: seq<Request>, r: Request)
    ensures PutAll(m, log + [r]) == Put(PutAll(m, log), r)
  {
    assert (log + [r])[..|log|] == log;
  }

  lemma LookPut(m1: map<Key, Value>, m2: map<Key, Value>, r: Request, k: Key)
    requires Look(m1, k) == Look(m2, k)
    ensures Look(Put(m1, r), k) == Look(Put(m2, r), k)
    ensures r.key != k ==> Look(Put(m1, r), k) == Look(m1, k)
  {
  }

  /** Only the writes routed to a key's owner matter for the key. */
  lemma {:induction false} LookRouted(m: map<Key, Value>, log: seq<Request>, workers: nat, k: Key)
    requires workers > 0
    ensures Look(PutAll(m, log), k) == Look(PutAll(m, Routed(log, workers, KeyOwner(workers, k))), k)
    decreases |log|
  {
    if log != [] {
      var i, before, last := KeyOwner(workers, k), log[..|log| - 1], log[|log| - 1];
      var rest := Routed(before, workers, i);
      LookRouted(m, before, workers, k);
      LookPut(PutAll(m, before), PutAll(m, rest), last, k);
      PutAllSnoc(m, rest, last);
    }
  }

  lemma {:induction false} LookUnwritten(m: map<Key, Value>, log: seq<Request>, k: Key)
    requires forall j :: 0 <= j < |log| ==> log[j].key != k
    ensures Look(PutAll(m, log), k) == Look(m, k)
    decreases |log|
  {
    if log != [] {
      LookUnwritten(m, log[..|log| - 1], k);
    }
  }

  lemma {:induction false} RoutedOwned(log: seq<Request>, workers: nat, i: nat)
    requires workers > 0
    ensures forall j :: 0 <= j < |Routed(log, workers, i)| ==> KeyOwner(workers, Routed(log, workers, i)[j].key) == i
    decreases |log|
  {
    if log != [] {
      RoutedOwned(log[..|log| - 1], workers, i);
    }
  }

  // ---------------------------------------------------------------------------
  // One worker

  /** Of the writes routed to worker `i`, those it has taken from its channel. */
  function Taken(w: Writer, log: seq<Request>, i: nat): seq<Request>
    requires w.Shaped() && i < |w.channels|
  {
    var routed := Routed(log, |w.channels|, i);
    if |w.channels[i]| <= |routed| then routed[..|routed| - |w.channels[i]|] else []
  }

  /** The channel is the untaken end of the routed writes; database and buffer together
      are the taken ones applied. */
  ghost predicate WorkerInv(db0: map<Key, Value>, w: Writer, log: seq<Request>, i: nat)
    requires w.Shaped() && i < |w.channels|
  {
    && Taken(w, log, i) + w.channels[i] == Routed(log, |w.channels|, i)
    && (forall k :: k in w.buffers[i] ==> KeyOwner(|w.channels|, k) == i)
    && (forall k: Key :: KeyOwner(|w.channels|, k) == i ==>
          Look(w.db + w.buffers[i], k) == Look(PutAll(db0, Taken(w, log, i)), k))
    && (w.stopped[i] ==> w.buffers[i] == map[])
  }

  ghost predicate Inv(db0: map<Key, Value>, w: Writer, log: seq<Request>) {
    w.Shaped() && forall i :: 0 <= i < |w.channels| ==> WorkerInv(db0, w, log, i)
  }

  lemma WriteKeepsInv(db0: map<Key, Value>, w: Writer, log: seq<Request>, key: Key, value: Value)
    requires Inv(db0, w, log)
    ensures Inv(db0, Enqueue(w, key, value), log + [Request(key, value)])
  {
    var r := Request(key, value);
    var w', log' := Enqueue(w, key, value), log + [r];
    assert log'[..|log|] == log;
    forall i | 0 <= i < |w'.channels| ensures WorkerInv(db0, w', log', i) {
      assert WorkerInv(db0, w, log, i);
      if i == w.Owner(key) {
        assert Routed(log', |w.channels|, i) == Taken(w, log, i) + w.channels[i] + [r];
        assert w'.channels[i] == w.channels[i] + [r];
      }
      assert Taken(w', log', i) == Taken(w, log, i);
    }
  }

  /** Taking the oldest request of the channel. */
  lemma TakenAfterBuffer(w: Writer, log: seq<Request>, i: nat)
    requires w.Shaped() && i < |w.channels| && w.channels[i] != []
    requires Taken(w, log, i) + w.channels[i] == Routed(log, |w.channels|, i)
    ensures Taken(Buffer(w, i), log, i) == Taken(w, log, i) + [w.channels[i][0]]
    ensures Taken(Buffer(w, i), log, i) + Buffer(w, i).channels[i] == Routed(log, |w.channels|, i)
    ensures KeyOwner(|w.channels|, w.channels[i][0].key) == i
  {
    var routed := Routed(log, |w.channels|, i);
    RoutedOwned(log, |w.channels|, i);
    assert routed[|Taken(w, log, i)|] == w.channels[i][0];
  }

  lemma LookBuffered(m: map<Key, Value>, db: map<Key, Value>, buffer: map<Key, Value>, r: Request, k: Key)
    requires Look(db + buffer, k) == Look(m, k)
    ensures Look(db + Put(buffer, r), k) == Look(Put(m, r), k)
  {
  }

  lemma BufferKeepsWorker(db0: map<Key, Value>, w: Writer, log: seq<Request>, i: nat)
    requires w.Shaped() && i < |w.channels| && w.channels[i] != [] && !w.stopped[i] && WorkerInv(db0, w, log, i)
    ensures WorkerInv(db0, Buffer(w, i), log, i)
  {
    var w', r := Buffer(w, i), w.channels[i][0];
    TakenAfterBuffer(w, log, i);
    PutAllSnoc(db0, Taken(w, log, i), r);
    forall k: Key | KeyOwner(|w.channels|, k) == i
      ensures Look(w'.db + w'.buffers[i], k) == Look(PutAll(db0, Taken(w', log, i)), k)
    {
      LookBuffered(PutAll(db0, Taken(w, log, i)), w.db, w.buffers[i], r, k);
    }
  }

  lemma BufferKeepsInv(db0: map<Key, Value>, w: Writer, log: seq<Request>, i: nat)
    requires Inv(db0, w, log) && i < |w.channels| && w.channels[i] != [] && !w.stopped[i]
    ensures Inv(db0, Buffer(w, i), log)
  {
    var w' := Buffer(w, i);
    BufferKeepsWorker(db0, w, log, i);
    forall j | 0 <= j < |w'.channels| ensures WorkerInv(db0, w', log, j) {
      if j != i {
        assert WorkerInv(db0, w, log, j);
        assert Taken(w', log, j) == Taken(w, log, j);
      }
    }
  }

  lemma FlushKeepsInv(db0: map<Key, Value>, w: Writer, log: seq<Request>, i: nat)
    requires Inv(db0, w, log) && i < |w.channels|
    ensures Inv(db0, Flush(w, i, true), log)
    ensures Flush(w, i, true).buffers[i] == map[]
  {
    var w' := Flush(w, i, true);
    forall j | 0 <= j < |w'.channels| ensures WorkerInv(db0, w', log, j) {
      assert WorkerInv(db0, w, log, i) && WorkerInv(db0, w, log, j);
      assert Taken(w', log, j) == Taken(w, log, j);
      forall k: Key | KeyOwner(|w.channels|, k) == j ensures Look(w'.db + w'.buffers[j], k) == Look(w.db + w.buffers[j], k) {}
    }
  }

  lemma SameWorkers(db0: map<Key, Value>, w: Writer, w': Writer, log: seq<Request>)
    requires Inv(db0, w, log) && w'.Shaped()
    requires w'.db == w.db && w'.channels == w.channels && w'.buffers == w.buffers
    requires forall i :: 0 <= i < |w'.stopped| && w'.stopped[i] ==> w'.buffers[i] == map[]
    ensures Inv(db0, w', log)
  {
    forall i | 0 <= i < |w'.channels| ensures WorkerInv(db0, w', log, i) {
      assert WorkerInv(db0, w, log, i);
      assert Taken(w', log, i) == Taken(w, log, i);
    }
  }

  lemma NextKeepsInv(db0: map<Key, Value>, w: Writer, log: seq<Request>, step: Step)
    requires Inv(db0, w, log) && Enabled(w, step) && Succeeds(step)
    ensures Inv(db0, Next(w, step), log + Accepted(w, step))
  {
    match step
    case Write(key, value) => WriteKeepsInv(db0, w, log, key, value);
    case Take(i, _) =>
      assert log + [] == log;
      BufferKeepsInv(db0, w, log, i);
      FlushKeepsInv(db0, Buffer(w, i), log, i);
    case Tick(i, _) =>
      assert log + [] == log;
      FlushKeepsInv(db0, w, log, i);
    case Close =>
      assert log + [] == log;
      forall i | 0 <= i < |w.stopped| && w.stopped[i] ensures w.buffers[i] == map[] {
        assert WorkerInv(db0, w, log, i);
      }
      SameWorkers(db0, w, Next(w, step), log);
    case Stop(i, _) =>
      assert log + [] == log;
      FlushKeepsInv(db0, w, log, i);
      var w1 := Flush(w, i, true);
      forall j | 0 <= j < |w1.stopped| && w1.stopped[j] ensures w1.buffers[j] == map[] {
        assert WorkerInv(db0, w1, log, j);
      }
      SameWorkers(db0, w1, Next(w, step), log);
  }

  lemma IdleWorker(db0: map<Key, Value>, w: Writer, i: nat)
    requires w.Shaped() && i < |w.channels| && w.db == db0
    requires w.channels[i] == [] && w.buffers[i] == map[]
    ensures WorkerInv(db0, w, [], i)
  {
    assert Taken(w, [], i) == [];
    assert w.db + map[] == db0;
  }

  lemma StartInv(db0: map<Key, Value>, workers: nat, maxBatchSize: int)
    requires workers > 0
    ensures Inv(db0, NewWriter(db0, workers, maxBatchSize), [])
  {
    var w := NewWriter(db0, workers, maxBatchSize);
    forall i | 0 <= i < |w.channels| ensures WorkerInv(db0, w, [], i) {
      IdleWorker(db0, w, i);
    }
  }

  lemma {:induction false} RunInv(db0: map<Key, Value>, workers: nat, maxBatchSize: int, steps: seq<Step>)
    requires workers > 0 && FlushesSucceed(steps)
    ensures var w0 := NewWriter(db0, workers, maxBatchSize);
            Inv(db0, Run(w0, steps), Log(w0, steps)) && |Run(w0, steps).channels| == workers
    decreases |steps|
  {
    var w0 := NewWriter(db0, workers, maxBatchSize);
    if steps == [] {
      StartInv(db0, workers, maxBatchSize);
    } else {
      var before, last := steps[..|steps| - 1], steps[|steps| - 1];
      RunInv(db0, workers, maxBatchSize, before);
      var w1 := Run(w0, before);
      if Enabled(w1, last) {
        NextKeepsInv(db0, w1, Log(w0, before), last);
      } else {
        assert Log(w0, before) + [] == Log(w0, before);
      }
    }
  }

  // ---------------------------------------------------------------------------
  // The whole writer

  lemma {:induction false} LookWithBuffers(w: Writer, n: nat, k: Key)
    requires w.Shaped() && n <= |w.buffers|
    requires forall i, k' :: 0 <= i < |w.buffers| && k' in w.buffers[i] ==> KeyOwner(|w.channels|, k') == i
    ensures var i := KeyOwner(|w.channels|, k);
            Look(WithBuffers(w, n), k) == if i < n then Look(w.db + w.buffers[i], k) else Look(w.db, k)
    decreases n
  {
    if n > 0 {
      LookWithBuffers(w, n - 1, k);
    }
  }

  lemma {:induction false} LookWithChannels(w: Writer, n: nat, k: Key)
    requires w.Shaped() && n <= |w.channels|
    requires forall i, j :: 0 <= i < |w.channels| && 0 <= j < |w.channels[i]| ==> KeyOwner(|w.channels|, w.channels[i][j].key) == i
    ensures var i := KeyOwner(|w.channels|, k);
            var base := WithBuffers(w, |w.buffers|);
            Look(WithChannels(w, n), k) == if i < n then Look(PutAll(base, w.channels[i]), k) else Look(base, k)
    decreases n
  {
    if n > 0 {
      LookWithChannels(w, n - 1, k);
      var m := WithChannels(w, n - 1);
      if KeyOwner(|w.channels|, k) == n - 1 {
        LookPutAll(m, WithBuffers(w, |w.buffers|), w.channels[n - 1], k);
      } else {
        LookUnwritten(m, w.channels[n - 1], k);
      }
    }
  }

  /** Buffers and channels hold only keys of their worker. */
  ghost predicate Owned(w: Writer) {
    && w.Shaped()
    && (forall i, k :: 0 <= i < |w.buffers| && k in w.buffers[i] ==> KeyOwner(|w.channels|, k) == i)
    && (forall i, j :: 0 <= i < |w.channels| && 0 <= j < |w.channels[i]| ==>
          KeyOwner(|w.channels|, w.channels[i][j].key) == i)
  }

  /** A key is read through the buffer and the channel of its owner. */
  lemma LookView(w: Writer, k: Key)
    requires Owned(w)
    ensures var i := KeyOwner(|w.channels|, k);
            Look(View(w), k) == Look(PutAll(w.db + w.buffers[i], w.channels[i]), k)
  {
    var i := KeyOwner(|w.channels|, k);
    LookWithBuffers(w, |w.buffers|, k);
    LookWithChannels(w, |w.channels|, k);
    LookPutAll(WithBuffers(w, |w.buffers|), w.db + w.buffers[i], w.channels[i], k);
  }

  lemma EnqueueView(w: Writer, key: Key, value: Value)
    requires Owned(w)
    ensures Owned(Enqueue(w, key, value)) && View(Enqueue(w, key, value)) == Put(View(w), Request(key, value))
  {
    var w', r, n := Enqueue(w, key, value), Request(key, value), |w.channels|;
    forall k: Key ensures Look(View(w'), k) == Look(Put(View(w), r), k) {
      var i := KeyOwner(n, k);
      var m := w.db + w.buffers[i];
      LookView(w, k);
      LookView(w', k);
      if i == KeyOwner(n, key) {
        PutAllSnoc(m, w.channels[i], r);
        LookPut(PutAll(m, w.channels[i]), View(w), r, k);
      }
    }
    SameLookups(View(w'), Put(View(w), r));
  }

  lemma PutAllHead(m: map<Key, Value>, log: seq<Request>)
    requires log != []
    ensures PutAll(Put(m, log[0]), log[1..]) == PutAll(m, log)
  {
    assert [log[0]] + log[1..] == log && [log[0]][..0] == [];
    assert PutAll(m, [log[0]]) == Put(m, log[0]);
    PutAllConcat(m, [log[0]], log[1..]);
  }

  lemma BufferAtKey(w: Writer, i: nat, k: Key)
    requires Owned(w) && i < |w.channels| && w.channels[i] != [] && Owned(Buffer(w, i))
    ensures Look(View(Buffer(w, i)), k) == Look(View(w), k)
  {
    var w' := Buffer(w, i);
    LookView(w, k);
    LookView(w', k);
    if KeyOwner(|w.channels|, k) == i {
      var m, log := w.db + w.buffers[i], w.channels[i];
      assert w.db + Put(w.buffers[i], log[0]) == Put(m, log[0]);
      PutAllHead(m, log);
    }
  }

  lemma BufferView(w: Writer, i: nat)
    requires Owned(w) && i < |w.channels| && w.channels[i] != []
    ensures Owned(Buffer(w, i)) && View(Buffer(w, i)) == View(w)
  {
    forall k: Key ensures Look(View(Buffer(w, i)), k) == Look(View(w), k) {
      BufferAtKey(w, i, k);
    }
    SameLookups(View(Buffer(w, i)), View(w));
  }

  lemma FlushView(w: Writer, i: nat)
    requires Owned(w) && i < |w.channels|
    ensures Owned(Flush(w, i, true)) && View(Flush(w, i, true)) == View(w)
  {
    var w' := Flush(w, i, true);
    forall k: Key ensures Look(View(w'), k) == Look(View(w), k) {
      var j := KeyOwner(|w.channels|, k);
      LookView(w, k);
      LookView(w', k);
      LookPutAll(w.db + w.buffers[j], w'.db + w'.buffers[j], w.channels[j], k);
    }
    SameLookups(View(w'), View(w));
  }

  lemma SameView(w: Writer, w': Writer)
    requires Owned(w) && w'.Shaped() && w'.db == w.db && w'.channels == w.channels && w'.buffers == w.buffers
    ensures Owned(w') && View(w') == View(w)
  {
    forall k: Key ensures Look(View(w'), k) == Look(View(w), k) {
      LookView(w, k);
      LookView(w', k);
    }
    SameLookups(View(w'), View(w));
  }

  lemma StartView(db0: map<Key, Value>, workers: nat, maxBatchSize: int)
    requires workers > 0
    ensures Owned(NewWriter(db0, workers, maxBatchSize)) && View(NewWriter(db0, workers, maxBatchSize)) == db0
  {
    var w := NewWriter(db0, workers, maxBatchSize);
    forall k: Key ensures Look(View(w), k) == Look(db0, k) {
      LookView(w, k);
    }
    SameLookups(View(w), db0);
  }

  /** A worker that has stopped has persisted exactly a prefix of the writes routed to
      it, namely all but those left in its channel; no other worker touches its keys. */
  lemma StoppedPersistsPrefix(db0: map<Key, Value>, workers: nat, maxBatchSize: int, steps: seq<Step>, i: nat)
    requires workers > 0 && FlushesSucceed(steps) && i < workers
    requires var w := Run(NewWriter(db0, workers, maxBatchSize), steps); i < |w.stopped| && w.stopped[i]
    ensures var w0 := NewWriter(db0, workers, maxBatchSize);
            var w, log := Run(w0, steps), Log(w0, steps);
            |w.channels| == workers &&
            var persisted := Taken(w, log, i);
            && persisted + w.channels[i] == Routed(log, workers, i)
            && forall k: Key :: KeyOwner(workers, k) == i ==> Look(w.db, k) == Look(PutAll(db0, persisted), k)
  {
    var w0 := NewWriter(db0, workers, maxBatchSize);
    var w, log := Run(w0, steps), Log(w0, steps);
    RunInv(db0, workers, maxBatchSize, steps);
    assert WorkerInv(db0, w, log, i);
    assert w.db + w.buffers[i] == w.db;
  }

  /** With nothing queued or buffered, every accepted write is in the database. */
  lemma DrainedIsDurable(db0: map<Key, Value>, workers: nat, maxBatchSize: int, steps: seq<Step>)
    requires workers > 0 && FlushesSucceed(steps)
    requires var w := Run(NewWriter(db0, workers, maxBatchSize), steps);
             forall i :: 0 <= i < |w.channels| ==> w.channels[i] == [] && w.buffers[i] == map[]
    ensures var w0 := NewWriter(db0, workers, maxBatchSize);
            Run(w0, steps).db == PutAll(db0, Log(w0, steps))
  {
    var w0 := NewWriter(db0, workers, maxBatchSize);
    var w, log := Run(w0, steps), Log(w0, steps);
    RunInv(db0, workers, maxBatchSize, steps);
    forall k: Key ensures Look(w.db, k) == Look(PutAll(db0, log), k) {
      var i := KeyOwner(workers, k);
      assert WorkerInv(db0, w, log, i);
      assert w.db + w.buffers[i] == w.db;
      LookRouted(db0, log, workers, k);
      assert Taken(w, log, i) == Routed(log, workers, i);
    }
    SameLookups(w.db, PutAll(db0, log));
  }

  // ---------------------------------------------------------------------------
  // When buffers are flushed

  /** Taking a request flushes the buffer exactly when the request fills it. */
  lemma TakeFlushesExactly(w: Writer, i: nat, ok: bool)
    requires w.Shaped() && Enabled(w, Take(i, ok))
    ensures var r := w.channels[i][0];
            var full := w.buffers[i][r.key := r.value];
            var w' := Next(w, Take(i, ok));
            && w'.channels[i] == w.channels[i][1..]
            && w'.buffers[i] == (if |full| >= w.maxBatchSize then map[] else full)
            && w'.db == (if ok && |full| >= w.maxBatchSize then w.db + full else w.db)
  {
    var r := w.channels[i][0];
    assert r.key in w.buffers[i][r.key := r.value];
  }

  /** A tick empties the buffer of its worker, into the database if the transaction works; a
      stop does the same once, and leaves the channel. */
  lemma TickFlushesExactly(w: Writer, i: nat, ok: bool)
    requires w.Shaped() && Enabled(w, Tick(i, ok))
    ensures var w', db := Next(w, Tick(i, ok)), if ok then w.db + w.buffers[i] else w.db;
            w' == w.(db := db, buffers := w.buffers[i := map[]])
    ensures w.closing ==> Next(w, Stop(i, ok)) == Next(w, Tick(i, ok)).(stopped := w.stopped[i := true])
  {
    if w.buffers[i] == map[] {
      assert w.db + map[] == w.db && w.buffers[i := map[]] == w.buffers;
    }
  }

  /** A write goes to the end of one channel, chosen by the first byte of the key. */
  lemma WriteRoutesExactly(w: Writer, key: Key, value: Value)
    requires w.Shaped() && Enabled(w, Write(key, value))
    ensures var i := key[0] % |w.channels|;
            Next(w, Write(key, value)) == w.(channels := w.channels[i := w.channels[i] + [Request(key, value)]])
  {
  }

  predicate BuffersBelow(w: Writer) {
    forall i :: 0 <= i < |w.buffers| ==> w.buffers[i] == map[] || |w.buffers[i]| < w.maxBatchSize
  }

  /** No buffer ever stays full, whichever flushes fail. */
  lemma {:induction false} BuffersStayBelow(w: Writer, steps: seq<Step>)
    requires w.Shaped() && BuffersBelow(w)
    ensures BuffersBelow(Run(w, steps)) && Run(w, steps).maxBatchSize == w.maxBatchSize
    decreases |steps|
  {
    if steps != [] {
      BuffersStayBelow(w, steps[..|steps| - 1]);
      var w1, last := Run(w, steps[..|steps| - 1]), steps[|steps| - 1];
      if Enabled(w1, last) && last.Take? {
        TakeFlushesExactly(w1, last.worker, last.flushed);
      }
    }
  }
}
