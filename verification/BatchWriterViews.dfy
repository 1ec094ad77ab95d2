/** What a reader of the batch writer sees after runs in which flushes may fail. */
module BatchWriterViews {
  import opened Common
  import opened BatchWriterSpec
  import opened BatchWriterRuns

  predicate Queued(w: Writer, i: nat, k: Key)
    requires i < |w.channels|
  {
    exists j :: 0 <= j < |w.channels[i]| && w.channels[i][j].key == k
  }

  /** The keys a failed flush of worker `i` loses: buffered with a value that is not
      stored, and not written again by a request that is still queued. */
  function Losses(w: Writer, i: nat): set<Key>
    requires w.Shaped() && i < |w.channels|
  {
    set k | k in w.buffers[i] && !Queued(w, i, k) && !(k in w.db && w.db[k] == w.buffers[i][k])
  }

  /** The keys a step loses. A full buffer is flushed with the request just taken. */
  function LostBy(w: Writer, step: Step): set<Key>
    requires w.Shaped()
  {
    if !Enabled(w, step) then {}
    else
      match step
      case Take(i, ok) =>
        if !ok && |Buffer(w, i).buffers[i]| >= w.maxBatchSize then Losses(Buffer(w, i), i) else {}
      case Tick(i, ok) => if ok then {} else Losses(w, i)
      case Stop(i, ok) => if ok then {} else Losses(w, i)
      case _ => {}
  }

  lemma {:induction false} LookWritten(m1: map<Key, Value>, m2: map<Key, Value>, log: seq<Request>, k: Key)
    requires exists j :: 0 <= j < |log| && log[j].key == k
    ensures Look(PutAll(m1, log), k) == Look(PutAll(m2, log), k)
    decreases |log|
  {
    var last := |log| - 1;
    if log[last].key != k {
      var j :| 0 <= j < |log| && log[j].key == k;
      assert log[..last][j].key == k;
      LookWritten(m1, m2, log[..last], k);
    }
  }

  lemma FailedFlushAtKey(w: Writer, i: nat, k: Key)
    requires Owned(w) && i < |w.channels|
    ensures Owned(Flush(w, i, false))
    ensures Look(View(Flush(w, i, false)), k) == Look(View(w), k) <==> k !in Losses(w, i)
  {
    var w', o := Flush(w, i, false), KeyOwner(|w.channels|, k);
    var m, m' := w.db + w.buffers[o], w'.db + w'.buffers[o];
    LookView(w, k);
    LookView(w', k);
    if Queued(w, o, k) {
      LookWritten(m, m', w.channels[o], k);
    } else {
      LookUnwritten(m, w.channels[o], k);
      LookUnwritten(m', w.channels[o], k);
    }
  }

  /** A flush clears the buffer even when its transaction failed. The view stays what it
      was exactly when nothing is lost. */
  lemma FailedFlushExact(w: Writer, i: nat)
    requires Owned(w) && i < |w.channels|
    ensures View(Flush(w, i, false)) == View(w) <==> Losses(w, i) == {}
  {
    forall k: Key ensures Look(View(Flush(w, i, false)), k) == Look(View(w), k) <==> k !in Losses(w, i) {
      FailedFlushAtKey(w, i, k);
    }
    if Losses(w, i) == {} {
      SameLookups(View(Flush(w, i, false)), View(w));
    }
  }

  lemma FlushAtKey(w: Writer, i: nat, ok: bool, k: Key)
    requires Owned(w) && i < |w.channels|
    ensures Owned(Flush(w, i, ok))
    ensures Look(View(Flush(w, i, ok)), k) == Look(View(w), k) <==> ok || k !in Losses(w, i)
  {
    if ok {
      FlushView(w, i);
    } else {
      FailedFlushAtKey(w, i, k);
    }
  }

  /** What a step does to the view of one key: the step's own write, unless it loses the key. */
  lemma StepAtKey(w: Writer, step: Step, k: Key)
    requires Owned(w) && Enabled(w, step)
    ensures Owned(Next(w, step))
    ensures Look(View(Next(w, step)), k) == Look(PutAll(View(w), Accepted(w, step)), k) <==> k !in LostBy(w, step)
  {
    match step
    case Write(key, value) =>
      EnqueueView(w, key, value);
      PutAllSnoc(View(w), [], Request(key, value));
      assert [] + [Request(key, value)] == [Request(key, value)];
    case Take(i, ok) =>
      BufferView(w, i);
      FlushAtKey(Buffer(w, i), i, ok, k);
    case Tick(i, ok) => FlushAtKey(w, i, ok, k);
    case Close => SameView(w, Next(w, step));
    case Stop(i, ok) =>
      FlushAtKey(w, i, ok, k);
      SameView(Flush(w, i, ok), Next(w, step));
  }

  // ---------------------------------------------------------------------------
  // Which keys are wrong after a run

  /** The keys lost and not written since. */
  function Lost(w: Writer, steps: seq<Step>): set<Key>
    requires w.Shaped()
    decreases |steps|
  {
    if steps == [] then {}
    else
      var before, last := steps[..|steps| - 1], steps[|steps| - 1];
      Lost(w, before) + LostBy(Run(w, before), last) - Keys(Accepted(Run(w, before), last))
  }

  function Keys(log: seq<Request>): set<Key> { set i | 0 <= i < |log| :: log[i].key }

  /** Nothing of the key is on its way to the database. */
  predicate Idle(w: Writer, k: Key)
    requires w.Shaped()
  {
    var i := KeyOwner(|w.channels|, k);
    k !in w.buffers[i] && !Queued(w, i, k)
  }

  lemma FlushIdle(w: Writer, i: nat, ok: bool, k: Key)
    requires Owned(w) && i < |w.channels|
    ensures Idle(w, k) || (!ok && k in Losses(w, i)) ==> Idle(Flush(w, i, ok), k)
    ensures Idle(w, k) ==> k !in Losses(w, i)
  {
    if k in Losses(w, i) {
      assert KeyOwner(|w.channels|, k) == i;
    }
  }

  lemma BufferIdle(w: Writer, i: nat, k: Key)
    requires Owned(w) && i < |w.channels| && w.channels[i] != []
    ensures Idle(w, k) ==> Idle(Buffer(w, i), k)
  {
    var w' := Buffer(w, i);
    if Idle(w, k) && KeyOwner(|w.channels|, k) == i {
      assert w.channels[i][0].key != k;
      assert forall j :: 0 <= j < |w'.channels[i]| ==> w'.channels[i][j] == w.channels[i][j + 1];
    }
  }

  /** A lost key is idle, and stays so until it is written. */
  lemma StepIdle(w: Writer, step: Step, k: Key)
    requires Owned(w) && Enabled(w, step)
    ensures (Idle(w, k) || k in LostBy(w, step)) && k !in Keys(Accepted(w, step)) ==> Idle(Next(w, step), k)
    ensures Idle(w, k) ==> k !in LostBy(w, step)
  {
    match step
    case Write(key, value) =>
      assert Accepted(w, step)[0].key in Keys(Accepted(w, step));
      var w', i := Next(w, step), KeyOwner(|w.channels|, k);
      assert forall j :: 0 <= j < |w'.channels[i]| ==> w'.channels[i][j].key == key || j < |w.channels[i]|;
    case Take(i, ok) =>
      BufferView(w, i);
      BufferIdle(w, i, k);
      FlushIdle(Buffer(w, i), i, ok, k);
    case Tick(i, ok) => FlushIdle(w, i, ok, k);
    case Close =>
    case Stop(i, ok) => FlushIdle(w, i, ok, k);
  }

  lemma LookLogged(m1: map<Key, Value>, m2: map<Key, Value>, log: seq<Request>, k: Key)
    requires |log| <= 1
    ensures k in Keys(log) ==> Look(PutAll(m1, log), k) == Look(PutAll(m2, log), k)
    ensures k !in Keys(log) ==> Look(PutAll(m1, log), k) == Look(m1, k)
  {
    if log != [] {
      assert log[..0] == [] && (k in Keys(log) <==> log[0].key == k);
    }
  }

  /** One step, where the view so far may already be wrong. */
  lemma WrongAfterStep(w: Writer, step: Step, w': Writer, before: map<Key, Value>, after: map<Key, Value>,
                       lost: set<Key>, k: Key)
    requires Owned(w) && w' == (if Enabled(w, step) then Next(w, step) else w)
    requires after == PutAll(before, Accepted(w, step))
    requires (Look(View(w), k) == Look(before, k) <==> k !in lost) && (k in lost ==> Idle(w, k))
    ensures var lost' := lost + LostBy(w, step) - Keys(Accepted(w, step));
            && Owned(w') && (Look(View(w'), k) == Look(after, k) <==> k !in lost') && (k in lost' ==> Idle(w', k))
  {
    if Enabled(w, step) {
      StepAtKey(w, step, k);
      StepIdle(w, step, k);
      LookLogged(View(w), before, Accepted(w, step), k);
      LookLogged(before, View(w), Accepted(w, step), k);
      assert step.Write? ==> LostBy(w, step) == {};
    }
  }

  /** After any run, with flushes that fail anywhere, the reader sees the right value of
      exactly the keys that are not lost. */
  lemma {:induction false} WrongKeysExactly(w: Writer, steps: seq<Step>, k: Key)
    requires Owned(w)
    ensures Owned(Run(w, steps))
    ensures Look(View(Run(w, steps)), k) == Look(PutAll(View(w), Log(w, steps)), k) <==> k !in Lost(w, steps)
    ensures k in Lost(w, steps) ==> Idle(Run(w, steps), k)
    decreases |steps|
  {
    if steps != [] {
      var before, last := steps[..|steps| - 1], steps[|steps| - 1];
      var w1 := Run(w, before);
      WrongKeysExactly(w, before, k);
      PutAllConcat(View(w), Log(w, before), Accepted(w1, last));
      WrongAfterStep(w1, last, Run(w, steps), PutAll(View(w), Log(w, before)), PutAll(View(w), Log(w, steps)),
                     Lost(w, before), k);
    }
  }

  /** The view is the map of all accepted writes. */
  ghost predicate Agrees(w: Writer, steps: seq<Step>)
    requires w.Shaped()
  {
    View(Run(w, steps)) == PutAll(View(w), Log(w, steps))
  }

  /** So the whole view is right exactly when no key is lost. */
  lemma AgreesExactly(w: Writer, steps: seq<Step>)
    requires Owned(w)
    ensures Agrees(w, steps) <==> Lost(w, steps) == {}
  {
    var view, all := View(Run(w, steps)), PutAll(View(w), Log(w, steps));
    forall k: Key ensures Look(view, k) == Look(all, k) <==> k !in Lost(w, steps) {
      WrongKeysExactly(w, steps, k);
    }
    if Lost(w, steps) == {} {
      SameLookups(view, all);
    }
  }

  predicate HarmlessAt(w: Writer, steps: seq<Step>, n: nat)
    requires w.Shaped() && n < |steps|
  {
    LostBy(Run(w, steps[..n]), steps[n]) == {}
  }

  /** The view is right after every step of a run exactly when every failed flush of it
      was harmless at its own step. */
  lemma AlwaysAgreesExactly(w: Writer, steps: seq<Step>)
    requires Owned(w)
    ensures (forall n :: 0 <= n <= |steps| ==> Agrees(w, steps[..n])) <==>
            (forall n :: 0 <= n < |steps| ==> HarmlessAt(w, steps, n))
  {
    forall n | 0 <= n <= |steps| ensures Agrees(w, steps[..n]) <==> IntactAt(w, steps, n) {
      AgreesExactly(w, steps[..n]);
    }
    NothingLost(w, steps);
  }

  predicate IntactAt(w: Writer, steps: seq<Step>, n: nat)
    requires w.Shaped() && n <= |steps|
  {
    Lost(w, steps[..n]) == {}
  }

  lemma LostOneMore(w: Writer, steps: seq<Step>, n: nat)
    requires w.Shaped() && n < |steps| && IntactAt(w, steps, n)
    ensures IntactAt(w, steps, n + 1) <==> HarmlessAt(w, steps, n)
  {
    var w1 := Run(w, steps[..n]);
    assert steps[..n + 1][..n] == steps[..n];
    assert LostBy(w1, steps[n]) == {} || Accepted(w1, steps[n]) == [];
  }

  lemma StartIntact(w: Writer, steps: seq<Step>)
    requires w.Shaped()
    ensures IntactAt(w, steps, 0)
  {
    assert steps[..0] == [];
  }

  lemma NothingLost(w: Writer, steps: seq<Step>)
    requires w.Shaped()
    ensures (forall n :: 0 <= n <= |steps| ==> IntactAt(w, steps, n)) <==>
            (forall n :: 0 <= n < |steps| ==> HarmlessAt(w, steps, n))
  {
    var holds := (n: nat) => n <= |steps| && IntactAt(w, steps, n);
    var step := (n: nat) => n < |steps| && HarmlessAt(w, steps, n);
    StartIntact(w, steps);
    forall n | 0 <= n < |steps| && holds(n) ensures holds(n + 1) <==> step(n) {
      LostOneMore(w, steps, n);
    }
    AlwaysExactly(holds, step, |steps|);
    assert forall n :: 0 <= n <= |steps| ==> holds(n) == IntactAt(w, steps, n);
    assert forall n :: 0 <= n < |steps| ==> step(n) == HarmlessAt(w, steps, n);
  }

  /** In every interleaving of flushes that succeed, the database overlaid by the buffers
      and then by the queued requests is the map from applying all accepted writes in
      order. */
  lemma ViewIsSequential(db0: map<Key, Value>, workers: nat, maxBatchSize: int, steps: seq<Step>)
    requires workers > 0 && FlushesSucceed(steps)
    ensures var w0 := NewWriter(db0, workers, maxBatchSize);
            View(Run(w0, steps)) == PutAll(db0, Log(w0, steps))
  {
    var w0 := NewWriter(db0, workers, maxBatchSize);
    StartView(db0, workers, maxBatchSize);
    forall n | 0 <= n < |steps| ensures HarmlessAt(w0, steps, n) {
      assert Succeeds(steps[n]);
    }
    AlwaysAgreesExactly(w0, steps);
    assert steps[..|steps|] == steps;
  }

  /** One failed flush is enough: a write that was accepted is in no buffer, no channel
      and not in the database. */
  lemma FailureLosesWrite(k: Key, v: Value)
    ensures var w0 := NewWriter(map[], 1, 2);
            var steps := [Write(k, v), Take(0, true), Tick(0, false)];
            && Log(w0, steps) == [Request(k, v)] && View(Run(w0, steps)) == map[]
            && View(Run(w0, steps)) != PutAll(map[], Log(w0, steps))
  {
    var w0, r := NewWriter(map[], 1, 2), Request(k, v);
    var s1, s2, s3 := [Write(k, v)], [Write(k, v), Take(0, true)], [Write(k, v), Take(0, true), Tick(0, false)];
    assert s1[..0] == [] && s2[..1] == s1 && s3[..2] == s2;
    var w1 := Run(w0, s1);
    assert Run(w0, []) == w0 && k[0] % 1 == 0 && w0.channels == [[]] && [] + [r] == [r];
    assert w1 == w0.(channels := [[r]]) && Log(w0, s1) == [r];
    var w2 := Run(w0, s2);
    assert w2 == w0.(buffers := [map[k := v]]) by {
      assert w1.channels[0][1..] == [];
    }
    var w3 := Run(w0, s3);
    assert w3 == w0;
    StartView(map[], 1, 2);
    assert Log(w0, s3) == [r] && [r][..0] == [];
  }
}
