/** The concurrent batch writer of pkg/storage: writers send requests to per-worker
    channels, workers buffer them and flush the buffers to the database. Each critical
    section is one step; steps interleave freely. */
module BatchWriterSpec {
  import opened Common

  type Key = Digest
  type Value = Bytes

  datatype Request = Request(key: Key, value: Value)

  const CHANNEL_CAPACITY := 500000

  /** Database, channel and buffer of each worker, and the workers that returned. */
  datatype Writer = Writer(db: map<Key, Value>, channels: seq<seq<Request>>, buffers: seq<map<Key, Value>>,
                           stopped: seq<bool>, closing: bool, maxBatchSize: int)
  {
    predicate Shaped() {
      |channels| == |buffers| == |stopped| > 0
    }

    function Owner(key: Key): nat
      requires Shaped()
    {
      key[0] % |channels|
    }
  }

  function NewWriter(db: map<Key, Value>, workers: nat, maxBatchSize: int): Writer {
    Writer(db, seq(workers, i => []), seq(workers, i => map[]), seq(workers, i => false), false, maxBatchSize)
  }

  /** One transaction: either all buffered pairs are written or none. The buffer is
      cleared in both cases. */
  function Flush(w: Writer, i: nat, ok: bool): (w': Writer)
    requires w.Shaped() && i < |w.buffers|
    ensures w'.Shaped() && |w'.buffers| == |w.buffers|
  {
    if w.buffers[i] == map[] then w
    else w.(db := if ok then w.db + w.buffers[i] else w.db, buffers := w.buffers[i := map[]])
  }

  datatype Step =
    | Write(key: Key, value: Value)
    | Take(worker: nat, flushed: bool)
    | Tick(worker: nat, flushed: bool)
    | Close
    | Stop(worker: nat, flushed: bool)

  /** A writer blocks on a full channel; a stopped worker takes no more steps. */
  predicate Enabled(w: Writer, step: Step)
    requires w.Shaped()
  {
    match step
    case Write(key, _) => |w.channels[w.Owner(key)]| < CHANNEL_CAPACITY
    case Take(i, _) => i < |w.channels| && !w.stopped[i] && w.channels[i] != []
    case Tick(i, _) => i < |w.channels| && !w.stopped[i]
    case Close => !w.closing
    case Stop(i, _) => i < |w.channels| && !w.stopped[i] && w.closing
  }

  function Enqueue(w: Writer, key: Key, value: Value): Writer
    requires w.Shaped()
  {
    var i := w.Owner(key);
    w.(channels := w.channels[i := w.channels[i] + [Request(key, value)]])
  }

  function Put(m: map<Key, Value>, r: Request): map<Key, Value> { m[r.key := r.value] }

  /** The oldest request moves into the buffer. */
  function Buffer(w: Writer, i: nat): (w': Writer)
    requires w.Shaped() && i < |w.channels| && w.channels[i] != []
    ensures w'.Shaped() && |w'.channels| == |w.channels|
  {
    var r := w.channels[i][0];
    w.(channels := w.channels[i := w.channels[i][1..]], buffers := w.buffers[i := Put(w.buffers[i], r)])
  }

  function Next(w: Writer, step: Step): (w': Writer)
    requires w.Shaped() && Enabled(w, step)
    ensures w'.Shaped()
  {
    match step
    case Write(key, value) => Enqueue(w, key, value)
    case Take(i, ok) =>
      var w1 := Buffer(w, i);
      if |w1.buffers[i]| >= w.maxBatchSize then Flush(w1, i, ok) else w1
    case Tick(i, ok) => Flush(w, i, ok)
    case Close => w.(closing := true)
    case Stop(i, ok) =>
      var w1 := Flush(w, i, ok);
      w1.(stopped := w1.stopped[i := true])
  }

  // ---------------------------------------------------------------------------
  // The sequential map it must agree with

  /** All writes applied in order. */
  function PutAll(m: map<Key, Value>, log: seq<Request>): map<Key, Value>
    decreases |log|
  {
    if log == [] then m else Put(PutAll(m, log[..|log| - 1]), log[|log| - 1])
  }

  /** The database overlaid by the first `n` buffers. */
  function WithBuffers(w: Writer, n: nat): map<Key, Value>
    requires n <= |w.buffers|
  {
    if n == 0 then w.db else WithBuffers(w, n - 1) + w.buffers[n - 1]
  }

  function WithChannels(w: Writer, n: nat): map<Key, Value>
    requires n <= |w.channels|
  {
    if n == 0 then WithBuffers(w, |w.buffers|) else PutAll(WithChannels(w, n - 1), w.channels[n - 1])
  }

  /** What a reader sees who looks through every buffer and then every queue. */
  function View(w: Writer): map<Key, Value> { WithChannels(w, |w.channels|) }
}
