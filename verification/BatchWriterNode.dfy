/** The batch writer object, proved against `BatchWriterSpec`. */
module BatchWriterNode {
  import opened Common
  import Spec = BatchWriterSpec
  import opened BatchWriterSpec

  /** The cursor writes of one transaction: the pairs one by one, in any order. */
  method PutPairs(db: map<Key, Value>, buffer: map<Key, Value>) returns (txn: map<Key, Value>)
    ensures txn == db + buffer
  {
    var todo := buffer.Keys;
    txn := db;
    while todo != {}
      invariant todo <= buffer.Keys
      invariant txn.Keys == db.Keys + (buffer.Keys - todo)
      invariant forall k :: k in txn ==> txn[k] == if k in buffer && k !in todo then buffer[k] else db[k]
      decreases |todo|
    {
      var key :| key in todo;
      txn := txn[key := buffer[key]];
      todo := todo - {key};
    }
  }

  class BatchWriter {
    var db: map<Key, Value>
    var workerChannels: seq<seq<Request>>
    var workerBuffers: seq<map<Key, Value>>
    var stopped: seq<bool>
    var stopChannelClosed: bool
    const maxBatchSize: int
    const workers: nat

    ghost function Abs(): Writer
      reads this
    {
      Writer(db, workerChannels, workerBuffers, stopped, stopChannelClosed, maxBatchSize)
    }

    ghost predicate Valid()
      reads this
    {
      Abs().Shaped() && |workerChannels| == workers
    }

    constructor (db: map<Key, Value>, maxBatchSize: int, workers: nat)
      requires workers > 0
      ensures Valid() && Abs() == NewWriter(db, workers, maxBatchSize)
    {
      this.db := db;
      this.maxBatchSize := maxBatchSize;
      this.workers := workers;
      workerChannels := seq(workers, i => []);
      workerBuffers := seq(workers, i => map[]);
      stopped := seq(workers, i => false);
      stopChannelClosed := false;
    }

    method BufferWrite(key: Key, value: Value)
      requires Valid() && Enabled(Abs(), Write(key, value))
      modifies this`workerChannels
      ensures Valid() && Abs() == Next(old(Abs()), Write(key, value))
    {
      var workerID := key[0] % workers;
      workerChannels := workerChannels[workerID := workerChannels[workerID] + [Request(key, value)]];
    }

    /** `ok` says whether the transaction committed. */
    method Flush(workerID: nat, ok: bool)
      requires Valid() && workerID < workers
      modifies this`db, this`workerBuffers
      ensures Valid() && Abs() == Spec.Flush(old(Abs()), workerID, ok)
    {
      var buffer := workerBuffers[workerID];
      if buffer == map[] {
        return;
      }
      var txn := PutPairs(db, buffer);
      if ok {
        db := txn;
      }
      workerBuffers := workerBuffers[workerID := map[]];
    }

    method Receive(workerID: nat, flushed: bool)
      requires Valid() && Enabled(Abs(), Take(workerID, flushed))
      modifies this
      ensures Valid() && Abs() == Next(old(Abs()), Take(workerID, flushed))
    {
      var req := workerChannels[workerID][0];
      workerChannels := workerChannels[workerID := workerChannels[workerID][1..]];
      workerBuffers := workerBuffers[workerID := Put(workerBuffers[workerID], req)];
      if |workerBuffers[workerID]| >= maxBatchSize {
        Flush(workerID, flushed);
      }
    }

    method OnTicker(workerID: nat, flushed: bool)
      requires Valid() && Enabled(Abs(), Tick(workerID, flushed))
      modifies this
      ensures Valid() && Abs() == Next(old(Abs()), Tick(workerID, flushed))
    {
      Flush(workerID, flushed);
    }

    method OnStop(workerID: nat, flushed: bool)
      requires Valid() && Enabled(Abs(), Stop(workerID, flushed))
      modifies this
      ensures Valid() && Abs() == Next(old(Abs()), Stop(workerID, flushed))
    {
      Flush(workerID, flushed);
      stopped := stopped[workerID := true];
    }

    /** Closing a second time would panic. */
    method FlushAndStop()
      requires Valid() && !stopChannelClosed
      modifies this`stopChannelClosed
      ensures Valid() && Abs() == Next(old(Abs()), Close)
    {
      stopChannelClosed := true;
    }
  }
}
