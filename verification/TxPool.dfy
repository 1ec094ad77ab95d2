/** The pool of pending transactions: a map of time stamps that behaves as a bounded
    queue in order of insertion. */
module TxPool {
  import opened Common
  import opened Encoding
  import opened Types
  import Accounts

  const MAX_INT64: int64 := 0x7FFF_FFFF_FFFF_FFFF

  type Pool = map<Digest, Transaction>

  datatype PoolError = Invalid | Exists | EvictionFailed

  function Put(m: Pool, tx: Transaction): Pool { m[tx.id := tx] }

  function Stamped(tx: Transaction, now: int64): Transaction { tx.(timestamp := now) }

  // ---------------------------------------------------------------------------
  // Operations on the map

  /** What the search for the oldest entry may find. It starts below the largest time
      stamp, and from the zero hash. */
  ghost predicate IsOldest(m: Pool, id: Digest) {
    if exists x :: x in m && m[x].timestamp < MAX_INT64 then
      id in m && m[id].timestamp < MAX_INT64 && forall x :: x in m ==> m[id].timestamp <= m[x].timestamp
    else id == ZERO_HASH
  }

  /** The entry found is deleted even when the caller then takes its hash for a failure. */
  ghost predicate AddAfterEviction(m: Pool, tx: Transaction, now: int64, m': Pool, r: Option<PoolError>, evicted: Digest) {
    && IsOldest(m, evicted)
    && if evicted == ZERO_HASH then r == Some(EvictionFailed) && m' == m - {evicted}
       else r == None && m' == Put(m - {evicted}, Stamped(tx, now))
  }

  ghost predicate Adds(valid: Transaction -> bool, maxSize: int, m: Pool, tx: Transaction, now: int64,
                       m': Pool, r: Option<PoolError>)
  {
    if !valid(tx) then r == Some(Invalid) && m' == m
    else if tx.id in m then r == Some(Exists) && m' == m
    else if |m| >= maxSize then exists evicted :: AddAfterEviction(m, tx, now, m', r, evicted)
    else r == None && m' == Put(m, Stamped(tx, now))
  }

  predicate IsExpired(tx: Transaction, now: int64, expiry: int64) {
    Accounts.Signed(now - tx.timestamp) > expiry
  }

  function Swept(m: Pool, now: int64, expiry: int64): Pool {
    map id | id in m && !IsExpired(m[id], now, expiry) :: m[id]
  }

  /** The calls that change the pool, with the time they read. */
  datatype Call = Add(tx: Transaction) | Remove(id: Digest) | Sweep

  datatype Event = Event(call: Call, now: int64)

  /** What does not change during a run. */
  datatype Settings = Settings(valid: Transaction -> bool, maxSize: int, expiry: int64)

  ghost predicate Step(s: Settings, m: Pool, e: Event, m': Pool) {
    match e.call
    case Add(tx) => exists r :: Adds(s.valid, s.maxSize, m, tx, e.now, m', r)
    case Remove(id) => m' == m - {id}
    case Sweep => m' == Swept(m, e.now, s.expiry)
  }

  // ---------------------------------------------------------------------------
  // The queue

  predicate Queued(q: seq<Transaction>, id: Digest) { exists i :: 0 <= i < |q| && q[i].id == id }

  function Enqueue(s: Settings, q: seq<Transaction>, tx: Transaction, now: int64): seq<Transaction> {
    if !s.valid(tx) || Queued(q, tx.id) then q
    else (if |q| >= s.maxSize > 0 then q[1..] else q) + [Stamped(tx, now)]
  }

  function Dequeue(q: seq<Transaction>, id: Digest): seq<Transaction> {
    if q == [] then [] else if q[0].id == id then q[1..] else [q[0]] + Dequeue(q[1..], id)
  }

  /** How many transactions at the head have expired. */
  function Stale(q: seq<Transaction>, now: int64, expiry: int64): (k: nat)
    ensures k <= |q|
  {
    if q == [] || !IsExpired(q[0], now, expiry) then 0 else 1 + Stale(q[1..], now, expiry)
  }

  function QueueStep(s: Settings, q: seq<Transaction>, e: Event): seq<Transaction> {
    match e.call
    case Add(tx) => Enqueue(s, q, tx, e.now)
    case Remove(id) => Dequeue(q, id)
    case Sweep => q[Stale(q, e.now, s.expiry)..]
  }

  function Drain(s: Settings, events: seq<Event>): seq<Transaction> {
    if events == [] then [] else QueueStep(s, Drain(s, events[..|events| - 1]), events[|events| - 1])
  }

  /** In order of insertion, with time stamps up to `latest`. */
  predicate InOrder(q: seq<Transaction>, latest: int64) {
    && (forall i, j :: 0 <= i < j < |q| ==> q[i].timestamp < q[j].timestamp && q[i].id != q[j].id)
    && (forall i :: 0 <= i < |q| ==> 0 <= q[i].timestamp <= latest && q[i].id != ZERO_HASH)
  }

  /** The map holds exactly the queue. */
  predicate Holds(m: Pool, q: seq<Transaction>) {
    && (forall i :: 0 <= i < |q| ==> q[i].id in m && m[q[i].id] == q[i])
    && (forall id :: id in m ==> Queued(q, id))
  }

  function Ids(q: seq<Transaction>): set<Digest> {
    if q == [] then {} else Ids(q[..|q| - 1]) + {q[|q| - 1].id}
  }

  lemma {:induction false} IdsMembers(q: seq<Transaction>, id: Digest)
    ensures id in Ids(q) <==> Queued(q, id)
  {
    if q != [] {
      var front := q[..|q| - 1];
      IdsMembers(front, id);
      assert forall i :: 0 <= i < |front| ==> front[i] == q[i];
      assert q[|q| - 1].id == id ==> Queued(q, id);
      assert Queued(front, id) ==> Queued(q, id);
    }
  }

  lemma {:induction false} IdsCount(q: seq<Transaction>)
    requires forall i, j :: 0 <= i < j < |q| ==> q[i].id != q[j].id
    ensures |Ids(q)| == |q|
  {
    if q != [] {
      IdsCount(q[..|q| - 1]);
      IdsMembers(q[..|q| - 1], q[|q| - 1].id);
    }
  }

  lemma SameSize(m: Pool, q: seq<Transaction>, latest: int64)
    requires Holds(m, q) && InOrder(q, latest)
    ensures |m| == |q|
  {
    IdsCount(q);
    forall id ensures id in m <==> id in Ids(q) {
      IdsMembers(q, id);
    }
    assert m.Keys == Ids(q);
  }

  /** The oldest entry is the head of the queue. */
  lemma OldestIsHead(m: Pool, q: seq<Transaction>, latest: int64, id: Digest)
    requires Holds(m, q) && InOrder(q, latest) && latest < MAX_INT64 && q != [] && IsOldest(m, id)
    ensures id == q[0].id
  {
    assert m[q[0].id].timestamp < MAX_INT64;
    assert Queued(q, id);
  }

  lemma SuffixInOrder(q: seq<Transaction>, latest: int64, k: nat)
    requires InOrder(q, latest) && k <= |q|
    ensures InOrder(q[k..], latest)
  {
  }

  /** Deleting exactly the first `k` leaves the rest of the queue. */
  lemma SuffixHolds(m: Pool, q: seq<Transaction>, m': Pool, k: nat)
    requires Holds(m, q) && k <= |q|
    requires forall i :: 0 <= i < |q| ==> (q[i].id in m' <==> i >= k)
    requires forall id :: id in m' ==> id in m && m'[id] == m[id]
    ensures Holds(m', q[k..])
  {
    var q' := q[k..];
    forall i | 0 <= i < |q'| ensures q'[i].id in m' && m'[q'[i].id] == q'[i] {
      assert q'[i] == q[i + k];
    }
    forall id | id in m' ensures Queued(q', id) {
      assert Queued(q, id);
      var i :| 0 <= i < |q| && q[i].id == id;
      assert q'[i - k].id == id;
    }
  }

  lemma HeadGone(m: Pool, q: seq<Transaction>, latest: int64)
    requires Holds(m, q) && InOrder(q, latest) && q != []
    ensures Holds(m - {q[0].id}, q[1..]) && InOrder(q[1..], latest)
  {
    SuffixInOrder(q, latest, 1);
    SuffixHolds(m, q, m - {q[0].id}, 1);
  }

  lemma AppendedHolds(m: Pool, q: seq<Transaction>, tx: Transaction)
    requires Holds(m, q) && !Queued(q, tx.id)
    ensures Holds(Put(m, tx), q + [tx])
  {
    var q', m' := q + [tx], Put(m, tx);
    forall i | 0 <= i < |q'| ensures q'[i].id in m' && m'[q'[i].id] == q'[i] {
      assert i < |q| ==> q'[i] == q[i];
    }
    forall id | id in m' ensures Queued(q', id) {
      if id == tx.id {
        assert q'[|q|].id == id;
      } else {
        assert Queued(q, id);
        var i :| 0 <= i < |q| && q[i].id == id;
        assert q'[i].id == id;
      }
    }
  }

  lemma AppendedInOrder(q: seq<Transaction>, latest: int64, tx: Transaction)
    requires InOrder(q, latest) && !Queued(q, tx.id) && tx.id != ZERO_HASH && 0 <= tx.timestamp && latest < tx.timestamp
    ensures InOrder(q + [tx], tx.timestamp)
  {
  }

  lemma Appended(m: Pool, q: seq<Transaction>, latest: int64, tx: Transaction, now: int64)
    requires Holds(m, q) && InOrder(q, latest) && !Queued(q, tx.id) && tx.id != ZERO_HASH && 0 <= now && latest < now
    ensures Holds(Put(m, Stamped(tx, now)), q + [Stamped(tx, now)]) && InOrder(q + [Stamped(tx, now)], now)
  {
    AppendedHolds(m, q, Stamped(tx, now));
    AppendedInOrder(q, latest, Stamped(tx, now));
  }

  lemma AddRefines(s: Settings, m: Pool, q: seq<Transaction>, latest: int64, tx: Transaction, now: int64,
                   m': Pool, r: Option<PoolError>)
    requires Holds(m, q) && InOrder(q, latest) && s.maxSize > 0 && tx.id != ZERO_HASH && 0 <= now && latest < now
    requires Adds(s.valid, s.maxSize, m, tx, now, m', r)
    ensures Holds(m', Enqueue(s, q, tx, now)) && InOrder(Enqueue(s, q, tx, now), now)
    ensures r == if !s.valid(tx) then Some(Invalid) else if Queued(q, tx.id) then Some(Exists) else None
  {
    SameSize(m, q, latest);
    if s.valid(tx) && !Queued(q, tx.id) {
      if |m| >= s.maxSize {
        var evicted :| AddAfterEviction(m, tx, now, m', r, evicted);
        OldestIsHead(m, q, latest, evicted);
        HeadGone(m, q, latest);
        forall i | 0 <= i < |q[1..]| ensures q[1..][i].id != tx.id {
          assert q[i + 1].id != tx.id;
        }
        Appended(m - {evicted}, q[1..], latest, tx, now);
      } else {
        Appended(m, q, latest, tx, now);
      }
    }
  }

  lemma HeadOnly(q: seq<Transaction>, latest: int64)
    requires InOrder(q, latest) && q != []
    ensures forall x :: x in q[1..] <==> x in q && x.id != q[0].id
    ensures InOrder(q[1..], latest)
  {
    SuffixInOrder(q, latest, 1);
    forall x ensures x in q[1..] <==> x in q && x.id != q[0].id {
      assert q == [q[0]] + q[1..];
      if x in q[1..] {
        var i :| 0 <= i < |q[1..]| && q[1..][i] == x;
        assert q[i + 1].id != q[0].id;
      }
    }
  }

  lemma {:induction false} DequeueExactly(q: seq<Transaction>, id: Digest, latest: int64)
    requires InOrder(q, latest)
    ensures forall x :: x in Dequeue(q, id) <==> x in q && x.id != id
    ensures InOrder(Dequeue(q, id), latest) && |Dequeue(q, id)| <= |q|
  {
    if q != [] {
      var rest := q[1..];
      assert q == [q[0]] + rest;
      DequeueExactly(rest, id, latest);
      if q[0].id == id {
        HeadOnly(q, latest);
      } else {
        PrependInOrder(q[0], rest, Dequeue(rest, id), latest);
      }
    }
  }

  lemma PrependInOrder(head: Transaction, rest: seq<Transaction>, part: seq<Transaction>, latest: int64)
    requires InOrder([head] + rest, latest) && InOrder(part, latest) && forall x :: x in part ==> x in rest
    ensures InOrder([head] + part, latest)
  {
    forall j | 0 <= j < |part| ensures head.timestamp < part[j].timestamp && head.id != part[j].id {
      assert part[j] in rest;
      var k :| 0 <= k < |rest| && rest[k] == part[j];
      assert ([head] + rest)[0] == head && ([head] + rest)[k + 1] == part[j];
    }
    var all := [head] + part;
    assert ([head] + rest)[0] == head;
    forall i, j | 0 <= i < j < |all| ensures all[i].timestamp < all[j].timestamp && all[i].id != all[j].id {
      if i > 0 {
        assert all[i] == part[i - 1] && all[j] == part[j - 1];
      }
    }
  }

  lemma RemoveRefines(m: Pool, q: seq<Transaction>, latest: int64, id: Digest)
    requires Holds(m, q) && InOrder(q, latest)
    ensures Holds(m - {id}, Dequeue(q, id)) && InOrder(Dequeue(q, id), latest)
  {
    DequeueExactly(q, id, latest);
    var q' := Dequeue(q, id);
    forall i | 0 <= i < |q'| ensures q'[i].id in m - {id} && (m - {id})[q'[i].id] == q'[i] {
      assert q'[i] in q';
    }
    forall x | x in m - {id} ensures Queued(q', x) {
      var i :| 0 <= i < |q| && q[i].id == x;
      assert q[i] in q';
    }
  }

  /** Time stamps grow along the queue, so what has expired is a prefix of it. */
  lemma {:induction false} ExpiredExactly(q: seq<Transaction>, now: int64, expiry: int64, latest: int64)
    requires InOrder(q, latest) && latest <= now
    ensures forall i :: 0 <= i < |q| ==> (IsExpired(q[i], now, expiry) <==> i < Stale(q, now, expiry))
  {
    if q != [] {
      ExpiredExactly(q[1..], now, expiry, latest);
      forall i | 0 <= i < |q| ensures IsExpired(q[i], now, expiry) <==> i < Stale(q, now, expiry) {
        if i > 0 {
          assert q[i] == q[1..][i - 1] && q[0].timestamp < q[i].timestamp;
          LaterIsFresher(q[0], q[i], now, expiry);
        }
      }
    }
  }

  lemma LaterIsFresher(a: Transaction, b: Transaction, now: int64, expiry: int64)
    requires 0 <= a.timestamp < b.timestamp <= now
    ensures IsExpired(b, now, expiry) ==> IsExpired(a, now, expiry)
  {
  }

  lemma SweepRefines(m: Pool, q: seq<Transaction>, latest: int64, now: int64, expiry: int64)
    requires Holds(m, q) && InOrder(q, latest) && latest <= now
    ensures Holds(Swept(m, now, expiry), q[Stale(q, now, expiry)..]) && InOrder(q[Stale(q, now, expiry)..], latest)
  {
    var k := Stale(q, now, expiry);
    ExpiredExactly(q, now, expiry, latest);
    SuffixInOrder(q, latest, k);
    SuffixHolds(m, q, Swept(m, now, expiry), k);
  }

  /** The clock is read in order, and nobody submits the zero hash. */
  predicate Ticking(events: seq<Event>) {
    && (forall i :: 0 <= i < |events| ==> 0 <= events[i].now && Submits(events[i]))
    && (forall i, j :: 0 <= i < j < |events| ==> events[i].now < events[j].now)
  }

  predicate Submits(e: Event) { e.call.Add? ==> e.call.tx.id != ZERO_HASH }

  lemma Weaken(q: seq<Transaction>, latest: int64, now: int64)
    requires InOrder(q, latest) && latest <= now
    ensures InOrder(q, now)
  {
  }

  lemma StepRefines(s: Settings, m: Pool, q: seq<Transaction>, latest: int64, e: Event, m': Pool)
    requires Holds(m, q) && InOrder(q, latest) && s.maxSize > 0 && Step(s, m, e, m')
    requires 0 <= e.now && latest < e.now && Submits(e)
    ensures Holds(m', QueueStep(s, q, e)) && InOrder(QueueStep(s, q, e), e.now)
  {
    match e.call
    case Add(tx) =>
      var r :| Adds(s.valid, s.maxSize, m, tx, e.now, m', r);
      AddRefines(s, m, q, latest, tx, e.now, m', r);
    case Remove(id) =>
      RemoveRefines(m, q, latest, id);
      Weaken(Dequeue(q, id), latest, e.now);
    case Sweep =>
      SweepRefines(m, q, latest, e.now, s.expiry);
      Weaken(q[Stale(q, e.now, s.expiry)..], latest, e.now);
  }

  /** The states of a pool, one after another, from empty. */
  ghost predicate IsRun(s: Settings, events: seq<Event>, states: seq<Pool>) {
    && |states| == |events| + 1 && states[0] == map[]
    && forall i :: 0 <= i < |events| ==> Step(s, states[i], events[i], states[i + 1])
  }

  /** Whatever order the map is searched in, the pool is the queue: it holds the same
      transactions after every run. */
  lemma {:induction false} RunRefines(s: Settings, events: seq<Event>, states: seq<Pool>)
    requires IsRun(s, events, states) && Ticking(events) && s.maxSize > 0
    ensures Holds(states[|events|], Drain(s, events))
    ensures InOrder(Drain(s, events), if events == [] then -1 else events[|events| - 1].now)
    decreases |events|
  {
    if events != [] {
      var n := |events| - 1;
      var front := events[..n];
      RunRefines(s, front, states[..n + 1]);
      StepRefines(s, states[n], Drain(s, front), if front == [] then -1 else front[n - 1].now, events[n], states[n + 1]);
    }
  }

  lemma {:induction false} DequeueShrinks(q: seq<Transaction>, id: Digest)
    ensures |Dequeue(q, id)| <= |q|
  {
    if q != [] && q[0].id != id {
      DequeueShrinks(q[1..], id);
    }
  }

  /** The pool never exceeds its maximum. */
  lemma {:induction false} Bounded(s: Settings, events: seq<Event>)
    requires s.maxSize > 0
    ensures |Drain(s, events)| <= s.maxSize
  {
    if events != [] {
      var front := events[..|events| - 1];
      Bounded(s, front);
      match events[|events| - 1].call
      case Add(_) =>
      case Remove(id) => DequeueShrinks(Drain(s, front), id);
      case Sweep =>
    }
  }

  lemma RunSize(s: Settings, events: seq<Event>, states: seq<Pool>)
    requires IsRun(s, events, states) && Ticking(events) && s.maxSize > 0
    ensures |states[|events|]| == |Drain(s, events)| <= s.maxSize
  {
    RunRefines(s, events, states);
    SameSize(states[|events|], Drain(s, events), if events == [] then -1 else events[|events| - 1].now);
    Bounded(s, events);
  }

  predicate Within(s: Settings, m: Pool) { |m| <= if s.maxSize > 0 then s.maxSize else 0 }

  lemma PutSize(m: Pool, tx: Transaction)
    ensures |Put(m, tx)| <= |m| + 1
  {
    assert Put(m, tx).Keys == m.Keys + {tx.id};
  }

  lemma WithoutSize(m: Pool, id: Digest)
    ensures |m - {id}| == if id in m then |m| - 1 else |m|
  {
    assert (m - {id}).Keys == m.Keys - {id};
  }

  lemma SweptSize(m: Pool, now: int64, expiry: int64)
    ensures |Swept(m, now, expiry)| <= |m|
  {
    SubsetSize(Swept(m, now, expiry).Keys, m.Keys);
  }

  lemma StepWithin(s: Settings, m: Pool, e: Event, m': Pool)
    requires Within(s, m) && Step(s, m, e, m')
    ensures Within(s, m')
  {
    match e.call
    case Add(tx) =>
      var r :| Adds(s.valid, s.maxSize, m, tx, e.now, m', r);
      if s.valid(tx) && tx.id !in m {
        if |m| >= s.maxSize {
          var evicted :| AddAfterEviction(m, tx, e.now, m', r, evicted);
          WithoutSize(m, evicted);
          PutSize(m - {evicted}, Stamped(tx, e.now));
        } else {
          PutSize(m, Stamped(tx, e.now));
        }
      }
    case Remove(id) => WithoutSize(m, id);
    case Sweep => SweptSize(m, e.now, s.expiry);
  }

  /** Whatever the clock shows and whatever is submitted, the pool never exceeds its
      maximum. */
  lemma {:induction false} RunBounded(s: Settings, events: seq<Event>, states: seq<Pool>)
    requires IsRun(s, events, states)
    ensures Within(s, states[|events|])
    decreases |events|
  {
    if events != [] {
      var n := |events| - 1;
      RunBounded(s, events[..n], states[..n + 1]);
      StepWithin(s, states[n], events[n], states[n + 1]);
    }
  }

  // ---------------------------------------------------------------------------
  // What the entries are

  /** Which transactions are refused. */
  lemma RefusesExactly(s: Settings, m: Pool, tx: Transaction, now: int64, m': Pool, r: Option<PoolError>)
    requires Adds(s.valid, s.maxSize, m, tx, now, m', r)
    ensures r == Some(Invalid) <==> !s.valid(tx)
    ensures r == Some(Exists) <==> s.valid(tx) && tx.id in m
    ensures s.valid(tx) && tx.id !in m && |m| < s.maxSize ==> r.None?
  {
  }

  /** An accepted transaction goes in with nothing changed but its time stamp. All others
      stay while there is room; in a full pool exactly one of the oldest makes room. */
  lemma AddsExactly(s: Settings, m: Pool, tx: Transaction, now: int64, m': Pool)
    requires Adds(s.valid, s.maxSize, m, tx, now, m', None)
    ensures tx.id in m' && m'[tx.id] == tx.(timestamp := now)
    ensures if |m| < s.maxSize then m'.Keys == m.Keys + {tx.id} && forall id :: id in m ==> m'[id] == m[id]
            else exists e :: ReplacesOldest(m, m', tx.id, e)
  {
    if |m| >= s.maxSize {
      var evicted :| AddAfterEviction(m, tx, now, m', None, evicted);
      assert ReplacesOldest(m, m', tx.id, evicted);
    }
  }

  predicate ReplacesOldest(m: Pool, m': Pool, id: Digest, e: Digest) {
    && e in m && (forall x :: x in m ==> m[e].timestamp <= m[x].timestamp)
    && m'.Keys == m.Keys - {e} + {id} && forall x :: x in m && x != e && x != id ==> m'[x] == m[x]
  }

  /** An entry expires when it is older than the limit. */
  lemma ExpiredByAge(tx: Transaction, now: int64, expiry: int64)
    requires 0 <= tx.timestamp <= now
    ensures IsExpired(tx, now, expiry) <==> now - tx.timestamp > expiry
  {
  }

  /** The entry is a submitted transaction, stamped when it was submitted. */
  ghost predicate WasSubmitted(events: seq<Event>, id: Digest, entry: Transaction) {
    exists i :: 0 <= i < |events| && SubmittedAt(events[i], id, entry)
  }

  predicate SubmittedAt(e: Event, id: Digest, entry: Transaction) {
    e.call.Add? && e.call.tx.id == id && entry == e.call.tx.(timestamp := e.now)
  }

  lemma StepEntries(s: Settings, m: Pool, e: Event, m': Pool, id: Digest)
    requires Step(s, m, e, m') && id in m'
    ensures (id in m && m'[id] == m[id]) || SubmittedAt(e, id, m'[id])
  {
    if e.call.Add? {
      var r :| Adds(s.valid, s.maxSize, m, e.call.tx, e.now, m', r);
      if s.valid(e.call.tx) && e.call.tx.id !in m && |m| >= s.maxSize {
        var evicted :| AddAfterEviction(m, e.call.tx, e.now, m', r, evicted);
      }
    }
  }

  /** In every run, whatever the clock shows, each entry is what was submitted under its ID,
      in every field but the time stamp. */
  lemma {:induction false} EntriesWereSubmitted(s: Settings, events: seq<Event>, states: seq<Pool>, id: Digest)
    requires IsRun(s, events, states) && id in states[|events|]
    ensures WasSubmitted(events, id, states[|events|][id])
    decreases |events|
  {
    assert events != [];
    var n := |events| - 1;
    StepEntries(s, states[n], events[n], states[n + 1], id);
    if id in states[n] && states[n + 1][id] == states[n][id] {
      EntriesWereSubmitted(s, events[..n], states[..n + 1], id);
      var i :| 0 <= i < n && SubmittedAt(events[..n][i], id, states[n][id]);
      assert events[i] == events[..n][i];
    }
  }

  // ---------------------------------------------------------------------------
  // Selections by nonce

  predicate SortedByNonce(txs: seq<Transaction>) {
    forall i, j :: 0 <= i < j < |txs| ==> txs[i].nonce <= txs[j].nonce
  }

  /** Up to `max` transactions of the pool, each once, lowest nonces first. */
  ghost predicate Selects(m: Pool, max: nat, txs: seq<Transaction>) {
    && |txs| == (if max < |m| then max else |m|)
    && SortedByNonce(txs)
    && (forall i :: 0 <= i < |txs| ==> txs[i] in m.Values)
    && (forall i, j :: 0 <= i < j < |txs| ==> txs[i].id != txs[j].id)
    && (forall id, i :: id in m && m[id] !in txs && 0 <= i < |txs| ==> txs[i].nonce <= m[id].nonce)
  }

  /** Everything in the map is stored under its own ID. */
  predicate Keyed(m: Pool) { forall id :: id in m ==> m[id].id == id }

  /** All of the pool, each transaction once. */
  predicate Lists(m: Pool, txs: seq<Transaction>) {
    && |txs| == |m| && (forall i :: 0 <= i < |txs| ==> txs[i].id in m && m[txs[i].id] == txs[i])
    && (forall i, j :: 0 <= i < j < |txs| ==> txs[i].id != txs[j].id)
  }

  lemma ListsAll(m: Pool, txs: seq<Transaction>, id: Digest)
    requires Keyed(m) && Lists(m, txs) && id in m
    ensures m[id] in txs
  {
    IdsCount(txs);
    forall x | x in Ids(txs) ensures x in m {
      IdsMembers(txs, x);
    }
    Contained(Ids(txs), m.Keys);
    IdsMembers(txs, id);
    var i :| 0 <= i < |txs| && txs[i].id == id;
  }

  lemma Contained(a: set<Digest>, b: set<Digest>)
    requires a <= b && |a| == |b|
    ensures a == b
  {
    if x :| x in b && x !in a {
      SubsetSize(a, b - {x});
    }
  }

  lemma PrefixSelects(m: Pool, all: seq<Transaction>, max: nat)
    requires Keyed(m) && Lists(m, all) && SortedByNonce(all) && max <= |all|
    ensures Selects(m, max, all[..max])
  {
    var txs := all[..max];
    assert forall k :: 0 <= k < max ==> all[k] == txs[k];
    forall id, i | id in m && m[id] !in txs && 0 <= i < |txs| ensures txs[i].nonce <= m[id].nonce {
      ListsAll(m, all, id);
      var j :| 0 <= j < |all| && all[j] == m[id];
    }
  }

  // ---------------------------------------------------------------------------
  // The pool

  class TxPool {
    var transactions: Pool
    var maxSize: int
    var txExpiry: int64
    const validateTransaction: Transaction -> bool

    ghost predicate Valid()
      reads this
    {
      Keyed(transactions)
    }

    constructor (maxSize: int, txExpiry: int64, validateTransaction: Transaction -> bool)
      ensures Valid() && transactions == map[]
      ensures this.maxSize == maxSize && this.txExpiry == txExpiry && this.validateTransaction == validateTransaction
    {
      transactions, this.maxSize, this.txExpiry := map[], maxSize, txExpiry;
      this.validateTransaction := validateTransaction;
    }

    method AddTransaction(tx: Transaction, now: int64) returns (r: Option<PoolError>)
      requires Valid()
      modifies this`transactions
      ensures Valid() && Adds(validateTransaction, maxSize, old(transactions), tx, now, transactions, r)
    {
      if !validateTransaction(tx) {
        return Some(Invalid);
      }
      if tx.id in transactions {
        return Some(Exists);
      }
      if |transactions| >= maxSize {
        var evicted := EvictTransaction();
        if evicted == ZERO_HASH {
          r := Some(EvictionFailed);
          assert AddAfterEviction(old(transactions), tx, now, transactions, r, evicted);
          return;
        }
        transactions := Put(transactions, Stamped(tx, now));
        assert AddAfterEviction(old(transactions), tx, now, transactions, None, evicted);
        return None;
      }
      transactions := Put(transactions, Stamped(tx, now));
      r := None;
    }

    /** Deletes the entry with the smallest time stamp. */
    method EvictTransaction() returns (oldest: Digest)
      modifies this`transactions
      ensures IsOldest(old(transactions), oldest) && transactions == old(transactions) - {oldest}
    {
      oldest := ZERO_HASH;
      var oldestTimestamp := MAX_INT64;
      var rest := transactions.Keys;
      while rest != {}
        invariant rest <= transactions.Keys
        invariant if oldestTimestamp == MAX_INT64 then oldest == ZERO_HASH
                  else oldest in transactions && transactions[oldest].timestamp == oldestTimestamp
        invariant forall x :: x in transactions && x !in rest ==> oldestTimestamp <= transactions[x].timestamp
        decreases rest
      {
        var id :| id in rest;
        if transactions[id].timestamp < oldestTimestamp {
          oldestTimestamp := transactions[id].timestamp;
          oldest := id;
        }
        rest := rest - {id};
      }
      transactions := transactions - {oldest};
    }

    /** The lowest nonces of the pool, sorted in place and cut off. */
    method GetTransactions(max: nat) returns (txs: seq<Transaction>)
      requires Valid()
      ensures Selects(transactions, max, txs)
    {
      var all := CollectTransactions();
      var sorted := new Transaction[|all|](i requires 0 <= i < |all| => all[i]);
      assert sorted[..] == all;
      SortByNonceAsc(sorted);
      StillLists(transactions, all, sorted[..]);
      var n := if max > sorted.Length then sorted.Length else max;
      txs := sorted[..n];
      assert sorted[..][..n] == txs;
      PrefixSelects(transactions, sorted[..], n);
    }

    method CollectTransactions() returns (txs: seq<Transaction>)
      requires Valid()
      ensures Lists(transactions, txs)
    {
      txs := [];
      var rest := transactions.Keys;
      while rest != {}
        invariant rest <= transactions.Keys && |txs| + |rest| == |transactions.Keys|
        invariant forall i :: 0 <= i < |txs| ==> txs[i].id in transactions && txs[i].id !in rest && transactions[txs[i].id] == txs[i]
        invariant forall i, j :: 0 <= i < j < |txs| ==> txs[i].id != txs[j].id
        decreases rest
      {
        var id :| id in rest;
        txs := txs + [transactions[id]];
        rest := rest - {id};
      }
    }

    method RemoveTransaction(id: Digest)
      requires Valid()
      modifies this`transactions
      ensures Valid() && transactions == old(transactions) - {id}
    {
      transactions := transactions - {id};
    }

    /** One turn of the cleanup loop: deletes the expired entries while it walks them. */
    method CleanupExpiredTransactions(now: int64)
      requires Valid()
      modifies this`transactions
      ensures Valid() && transactions == Swept(old(transactions), now, txExpiry)
    {
      var rest := transactions.Keys;
      ghost var before := transactions;
      while rest != {}
        invariant rest <= before.Keys
        invariant transactions.Keys == set id | id in before && (id in rest || !IsExpired(before[id], now, txExpiry))
        invariant forall id :: id in transactions ==> transactions[id] == before[id]
        decreases rest
      {
        var id :| id in rest;
        if id in transactions && IsExpired(transactions[id], now, txExpiry) {
          transactions := transactions - {id};
        }
        rest := rest - {id};
      }
    }
  }

  lemma StillLists(m: Pool, all: seq<Transaction>, sorted: seq<Transaction>)
    requires Lists(m, all) && multiset(sorted) == multiset(all)
    ensures Lists(m, sorted)
  {
    assert |sorted| == |multiset(sorted)| == |all|;
    forall i | 0 <= i < |sorted| ensures sorted[i].id in m && m[sorted[i].id] == sorted[i] {
      assert sorted[i] in multiset(sorted);
      assert sorted[i] in all;
    }
    forall i, j | 0 <= i < j < |sorted| ensures sorted[i].id != sorted[j].id {
      if sorted[i].id == sorted[j].id {
        Twice(sorted, i, j);
        Once(all, sorted[i]);
      }
    }
  }

  lemma Twice<T>(xs: seq<T>, i: nat, j: nat)
    requires i < j < |xs| && xs[i] == xs[j]
    ensures multiset(xs)[xs[i]] >= 2
  {
    var rest := xs[i + 1..];
    assert xs == xs[..i] + [xs[i]] + rest;
    assert rest[j - i - 1] == xs[i];
    assert xs[i] in multiset(rest);
  }

  lemma {:induction false} Once(all: seq<Transaction>, x: Transaction)
    requires forall i, j :: 0 <= i < j < |all| ==> all[i].id != all[j].id
    ensures multiset(all)[x] <= 1
  {
    if all != [] {
      var front, last := all[..|all| - 1], all[|all| - 1];
      Once(front, x);
      assert all == front + [last];
      assert forall i :: 0 <= i < |front| ==> front[i] == all[i] && all[i].id != last.id;
      assert last !in front;
    }
  }

  method SwapDown(a: array<Transaction>, i: nat)
    requires 0 < i < a.Length
    modifies a
    ensures a[..] == old(a[..])[i - 1 := old(a[i])][i := old(a[i - 1])]
    ensures multiset(a[..]) == multiset(old(a[..]))
  {
    a[i - 1], a[i] := a[i], a[i - 1];
  }

  /** Sorts by nonce in place: each element moves down to its position. */
  method SortByNonceAsc(a: array<Transaction>)
    modifies a
    ensures SortedByNonce(a[..]) && multiset(a[..]) == multiset(old(a[..]))
  {
    for n := 0 to a.Length
      invariant SortedByNonce(a[..n]) && multiset(a[..]) == multiset(old(a[..]))
    {
      var i := n;
      while i > 0 && a[i - 1].nonce > a[i].nonce
        invariant 0 <= i <= n && multiset(a[..]) == multiset(old(a[..]))
        invariant forall j, k :: 0 <= j < k <= n && k != i ==> a[j].nonce <= a[k].nonce
      {
        ghost var before := a[..];
        SwapDown(a, i);
        assert forall j :: 0 <= j < a.Length ==> a[j] == before[i - 1 := before[i]][i := before[i - 1]][j];
        i := i - 1;
      }
    }
    assert a[..a.Length] == a[..];
  }
}
