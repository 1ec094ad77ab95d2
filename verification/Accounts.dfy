/** Balances and nonces, with the source's 64-bit arithmetic, and what applying a block
    does to the total supply and to the nonces. */
module Accounts {
  import opened Common
  import opened Encoding
  import opened Types

  const HALF64 := 0x8000_0000_0000_0000

  type Balances = map<Address, uint64>

  /** What an address without an entry has is zero. */
  datatype Accounts = Accounts(balances: Balances, nonces: map<Address, uint64>)
  {
    function Balance(x: Address): uint64 { Get(balances, x, 0) }

    function Nonce(x: Address): uint64 { Get(nonces, x, 0) }

    /** s.balances[x] = uint64(newBalance), cut off at zero. */
    function UpdateBalance(x: Address, amount: int64): Accounts {
      Accounts(Put(balances, x, Adjust(Balance(x), amount)), nonces)
    }

    function IncrementNonce(x: Address): Accounts {
      Accounts(balances, Put(nonces, x, Next(Nonce(x))))
    }
  }

  const EMPTY: Accounts := Accounts(map[], map[])

  function Put(m: map<Address, uint64>, x: Address, v: uint64): map<Address, uint64> { m[x := v] }

  /** n++ in 64 bits. */
  function Next(n: uint64): uint64 { if n == TWO64 - 1 then 0 else n + 1 }

  /** Two's complement: the int64 with the same 64 bits as `x`. */
  function Signed(x: int): int64 { ToInt64(x % TWO64) }

  /** int64(balance) + amount, which wraps, and the clamp. */
  function Adjust(balance: uint64, amount: int64): uint64 {
    var sum := Signed(ToInt64(balance) + amount);
    if sum < 0 then 0 else sum
  }

  /** tx.Amount+tx.Fee, and its negation as an int64. */
  function Cost(tx: Transaction): uint64 { (tx.amount + tx.fee) % TWO64 }

  function Debit(tx: Transaction): int64 {
    var cost: int := ToInt64(Cost(tx));
    Signed(-cost)
  }

  function ApplyTransaction(a: Accounts, tx: Transaction, validator: Address): Accounts {
    a.UpdateBalance(tx.sender, Debit(tx)).IncrementNonce(tx.sender)
     .UpdateBalance(tx.recipient, ToInt64(tx.amount)).UpdateBalance(validator, ToInt64(tx.fee))
  }

  function ApplyAll(a: Accounts, txs: seq<Transaction>, validator: Address): Accounts {
    if txs == [] then a else ApplyTransaction(ApplyAll(a, txs[..|txs| - 1], validator), txs[|txs| - 1], validator)
  }

  /** What a genesis block does: its recipients are credited. */
  function CreditAll(a: Accounts, txs: seq<Transaction>): Accounts {
    if txs == [] then a
    else
      var last := txs[|txs| - 1];
      CreditAll(a, txs[..|txs| - 1]).UpdateBalance(last.recipient, ToInt64(last.amount))
  }

  /** int64(balance)+amount in all cases: it overflows upwards into the clamp, and downwards,
      from a balance read as negative, into a positive sum. */
  lemma AdjustInAllCases(balance: uint64, amount: int64)
    ensures var sum: int := amount + (if balance < 0x8000_0000_0000_0000 then balance else balance - 0x1_0000_0000_0000_0000);
            Adjust(balance, amount) ==
            if sum < -0x8000_0000_0000_0000 then sum + 0x1_0000_0000_0000_0000
            else if sum < 0 || sum >= 0x8000_0000_0000_0000 then 0 else sum
  {
  }

  // ---------------------------------------------------------------------------
  // The total supply

  ghost function Supply(m: Balances): nat {
    if m == map[] then 0 else
      var x :| x in m;
      m[x] + Supply(m - {x})
  }

  lemma {:induction false} SupplyWithout(m: Balances, x: Address)
    requires x in m
    ensures Supply(m) == m[x] + Supply(m - {x})
    decreases |m|
  {
    var y :| y in m && Supply(m) == m[y] + Supply(m - {y});
    if y != x {
      SupplyWithout(m - {y}, x);
      SupplyWithout(m - {x}, y);
      assert m - {y} - {x} == m - {x} - {y};
    }
  }

  lemma SupplyPut(m: Balances, x: Address, v: uint64)
    ensures Supply(Put(m, x, v)) == Supply(m) - Get(m, x, 0) + v
    ensures Get(m, x, 0) <= Supply(m)
  {
    SupplyWithout(Put(m, x, v), x);
    if x in m {
      SupplyWithout(m, x);
      assert Put(m, x, v) - {x} == m - {x};
    } else {
      assert Put(m, x, v) - {x} == m;
    }
  }

  // ---------------------------------------------------------------------------
  // What a block does to it, in all cases

  lemma UpdateSupply(a: Accounts, x: Address, amount: int64)
    ensures Supply(a.UpdateBalance(x, amount).balances) == Supply(a.balances) + Adjust(a.Balance(x), amount) - a.Balance(x)
    ensures a.Balance(x) <= Supply(a.balances)
  {
    SupplyPut(a.balances, x, Adjust(a.Balance(x), amount));
  }

  /** How far the new balance is above what the sender should have left. */
  function DebitDrift(a: Accounts, tx: Transaction): int {
    Adjust(a.Balance(tx.sender), Debit(tx)) - a.Balance(tx.sender) + tx.amount + tx.fee
  }

  /** How far it is above what the receiver should have gained to. */
  function CreditDrift(a: Accounts, x: Address, amount: uint64): int {
    Adjust(a.Balance(x), ToInt64(amount)) - a.Balance(x) - amount
  }

  function Paid(a: Accounts, tx: Transaction): Accounts {
    a.UpdateBalance(tx.sender, Debit(tx)).IncrementNonce(tx.sender)
  }

  function Drift(a: Accounts, tx: Transaction, validator: Address): int {
    var a1 := Paid(a, tx);
    DebitDrift(a, tx) + CreditDrift(a1, tx.recipient, tx.amount) +
    CreditDrift(a1.UpdateBalance(tx.recipient, ToInt64(tx.amount)), validator, tx.fee)
  }

  function Drifts(a: Accounts, txs: seq<Transaction>, validator: Address): int {
    if txs == [] then 0
    else
      var front := txs[..|txs| - 1];
      Drifts(a, front, validator) + Drift(ApplyAll(a, front, validator), txs[|txs| - 1], validator)
  }

  lemma TransactionDrift(a: Accounts, tx: Transaction, validator: Address)
    ensures Supply(ApplyTransaction(a, tx, validator).balances) == Supply(a.balances) + Drift(a, tx, validator)
  {
    var a1 := Paid(a, tx);
    UpdateSupply(a, tx.sender, Debit(tx));
    UpdateSupply(a1, tx.recipient, ToInt64(tx.amount));
    UpdateSupply(a1.UpdateBalance(tx.recipient, ToInt64(tx.amount)), validator, ToInt64(tx.fee));
  }

  /** Whatever wraps or is clamped, a block changes the supply by its drifts. */
  lemma {:induction false} SupplyDrift(a: Accounts, txs: seq<Transaction>, validator: Address)
    ensures Supply(ApplyAll(a, txs, validator).balances) == Supply(a.balances) + Drifts(a, txs, validator)
  {
    if txs != [] {
      var front, last := txs[..|txs| - 1], txs[|txs| - 1];
      SupplyDrift(a, front, validator);
      TransactionDrift(ApplyAll(a, front, validator), last, validator);
    }
  }

  /** A credit is never too high, and full exactly when the balance stays below 2^63. */
  lemma CreditExactly(a: Accounts, x: Address, amount: uint64)
    ensures CreditDrift(a, x, amount) <= 0
    ensures CreditDrift(a, x, amount) == 0 <==> a.Balance(x) + amount < HALF64
  {
  }

  function Amounts(txs: seq<Transaction>): nat {
    if txs == [] then 0 else Amounts(txs[..|txs| - 1]) + txs[|txs| - 1].amount
  }

  predicate AllocatedAt(a: Accounts, txs: seq<Transaction>, i: nat)
    requires i < |txs|
  {
    CreditAll(a, txs[..i]).Balance(txs[i].recipient) + txs[i].amount < HALF64
  }

  lemma AllocatedInFront(a: Accounts, txs: seq<Transaction>, i: nat)
    requires i < |txs| - 1
    ensures AllocatedAt(a, txs, i) == AllocatedAt(a, txs[..|txs| - 1], i)
  {
    assert txs[..|txs| - 1][..i] == txs[..i];
  }

  function CreditDrifts(a: Accounts, txs: seq<Transaction>): int {
    if txs == [] then 0
    else
      var front, last := txs[..|txs| - 1], txs[|txs| - 1];
      CreditDrifts(a, front) + CreditDrift(CreditAll(a, front), last.recipient, last.amount)
  }

  /** A genesis block adds its amounts and their drifts: at most the amounts, and all of them
      exactly when no balance reaches 2^63 on the way. */
  lemma {:induction false} GenesisSupply(a: Accounts, txs: seq<Transaction>)
    ensures Supply(CreditAll(a, txs).balances) == Supply(a.balances) + Amounts(txs) + CreditDrifts(a, txs)
    ensures CreditDrifts(a, txs) <= 0
    ensures CreditDrifts(a, txs) == 0 <==> forall i :: 0 <= i < |txs| ==> AllocatedAt(a, txs, i)
  {
    if txs != [] {
      var front, last := txs[..|txs| - 1], txs[|txs| - 1];
      var before := CreditAll(a, front);
      GenesisSupply(a, front);
      UpdateSupply(before, last.recipient, ToInt64(last.amount));
      CreditExactly(before, last.recipient, last.amount);
      forall i | 0 <= i < |front| ensures AllocatedAt(a, txs, i) == AllocatedAt(a, front, i) {
        AllocatedInFront(a, txs, i);
      }
      assert AllocatedAt(a, txs, |txs| - 1) <==> CreditDrift(before, last.recipient, last.amount) == 0;
    }
  }

  // ---------------------------------------------------------------------------
  // Blocks without overflow

  /** What the clamp at zero lets a sender keep. */
  function Shortfall(a: Accounts, tx: Transaction): nat {
    var due := tx.amount + tx.fee;
    if a.Balance(tx.sender) < due then due - a.Balance(tx.sender) else 0
  }

  function Shortfalls(a: Accounts, txs: seq<Transaction>, validator: Address): nat {
    if txs == [] then 0
    else
      var front := txs[..|txs| - 1];
      Shortfalls(a, front, validator) + Shortfall(ApplyAll(a, front, validator), txs[|txs| - 1])
  }

  function Due(txs: seq<Transaction>): nat {
    if txs == [] then 0 else Due(txs[..|txs| - 1]) + txs[|txs| - 1].amount + txs[|txs| - 1].fee
  }

  /** The transaction leaves everything in the positive int64 range. */
  ghost predicate Fits(a: Accounts, tx: Transaction) {
    tx.amount + tx.fee < HALF64 && Supply(a.balances) + Shortfall(a, tx) < HALF64
  }

  ghost predicate FitsAt(a: Accounts, txs: seq<Transaction>, validator: Address, i: nat)
    requires i < |txs|
  {
    Fits(ApplyAll(a, txs[..i], validator), txs[i])
  }

  /** Each transaction fits at its turn. */
  ghost predicate NoOverflow(a: Accounts, txs: seq<Transaction>, validator: Address) {
    forall i :: 0 <= i < |txs| ==> FitsAt(a, txs, validator, i)
  }

  lemma NoOverflowByLast(a: Accounts, txs: seq<Transaction>, validator: Address)
    requires txs != []
    ensures NoOverflow(a, txs, validator) <==>
            NoOverflow(a, txs[..|txs| - 1], validator) && Fits(ApplyAll(a, txs[..|txs| - 1], validator), txs[|txs| - 1])
  {
    var front := txs[..|txs| - 1];
    forall i | 0 <= i < |front| ensures FitsAt(a, txs, validator, i) == FitsAt(a, front, validator, i) {
      assert front[..i] == txs[..i];
    }
    assert FitsAt(a, txs, validator, |txs| - 1) == Fits(ApplyAll(a, front, validator), txs[|txs| - 1]);
  }

  lemma AdjustByDebit(balance: uint64, tx: Transaction)
    requires balance < HALF64 && tx.amount + tx.fee < HALF64
    ensures Adjust(balance, Debit(tx)) == if balance < tx.amount + tx.fee then 0 else balance - (tx.amount + tx.fee)
  {
    DebitExactly(tx);
    AdjustInAllCases(balance, Debit(tx));
  }

  lemma DebitExactly(tx: Transaction)
    requires tx.amount + tx.fee < HALF64
    ensures Debit(tx) == 0 - tx.amount - tx.fee
  {
  }

  /** Then the drift is the shortfall, and nobody but the sender loses. */
  lemma FittingTransaction(a: Accounts, tx: Transaction, validator: Address)
    requires Fits(a, tx)
    ensures Supply(ApplyTransaction(a, tx, validator).balances) == Supply(a.balances) + Shortfall(a, tx)
    ensures forall x :: x != tx.sender ==> ApplyTransaction(a, tx, validator).Balance(x) >= a.Balance(x)
  {
    var a1 := Paid(a, tx);
    var a2 := a1.UpdateBalance(tx.recipient, ToInt64(tx.amount));
    UpdateSupply(a, tx.sender, Debit(tx));
    AdjustByDebit(a.Balance(tx.sender), tx);
    UpdateSupply(a1, tx.recipient, ToInt64(tx.amount));
    CreditExactly(a1, tx.recipient, tx.amount);
    UpdateSupply(a2, validator, ToInt64(tx.fee));
    CreditExactly(a2, validator, tx.fee);
  }

  /** Applying a block changes the supply by exactly what the clamp cut off. */
  lemma {:induction false} SupplyChange(a: Accounts, txs: seq<Transaction>, validator: Address)
    requires NoOverflow(a, txs, validator)
    ensures Supply(ApplyAll(a, txs, validator).balances) == Supply(a.balances) + Shortfalls(a, txs, validator)
  {
    if txs != [] {
      var front, last := txs[..|txs| - 1], txs[|txs| - 1];
      NoOverflowByLast(a, txs, validator);
      SupplyChange(a, front, validator);
      FittingTransaction(ApplyAll(a, front, validator), last, validator);
    }
  }

  /** Only its own transactions take from an account. */
  lemma {:induction false} OnlySendersPay(a: Accounts, txs: seq<Transaction>, validator: Address, x: Address)
    requires NoOverflow(a, txs, validator) && !IsSender(x, txs)
    ensures ApplyAll(a, txs, validator).Balance(x) >= a.Balance(x)
  {
    if txs != [] {
      var front, last := txs[..|txs| - 1], txs[|txs| - 1];
      NoOverflowByLast(a, txs, validator);
      OnlySendersPay(a, front, validator, x);
      FittingTransaction(ApplyAll(a, front, validator), last, validator);
    }
  }

  /** Dues that fit on top of the supply never overflow. */
  lemma {:induction false} SmallDuesFit(a: Accounts, txs: seq<Transaction>, validator: Address)
    requires Supply(a.balances) + Due(txs) < HALF64
    ensures NoOverflow(a, txs, validator) && Shortfalls(a, txs, validator) <= Due(txs)
  {
    if txs != [] {
      SmallDuesFit(a, txs[..|txs| - 1], validator);
      SupplyChange(a, txs[..|txs| - 1], validator);
      NoOverflowByLast(a, txs, validator);
    }
  }

  // ---------------------------------------------------------------------------
  // Who pays and who is paid

  /** What `x` is due from and to, summed over its roles: they may coincide. */
  function Received(x: Address, txs: seq<Transaction>): nat {
    if txs == [] then 0
    else Received(x, txs[..|txs| - 1]) + if txs[|txs| - 1].recipient == x then txs[|txs| - 1].amount else 0
  }

  function Fees(txs: seq<Transaction>): nat {
    if txs == [] then 0 else Fees(txs[..|txs| - 1]) + txs[|txs| - 1].fee
  }

  function DueFrom(x: Address, txs: seq<Transaction>): nat {
    if txs == [] then 0
    else
      var last := txs[|txs| - 1];
      DueFrom(x, txs[..|txs| - 1]) + if last.sender == x then last.amount + last.fee else 0
  }

  /** What the clamp spared `x`. */
  function Spared(a: Accounts, txs: seq<Transaction>, validator: Address, x: Address): nat {
    if txs == [] then 0
    else
      var front, last := txs[..|txs| - 1], txs[|txs| - 1];
      Spared(a, front, validator, x) + if last.sender == x then Shortfall(ApplyAll(a, front, validator), last) else 0
  }

  lemma CreditedBalance(a: Accounts, y: Address, amount: uint64, x: Address)
    requires a.Balance(y) + amount < HALF64
    ensures a.UpdateBalance(y, ToInt64(amount)).Balance(x) == a.Balance(x) + if x == y then amount else 0
  {
  }

  lemma PaidBalance(a: Accounts, tx: Transaction, x: Address)
    requires Fits(a, tx)
    ensures Paid(a, tx).Balance(x) == a.Balance(x) - if x == tx.sender then tx.amount + tx.fee - Shortfall(a, tx) else 0
    ensures Supply(Paid(a, tx).balances) == Supply(a.balances) - (tx.amount + tx.fee) + Shortfall(a, tx)
  {
    UpdateSupply(a, tx.sender, Debit(tx));
    AdjustByDebit(a.Balance(tx.sender), tx);
  }

  /** A fitting transaction takes what is due from its sender, as far as there is, and gives
      the amount to its recipient and the fee to the validator. */
  lemma TransactionBalance(a: Accounts, tx: Transaction, validator: Address, x: Address)
    requires Fits(a, tx)
    ensures ApplyTransaction(a, tx, validator).Balance(x) ==
            a.Balance(x) - (if x == tx.sender then tx.amount + tx.fee - Shortfall(a, tx) else 0)
            + (if x == tx.recipient then tx.amount else 0) + (if x == validator then tx.fee else 0)
  {
    var a1 := Paid(a, tx);
    PaidBalance(a, tx, x);
    UpdateSupply(a1, tx.recipient, ToInt64(tx.amount));
    CreditExactly(a1, tx.recipient, tx.amount);
    CreditedBalance(a1, tx.recipient, tx.amount, x);
    var a2 := a1.UpdateBalance(tx.recipient, ToInt64(tx.amount));
    UpdateSupply(a2, validator, ToInt64(tx.fee));
    CreditedBalance(a2, validator, tx.fee, x);
  }

  /** A block changes the balance of everybody by what they received and earned, less what
      they owed, as far as the clamp did not spare it. */
  lemma {:induction false} BlockBalance(a: Accounts, txs: seq<Transaction>, validator: Address, x: Address)
    requires NoOverflow(a, txs, validator)
    ensures ApplyAll(a, txs, validator).Balance(x) ==
            a.Balance(x) + Received(x, txs) + (if x == validator then Fees(txs) else 0) - DueFrom(x, txs)
            + Spared(a, txs, validator, x)
  {
    if txs != [] {
      var front, last := txs[..|txs| - 1], txs[|txs| - 1];
      NoOverflowByLast(a, txs, validator);
      BlockBalance(a, front, validator, x);
      TransactionBalance(ApplyAll(a, front, validator), last, validator, x);
    }
  }

  lemma {:induction false} SparedIsShortfall(a: Accounts, txs: seq<Transaction>, validator: Address, x: Address)
    ensures Spared(a, txs, validator, x) <= Shortfalls(a, txs, validator)
  {
    if txs != [] {
      SparedIsShortfall(a, txs[..|txs| - 1], validator, x);
    }
  }

  /** A genesis block gives every recipient its amounts. */
  lemma {:induction false} GenesisBalance(a: Accounts, txs: seq<Transaction>, x: Address)
    requires forall i :: 0 <= i < |txs| ==> AllocatedAt(a, txs, i)
    ensures CreditAll(a, txs).Balance(x) == a.Balance(x) + Received(x, txs)
  {
    if txs != [] {
      var front, last := txs[..|txs| - 1], txs[|txs| - 1];
      forall i | 0 <= i < |front| ensures AllocatedAt(a, front, i) {
        AllocatedInFront(a, txs, i);
      }
      GenesisBalance(a, front, x);
      assert AllocatedAt(a, txs, |txs| - 1);
      CreditedBalance(CreditAll(a, front), last.recipient, last.amount, x);
    }
  }

  // ---------------------------------------------------------------------------
  // Validated blocks

  /** The checks of a non-genesis transaction, all against the accounts before the block. */
  predicate Payable(a: Accounts, tx: Transaction) {
    && tx.sender != ZERO_ADDRESS && tx.amount > 0
    && Cost(tx) <= a.Balance(tx.sender) && tx.nonce == Next(a.Nonce(tx.sender))
  }

  predicate AllPayable(a: Accounts, txs: seq<Transaction>) {
    forall i :: 0 <= i < |txs| ==> Payable(a, txs[i])
  }

  predicate NoRepeats(txs: seq<Transaction>) {
    forall i, j :: 0 <= i < j < |txs| ==> (txs[i].sender, txs[i].nonce) != (txs[j].sender, txs[j].nonce)
  }

  predicate IsSender(x: Address, txs: seq<Transaction>) { exists i :: 0 <= i < |txs| && txs[i].sender == x }

  /** The guard that validation lacks: tx.Amount+tx.Fee does not wrap. */
  predicate CostExact(tx: Transaction) { tx.amount + tx.fee < TWO64 }

  predicate AllCostsExact(txs: seq<Transaction>) { forall i :: 0 <= i < |txs| ==> CostExact(txs[i]) }

  /** A validated transaction is covered exactly when its cost does not wrap. */
  lemma CoveredIfExact(a: Accounts, tx: Transaction)
    requires Payable(a, tx)
    ensures tx.amount + tx.fee <= a.Balance(tx.sender) <==> CostExact(tx)
  {
    if !CostExact(tx) {
      assert a.Balance(tx.sender) < TWO64;
    }
  }

  lemma SenderIsNew(a: Accounts, txs: seq<Transaction>)
    requires txs != [] && NoRepeats(txs) && AllPayable(a, txs)
    ensures !IsSender(txs[|txs| - 1].sender, txs[..|txs| - 1])
  {
    var last := txs[|txs| - 1];
    assert Payable(a, last);
    forall i | 0 <= i < |txs| - 1 ensures txs[i].sender != last.sender {
      assert Payable(a, txs[i]);
    }
  }

  lemma CoveredFits(a: Accounts, tx: Transaction)
    requires Supply(a.balances) < HALF64 && tx.amount + tx.fee <= a.Balance(tx.sender)
    ensures Fits(a, tx) && Shortfall(a, tx) == 0
  {
    UpdateSupply(a, tx.sender, 0);
  }

  /** A validated block without repeated (sender, nonce) pairs and without wrapping costs
      neither overflows nor falls short. */
  lemma {:induction false} ValidatedFits(a: Accounts, txs: seq<Transaction>, validator: Address)
    requires Supply(a.balances) < HALF64 && NoRepeats(txs) && AllPayable(a, txs) && AllCostsExact(txs)
    ensures NoOverflow(a, txs, validator) && Shortfalls(a, txs, validator) == 0
  {
    if txs != [] {
      var front, last := txs[..|txs| - 1], txs[|txs| - 1];
      assert Payable(a, last) && CostExact(last);
      ValidatedFits(a, front, validator);
      SupplyChange(a, front, validator);
      SenderIsNew(a, txs);
      OnlySendersPay(a, front, validator, last.sender);
      CoveredIfExact(a, last);
      CoveredFits(ApplyAll(a, front, validator), last);
      NoOverflowByLast(a, txs, validator);
    }
  }

  lemma {:induction false} WrappedFallsShort(a: Accounts, txs: seq<Transaction>, validator: Address, i: nat)
    requires i < |txs| && !CostExact(txs[i])
    ensures Shortfalls(a, txs, validator) > 0
  {
    if i < |txs| - 1 {
      WrappedFallsShort(a, txs[..|txs| - 1], validator, i);
    }
  }

  /** In a validated block without a repeated (sender, nonce) pair nobody falls short,
      exactly when no cost wraps. */
  lemma NobodyFallsShort(a: Accounts, txs: seq<Transaction>, validator: Address)
    requires Supply(a.balances) < HALF64 && NoRepeats(txs) && AllPayable(a, txs)
    ensures Shortfalls(a, txs, validator) == 0 <==> AllCostsExact(txs)
  {
    if AllCostsExact(txs) {
      ValidatedFits(a, txs, validator);
    } else {
      var i :| 0 <= i < |txs| && !CostExact(txs[i]);
      WrappedFallsShort(a, txs, validator, i);
    }
  }

  /** Without either, a validated block conserves the supply and settles every account in
      full, whoever sender, recipient and validator are; only senders can lose. */
  lemma Conserved(a: Accounts, txs: seq<Transaction>, validator: Address)
    requires Supply(a.balances) < HALF64 && NoRepeats(txs) && AllPayable(a, txs) && AllCostsExact(txs)
    ensures Supply(ApplyAll(a, txs, validator).balances) == Supply(a.balances)
    ensures forall x :: ApplyAll(a, txs, validator).Balance(x) ==
                        a.Balance(x) + Received(x, txs) + (if x == validator then Fees(txs) else 0) - DueFrom(x, txs)
    ensures forall x :: !IsSender(x, txs) ==> ApplyAll(a, txs, validator).Balance(x) >= a.Balance(x)
  {
    ValidatedFits(a, txs, validator);
    SupplyChange(a, txs, validator);
    forall x
      ensures ApplyAll(a, txs, validator).Balance(x) ==
              a.Balance(x) + Received(x, txs) + (if x == validator then Fees(txs) else 0) - DueFrom(x, txs)
    {
      BlockBalance(a, txs, validator, x);
      SparedIsShortfall(a, txs, validator, x);
    }
    forall x | !IsSender(x, txs) ensures ApplyAll(a, txs, validator).Balance(x) >= a.Balance(x) {
      OnlySendersPay(a, txs, validator, x);
    }
  }

  lemma WrappedParts(tx: Transaction)
    requires tx.amount == HALF64 - 1 && tx.fee == HALF64 + 1
    ensures Cost(tx) == 0 && Adjust(0, Debit(tx)) == 0
    ensures Adjust(0, ToInt64(tx.amount)) == HALF64 - 1 && Adjust(0, ToInt64(tx.fee)) == 0
  {
  }

  /** Validation compares a wrapped sum, so a single transaction can mint: sent from empty
      accounts at no cost, it credits its recipient in full. */
  lemma WrappedCostMints(tx: Transaction, validator: Address)
    requires tx.sender != ZERO_ADDRESS && tx.recipient != tx.sender && validator != tx.recipient
    requires tx.amount == HALF64 - 1 && tx.fee == HALF64 + 1 && tx.nonce == 1
    ensures Payable(EMPTY, tx) && NoRepeats([tx])
    ensures Supply(EMPTY.balances) == 0 && Supply(ApplyAll(EMPTY, [tx], validator).balances) == HALF64 - 1
  {
    assert [tx][..0] == [];
    WrappedParts(tx);
    var a1 := Paid(EMPTY, tx);
    var a2 := a1.UpdateBalance(tx.recipient, ToInt64(tx.amount));
    UpdateSupply(EMPTY, tx.sender, Debit(tx));
    UpdateSupply(a1, tx.recipient, ToInt64(tx.amount));
    UpdateSupply(a2, validator, ToInt64(tx.fee));
    assert ApplyAll(EMPTY, [tx], validator) == ApplyTransaction(EMPTY, tx, validator);
  }

  /** Or it takes from the validator, who sends nothing. */
  lemma WrappedCostTakes(tx: Transaction, validator: Address)
    requires tx.sender != ZERO_ADDRESS && tx.recipient != tx.sender && validator != tx.recipient && validator != tx.sender
    requires tx.amount == 10 && tx.fee == TWO64 - 10 && tx.nonce == 1
    ensures var a := Accounts(map[validator := 10], map[]);
            && Payable(a, tx) && NoRepeats([tx]) && !IsSender(validator, [tx])
            && ApplyAll(a, [tx], validator).Balance(validator) == 0
            && ApplyAll(a, [tx], validator).Balance(tx.recipient) == 10
  {
    var a := Accounts(map[validator := 10], map[]);
    assert [tx][..0] == [];
    assert ApplyAll(a, [tx], validator) == ApplyTransaction(a, tx, validator);
  }

  predicate CoveredAt(a: Accounts, txs: seq<Transaction>, validator: Address, i: nat)
    requires i < |txs|
  {
    txs[i].amount + txs[i].fee <= ApplyAll(a, txs[..i], validator).Balance(txs[i].sender)
  }

  lemma CoveredInFront(a: Accounts, txs: seq<Transaction>, validator: Address, i: nat)
    requires i < |txs| - 1
    ensures CoveredAt(a, txs, validator, i) == CoveredAt(a, txs[..|txs| - 1], validator, i)
  {
    assert txs[..|txs| - 1][..i] == txs[..i];
  }

  ghost predicate AllCovered(a: Accounts, txs: seq<Transaction>, validator: Address) {
    forall i :: 0 <= i < |txs| ==> CoveredAt(a, txs, validator, i)
  }

  lemma CoveredByLast(a: Accounts, txs: seq<Transaction>, validator: Address)
    requires txs != []
    ensures AllCovered(a, txs, validator) <==>
            AllCovered(a, txs[..|txs| - 1], validator) && Shortfall(ApplyAll(a, txs[..|txs| - 1], validator), txs[|txs| - 1]) == 0
  {
    var front := txs[..|txs| - 1];
    forall i | 0 <= i < |front| ensures CoveredAt(a, txs, validator, i) == CoveredAt(a, front, validator, i) {
      CoveredInFront(a, txs, validator, i);
    }
    assert CoveredAt(a, txs, validator, |txs| - 1) <==> Shortfall(ApplyAll(a, front, validator), txs[|txs| - 1]) == 0;
  }

  lemma {:induction false} NoShortfallExactly(a: Accounts, txs: seq<Transaction>, validator: Address)
    ensures Shortfalls(a, txs, validator) == 0 <==> AllCovered(a, txs, validator)
  {
    if txs != [] {
      NoShortfallExactly(a, txs[..|txs| - 1], validator);
      CoveredByLast(a, txs, validator);
    }
  }

  /** The supply is conserved exactly when each transaction, at its turn, is covered. */
  lemma ConservedExactly(a: Accounts, txs: seq<Transaction>, validator: Address)
    requires NoOverflow(a, txs, validator)
    ensures Supply(ApplyAll(a, txs, validator).balances) == Supply(a.balances) <==>
            AllCovered(a, txs, validator)
  {
    SupplyChange(a, txs, validator);
    NoShortfallExactly(a, txs, validator);
  }

  /** Nor do exact costs suffice: every transaction is checked against the accounts
      before the block, so one sender can spend the same balance twice in it. */
  lemma RepeatedSenderMints(sender: Address, recipient: Address, tx: Transaction)
    requires sender != ZERO_ADDRESS && recipient != sender && tx.sender == sender && tx.recipient == recipient
    requires tx.amount == 10 && tx.fee == 0 && tx.nonce == 1
    ensures var a := Accounts(map[sender := 10], map[]);
            && Payable(a, tx) && CostExact(tx) && NoOverflow(a, [tx, tx], recipient)
            && Supply(a.balances) == 10 && Supply(ApplyAll(a, [tx, tx], recipient).balances) == 20
  {
    var a := Accounts(map[sender := 10], map[]);
    assert a.balances == Put(map[], sender, 10);
    SupplyPut(map[], sender, 10);
    assert [tx, tx][..1] == [tx] && [tx][..0] == [];
    assert Due([tx]) == 10;
    assert Due([tx, tx]) == Due([tx]) + 10;
    SmallDuesFit(a, [tx, tx], recipient);
    SupplyChange(a, [tx, tx], recipient);
    assert ApplyAll(a, [tx], recipient) == ApplyTransaction(a, tx, recipient);
    SpentAll(a, tx, recipient);
    TwiceFallsShort(a, tx, recipient, ApplyTransaction(a, tx, recipient));
  }

  lemma SpentAll(a: Accounts, tx: Transaction, validator: Address)
    requires a.Balance(tx.sender) == tx.amount == 10 && tx.fee == 0
    requires tx.sender != tx.recipient && tx.sender != validator
    ensures ApplyTransaction(a, tx, validator).Balance(tx.sender) == 0
  {
    AdjustByDebit(a.Balance(tx.sender), tx);
  }

  lemma TwiceFallsShort(a: Accounts, tx: Transaction, validator: Address, after: Accounts)
    requires a.Balance(tx.sender) == tx.amount == 10 && tx.fee == 0
    requires after == ApplyAll(a, [tx], validator) && after.Balance(tx.sender) == 0
    ensures Shortfalls(a, [tx, tx], validator) == 10
  {
    assert [tx, tx][..1] == [tx] && [tx][..0] == [];
    assert Shortfalls(a, [tx], validator) == Shortfall(a, tx) == 0;
  }

  // ---------------------------------------------------------------------------
  // Nonces

  function Sent(x: Address, txs: seq<Transaction>): nat {
    if txs == [] then 0 else Sent(x, txs[..|txs| - 1]) + if txs[|txs| - 1].sender == x then 1 else 0
  }

  /** n++, k times. */
  function Advance(n: uint64, k: nat): uint64 {
    if k == 0 then n else Next(Advance(n, k - 1))
  }

  lemma NextModulo(n: nat, m: uint64)
    requires m == n % TWO64
    ensures Next(m) == (n + 1) % TWO64
  {
    assert n == n / TWO64 * TWO64 + m;
  }

  lemma {:induction false} AdvanceModulo(n: uint64, k: nat)
    ensures Advance(n, k) == (n + k) % TWO64
  {
    if k > 0 {
      AdvanceModulo(n, k - 1);
      NextModulo(n + k - 1, Advance(n, k - 1));
    }
  }

  lemma {:induction false} AdvanceExact(n: uint64, k: nat)
    ensures n + k < TWO64 ==> Advance(n, k) == n + k
  {
    if k > 0 {
      AdvanceExact(n, k - 1);
    }
  }

  lemma {:induction false} AdvanceTwice(n: uint64, j: nat, k: nat)
    ensures Advance(Advance(n, j), k) == Advance(n, j + k)
  {
    if k > 0 {
      AdvanceTwice(n, j, k - 1);
    }
  }

  lemma TransactionNonce(a: Accounts, tx: Transaction, validator: Address, x: Address)
    ensures ApplyTransaction(a, tx, validator).Nonce(x) == if x == tx.sender then Next(a.Nonce(x)) else a.Nonce(x)
  {
  }

  /** A nonce goes up once for each transaction sent. */
  lemma {:induction false} NonceCounts(a: Accounts, txs: seq<Transaction>, validator: Address, x: Address)
    ensures ApplyAll(a, txs, validator).Nonce(x) == Advance(a.Nonce(x), Sent(x, txs))
  {
    if txs != [] {
      var front, last := txs[..|txs| - 1], txs[|txs| - 1];
      NonceCounts(a, front, validator, x);
      TransactionNonce(ApplyAll(a, front, validator), last, validator, x);
    }
  }

  lemma {:induction false} CreditKeepsNonces(a: Accounts, txs: seq<Transaction>)
    ensures CreditAll(a, txs).nonces == a.nonces
  {
    if txs != [] {
      CreditKeepsNonces(a, txs[..|txs| - 1]);
    }
  }

  lemma {:induction false} SentExactly(x: Address, txs: seq<Transaction>)
    ensures Sent(x, txs) > 0 <==> IsSender(x, txs)
  {
    if txs != [] {
      var front, last := txs[..|txs| - 1], txs[|txs| - 1];
      SentExactly(x, front);
      if i :| 0 <= i < |front| && front[i].sender == x {
        assert txs[i].sender == x;
      }
      assert txs[|txs| - 1] == last;
    }
  }
}
