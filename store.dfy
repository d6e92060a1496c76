/** An in-memory stand-in for the document store: the three collections and the settings
    document, the write operations a batch may hold, and all-or-nothing batch commit.
    Each collection is a sequence in the store's own order. A record's `id` stands for its
    document id; a stored field named `id`, which the snapshot mapping would let override
    the document id, is not modelled. */
module Store {
  import opened Types

  /** The settings document; `value` is the market list when the field is present. */
  datatype SettingsDoc = SettingsDoc(value: Option<seq<string>>)

  datatype Db = Db(
    customers: seq<Customer>,
    batteries: seq<Battery>,
    transactions: seq<Transaction>,
    settings: Option<SettingsDoc>)

  /** One write of a batch. */
  datatype WriteOp =
      /** `set` on a newly allocated transaction document. */
    | CreateTransaction(record: Transaction)
      /** `update` of a battery document's status field. */
    | UpdateBatteryStatus(batteryId: string, status: BatteryStatus)
      /** `update` of a transaction document's status and return time. */
    | MarkTransactionReturned(transactionId: string, at: Timestamp)

  predicate HasBattery(bs: seq<Battery>, id: string)
  {
    exists i :: 0 <= i < |bs| && bs[i].id == id
  }

  predicate HasTransaction(txs: seq<Transaction>, id: string)
  {
    exists i :: 0 <= i < |txs| && txs[i].id == id
  }

  /** The documents whose id is `id` get status `st`; no other field or document changes. */
  function SetBatteryStatus(bs: seq<Battery>, id: string, st: BatteryStatus): (r: seq<Battery>)
    ensures |r| == |bs|
    ensures forall i :: 0 <= i < |bs| ==> r[i] == if bs[i].id == id then bs[i].(status := st) else bs[i]
  {
    seq(|bs|, i requires 0 <= i < |bs| => if bs[i].id == id then bs[i].(status := st) else bs[i])
  }

  /** The documents whose id is `id` become Returned at `at`; nothing else changes. */
  function MarkReturned(txs: seq<Transaction>, id: string, at: Timestamp): (r: seq<Transaction>)
    ensures |r| == |txs|
    ensures forall i :: 0 <= i < |txs| ==>
      r[i] == if txs[i].id == id then txs[i].(status := TransactionStatus.Returned, dateReturned := Some(at)) else txs[i]
  {
    seq(|txs|, i requires 0 <= i < |txs| =>
      if txs[i].id == id then txs[i].(status := TransactionStatus.Returned, dateReturned := Some(at)) else txs[i])
  }

  /** `set` overwrites a document that already has the id and otherwise adds one. */
  function PutTransaction(txs: seq<Transaction>, t: Transaction): seq<Transaction>
  {
    if HasTransaction(txs, t.id) then
      seq(|txs|, i requires 0 <= i < |txs| => if txs[i].id == t.id then t else txs[i])
    else txs + [t]
  }

  /** One write applied to the store; an `update` of a missing document fails. */
  function ApplyOp(db: Db, op: WriteOp): (r: Option<Db>)
    ensures r.Some? ==> r.value.customers == db.customers && r.value.settings == db.settings
    ensures r.None? <==>
      || (op.UpdateBatteryStatus? && !HasBattery(db.batteries, op.batteryId))
      || (op.MarkTransactionReturned? && !HasTransaction(db.transactions, op.transactionId))
  {
    match op
    case CreateTransaction(t) =>
      Some(db.(transactions := PutTransaction(db.transactions, t)))
    case UpdateBatteryStatus(id, st) =>
      if HasBattery(db.batteries, id) then Some(db.(batteries := SetBatteryStatus(db.batteries, id, st)))
      else None
    case MarkTransactionReturned(id, at) =>
      if HasTransaction(db.transactions, id) then Some(db.(transactions := MarkReturned(db.transactions, id, at)))
      else None
  }

  /** The writes applied in order; the first failing write fails the whole batch. */
  function ApplyBatch(db: Db, ops: seq<WriteOp>): Option<Db>
    decreases |ops|
  {
    if |ops| == 0 then Some(db)
    else match ApplyOp(db, ops[0])
      case None => None
      case Some(d) => ApplyBatch(d, ops[1..])
  }

  /** Applying `a + b` is applying `a`, then `b` to its result. */
  lemma {:induction false} ApplyBatchAppend(db: Db, a: seq<WriteOp>, b: seq<WriteOp>)
    ensures ApplyBatch(db, a + b) == match ApplyBatch(db, a)
                                     case None => None
                                     case Some(d) => ApplyBatch(d, b)
    decreases |a|
  {
    if |a| == 0 {
      assert a + b == b;
    } else {
      assert (a + b)[0] == a[0];
      assert (a + b)[1..] == a[1..] + b;
      match ApplyOp(db, a[0])
      case None =>
      case Some(d) => ApplyBatchAppend(d, a[1..], b);
    }
  }

  /** `batch.commit()`: when the store does not accept the batch (`delivered` false: network,
      permissions) or one of its updates targets a missing document, nothing is written. */
  function Commit(db: Db, ops: seq<WriteOp>, delivered: bool): (r: Option<Db>)
    ensures !delivered ==> r.None?
  {
    if delivered then ApplyBatch(db, ops) else None
  }

  // ---------------------------------------------------------------------------
  // The inventory invariant

  predicate UniqueBatteryIds(bs: seq<Battery>)
  {
    forall i, j :: 0 <= i < |bs| && 0 <= j < |bs| && bs[i].id == bs[j].id ==> i == j
  }

  /** Battery numbers are treated as unique in the inventory (they are the join key). */
  predicate UniqueBatteryNumbers(bs: seq<Battery>)
  {
    forall i, j :: 0 <= i < |bs| && 0 <= j < |bs| && bs[i].batteryNumber == bs[j].batteryNumber ==> i == j
  }

  predicate UniqueTransactionIds(txs: seq<Transaction>)
  {
    forall i, j :: 0 <= i < |txs| && 0 <= j < |txs| && txs[i].id == txs[j].id ==> i == j
  }

  /** The number of Pending transactions that reference battery number `number`. */
  function PendingCount(txs: seq<Transaction>, number: string): nat
  {
    if |txs| == 0 then 0
    else (if txs[0].status == Pending && txs[0].batteryNumber == number then 1 else 0)
         + PendingCount(txs[1..], number)
  }

  lemma {:induction false} PendingCountAppend(a: seq<Transaction>, b: seq<Transaction>, number: string)
    ensures PendingCount(a + b, number) == PendingCount(a, number) + PendingCount(b, number)
  {
    if |a| == 0 {
      assert a + b == b;
    } else {
      assert (a + b)[1..] == a[1..] + b;
      PendingCountAppend(a[1..], b, number);
    }
  }

  /** A sequence with no Pending transaction for `number` counts zero, and conversely. */
  lemma {:induction false} PendingCountZero(txs: seq<Transaction>, number: string)
    ensures PendingCount(txs, number) == 0 <==>
      forall i :: 0 <= i < |txs| ==> !(txs[i].status == Pending && txs[i].batteryNumber == number)
  {
    if |txs| > 0 {
      PendingCountZero(txs[1..], number);
      assert forall i :: 1 <= i < |txs| ==> txs[i] == txs[1..][i - 1];
    }
  }

  /** A transaction carries a return date exactly when it is Returned. */
  predicate ReturnDatesMatch(txs: seq<Transaction>)
  {
    forall i :: 0 <= i < |txs| ==> (txs[i].dateReturned.Some? <==> txs[i].status == TransactionStatus.Returned)
  }

  /** Every battery is Given exactly when one Pending transaction carries its number, and no
      battery has more than one; ids and numbers are unique. */
  predicate Consistent(db: Db)
  {
    && UniqueBatteryIds(db.batteries)
    && UniqueBatteryNumbers(db.batteries)
    && UniqueTransactionIds(db.transactions)
    && forall i :: 0 <= i < |db.batteries| ==>
         && PendingCount(db.transactions, db.batteries[i].batteryNumber) <= 1
         && (db.batteries[i].status == Given <==> PendingCount(db.transactions, db.batteries[i].batteryNumber) == 1)
  }
}
