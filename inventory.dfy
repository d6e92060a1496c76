/** The inventory invariant across the two workflows: a battery is Given exactly when one
    open rental carries its number. Lending Available batteries and returning an open rental
    keep it; a lend from a stale selection and a return of an already closed rental break it. */
module Inventory {
  import opened Types
  import opened Notices
  import opened Store
  import opened GiveBattery
  import opened ReturnBattery

  // ---------------------------------------------------------------------------
  // Lending

  /** Every selected battery is a current inventory record that is Available, and none is
      selected twice: what the page offers when its cache is up to date. */
  predicate LendableSelection(db: Db, sel: seq<Battery>)
  {
    && UniqueBatteryIds(sel)
    && forall i :: 0 <= i < |sel| ==> sel[i] in db.batteries && sel[i].status == Available
  }

  predicate HasNumber(bs: seq<Battery>, number: string)
  {
    exists k :: 0 <= k < |bs| && bs[k].batteryNumber == number
  }

  /** A selected inventory battery is selected by id exactly when its number is among the
      selected numbers, and it was Available. */
  lemma SelectedIffNumber(db: Db, sel: seq<Battery>, i: nat)
    requires Consistent(db) && LendableSelection(db, sel) && i < |db.batteries|
    ensures HasNumber(sel, db.batteries[i].batteryNumber) <==> Selected(sel, db.batteries[i].id)
    ensures Selected(sel, db.batteries[i].id) ==> db.batteries[i].status == Available
  {
    var b := db.batteries[i];
    if HasNumber(sel, b.batteryNumber) {
      var k :| 0 <= k < |sel| && sel[k].batteryNumber == b.batteryNumber;
      var p :| 0 <= p < |db.batteries| && db.batteries[p] == sel[k];
      assert p == i;
    }
    if Selected(sel, b.id) {
      var k :| 0 <= k < |sel| && sel[k].id == b.id;
      var p :| 0 <= p < |db.batteries| && db.batteries[p] == sel[k];
      assert p == i;
    }
  }

  /** The numbers of a lendable selection are distinct. */
  lemma SelectionNumbersUnique(db: Db, sel: seq<Battery>)
    requires Consistent(db) && LendableSelection(db, sel)
    ensures UniqueBatteryNumbers(sel)
  {
    forall i, j | 0 <= i < |sel| && 0 <= j < |sel| && sel[i].batteryNumber == sel[j].batteryNumber
      ensures i == j
    {
      var p :| 0 <= p < |db.batteries| && db.batteries[p] == sel[i];
      var q :| 0 <= q < |db.batteries| && db.batteries[q] == sel[j];
      assert p == q;
    }
  }

  /** The new transactions hold one open rental for a number exactly when a selected battery
      carries it. */
  lemma {:induction false} NewTransactionsCount(customerId: string, sel: seq<Battery>, market: string,
                                                ids: seq<string>, now: Timestamp, number: string)
    requires |ids| == |sel| && UniqueBatteryNumbers(sel)
    ensures PendingCount(NewTransactions(customerId, sel, market, ids, now), number)
            == if HasNumber(sel, number) then 1 else 0
    decreases |sel|
  {
    if |sel| > 0 {
      var all := NewTransactions(customerId, sel, market, ids, now);
      var rest := NewTransactions(customerId, sel[1..], market, ids[1..], now);
      assert all[1..] == rest;
      assert UniqueBatteryNumbers(sel[1..]) by {
        forall i, j | 0 <= i < |sel[1..]| && 0 <= j < |sel[1..]| && sel[1..][i].batteryNumber == sel[1..][j].batteryNumber
          ensures i == j
        {
          assert sel[1..][i] == sel[i + 1] && sel[1..][j] == sel[j + 1];
        }
      }
      NewTransactionsCount(customerId, sel[1..], market, ids[1..], now, number);
      assert HasNumber(sel, number) <==> sel[0].batteryNumber == number || HasNumber(sel[1..], number) by {
        if HasNumber(sel, number) {
          var k :| 0 <= k < |sel| && sel[k].batteryNumber == number;
          if k > 0 {
            assert sel[1..][k - 1] == sel[k];
          }
        }
        if HasNumber(sel[1..], number) {
          var k :| 0 <= k < |sel[1..]| && sel[1..][k].batteryNumber == number;
          assert sel[k + 1] == sel[1..][k];
        }
      }
    }
  }

  /** Appending transactions whose ids are distinct and unused keeps ids unique. */
  lemma AppendFreshKeepsIds(db: Db, customerId: string, sel: seq<Battery>, market: string,
                            ids: seq<string>, now: Timestamp)
    requires UniqueTransactionIds(db.transactions) && |ids| == |sel| && FreshIds(db, ids)
    ensures UniqueTransactionIds(db.transactions + NewTransactions(customerId, sel, market, ids, now))
  {
    var old_ := db.transactions;
    var txs := old_ + NewTransactions(customerId, sel, market, ids, now);
    assert forall i :: 0 <= i < |old_| ==> txs[i] == old_[i];
    assert forall i :: |old_| <= i < |txs| ==> txs[i].id == ids[i - |old_|];
    forall i, j | 0 <= i < |txs| && 0 <= j < |txs| && txs[i].id == txs[j].id ensures i == j {
      if |old_| <= i && |old_| <= j {
        assert ids[i - |old_|] == ids[j - |old_|];
      }
    }
  }

  /** Lending Available, current batteries, none twice, keeps the inventory consistent. */
  lemma LendPreservesConsistency(db: Db, customerId: string, sel: seq<Battery>, market: string,
                                 ids: seq<string>, now: Timestamp)
    requires Consistent(db) && LendableSelection(db, sel) && |ids| == |sel| && FreshIds(db, ids)
    ensures Consistent(Lent(db, customerId, sel, market, ids, now))
  {
    var d := Lent(db, customerId, sel, market, ids, now);
    var added := NewTransactions(customerId, sel, market, ids, now);
    LentChangesOnlySelection(db, customerId, sel, market, ids, now);
    SelectionNumbersUnique(db, sel);
    AppendFreshKeepsIds(db, customerId, sel, market, ids, now);
    assert forall i :: 0 <= i < |db.batteries| ==>
      d.batteries[i].id == db.batteries[i].id && d.batteries[i].batteryNumber == db.batteries[i].batteryNumber;
    forall i | 0 <= i < |db.batteries|
      ensures var n := d.batteries[i].batteryNumber;
              PendingCount(d.transactions, n) <= 1 && (d.batteries[i].status == Given <==> PendingCount(d.transactions, n) == 1)
    {
      var n := db.batteries[i].batteryNumber;
      PendingCountAppend(db.transactions, added, n);
      NewTransactionsCount(customerId, sel, market, ids, now, n);
      SelectedIffNumber(db, sel, i);
    }
  }

  /** Submitting the lend form from an up-to-date view: the form never holds an id twice, so
      when every selected battery is an Available record of the store, the store after the
      submit, whatever its outcome, still satisfies the invariant. */
  method SubmitFormKeepsConsistency(form: GiveBatteryForm, db: Db, market: string, newIds: seq<string>,
                                    now: Timestamp, delivered: bool)
    returns (after: Db, notice: Notice)
    requires form.Valid() && |newIds| == |form.selectedBatteries| && FreshIds(db, newIds)
    requires Consistent(db)
    requires forall i :: 0 <= i < |form.selectedBatteries| ==>
      form.selectedBatteries[i] in db.batteries && form.selectedBatteries[i].status == Available
    ensures Consistent(after)
    ensures after == db || after == Lent(db, form.selectedCustomerId, form.selectedBatteries, market, newIds, now)
  {
    after, notice := form.Submit(db, market, newIds, now, delivered);
    LendPreservesConsistency(db, form.selectedCustomerId, form.selectedBatteries, market, newIds, now);
  }

  /** A lend's batch is accepted on batteries that are no longer Available: lending the same
      battery twice (a second page still showing it) leaves two more open rentals on its
      number, and the inventory is no longer consistent. */
  lemma DuplicateLendBreaksConsistency(db: Db, first: string, second: string, b: Battery, market: string,
                                       ids1: seq<string>, ids2: seq<string>, now1: Timestamp, now2: Timestamp)
    requires b in db.batteries && |ids1| == 1 && |ids2| == 1
    ensures var d1 := Lent(db, first, [b], market, ids1, now1);
      && AllSelectedExist(d1, [b])
      && PendingCount(Lent(d1, second, [b], market, ids2, now2).transactions, b.batteryNumber)
         == PendingCount(db.transactions, b.batteryNumber) + 2
      && !Consistent(Lent(d1, second, [b], market, ids2, now2))
  {
    var d1 := Lent(db, first, [b], market, ids1, now1);
    var d2 := Lent(d1, second, [b], market, ids2, now2);
    var n := b.batteryNumber;
    var t1 := NewTransactions(first, [b], market, ids1, now1);
    var t2 := NewTransactions(second, [b], market, ids2, now2);
    assert t1[1..] == [] && t2[1..] == [];
    assert PendingCount(t1, n) == 1 && PendingCount(t2, n) == 1;
    PendingCountAppend(db.transactions, t1, n);
    PendingCountAppend(d1.transactions, t2, n);
    var i :| 0 <= i < |db.batteries| && db.batteries[i] == b;
    LentChangesOnlySelection(db, first, [b], market, ids1, now1);
    LentChangesOnlySelection(d1, second, [b], market, ids2, now2);
    assert d1.batteries[i].id == b.id;
    assert d2.batteries[i].batteryNumber == n;
  }

  // ---------------------------------------------------------------------------
  // Returning

  /** Closing the rental at position `p` takes exactly its own contribution off the open
      count of each number. */
  lemma PendingCountMarkReturned(txs: seq<Transaction>, p: nat, at: Timestamp, number: string)
    requires UniqueTransactionIds(txs) && p < |txs|
    ensures PendingCount(MarkReturned(txs, txs[p].id, at), number)
            + (if txs[p].status == Pending && txs[p].batteryNumber == number then 1 else 0)
            == PendingCount(txs, number)
  {
    var id := txs[p].id;
    var m := MarkReturned(txs, id, at);
    var closed := txs[p].(status := TransactionStatus.Returned, dateReturned := Some(at));
    assert txs == txs[..p] + [txs[p]] + txs[p + 1..];
    assert m == txs[..p] + [closed] + txs[p + 1..];
    PendingCountAppend(txs[..p] + [txs[p]], txs[p + 1..], number);
    PendingCountAppend(txs[..p], [txs[p]], number);
    PendingCountAppend(txs[..p] + [closed], txs[p + 1..], number);
    PendingCountAppend(txs[..p], [closed], number);
    assert [txs[p]][1..] == [] && [closed][1..] == [];
  }

  /** Returning an open rental of the store keeps the inventory consistent: the battery with its
      number goes back to Available, or, when no battery carries it, no battery is concerned. */
  lemma ReturnPreservesConsistency(db: Db, trans: Transaction, now: Timestamp)
    requires Consistent(db) && trans in db.transactions && trans.status == Pending
    ensures Consistent(ReturnedDb(db, trans, now))
  {
    var p :| 0 <= p < |db.transactions| && db.transactions[p] == trans;
    var d := ReturnedDb(db, trans, now);
    ReturnedChangesOnlyItsRecords(db, trans, now);
    assert forall i :: 0 <= i < |d.transactions| ==> d.transactions[i].id == db.transactions[i].id;
    assert forall i :: 0 <= i < |d.batteries| ==>
      d.batteries[i].id == db.batteries[i].id && d.batteries[i].batteryNumber == db.batteries[i].batteryNumber;
    forall i | 0 <= i < |db.batteries|
      ensures var n := d.batteries[i].batteryNumber;
              PendingCount(d.transactions, n) <= 1 && (d.batteries[i].status == Given <==> PendingCount(d.transactions, n) == 1)
    {
      var n := db.batteries[i].batteryNumber;
      PendingCountMarkReturned(db.transactions, p, now, n);
      match FirstWithNumber(db.batteries, trans.batteryNumber)
      case None =>
      case Some(k) =>
        if i != k {
          assert db.batteries[i].batteryNumber != db.batteries[k].batteryNumber;
        }
    }
  }

  /** A return does not check that the rental is still open. Returning an already closed
      rental (from a detail view that has not caught up) whose battery has since been lent
      again is accepted, frees that battery, and leaves its new rental open against an
      Available battery. */
  lemma StaleReturnBreaksConsistency(db: Db, trans: Transaction, now: Timestamp, i: nat)
    requires Consistent(db) && trans in db.transactions && trans.status == TransactionStatus.Returned
    requires i < |db.batteries| && db.batteries[i].batteryNumber == trans.batteryNumber
    requires db.batteries[i].status == Given
    ensures HasTransaction(db.transactions, trans.id)
    ensures ReturnedDb(db, trans, now).batteries[i].status == Available
    ensures !Consistent(ReturnedDb(db, trans, now))
  {
    var p :| 0 <= p < |db.transactions| && db.transactions[p] == trans;
    var d := ReturnedDb(db, trans, now);
    ReturnedChangesOnlyItsRecords(db, trans, now);
    PendingCountMarkReturned(db.transactions, p, now, trans.batteryNumber);
    var k := FirstWithNumber(db.batteries, trans.batteryNumber).value;
    assert k == i;
    assert d.batteries[i].batteryNumber == trans.batteryNumber;
  }

  // ---------------------------------------------------------------------------
  // Return dates

  /** New rentals have no return date and are Pending, so a lend keeps return dates matching
      statuses. */
  lemma LentKeepsReturnDates(db: Db, customerId: string, sel: seq<Battery>, market: string,
                             ids: seq<string>, now: Timestamp)
    requires ReturnDatesMatch(db.transactions) && |ids| == |sel|
    ensures ReturnDatesMatch(Lent(db, customerId, sel, market, ids, now).transactions)
  {
    LentChangesOnlySelection(db, customerId, sel, market, ids, now);
  }

  /** A return sets the status and the return date together, so it keeps them matching. */
  lemma ReturnedKeepsReturnDates(db: Db, trans: Transaction, now: Timestamp)
    requires ReturnDatesMatch(db.transactions)
    ensures ReturnDatesMatch(ReturnedDb(db, trans, now).transactions)
  {
    assert ReturnedDb(db, trans, now).transactions == MarkReturned(db.transactions, trans.id, now);
  }

  // ---------------------------------------------------------------------------
  // A worked example: three Available batteries A1, A2, A3 and one customer C1 of market Alpha

  function A1(): Battery { Battery("a1", "A1", Available, "red", "Alpha") }
  function A2(): Battery { Battery("a2", "A2", Available, "blue", "Alpha") }
  function A3(): Battery { Battery("a3", "A3", Available, "green", "Alpha") }
  function C1(): Customer { Customer("c1", "C1", "Alpha", "555", "", "", 1) }

  function RentalOf(id: string, number: string): Transaction
  {
    Transaction(id, "c1", number, "Alpha", Timestamp(1), None, Pending)
  }

  function StartDb(): Db
  {
    Db([C1()], [A1(), A2(), A3()], [], None)
  }

  /** The store after lending A1 and A2 to C1. */
  function LentDb(): Db
  {
    Db([C1()], [A1().(status := Given), A2().(status := Given), A3()],
       [RentalOf("t1", "A1"), RentalOf("t2", "A2")], None)
  }

  /** The example's selection exists in the store and its new document ids are unused. */
  lemma ScenarioLendable()
    ensures AllSelectedExist(StartDb(), [A1(), A2()]) && FreshIds(StartDb(), ["t1", "t2"])
  {
    var bs := StartDb().batteries;
    assert bs[0].id == "a1" && bs[1].id == "a2";
    assert HasBattery(bs, "a1") && HasBattery(bs, "a2");
  }

  /** Only A1 and A2 become Given. */
  lemma ScenarioMarked()
    ensures MarkGiven(StartDb().batteries, IdsOf([A1(), A2()])) == LentDb().batteries
  {
    var sel := [A1(), A2()];
    assert Selected(sel, "a1") by { assert sel[0].id == "a1"; }
    assert Selected(sel, "a2") by { assert sel[1].id == "a2"; }
    assert !Selected(sel, "a3") by {
      assert "a1"[1] != "a3"[1] && "a2"[1] != "a3"[1];
    }
    var marked := MarkGiven(StartDb().batteries, IdsOf(sel));
    assert marked[0] == A1().(status := Given);
    assert marked[1] == A2().(status := Given);
    assert marked[2] == A3();
  }

  /** One Pending rental per selected battery, in selection order. */
  lemma ScenarioAdded()
    ensures NewTransactions("c1", [A1(), A2()], "Alpha", ["t1", "t2"], Timestamp(1)) == LentDb().transactions
  {
    var added := NewTransactions("c1", [A1(), A2()], "Alpha", ["t1", "t2"], Timestamp(1));
    assert added[0] == RentalOf("t1", "A1");
    assert added[1] == RentalOf("t2", "A2");
  }

  /** Lending A1 and A2 to C1 opens one rental each, turns them Given and leaves A3 Available. */
  lemma LendScenarioStore()
    ensures AllSelectedExist(StartDb(), [A1(), A2()]) && FreshIds(StartDb(), ["t1", "t2"])
    ensures Lent(StartDb(), "c1", [A1(), A2()], "Alpha", ["t1", "t2"], Timestamp(1)) == LentDb()
  {
    ScenarioLendable();
    ScenarioMarked();
    ScenarioAdded();
    assert StartDb().transactions + LentDb().transactions == LentDb().transactions;
  }

  /** The lend page's submit on the example reports two batteries given. */
  method LendScenario()
  {
    LendScenarioStore();
    var lent, notice := SubmitLend(StartDb(), "c1", [A1(), A2()], "Alpha", ["t1", "t2"], Timestamp(1), true);
    assert notice == Notice(Success, BatteriesGiven(2));
    assert lent == LentDb();
  }

  /** Returning the A1 rental closes it, frees A1 and leaves A2 Given. */
  method ReturnScenario()
  {
    var t1 := RentalOf("t1", "A1");
    var db := LentDb();
    assert HasTransaction(db.transactions, "t1") by { assert db.transactions[0].id == "t1"; }
    var back, notice, close := SubmitReturn(db, t1, Timestamp(2), true, true, 2);
    assert notice == Notice(Success, BatteryReturned("A1"));
    assert !close;
    assert FirstWithNumber(db.batteries, "A1") == Some(0);
    assert back.transactions == [t1.(status := TransactionStatus.Returned, dateReturned := Some(Timestamp(2))),
                                 RentalOf("t2", "A2")];
    assert back.batteries == [A1(), A2().(status := Given), A3()];
  }
}
