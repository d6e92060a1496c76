/** The lend page: what it offers (customers of the market, Available batteries), the
    selection it edits, and the submit that lends every selected battery in one batch. */
module GiveBattery {
  import opened Types
  import opened Notices
  import opened Seqs
  import opened Store

  // ---------------------------------------------------------------------------
  // What the page offers

  predicate IsAvailable(b: Battery)
  {
    b.status == Available
  }

  /** The batteries offered for lending: exactly the Available ones, in inventory order. */
  function AvailableBatteries(bs: seq<Battery>): (r: seq<Battery>)
    ensures forall b :: b in r <==> b in bs && b.status == Available
  {
    Filter(bs, IsAvailable)
  }

  /** The customers that still hold at least one battery (shown highlighted). */
  function PendingCustomerIds(txs: seq<Transaction>): (r: set<string>)
    ensures forall id :: id in r <==> exists t :: t in txs && t.status == Pending && t.customerId == id
  {
    set t | t in txs && t.status == Pending :: t.customerId
  }

  /** Lending needs one specific market. */
  predicate NeedsMarketSelection(market: string)
  {
    market == AllMarkets
  }

  /** The search: the lower-cased name contains the lower-cased term, or the phone number
      contains the term as typed. `lower` is the platform's case mapping. */
  predicate SearchMatches(c: Customer, term: string, lower: string -> string)
  {
    Contains(lower(c.name), lower(term)) || Contains(c.mobile, term)
  }

  /** The customers listed for selection: none under 'All', else those matching the search. */
  function FilteredCustomers(customers: seq<Customer>, market: string, term: string, lower: string -> string)
    : (r: seq<Customer>)
    ensures NeedsMarketSelection(market) ==> r == []
    ensures !NeedsMarketSelection(market) ==>
      forall c :: c in r <==> c in customers && SearchMatches(c, term, lower)
  {
    if NeedsMarketSelection(market) then []
    else Filter(customers, (c: Customer) => SearchMatches(c, term, lower))
  }

  /** An empty search term lists every customer of the market. */
  lemma EmptySearchListsAll(customers: seq<Customer>, market: string, lower: string -> string)
    requires !NeedsMarketSelection(market) && lower("") == ""
    ensures forall c :: c in FilteredCustomers(customers, market, "", lower) <==> c in customers
  {
    forall c | c in customers
      ensures SearchMatches(c, "", lower)
    {
      ContainsEmpty(lower(c.name));
    }
  }

  /** What the page shows: a market picker under 'All', otherwise the lend form. */
  datatype Screen =
    | MarketPicker(choices: seq<string>)
    | LendForm(customers: seq<Customer>, batteries: seq<Battery>)

  function PageScreen(market: string, markets: seq<string>, customers: seq<Customer>, batteries: seq<Battery>,
                      term: string, lower: string -> string): (s: Screen)
    ensures s.MarketPicker? <==> market == AllMarkets
    ensures s.MarketPicker? ==> s.choices == markets
    ensures s.LendForm? ==>
      && (forall c :: c in s.customers <==> c in customers && SearchMatches(c, term, lower))
      && (forall b :: b in s.batteries <==> b in batteries && b.status == Available)
  {
    if NeedsMarketSelection(market) then MarketPicker(markets)
    else LendForm(FilteredCustomers(customers, market, term, lower), AvailableBatteries(batteries))
  }

  // ---------------------------------------------------------------------------
  // The selection

  predicate Selected(sel: seq<Battery>, id: string)
  {
    exists i :: 0 <= i < |sel| && sel[i].id == id
  }

  /** Selecting a battery: appended unless its id is already selected. */
  function WithBattery(sel: seq<Battery>, b: Battery): (r: seq<Battery>)
    ensures Selected(r, b.id)
    ensures Selected(sel, b.id) ==> r == sel
    ensures !Selected(sel, b.id) ==> r == sel + [b]
    ensures UniqueBatteryIds(sel) ==> UniqueBatteryIds(r)
  {
    if Selected(sel, b.id) then sel
    else
      assert (sel + [b])[|sel|] == b;
      sel + [b]
  }

  /** Removing a battery: every entry with that id goes; the others keep their order. */
  function WithoutBattery(sel: seq<Battery>, id: string): (r: seq<Battery>)
    ensures !Selected(r, id)
    ensures forall b :: b in r <==> b in sel && b.id != id
    ensures UniqueBatteryIds(sel) ==> UniqueBatteryIds(r)
  {
    if |sel| == 0 then []
    else if sel[0].id == id then WithoutBattery(sel[1..], id)
    else [sel[0]] + WithoutBattery(sel[1..], id)
  }

  /** Removing an id that is not selected changes nothing. */
  lemma {:induction false} WithoutAbsent(sel: seq<Battery>, id: string)
    requires !Selected(sel, id)
    ensures WithoutBattery(sel, id) == sel
  {
    if |sel| > 0 {
      assert sel[0].id != id;
      assert !Selected(sel[1..], id) by {
        forall i | 0 <= i < |sel[1..]| ensures sel[1..][i].id != id {
          assert sel[1..][i] == sel[i + 1];
        }
      }
      WithoutAbsent(sel[1..], id);
    }
  }

  lemma {:induction false} WithoutAppend(a: seq<Battery>, b: seq<Battery>, id: string)
    ensures WithoutBattery(a + b, id) == WithoutBattery(a, id) + WithoutBattery(b, id)
  {
    if |a| == 0 {
      assert a + b == b;
    } else {
      assert (a + b)[0] == a[0];
      assert (a + b)[1..] == a[1..] + b;
      WithoutAppend(a[1..], b, id);
    }
  }

  /** Selecting a battery and then removing it restores the selection exactly. */
  lemma SelectThenRemove(sel: seq<Battery>, b: Battery)
    requires !Selected(sel, b.id)
    ensures WithoutBattery(WithBattery(sel, b), b.id) == sel
  {
    WithoutAppend(sel, [b], b.id);
    WithoutAbsent(sel, b.id);
    assert [b][1..] == [];
  }

  /** The page's form state: the chosen customer and the selected batteries. */
  class GiveBatteryForm {
    var selectedCustomerId: string
    var selectedBatteries: seq<Battery>

    /** No battery is selected twice. */
    ghost predicate Valid()
      reads this
    {
      UniqueBatteryIds(selectedBatteries)
    }

    constructor ()
      ensures Valid() && selectedCustomerId == "" && selectedBatteries == []
    {
      selectedCustomerId, selectedBatteries := "", [];
    }

    /** Clicking a customer row. */
    method SelectCustomer(id: string)
      modifies this`selectedCustomerId
      ensures selectedCustomerId == id
    {
      selectedCustomerId := id;
    }

    /** `handleSelectBattery`. */
    method SelectBattery(b: Battery)
      requires Valid()
      modifies this`selectedBatteries
      ensures Valid()
      ensures selectedBatteries == WithBattery(old(selectedBatteries), b)
    {
      if !Selected(selectedBatteries, b.id) {
        selectedBatteries := selectedBatteries + [b];
      }
    }

    /** `handleRemoveBattery`. */
    method RemoveBattery(id: string)
      requires Valid()
      modifies this`selectedBatteries
      ensures Valid()
      ensures selectedBatteries == WithoutBattery(old(selectedBatteries), id)
    {
      selectedBatteries := WithoutBattery(selectedBatteries, id);
    }

    /** `handleSubmit` on the form's current choices. A successful lend navigates away, so the
        form itself is left as it is; the selection it submits holds no id twice. */
    method Submit(db: Db, market: string, newIds: seq<string>, now: Timestamp, delivered: bool)
      returns (after: Db, notice: Notice)
      requires Valid() && |newIds| == |selectedBatteries| && FreshIds(db, newIds)
      ensures UniqueBatteryIds(selectedBatteries)
      ensures selectedCustomerId == "" ==> after == db && notice == Notice(Error, SelectCustomerFirst)
      ensures selectedCustomerId != "" && selectedBatteries == [] ==>
        after == db && notice == Notice(Error, SelectBatteryFirst)
      ensures selectedCustomerId != "" && selectedBatteries != [] && delivered && AllSelectedExist(db, selectedBatteries) ==>
        after == Lent(db, selectedCustomerId, selectedBatteries, market, newIds, now)
        && notice == Notice(Success, BatteriesGiven(|selectedBatteries|))
      ensures selectedCustomerId != "" && selectedBatteries != [] && !(delivered && AllSelectedExist(db, selectedBatteries)) ==>
        after == db && notice == Notice(Error, TransactionFailed)
    {
      after, notice := SubmitLend(db, selectedCustomerId, selectedBatteries, market, newIds, now, delivered);
    }
  }

  // ---------------------------------------------------------------------------
  // Submitting a lend

  /** The transaction document created for one lent battery. */
  function NewTransaction(id: string, customerId: string, b: Battery, market: string, now: Timestamp)
    : (t: Transaction)
    ensures t.id == id && t.customerId == customerId && t.batteryNumber == b.batteryNumber
    ensures t.market == market && t.dateGiven == now && t.dateReturned.None? && t.status == Pending
  {
    Transaction(id, customerId, b.batteryNumber, market, now, None, Pending)
  }

  /** The batch `handleSubmit` builds: per selected battery, in order, one new transaction
      (with the document id `ids[i]` the store allocated) and one status update to Given. */
  function LendOps(customerId: string, sel: seq<Battery>, market: string, ids: seq<string>, now: Timestamp)
    : seq<WriteOp>
    requires |ids| == |sel|
    decreases |sel|
  {
    if |sel| == 0 then []
    else
      var n := |sel| - 1;
      LendOps(customerId, sel[..n], market, ids[..n], now)
        + [CreateTransaction(NewTransaction(ids[n], customerId, sel[n], market, now)),
           UpdateBatteryStatus(sel[n].id, Given)]
  }

  /** The transactions a successful lend adds, one per selected battery in order. */
  function NewTransactions(customerId: string, sel: seq<Battery>, market: string, ids: seq<string>, now: Timestamp)
    : (r: seq<Transaction>)
    requires |ids| == |sel|
    ensures |r| == |sel|
    ensures forall i :: 0 <= i < |sel| ==> r[i] == NewTransaction(ids[i], customerId, sel[i], market, now)
  {
    seq(|sel|, i requires 0 <= i < |sel| => NewTransaction(ids[i], customerId, sel[i], market, now))
  }

  function IdsOf(sel: seq<Battery>): (r: set<string>)
    ensures forall id :: id in r <==> Selected(sel, id)
  {
    set b | b in sel :: b.id
  }

  /** Every battery whose id is in `ids` becomes Given; no other battery or field changes. */
  function MarkGiven(bs: seq<Battery>, ids: set<string>): (r: seq<Battery>)
    ensures |r| == |bs|
    ensures forall i :: 0 <= i < |bs| ==> r[i] == if bs[i].id in ids then bs[i].(status := Given) else bs[i]
  {
    seq(|bs|, i requires 0 <= i < |bs| => if bs[i].id in ids then bs[i].(status := Given) else bs[i])
  }

  /** The store after a successful lend: the new transactions appended, the selected batteries
      Given, customers and settings untouched. */
  function Lent(db: Db, customerId: string, sel: seq<Battery>, market: string, ids: seq<string>, now: Timestamp)
    : Db
    requires |ids| == |sel|
  {
    db.(transactions := db.transactions + NewTransactions(customerId, sel, market, ids, now),
        batteries := MarkGiven(db.batteries, IdsOf(sel)))
  }

  /** A lend adds exactly one Pending transaction per selected battery, after the existing
      ones, turns exactly the selected batteries Given, and changes nothing else. */
  lemma LentChangesOnlySelection(db: Db, customerId: string, sel: seq<Battery>, market: string,
                                 ids: seq<string>, now: Timestamp)
    requires |ids| == |sel|
    ensures var r := Lent(db, customerId, sel, market, ids, now);
      && r.customers == db.customers && r.settings == db.settings
      && |r.transactions| == |db.transactions| + |sel|
      && r.transactions[..|db.transactions|] == db.transactions
      && (forall i :: 0 <= i < |sel| ==>
            r.transactions[|db.transactions| + i] == NewTransaction(ids[i], customerId, sel[i], market, now))
      && |r.batteries| == |db.batteries|
      && (forall i :: 0 <= i < |db.batteries| ==>
            r.batteries[i] == if Selected(sel, db.batteries[i].id) then db.batteries[i].(status := Given)
                              else db.batteries[i])
  {
  }

  /** Every selected battery still has a document in the store. */
  predicate AllSelectedExist(db: Db, sel: seq<Battery>)
  {
    forall i :: 0 <= i < |sel| ==> HasBattery(db.batteries, sel[i].id)
  }

  /** The document ids allocated for the new transactions are distinct and unused. */
  predicate FreshIds(db: Db, ids: seq<string>)
  {
    && (forall i, j :: 0 <= i < |ids| && 0 <= j < |ids| && ids[i] == ids[j] ==> i == j)
    && (forall i :: 0 <= i < |ids| ==> !HasTransaction(db.transactions, ids[i]))
  }

  lemma FreshPrefix(db: Db, ids: seq<string>, n: nat)
    requires FreshIds(db, ids) && n <= |ids|
    ensures FreshIds(db, ids[..n])
  {
    assert forall i :: 0 <= i < n ==> ids[..n][i] == ids[i];
  }

  /** Marking batteries Given keeps every battery document, so every id lookup answers alike. */
  lemma HasBatteryMarkGiven(bs: seq<Battery>, ids: set<string>, id: string)
    ensures HasBattery(MarkGiven(bs, ids), id) <==> HasBattery(bs, id)
  {
    var r := MarkGiven(bs, ids);
    if HasBattery(bs, id) {
      var k :| 0 <= k < |bs| && bs[k].id == id;
      assert r[k].id == id;
    }
    if HasBattery(r, id) {
      var k :| 0 <= k < |r| && r[k].id == id;
      assert bs[k].id == id;
    }
  }

  /** Lending one more battery extends the previous lend by its transaction and its update. */
  lemma LentExtends(db: Db, customerId: string, sel: seq<Battery>, market: string, ids: seq<string>, now: Timestamp)
    requires |ids| == |sel| > 0
    ensures var n := |sel| - 1;
            var d := Lent(db, customerId, sel[..n], market, ids[..n], now);
            Lent(db, customerId, sel, market, ids, now)
            == d.(transactions := d.transactions + [NewTransaction(ids[n], customerId, sel[n], market, now)],
                  batteries := SetBatteryStatus(d.batteries, sel[n].id, Given))
  {
    var n := |sel| - 1;
    var sel', ids' := sel[..n], ids[..n];
    var d := Lent(db, customerId, sel', market, ids', now);
    var want := Lent(db, customerId, sel, market, ids, now);
    var t := NewTransaction(ids[n], customerId, sel[n], market, now);
    assert forall i :: 0 <= i < n ==> sel'[i] == sel[i];
    assert NewTransactions(customerId, sel, market, ids, now)
           == NewTransactions(customerId, sel', market, ids', now) + [t];
    var got := SetBatteryStatus(d.batteries, sel[n].id, Given);
    forall i | 0 <= i < |db.batteries| ensures got[i] == want.batteries[i] {
      assert Selected(sel, db.batteries[i].id) <==>
             Selected(sel', db.batteries[i].id) || db.batteries[i].id == sel[n].id;
    }
  }

  /** The id allocated for the next new transaction is unused after the earlier ones. */
  lemma FreshAfterLent(db: Db, customerId: string, sel: seq<Battery>, market: string, ids: seq<string>, now: Timestamp)
    requires |ids| == |sel| > 0 && FreshIds(db, ids)
    ensures var n := |sel| - 1;
            !HasTransaction(Lent(db, customerId, sel[..n], market, ids[..n], now).transactions, ids[n])
  {
    var n := |sel| - 1;
    var d := Lent(db, customerId, sel[..n], market, ids[..n], now);
    forall i | 0 <= i < |d.transactions| ensures d.transactions[i].id != ids[n] {
      if i >= |db.transactions| {
        assert d.transactions[i].id == ids[i - |db.transactions|];
      } else {
        assert d.transactions[i] == db.transactions[i];
      }
    }
  }

  /** The last battery's two writes applied to the store after the earlier ones. */
  lemma ApplyLendTail(db: Db, customerId: string, sel: seq<Battery>, market: string, ids: seq<string>, now: Timestamp)
    requires |ids| == |sel| > 0 && FreshIds(db, ids)
    ensures var n := |sel| - 1;
            var t := NewTransaction(ids[n], customerId, sel[n], market, now);
            ApplyBatch(Lent(db, customerId, sel[..n], market, ids[..n], now),
                       [CreateTransaction(t), UpdateBatteryStatus(sel[n].id, Given)])
            == if HasBattery(db.batteries, sel[n].id) then Some(Lent(db, customerId, sel, market, ids, now)) else None
  {
    var n := |sel| - 1;
    var d := Lent(db, customerId, sel[..n], market, ids[..n], now);
    var t := NewTransaction(ids[n], customerId, sel[n], market, now);
    var tail := [CreateTransaction(t), UpdateBatteryStatus(sel[n].id, Given)];
    FreshAfterLent(db, customerId, sel, market, ids, now);
    var d2 := d.(transactions := d.transactions + [t]);
    assert ApplyOp(d, tail[0]) == Some(d2);
    assert tail[1..] == [UpdateBatteryStatus(sel[n].id, Given)];
    assert tail[1..][1..] == [];
    assert ApplyBatch(d, tail) == ApplyBatch(d2, tail[1..]);
    HasBatteryMarkGiven(db.batteries, IdsOf(sel[..n]), sel[n].id);
    LentExtends(db, customerId, sel, market, ids, now);
    if HasBattery(db.batteries, sel[n].id) {
      var d3 := d2.(batteries := SetBatteryStatus(d2.batteries, sel[n].id, Given));
      assert ApplyOp(d2, tail[1..][0]) == Some(d3);
      assert ApplyBatch(d2, tail[1..]) == ApplyBatch(d3, []);
    } else {
      assert ApplyOp(d2, tail[1..][0]).None?;
    }
  }

  /** The lend batch applies, all or nothing: it succeeds exactly when every selected battery
      exists, and then yields `Lent`. Battery status plays no part. */
  lemma {:induction false} ApplyLendOps(db: Db, customerId: string, sel: seq<Battery>, market: string,
                                         ids: seq<string>, now: Timestamp)
    requires |ids| == |sel| && FreshIds(db, ids)
    ensures ApplyBatch(db, LendOps(customerId, sel, market, ids, now))
            == if AllSelectedExist(db, sel) then Some(Lent(db, customerId, sel, market, ids, now)) else None
    decreases |sel|
  {
    if |sel| == 0 {
      assert Lent(db, customerId, sel, market, ids, now).transactions == db.transactions;
      assert Lent(db, customerId, sel, market, ids, now).batteries == db.batteries;
    } else {
      var n := |sel| - 1;
      var sel', ids' := sel[..n], ids[..n];
      FreshPrefix(db, ids, n);
      ApplyLendOps(db, customerId, sel', market, ids', now);
      var t := NewTransaction(ids[n], customerId, sel[n], market, now);
      ApplyBatchAppend(db, LendOps(customerId, sel', market, ids', now),
                       [CreateTransaction(t), UpdateBatteryStatus(sel[n].id, Given)]);
      assert forall i :: 0 <= i < n ==> sel'[i] == sel[i];
      assert AllSelectedExist(db, sel) <==> AllSelectedExist(db, sel') && HasBattery(db.batteries, sel[n].id);
      if AllSelectedExist(db, sel') {
        ApplyLendTail(db, customerId, sel, market, ids, now);
      }
    }
  }

  /** `handleSubmit`. An empty customer and then an empty selection are rejected before any
      write. Otherwise the batch is built battery by battery and committed: when the store
      accepts it and every selected battery exists, the store becomes `Lent` and the notice
      counts the selection; otherwise nothing is written and the failure is reported.
      `newIds` are the document ids the store allocates; `delivered` is whether it accepts the
      commit. */
  method SubmitLend(db: Db, customerId: string, selection: seq<Battery>, market: string,
                    newIds: seq<string>, now: Timestamp, delivered: bool)
    returns (after: Db, notice: Notice)
    requires |newIds| == |selection| && FreshIds(db, newIds)
    ensures customerId == "" ==> after == db && notice == Notice(Error, SelectCustomerFirst)
    ensures customerId != "" && selection == [] ==> after == db && notice == Notice(Error, SelectBatteryFirst)
    ensures customerId != "" && selection != [] && delivered && AllSelectedExist(db, selection) ==>
      after == Lent(db, customerId, selection, market, newIds, now)
      && notice == Notice(Success, BatteriesGiven(|selection|))
    ensures customerId != "" && selection != [] && !(delivered && AllSelectedExist(db, selection)) ==>
      after == db && notice == Notice(Error, TransactionFailed)
  {
    if customerId == "" {
      return db, Notice(Error, SelectCustomerFirst);
    }
    if |selection| == 0 {
      return db, Notice(Error, SelectBatteryFirst);
    }
    var batch: seq<WriteOp> := [];
    var i := 0;
    while i < |selection|
      invariant 0 <= i <= |selection|
      invariant batch == LendOps(customerId, selection[..i], market, newIds[..i], now)
    {
      var batt := selection[i];
      assert selection[..i + 1][..i] == selection[..i] && newIds[..i + 1][..i] == newIds[..i];
      batch := batch + [CreateTransaction(Transaction(newIds[i], customerId, batt.batteryNumber, market, now, None, Pending))];
      batch := batch + [UpdateBatteryStatus(batt.id, Given)];
      i := i + 1;
    }
    assert selection[..i] == selection && newIds[..i] == newIds;
    ApplyLendOps(db, customerId, selection, market, newIds, now);
    var result := Commit(db, batch, delivered);
    if result.None? {
      return db, Notice(Error, TransactionFailed);
    }
    return result.value, Notice(Success, BatteriesGiven(|selection|));
  }
}
