/** The return page: the pending rentals grouped per customer, the rentals offered for the
    selected customer, and the return that closes one rental and frees its battery. */
module ReturnBattery {
  import opened Types
  import opened Notices
  import opened Seqs
  import opened Store

  // ---------------------------------------------------------------------------
  // What the page offers

  predicate IsPending(t: Transaction)
  {
    t.status == Pending
  }

  /** The open rentals of the cached transactions, in order. */
  function PendingTransactions(txs: seq<Transaction>): (r: seq<Transaction>)
    ensures forall t :: t in r <==> t in txs && t.status == Pending
    ensures forall i :: 0 <= i < |r| ==> r[i].status == Pending
  {
    Filter(txs, IsPending)
  }

  /** The rentals the detail view offers: none when no customer is selected (a missing or
      empty id), else the pending ones of that customer. */
  function SelectedCustomerTransactions(pending: seq<Transaction>, selected: Option<string>): (r: seq<Transaction>)
    ensures selected.None? || selected.value == "" ==> r == []
    ensures selected.Some? && selected.value != "" ==>
      forall t :: t in r <==> t in pending && t.customerId == selected.value
  {
    if selected.None? || selected.value == "" then []
    else Filter(pending, (t: Transaction) => t.customerId == selected.value)
  }

  /** Only open rentals of the selected customer are ever offered for return. */
  lemma OfferedForReturn(txs: seq<Transaction>, id: string)
    requires id != ""
    ensures forall t :: t in SelectedCustomerTransactions(PendingTransactions(txs), Some(id)) <==>
      t in txs && t.status == Pending && t.customerId == id
  {
  }

  // ---------------------------------------------------------------------------
  // Grouping the open rentals per customer

  /** One row of the grouped list: a customer and how many rentals they hold open. */
  datatype Group = Group(customer: Customer, count: nat)

  /** The first loaded customer with this id (`customers.find`). */
  function FindCustomer(customers: seq<Customer>, id: string): (r: Option<Customer>)
    ensures r.None? <==> forall k :: 0 <= k < |customers| ==> customers[k].id != id
    ensures r.Some? ==> r.value.id == id
    ensures r.Some? ==> exists k :: 0 <= k < |customers| && customers[k] == r.value && FirstIdAt(customers, id, k)
  {
    if |customers| == 0 then None
    else if customers[0].id == id then Some(customers[0])
    else
      var r := FindCustomer(customers[1..], id);
      assert forall k :: 1 <= k < |customers| ==> customers[k] == customers[1..][k - 1];
      r
  }

  /** No customer before position `k` has id `id`. */
  predicate FirstIdAt(customers: seq<Customer>, id: string, k: nat)
    requires k <= |customers|
  {
    forall j :: 0 <= j < k ==> customers[j].id != id
  }

  /** The number of rentals in `pending` held by customer `id`. */
  function CountFor(pending: seq<Transaction>, id: string): nat
  {
    if |pending| == 0 then 0
    else CountFor(pending[..|pending| - 1], id) + (if pending[|pending| - 1].customerId == id then 1 else 0)
  }

  lemma {:induction false} CountForAbsent(pending: seq<Transaction>, id: string)
    requires forall i :: 0 <= i < |pending| ==> pending[i].customerId != id
    ensures CountFor(pending, id) == 0
  {
    if |pending| > 0 {
      CountForAbsent(pending[..|pending| - 1], id);
    }
  }

  lemma CountForStep(pending: seq<Transaction>, k: nat, id: string)
    requires k < |pending|
    ensures CountFor(pending[..k + 1], id) == CountFor(pending[..k], id) + if pending[k].customerId == id then 1 else 0
  {
    assert pending[..k + 1][..k] == pending[..k];
  }

  predicate HasGroup(groups: seq<Group>, id: string)
  {
    exists i :: 0 <= i < |groups| && groups[i].customer.id == id
  }

  function CustomerIdOf(g: Group): string
  {
    g.customer.id
  }

  /** No customer has two rows. */
  predicate DistinctCustomers(groups: seq<Group>)
  {
    forall i, j :: 0 <= i < |groups| && 0 <= j < |groups| && groups[i].customer.id == groups[j].customer.id ==> i == j
  }

  /** A row for a customer without one keeps customers distinct. */
  lemma AddRowKeepsDistinct(groups: seq<Group>, g: Group)
    requires DistinctCustomers(groups) && !HasGroup(groups, g.customer.id)
    ensures DistinctCustomers(groups + [g])
  {
    var r := groups + [g];
    assert forall i :: 0 <= i < |groups| ==> groups[i].customer.id != g.customer.id;
    assert forall i :: 0 <= i < |groups| ==> r[i] == groups[i];
  }

  /** Changing a row's count keeps customers distinct. */
  lemma BumpKeepsDistinct(groups: seq<Group>, j: nat)
    requires DistinctCustomers(groups) && j < |groups|
    ensures DistinctCustomers(groups[j := groups[j].(count := groups[j].count + 1)])
  {
    var r := groups[j := groups[j].(count := groups[j].count + 1)];
    assert forall i :: 0 <= i < |r| ==> r[i].customer.id == groups[i].customer.id;
  }

  /** The map lookup `custMap.has` / `custMap.get`: the row of customer `id`, if any. */
  function GroupIndex(groups: seq<Group>, id: string): (r: Option<nat>)
    ensures r.None? <==> !HasGroup(groups, id)
    ensures r.Some? ==> r.value < |groups| && groups[r.value].customer.id == id
  {
    if |groups| == 0 then None
    else if groups[|groups| - 1].customer.id == id then Some(|groups| - 1)
    else
      var r := GroupIndex(groups[..|groups| - 1], id);
      assert forall i :: 0 <= i < |groups| - 1 ==> groups[i] == groups[..|groups| - 1][i];
      r
  }

  /** Every row shows the loaded customer of its id and counts that customer's rentals in
      `prefix`, at least one. */
  predicate RowsFaithful(groups: seq<Group>, prefix: seq<Transaction>, customers: seq<Customer>)
  {
    forall i :: 0 <= i < |groups| ==>
      && FindCustomer(customers, groups[i].customer.id) == Some(groups[i].customer)
      && groups[i].count == CountFor(prefix, groups[i].customer.id)
      && groups[i].count > 0
  }

  /** Every rental of `prefix` whose customer is loaded has a row. */
  predicate RowsComplete(groups: seq<Group>, prefix: seq<Transaction>, customers: seq<Customer>)
  {
    forall i :: 0 <= i < |prefix| && FindCustomer(customers, prefix[i].customerId).Some? ==>
      HasGroup(groups, prefix[i].customerId)
  }

  lemma CountForSnoc(prefix: seq<Transaction>, t: Transaction, id: string)
    ensures CountFor(prefix + [t], id) == CountFor(prefix, id) + if t.customerId == id then 1 else 0
  {
    assert (prefix + [t])[..|prefix|] == prefix;
  }

  /** A rental of a customer without a row who is not loaded is skipped. */
  lemma SkipStep(groups: seq<Group>, prefix: seq<Transaction>, t: Transaction, customers: seq<Customer>)
    requires RowsFaithful(groups, prefix, customers) && RowsComplete(groups, prefix, customers)
    requires !HasGroup(groups, t.customerId) && FindCustomer(customers, t.customerId).None?
    ensures RowsFaithful(groups, prefix + [t], customers) && RowsComplete(groups, prefix + [t], customers)
  {
    forall i | 0 <= i < |groups| ensures groups[i].count == CountFor(prefix + [t], groups[i].customer.id) {
      CountForSnoc(prefix, t, groups[i].customer.id);
    }
    assert forall i :: 0 <= i < |prefix| ==> (prefix + [t])[i] == prefix[i];
  }

  /** The first rental of a loaded customer makes that customer's row, with count one. */
  lemma NewRowStep(groups: seq<Group>, prefix: seq<Transaction>, t: Transaction, customers: seq<Customer>, c: Customer)
    requires RowsFaithful(groups, prefix, customers) && RowsComplete(groups, prefix, customers)
    requires !HasGroup(groups, t.customerId) && FindCustomer(customers, t.customerId) == Some(c)
    ensures RowsFaithful(groups + [Group(c, 1)], prefix + [t], customers)
    ensures RowsComplete(groups + [Group(c, 1)], prefix + [t], customers)
  {
    var r := groups + [Group(c, 1)];
    assert forall i :: 0 <= i < |prefix| ==> prefix[i].customerId != t.customerId;
    CountForAbsent(prefix, t.customerId);
    CountForSnoc(prefix, t, t.customerId);
    forall i | 0 <= i < |groups| ensures groups[i].count == CountFor(prefix + [t], groups[i].customer.id) {
      CountForSnoc(prefix, t, groups[i].customer.id);
    }
    assert forall i :: 0 <= i < |groups| ==> r[i] == groups[i];
    assert forall i :: 0 <= i < |prefix| ==> (prefix + [t])[i] == prefix[i];
    forall i | 0 <= i < |prefix + [t]| && FindCustomer(customers, (prefix + [t])[i].customerId).Some?
      ensures HasGroup(r, (prefix + [t])[i].customerId)
    {
      if i < |prefix| {
        var m :| 0 <= m < |groups| && groups[m].customer.id == prefix[i].customerId;
        assert r[m] == groups[m];
      } else {
        assert r[|groups|].customer.id == t.customerId;
      }
    }
  }

  /** A later rental of a customer with a row adds one to that row. */
  lemma BumpStep(groups: seq<Group>, prefix: seq<Transaction>, t: Transaction, customers: seq<Customer>, j: nat)
    requires RowsFaithful(groups, prefix, customers) && RowsComplete(groups, prefix, customers)
    requires DistinctCustomers(groups) && j < |groups| && groups[j].customer.id == t.customerId
    ensures RowsFaithful(groups[j := groups[j].(count := groups[j].count + 1)], prefix + [t], customers)
    ensures RowsComplete(groups[j := groups[j].(count := groups[j].count + 1)], prefix + [t], customers)
  {
    var r := groups[j := groups[j].(count := groups[j].count + 1)];
    forall i | 0 <= i < |groups| ensures r[i].count == CountFor(prefix + [t], r[i].customer.id) {
      CountForSnoc(prefix, t, groups[i].customer.id);
      if i != j {
        assert groups[i].customer.id != groups[j].customer.id;
      }
    }
    assert forall i :: 0 <= i < |prefix| ==> (prefix + [t])[i] == prefix[i];
    forall i | 0 <= i < |prefix + [t]| && FindCustomer(customers, (prefix + [t])[i].customerId).Some?
      ensures HasGroup(r, (prefix + [t])[i].customerId)
    {
      if i < |prefix| {
        var m :| 0 <= m < |groups| && groups[m].customer.id == prefix[i].customerId;
        assert r[m].customer == groups[m].customer;
      } else {
        assert r[j].customer.id == t.customerId;
      }
    }
  }

  /** The grouping loop of `customersWithReturns`: each open rental counts towards its
      customer's row, a row being made, with count zero, the first time a rental names a
      loaded customer; rentals of customers that are not loaded are skipped. */
  method GroupPending(pending: seq<Transaction>, customers: seq<Customer>) returns (groups: seq<Group>)
    ensures DistinctCustomers(groups)
    ensures forall i :: 0 <= i < |groups| ==>
      && FindCustomer(customers, groups[i].customer.id) == Some(groups[i].customer)
      && groups[i].count == CountFor(pending, groups[i].customer.id)
      && groups[i].count > 0
    ensures forall t :: t in pending && FindCustomer(customers, t.customerId).Some? ==> HasGroup(groups, t.customerId)
  {
    groups := [];
    for k := 0 to |pending|
      invariant DistinctCustomers(groups)
      invariant RowsFaithful(groups, pending[..k], customers)
      invariant RowsComplete(groups, pending[..k], customers)
    {
      var t := pending[k];
      assert pending[..k + 1] == pending[..k] + [t];
      var j := GroupIndex(groups, t.customerId);
      if j.None? {
        var cust := FindCustomer(customers, t.customerId);
        if cust.Some? {
          // a new row with count zero, counted at once
          NewRowStep(groups, pending[..k], t, customers, cust.value);
          AddRowKeepsDistinct(groups, Group(cust.value, 1));
          ghost var before := groups;
          groups := groups + [Group(cust.value, 0)];
          var last := |groups| - 1;
          groups := groups[last := groups[last].(count := groups[last].count + 1)];
          assert groups == before + [Group(cust.value, 1)];
        } else {
          SkipStep(groups, pending[..k], t, customers);
        }
      } else {
        BumpStep(groups, pending[..k], t, customers, j.value);
        BumpKeepsDistinct(groups, j.value);
        groups := groups[j.value := groups[j.value].(count := groups[j.value].count + 1)];
      }
    }
    assert pending[..|pending|] == pending;
    forall t | t in pending && FindCustomer(customers, t.customerId).Some? ensures HasGroup(groups, t.customerId) {
      var i :| 0 <= i < |pending| && pending[i] == t;
    }
  }

  /** Keeps the rows whose customer name contains the search term, ignoring case. */
  function NameFilter(groups: seq<Group>, term: string, lower: string -> string): (r: seq<Group>)
    ensures forall g :: g in r <==> g in groups && Contains(lower(g.customer.name), lower(term))
  {
    Filter(groups, (g: Group) => Contains(lower(g.customer.name), lower(term)))
  }

  /** Rows in non-increasing order of count. */
  predicate SortedByCount(groups: seq<Group>)
  {
    forall i, j :: 0 <= i < j < |groups| ==> groups[i].count >= groups[j].count
  }

  /** Places `g` before the first row whose count does not exceed its own. */
  function InsertByCount(g: Group, groups: seq<Group>): (r: seq<Group>)
    ensures multiset(r) == multiset(groups) + multiset{g}
  {
    if |groups| == 0 then [g]
    else if groups[0].count <= g.count then
      [g] + groups
    else
      assert groups == [groups[0]] + groups[1..];
      [groups[0]] + InsertByCount(g, groups[1..])
  }

  /** Two sequences with the same multiset hold the same elements. */
  lemma SameElements(a: seq<Group>, b: seq<Group>)
    requires multiset(a) == multiset(b)
    ensures forall g :: g in a <==> g in b
  {
    forall g ensures g in a <==> g in b {
      assert g in a <==> g in multiset(a);
      assert g in b <==> g in multiset(b);
    }
  }

  /** A row whose count bounds every count of sorted rows can go in front of them. */
  lemma ConsSorted(g: Group, rest: seq<Group>)
    requires SortedByCount(rest) && forall x :: x in rest ==> x.count <= g.count
    ensures SortedByCount([g] + rest)
  {
    var r := [g] + rest;
    forall i, j | 0 <= i < j < |r| ensures r[i].count >= r[j].count {
      assert r[j] == rest[j - 1];
      if i > 0 {
        assert r[i] == rest[i - 1];
      }
    }
  }

  /** Inserting into rows sorted by count keeps them sorted. */
  lemma {:induction false} InsertKeepsSorted(g: Group, groups: seq<Group>)
    requires SortedByCount(groups)
    ensures SortedByCount(InsertByCount(g, groups))
  {
    if |groups| == 0 {
    } else if groups[0].count <= g.count {
      ConsSorted(g, groups);
    } else {
      var tail := groups[1..];
      var rest := InsertByCount(g, tail);
      assert forall i :: 0 <= i < |tail| ==> tail[i] == groups[i + 1];
      InsertKeepsSorted(g, tail);
      forall x | x in rest ensures x.count <= groups[0].count {
        assert x in multiset(rest);
        if x != g {
          assert x in multiset(tail);
        }
      }
      ConsSorted(groups[0], rest);
    }
  }

  /** The stable sort by descending count (`sort((a, b) => b.count - a.count)`). */
  function SortByCount(groups: seq<Group>): (r: seq<Group>)
    ensures multiset(r) == multiset(groups)
    ensures SortedByCount(r)
  {
    if |groups| == 0 then []
    else
      assert groups == [groups[0]] + groups[1..];
      var rest := SortByCount(groups[1..]);
      InsertKeepsSorted(groups[0], rest);
      InsertByCount(groups[0], rest)
  }

  /** Dropping one row keeps customers distinct, and no remaining row has its customer. */
  lemma RemoveKeepsDistinct(a: seq<Group>, k: nat)
    requires DistinctCustomers(a) && k < |a|
    ensures DistinctCustomers(a[..k] + a[k + 1..])
    ensures !HasGroup(a[..k] + a[k + 1..], a[k].customer.id)
  {
    var a' := a[..k] + a[k + 1..];
    assert forall i :: 0 <= i < |a'| ==> a'[i] == a[if i < k then i else i + 1];
    forall i, j | 0 <= i < |a'| && 0 <= j < |a'| && a'[i].customer.id == a'[j].customer.id ensures i == j {
      assert a'[i] == a[if i < k then i else i + 1];
      assert a'[j] == a[if j < k then j else j + 1];
    }
  }

  /** Removing one copy of the same row from two permutations of each other leaves two
      permutations of each other. */
  lemma RemoveMatching(a: seq<Group>, b: seq<Group>, k: nat)
    requires multiset(a) == multiset(b) && 0 < |b| && k < |a| && a[k] == b[|b| - 1]
    ensures multiset(a[..k] + a[k + 1..]) == multiset(b[..|b| - 1])
  {
    var x := a[k];
    var a', b' := a[..k] + a[k + 1..], b[..|b| - 1];
    assert a == a[..k] + [x] + a[k + 1..];
    assert b == b' + [x];
    var ma, mb := multiset(a'), multiset(b');
    assert multiset(a) == ma + multiset{x};
    assert multiset(b) == mb + multiset{x};
    forall y ensures ma[y] == mb[y] {
      assert (ma + multiset{x})[y] == (mb + multiset{x})[y];
    }
  }

  /** A permutation of rows with distinct customers has distinct customers. */
  lemma {:induction false} PermutationKeepsDistinct(a: seq<Group>, b: seq<Group>)
    requires multiset(a) == multiset(b) && DistinctCustomers(a)
    ensures DistinctCustomers(b)
    decreases |b|
  {
    if |b| > 0 {
      var x := b[|b| - 1];
      var b' := b[..|b| - 1];
      assert b == b' + [x];
      assert x in multiset(a);
      var k :| 0 <= k < |a| && a[k] == x;
      var a' := a[..k] + a[k + 1..];
      RemoveMatching(a, b, k);
      RemoveKeepsDistinct(a, k);
      PermutationKeepsDistinct(a', b');
      assert !HasGroup(b', x.customer.id) by {
        forall m | 0 <= m < |b'| ensures b'[m].customer.id != x.customer.id {
          assert b'[m] in multiset(a');
        }
      }
      AddRowKeepsDistinct(b', x);
    }
  }

  /** The customer a loaded row shows for an open rental whose name matches the search. */
  predicate ListedCustomer(customers: seq<Customer>, id: string, term: string, lower: string -> string)
  {
    var c := FindCustomer(customers, id);
    c.Some? && Contains(lower(c.value.name), lower(term))
  }

  /** `customersWithReturns`: one row per loaded customer holding open rentals, with the number
      they hold, keeping the rows whose name matches the search, most rentals first. */
  method CustomersWithReturns(transactions: seq<Transaction>, customers: seq<Customer>, term: string,
                              lower: string -> string)
    returns (rows: seq<Group>)
    ensures DistinctCustomers(rows)
    ensures SortedByCount(rows)
    ensures forall g :: g in rows ==>
      && FindCustomer(customers, g.customer.id) == Some(g.customer)
      && g.count == CountFor(PendingTransactions(transactions), g.customer.id)
      && g.count > 0
      && Contains(lower(g.customer.name), lower(term))
    ensures forall t :: t in transactions && t.status == Pending && ListedCustomer(customers, t.customerId, term, lower) ==>
      HasGroup(rows, t.customerId)
  {
    var pending := PendingTransactions(transactions);
    var groups := GroupPending(pending, customers);
    var matching := NameFilter(groups, term, lower);
    assert DistinctKeys(groups, CustomerIdOf) by {
      assert forall g :: CustomerIdOf(g) == g.customer.id;
    }
    FilterKeepsDistinct(groups, (g: Group) => Contains(lower(g.customer.name), lower(term)), CustomerIdOf);
    assert DistinctCustomers(matching) by {
      assert DistinctKeys(matching, CustomerIdOf);
      assert forall g :: CustomerIdOf(g) == g.customer.id;
    }
    rows := SortByCount(matching);
    PermutationKeepsDistinct(matching, rows);
    SameElements(matching, rows);
    forall t | t in transactions && t.status == Pending && ListedCustomer(customers, t.customerId, term, lower)
      ensures HasGroup(rows, t.customerId)
    {
      assert t in pending;
      var i :| 0 <= i < |groups| && groups[i].customer.id == t.customerId;
      assert groups[i] in matching;
      var k :| 0 <= k < |rows| && rows[k] == groups[i];
    }
  }

  // ---------------------------------------------------------------------------
  // Returning a battery

  /** The battery query `where batteryNumber == n, limit 1`: the position of the first battery,
      in the store's document order, that carries the number. */
  function FirstWithNumber(bs: seq<Battery>, number: string): (r: Option<nat>)
    ensures r.None? <==> forall k :: 0 <= k < |bs| ==> bs[k].batteryNumber != number
    ensures r.Some? ==> r.value < |bs| && bs[r.value].batteryNumber == number
                        && forall j :: 0 <= j < r.value ==> bs[j].batteryNumber != number
  {
    if |bs| == 0 then None
    else if bs[0].batteryNumber == number then Some(0)
    else
      var r := FirstWithNumber(bs[1..], number);
      assert forall k :: 1 <= k < |bs| ==> bs[k] == bs[1..][k - 1];
      if r.None? then None else Some(r.value + 1)
  }

  /** The return batch: close the rental, and free the first battery with its number if the
      query found one. */
  function ReturnOps(trans: Transaction, bs: seq<Battery>, now: Timestamp): seq<WriteOp>
  {
    [MarkTransactionReturned(trans.id, now)]
      + match FirstWithNumber(bs, trans.batteryNumber)
        case None => []
        case Some(k) => [UpdateBatteryStatus(bs[k].id, Available)]
  }

  /** The store after a successful return. */
  function ReturnedDb(db: Db, trans: Transaction, now: Timestamp): Db
  {
    var bs := match FirstWithNumber(db.batteries, trans.batteryNumber)
              case None => db.batteries
              case Some(k) => SetBatteryStatus(db.batteries, db.batteries[k].id, Available);
    db.(transactions := MarkReturned(db.transactions, trans.id, now), batteries := bs)
  }

  /** A return closes exactly the returned rental, frees only the first battery with its number
      (when battery ids are unique) or, when none carries it, leaves every battery alone. */
  lemma ReturnedChangesOnlyItsRecords(db: Db, trans: Transaction, now: Timestamp)
    requires UniqueBatteryIds(db.batteries)
    ensures var r := ReturnedDb(db, trans, now);
      && r.customers == db.customers && r.settings == db.settings
      && |r.transactions| == |db.transactions|
      && (forall i :: 0 <= i < |db.transactions| ==>
            r.transactions[i] == if db.transactions[i].id == trans.id
                                 then db.transactions[i].(status := TransactionStatus.Returned, dateReturned := Some(now))
                                 else db.transactions[i])
      && |r.batteries| == |db.batteries|
      && match FirstWithNumber(db.batteries, trans.batteryNumber)
         case None => r.batteries == db.batteries
         case Some(k) => forall i :: 0 <= i < |db.batteries| ==>
                           r.batteries[i] == if i == k then db.batteries[i].(status := Available) else db.batteries[i]
  {
  }

  /** The return batch applies, all or nothing: it succeeds exactly when the rental's document
      exists, whether or not a battery matched, and then yields `ReturnedDb`. */
  lemma ApplyReturnOps(db: Db, trans: Transaction, now: Timestamp)
    ensures ApplyBatch(db, ReturnOps(trans, db.batteries, now))
            == if HasTransaction(db.transactions, trans.id) then Some(ReturnedDb(db, trans, now)) else None
  {
    var ops := ReturnOps(trans, db.batteries, now);
    assert ops[0] == MarkTransactionReturned(trans.id, now);
    if HasTransaction(db.transactions, trans.id) {
      var d := db.(transactions := MarkReturned(db.transactions, trans.id, now));
      assert ApplyOp(db, ops[0]) == Some(d);
      match FirstWithNumber(db.batteries, trans.batteryNumber)
      case None =>
        assert ops[1..] == [];
      case Some(k) =>
        var id := db.batteries[k].id;
        assert ops[1..] == [UpdateBatteryStatus(id, Available)];
        assert d.batteries[k].id == id;
        var d3 := d.(batteries := SetBatteryStatus(d.batteries, id, Available));
        assert ApplyOp(d, ops[1..][0]) == Some(d3);
        assert ops[1..][1..] == [];
        assert ApplyBatch(d, ops[1..]) == ApplyBatch(d3, []);
    }
  }

  /** `handleReturnBattery`. The battery lookup may fail (`lookupOk` false) and the store may
      refuse the commit (`delivered` false); either way, or when the rental's document is gone,
      nothing is written and the failure is reported. On success the store becomes `ReturnedDb`,
      the notice names the battery number, and the detail view closes when it listed at most
      one rental (`shown`, counted before the return). */
  method SubmitReturn(db: Db, trans: Transaction, now: Timestamp, lookupOk: bool, delivered: bool, shown: nat)
    returns (after: Db, notice: Notice, closeDetail: bool)
    ensures lookupOk && delivered && HasTransaction(db.transactions, trans.id) ==>
      && after == ReturnedDb(db, trans, now)
      && notice == Notice(Success, BatteryReturned(trans.batteryNumber))
      && closeDetail == (shown <= 1)
    ensures !(lookupOk && delivered && HasTransaction(db.transactions, trans.id)) ==>
      after == db && notice == Notice(Error, ReturnFailed) && !closeDetail
  {
    var batch := [MarkTransactionReturned(trans.id, now)];
    if !lookupOk {
      return db, Notice(Error, ReturnFailed), false;
    }
    var hit := FirstWithNumber(db.batteries, trans.batteryNumber);
    if hit.Some? {
      batch := batch + [UpdateBatteryStatus(db.batteries[hit.value].id, Available)];
    }
    assert batch == ReturnOps(trans, db.batteries, now);
    ApplyReturnOps(db, trans, now);
    var result := Commit(db, batch, delivered);
    if result.None? {
      return db, Notice(Error, ReturnFailed), false;
    }
    after, notice := result.value, Notice(Success, BatteryReturned(trans.batteryNumber));
    closeDetail := shown <= 1;
  }

  /** The page's state: which customer's detail view is open. */
  class ReturnBatteryPage {
    var selectedCustomerId: Option<string>

    constructor ()
      ensures selectedCustomerId.None?
    {
      selectedCustomerId := None;
    }

    /** Clicking a row opens that customer's rentals; the close button passes `None`. */
    method SelectCustomer(id: Option<string>)
      modifies this
      ensures selectedCustomerId == id
    {
      selectedCustomerId := id;
    }

    /** Tapping one offered rental. The detail list is the one shown before the return. */
    method HandleReturn(db: Db, cached: seq<Transaction>, trans: Transaction, now: Timestamp,
                        lookupOk: bool, delivered: bool)
      returns (after: Db, notice: Notice)
      modifies this
      ensures var shown := SelectedCustomerTransactions(PendingTransactions(cached), old(selectedCustomerId));
              var ok := lookupOk && delivered && HasTransaction(db.transactions, trans.id);
              && (ok ==> after == ReturnedDb(db, trans, now) && notice == Notice(Success, BatteryReturned(trans.batteryNumber)))
              && (!ok ==> after == db && notice == Notice(Error, ReturnFailed))
              && selectedCustomerId == if ok && |shown| <= 1 then None else old(selectedCustomerId)
    {
      var shown := SelectedCustomerTransactions(PendingTransactions(cached), selectedCustomerId);
      var close: bool;
      after, notice, close := SubmitReturn(db, trans, now, lookupOk, delivered, |shown|);
      if close {
        selectedCustomerId := None;
      }
    }
  }
}
