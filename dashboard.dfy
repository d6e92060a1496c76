/** The dashboard's four figures, computed from the cached view. */
module Dashboard {
  import opened Types
  import opened Seqs
  import opened Store
  import opened DataContext

  datatype Stats = Stats(total: nat, available: nat, rented: nat, pendingReturns: nat)

  /** The number of batteries with status `st`. */
  function StatusCount(bs: seq<Battery>, st: BatteryStatus): (n: nat)
    ensures n <= |bs|
    ensures n == 0 <==> forall b :: b in bs ==> b.status != st
  {
    var r := Filter(bs, (b: Battery) => b.status == st);
    assert |r| > 0 ==> r[0] in r;
    |r|
  }

  /** The number of open rentals. */
  function PendingTotal(txs: seq<Transaction>): (n: nat)
    ensures n <= |txs|
    ensures n == 0 <==> forall t :: t in txs ==> t.status != Pending
  {
    var r := Filter(txs, (t: Transaction) => t.status == Pending);
    assert |r| > 0 ==> r[0] in r;
    |r|
  }

  /** Total, Available, Given (rented) and open rentals of the view. */
  function DashboardStats(v: View): (s: Stats)
    ensures s.total == |v.batteries|
    ensures s.available == 0 <==> forall b :: b in v.batteries ==> b.status != Available
    ensures s.rented == 0 <==> forall b :: b in v.batteries ==> b.status != Given
    ensures s.pendingReturns == 0 <==> forall t :: t in v.transactions ==> t.status != Pending
  {
    Stats(|v.batteries|, StatusCount(v.batteries, Available), StatusCount(v.batteries, Given),
          PendingTotal(v.transactions))
  }

  /** The three statuses partition the inventory. */
  lemma {:induction false} StatusCountsPartition(bs: seq<Battery>)
    ensures StatusCount(bs, Available) + StatusCount(bs, Given) + StatusCount(bs, BatteryStatus.Returned) == |bs|
  {
    if |bs| > 0 {
      StatusCountsPartition(bs[1..]);
    }
  }

  /** Available and rented never exceed the total, and they make it up exactly when no
      battery is in the never-assigned Returned status. */
  lemma AvailablePlusRented(v: View)
    ensures var s := DashboardStats(v);
      && s.available + s.rented <= s.total
      && (s.available + s.rented == s.total <==> forall b :: b in v.batteries ==> b.status != BatteryStatus.Returned)
  {
    StatusCountsPartition(v.batteries);
  }

  /** Under a specific market the open-rentals figure counts exactly that market's open
      rentals in the store; under 'All' it counts every open rental. */
  lemma PendingReturnsOfMarket(db: Db, market: string)
    ensures market != AllMarkets ==>
      DashboardStats(Visible(db, market)).pendingReturns
      == |Filter(db.transactions, (t: Transaction) => t.market == market && t.status == Pending)|
    ensures market == AllMarkets ==>
      DashboardStats(Visible(db, market)).pendingReturns == PendingTotal(db.transactions)
  {
    if market != AllMarkets {
      FilterFilter(db.transactions, (t: Transaction) => InScope(market, t.market),
                   (t: Transaction) => t.status == Pending,
                   (t: Transaction) => t.market == market && t.status == Pending);
    }
  }
}
