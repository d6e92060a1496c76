/** The segment-scoped view and the live synchronisation state shared by every page: the
    market-filtered queries, and the provider whose caches the store's snapshots replace. */
module DataContext {
  import opened Types
  import opened Seqs
  import opened Store

  /** What the pages read: the three cached collections. */
  datatype View = View(customers: seq<Customer>, batteries: seq<Battery>, transactions: seq<Transaction>)

  /** A record of market `recordMarket` is in scope of the selected `market`. */
  predicate InScope(market: string, recordMarket: string)
  {
    market == AllMarkets || recordMarket == market
  }

  /** The customers query: active customers, of the selected market unless it is 'All'. */
  function CustomersQuery(customers: seq<Customer>, market: string): (r: seq<Customer>)
    ensures forall c :: c in r ==> c.isActive == 1
    ensures forall c :: c in r <==> c in customers && c.isActive == 1 && InScope(market, c.market)
  {
    Filter(customers, (c: Customer) => c.isActive == 1 && InScope(market, c.market))
  }

  /** The transactions query: those of the selected market unless it is 'All'. */
  function TransactionsQuery(txs: seq<Transaction>, market: string): (r: seq<Transaction>)
    ensures market != AllMarkets ==> forall t :: t in r <==> t in txs && t.market == market
    ensures market == AllMarkets ==> r == txs
  {
    var inScope := (t: Transaction) => InScope(market, t.market);
    var r := Filter(txs, inScope);
    if market == AllMarkets then FilterAll(txs, inScope); r else r
  }

  /** The records visible under `market`. Batteries are one global pool and never filtered. */
  function Visible(db: Db, market: string): (v: View)
    ensures v.batteries == db.batteries
    ensures forall c :: c in v.customers ==> c in db.customers && c.isActive == 1
    ensures market != AllMarkets ==>
      && (forall c :: c in v.customers <==> c in db.customers && c.isActive == 1 && c.market == market)
      && (forall t :: t in v.transactions <==> t in db.transactions && t.market == market)
    ensures market == AllMarkets ==>
      && (forall c :: c in v.customers <==> c in db.customers && c.isActive == 1)
      && v.transactions == db.transactions
  {
    View(CustomersQuery(db.customers, market), db.batteries, TransactionsQuery(db.transactions, market))
  }

  /** Changing market changes the customers and transactions in view, never the batteries. */
  lemma MarketChangeKeepsBatteries(db: Db, from: string, to: string)
    ensures Visible(db, from).batteries == Visible(db, to).batteries == db.batteries
  {
  }

  /** `localStorage.getItem('brm_market') || 'All'`. */
  function InitialMarket(stored: Option<string>): (m: string)
    ensures m != ""
    ensures stored.Some? && stored.value != "" ==> m == stored.value
    ensures stored.None? || stored.value == "" ==> m == AllMarkets
  {
    if stored.Some? && stored.value != "" then stored.value else AllMarkets
  }

  /** The market list after a settings snapshot: replaced only when the document exists and
      its `value` field is present (any array, even an empty one, is truthy). */
  function MarketsAfter(markets: seq<string>, settings: Option<SettingsDoc>): (r: seq<string>)
    ensures settings.Some? && settings.value.value.Some? ==> r == settings.value.value.value
    ensures settings.None? || settings.value.value.None? ==> r == markets
  {
    match settings
    case Some(SettingsDoc(Some(value))) => value
    case _ => markets
  }

  /** One live subscription. The customer and transaction queries capture their market. */
  datatype Listener =
    | SettingsListener
    | CustomersListener(market: string)
    | BatteriesListener
    | TransactionsListener(market: string)

  datatype ListenerEvent = Subscribed(listener: Listener) | Unsubscribed(listener: Listener)

  /** The four subscriptions one effect run establishes, in the order it makes them. */
  function ListenersFor(market: string): seq<Listener>
  {
    [SettingsListener, CustomersListener(market), BatteriesListener, TransactionsListener(market)]
  }

  function Unsubscriptions(ls: seq<Listener>): (r: seq<ListenerEvent>)
    ensures |r| == |ls| && forall i :: 0 <= i < |ls| ==> r[i] == Unsubscribed(ls[i])
  {
    seq(|ls|, i requires 0 <= i < |ls| => Unsubscribed(ls[i]))
  }

  function Subscriptions(ls: seq<Listener>): (r: seq<ListenerEvent>)
    ensures |r| == |ls| && forall i :: 0 <= i < |ls| ==> r[i] == Subscribed(ls[i])
  {
    seq(|ls|, i requires 0 <= i < |ls| => Subscribed(ls[i]))
  }

  /** The provider's state. The caches are written only by snapshot deliveries; `listeners`
      are the live subscriptions and `events` records every subscribe and unsubscribe. */
  class DataProvider {
    var customers: seq<Customer>
    var batteries: seq<Battery>
    var transactions: seq<Transaction>
    var markets: seq<string>
    var currentMarket: string
    var loading: bool
    var isAuthenticated: bool
    /** The value persisted in local storage under the key `brm_market`. */
    var storedMarket: Option<string>
    var listeners: seq<Listener>
    var events: seq<ListenerEvent>

    /** Subscriptions exist exactly while signed in, and they follow the current market. */
    ghost predicate Valid()
      reads this
    {
      listeners == if isAuthenticated then ListenersFor(currentMarket) else []
    }

    function Cache(): View
      reads this
    {
      View(customers, batteries, transactions)
    }

    /** The provider as first rendered: empty caches, default markets, the stored market,
        loading, signed out and therefore without subscriptions. */
    constructor (stored: Option<string>)
      ensures Valid()
      ensures customers == [] && batteries == [] && transactions == []
      ensures markets == DefaultMarkets && currentMarket == InitialMarket(stored) && storedMarket == stored
      ensures loading && !isAuthenticated && listeners == [] && events == []
    {
      customers, batteries, transactions := [], [], [];
      markets := DefaultMarkets;
      currentMarket := InitialMarket(stored);
      storedMarket := stored;
      loading, isAuthenticated := true, false;
      listeners, events := [], [];
    }

    /** The subscription effect re-run after its inputs changed: the previous run's cleanup
        unsubscribes all of its listeners, then, when signed in, the four new ones are made
        and `loading` becomes true. */
    method RerunEffect()
      modifies this`listeners, this`events, this`loading
      ensures Valid()
      ensures events == old(events) + Unsubscriptions(old(listeners))
                        + (if isAuthenticated then Subscriptions(ListenersFor(currentMarket)) else [])
      ensures loading == (isAuthenticated || old(loading))
    {
      events := events + Unsubscriptions(listeners);
      listeners := [];
      if isAuthenticated {
        listeners := ListenersFor(currentMarket);
        events := events + Subscriptions(listeners);
        loading := true;
      }
    }

    /** The authentication callback: signing out also clears `loading`. The effect re-runs
        only when the signed-in state actually changes. */
    method OnAuthStateChanged(signedIn: bool)
      requires Valid()
      modifies this`isAuthenticated, this`loading, this`listeners, this`events
      ensures Valid()
      ensures isAuthenticated == signedIn
      ensures !signedIn ==> listeners == [] && !loading
      ensures signedIn && !old(isAuthenticated) ==> listeners == ListenersFor(currentMarket) && loading
      ensures signedIn && old(isAuthenticated) ==> loading == old(loading)
      ensures signedIn == old(isAuthenticated) ==> events == old(events) && listeners == old(listeners)
      ensures signedIn != old(isAuthenticated) ==>
        events == old(events) + Unsubscriptions(old(listeners))
                  + (if signedIn then Subscriptions(ListenersFor(currentMarket)) else [])
    {
      var changed := signedIn != isAuthenticated;
      isAuthenticated := signedIn;
      if !signedIn {
        loading := false;
      }
      if changed {
        RerunEffect();
      }
    }

    /** `setMarket(m)`: select `m` and persist it. When `m` differs from the current market,
        every listener is torn down before the new market's are made. */
    method SetMarket(m: string)
      requires Valid()
      modifies this`currentMarket, this`storedMarket, this`loading, this`listeners, this`events
      ensures Valid()
      ensures currentMarket == m && storedMarket == Some(m)
      ensures m == old(currentMarket) ==> events == old(events) && loading == old(loading)
      ensures m != old(currentMarket) ==>
        events == old(events) + Unsubscriptions(old(listeners))
                  + (if isAuthenticated then Subscriptions(ListenersFor(m)) else [])
      ensures m != old(currentMarket) && isAuthenticated ==> loading
      ensures !isAuthenticated ==> loading == old(loading)
    {
      var changed := m != currentMarket;
      currentMarket := m;
      storedMarket := Some(m);
      if changed {
        RerunEffect();
      } else {
        assert Valid();
      }
    }

    /** A settings snapshot. */
    method OnSettingsSnapshot(db: Db)
      requires Valid() && SettingsListener in listeners
      modifies this`markets
      ensures Valid()
      ensures markets == MarketsAfter(old(markets), db.settings)
    {
      markets := MarketsAfter(markets, db.settings);
    }

    /** A customers snapshot replaces the customer cache with the query's whole result. */
    method OnCustomersSnapshot(db: Db)
      requires Valid() && CustomersListener(currentMarket) in listeners
      modifies this`customers
      ensures Valid()
      ensures customers == Visible(db, currentMarket).customers
    {
      customers := CustomersQuery(db.customers, currentMarket);
    }

    /** A batteries snapshot replaces the battery cache with the whole global inventory. */
    method OnBatteriesSnapshot(db: Db)
      requires Valid() && BatteriesListener in listeners
      modifies this`batteries
      ensures Valid()
      ensures batteries == Visible(db, currentMarket).batteries
    {
      batteries := db.batteries;
    }

    /** A transactions snapshot replaces the transaction cache and settles `loading`. */
    method OnTransactionsSnapshot(db: Db)
      requires Valid() && TransactionsListener(currentMarket) in listeners
      modifies this`transactions, this`loading
      ensures Valid()
      ensures transactions == Visible(db, currentMarket).transactions && !loading
    {
      transactions := TransactionsQuery(db.transactions, currentMarket);
      loading := false;
    }
  }

  /** Switching from one market to another while signed in: the old market's listeners are
      unsubscribed first and the new market's are made. */
  method SwitchMarketScenario(from: string, to: string) returns (p: DataProvider)
    requires from != to && from != "" && to != AllMarkets
    ensures fresh(p) && p.Valid() && p.isAuthenticated && p.currentMarket == to
  {
    p := new DataProvider(Some(from));
    p.OnAuthStateChanged(true);
    ghost var before, live := p.events, p.listeners;
    assert live == ListenersFor(from);
    p.SetMarket(to);
    assert p.events == before + Unsubscriptions(ListenersFor(from)) + Subscriptions(ListenersFor(to));
  }

  /** After the switch, the new snapshots hold only the new market's records, and the battery
      cache equals the store's inventory whatever the market. */
  method SwitchMarketSnapshots(db: Db, from: string, to: string)
    requires from != to && from != "" && to != AllMarkets
  {
    var p := SwitchMarketScenario(from, to);
    p.OnCustomersSnapshot(db);
    p.OnBatteriesSnapshot(db);
    p.OnTransactionsSnapshot(db);
    assert p.Cache() == Visible(db, to) && !p.loading;
  }
}
