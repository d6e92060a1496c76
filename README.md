# Battery rental inventory: a Dafny model

This project models the bookkeeping core of a small battery rental app. Staff lend
batteries to customers of a weekly market and take them back. The app keeps three
collections in a document store:

- customers;
- batteries, each `Available`, `Given` or `Returned`;
- transactions, each `Pending` or `Returned`. A transaction names its customer by id and its
  battery by battery number, not by battery id.

The model covers:

- the records (`Types`, with the user notices in `Notices`);
- the document store as a value with all-or-nothing batches (`Store`);
- the market-scoped view and the live-subscription provider (`DataContext`);
- the lend page (`GiveBattery`);
- the return page (`ReturnBattery`);
- the dashboard counts (`Dashboard`);
- the two list helpers, `naturalSort` and `chunkArray` (`Helpers`);
- the inventory invariant across lend and return (`Inventory`).

How the code is modelled:

- **Store.** The store is a value of type `Store.Db`. A write batch is a sequence of
  `Store.WriteOp`. Applying a batch either yields the new store or fails as a whole. A batch
  fails when one of its updates addresses a missing document. A batch whose commit is not
  delivered leaves the store unchanged.
- **Outside the model.** Three things are inputs to the workflows:
  - document ids the store allocates, as `newIds` with their freshness as a precondition;
  - server timestamps, as `now`;
  - whether the network delivered the commit or the lookup, as `delivered` and `lookupOk`.
- **Page state.** Page state that the source keeps in React state becomes a class whose fields
  the handlers update: `DataContext.DataProvider`, `GiveBattery.GiveBatteryForm` and
  `ReturnBattery.ReturnBatteryPage`.
- **Loops.** The loops of the source are methods with loop invariants, each proved against a
  specification function. These are building the lend batch, grouping pending returns by
  customer, the `naturalSort` part loop and the `chunkArray` loop.
- **Library functions.** `toLowerCase` and `localeCompare` are parameters the model does not
  interpret.

The inventory invariant `Store.Consistent` says three things:

- battery ids, battery numbers and transaction ids are unique;
- no battery number has more than one `Pending` transaction;
- a battery is `Given` exactly when one `Pending` transaction carries its number.

The model proves these facts about it:

- **Lending keeps the invariant.** This holds when the selected batteries exist in the store and
  are `Available` there.
- **Returning a `Pending` rental keeps the invariant.** This includes the case where no battery
  carries the rental's number: the transaction is closed and no battery changes.
- **Two sequential lends of one battery break it.** The code does not re-check the status at
  commit time, so both lends go through and leave two `Pending` transactions on that battery.
- **Returning an already `Returned` rental can break it.** This happens when the battery has since
  been lent again. The code marks the rental again and frees the battery. Its newer rental is
  then still `Pending` against an `Available` battery.

A stricter return would refuse a rental that is already `Returned`, or do nothing. The code
does neither, and the model follows the code (`Inventory.StaleReturnBreaksConsistency`).

A second invariant, `Store.ReturnDatesMatch`, says a transaction has a return date exactly
when it is `Returned`. Both lending and returning keep it.

`Inventory` ends with a worked example. Two batteries are lent to one customer and one of them
is returned. `Inventory.LendScenario` and `Inventory.ReturnScenario` check that example against
the workflow methods. `DataContext.SwitchMarketScenario` and `DataContext.SwitchMarketSnapshots`
follow one market switch of the provider.

## Model

| member | source | states |
|---|---|---|
| DataContext.CustomersQuery | contexts/DataContext.tsx:72-80 | the customers query holds exactly the active customers (`isActive == 1`) of the selected market, or of every market under 'All' |
| DataContext.TransactionsQuery | contexts/DataContext.tsx:74-80 | outside 'All' the transactions query holds exactly those of the selected market; under 'All' it is the whole collection |
| DataContext.Visible | contexts/DataContext.tsx:72-93 | the view has only active customers; outside 'All' customers and transactions are exactly those of the market; batteries are always the whole inventory |
| DataContext.MarketChangeKeepsBatteries | contexts/DataContext.tsx:86-88 | the battery view is the same under any two markets and equals the store's inventory |
| DataContext.InitialMarket | contexts/DataContext.tsx:38 | the first market is the stored value when present and non-empty, otherwise 'All'; it is never empty |
| DataContext.MarketsAfter | contexts/DataContext.tsx:64-68 | the market list is replaced by the settings value exactly when the document exists and has the field; otherwise it is kept |
| DataContext.DataProvider.constructor | contexts/DataContext.tsx:34-40 | empty caches, the four default markets, the stored market, loading, signed out, no subscriptions |
| DataContext.DataProvider.RerunEffect | contexts/DataContext.tsx:59-101 | every previous listener is unsubscribed before the four new ones are made; new ones exist only while signed in, and then loading is set |
| DataContext.DataProvider.OnAuthStateChanged | contexts/DataContext.tsx:51-57 | isAuthenticated follows the callback; signing out clears loading and all listeners; the subscriptions are rebuilt only when the signed-in state changes; a repeated sign-in leaves loading as it was |
| DataContext.DataProvider.SetMarket | contexts/DataContext.tsx:103-106 | the market becomes `m` and `m` is persisted; a real change tears down all listeners before the new market's are made; an unchanged market records no event; while signed out loading is left as it was |
| DataContext.DataProvider.OnSettingsSnapshot | contexts/DataContext.tsx:64-68 | the market list becomes MarketsAfter of the old list and the settings document |
| DataContext.DataProvider.OnCustomersSnapshot | contexts/DataContext.tsx:82-84 | the customer cache is replaced wholesale by the visible customers of the current market |
| DataContext.DataProvider.OnBatteriesSnapshot | contexts/DataContext.tsx:86-88 | the battery cache is replaced wholesale by the global inventory |
| DataContext.DataProvider.OnTransactionsSnapshot | contexts/DataContext.tsx:90-93 | the transaction cache is replaced wholesale by the visible transactions and loading becomes false |
| Store.SetBatteryStatus | components/pages/GiveBattery.tsx:84-85 | a status update changes the status of the battery documents with that id only, and nothing else |
| Store.MarkReturned | components/pages/ReturnBattery.tsx:54-58 | marking returned changes only the transaction with that id, to Returned with the return time |
| Store.ApplyOp | components/pages/GiveBattery.tsx:74-85 | a write fails exactly when it updates a missing document; customers and settings never change |
| Store.ApplyBatchAppend | components/pages/GiveBattery.tsx:88 | a batch is applied write by write and fails as a whole once one write fails |
| Store.Commit | components/pages/GiveBattery.tsx:88 | a commit that is not delivered applies nothing |
| GiveBattery.AvailableBatteries | components/pages/GiveBattery.tsx:40-44 | the offered batteries are exactly the Available ones of the global inventory |
| GiveBattery.PendingCustomerIds | components/pages/GiveBattery.tsx:35-37 | an id is flagged exactly when some Pending transaction has that customer |
| GiveBattery.FilteredCustomers | components/pages/GiveBattery.tsx:24-32 | under 'All' the list is empty; otherwise it holds exactly the customers whose lowered name contains the lowered term or whose mobile contains the term |
| GiveBattery.EmptySearchListsAll | components/pages/GiveBattery.tsx:27-30 | with an empty search term every customer in view is listed |
| GiveBattery.PageScreen | components/pages/GiveBattery.tsx:97-115 | the market picker with the market list is shown exactly under 'All'; otherwise the form lists the matching customers and exactly the Available batteries |
| GiveBattery.WithBattery | components/pages/GiveBattery.tsx:46-50 | selecting an already selected id changes nothing, otherwise the battery is appended; the id is then selected and ids stay unique |
| GiveBattery.WithoutBattery | components/pages/GiveBattery.tsx:52-54 | removing an id drops exactly the entries with that id and keeps unique ids unique |
| GiveBattery.WithoutAbsent | components/pages/GiveBattery.tsx:52-54 | removing an id that is not selected leaves the selection as it was |
| GiveBattery.WithoutAppend | components/pages/GiveBattery.tsx:53 | removal keeps the order of the remaining entries (it distributes over concatenation) |
| GiveBattery.SelectThenRemove | components/pages/GiveBattery.tsx:46-54 | selecting a new battery and removing it again restores the selection |
| GiveBattery.GiveBatteryForm.constructor | components/pages/GiveBattery.tsx:15-16 | no customer and no batteries selected |
| GiveBattery.GiveBatteryForm.SelectCustomer | components/pages/GiveBattery.tsx:138 | the clicked customer becomes the selected customer |
| GiveBattery.GiveBatteryForm.SelectBattery | components/pages/GiveBattery.tsx:46-50 | the selection becomes WithBattery of the old one and keeps unique ids |
| GiveBattery.GiveBatteryForm.RemoveBattery | components/pages/GiveBattery.tsx:52-54 | the selection becomes WithoutBattery of the old one and keeps unique ids |
| GiveBattery.GiveBatteryForm.Submit | components/pages/GiveBattery.tsx:56-95 | submitting the form's customer and selection has the outcomes of SubmitLend, and the submitted selection holds no id twice |
| GiveBattery.NewTransaction | components/pages/GiveBattery.tsx:73-81 | a new rental has the allocated id, the customer, the battery's number, the current market and the commit time; it has no return date and is Pending |
| GiveBattery.NewTransactions | components/pages/GiveBattery.tsx:71-81 | one new rental per selected battery, in selection order |
| GiveBattery.MarkGiven | components/pages/GiveBattery.tsx:83-85 | exactly the batteries whose id is chosen become Given |
| GiveBattery.LentChangesOnlySelection | components/pages/GiveBattery.tsx:71-86 | a lend keeps customers, settings and the old transactions; it appends one Pending rental per selected battery and turns exactly the selected batteries Given |
| GiveBattery.LentExtends | components/pages/GiveBattery.tsx:71-86 | each further selected battery adds its rental and one status update to the result so far |
| GiveBattery.ApplyLendOps | components/pages/GiveBattery.tsx:67-88 | the batch succeeds exactly when every selected battery still exists, and it then yields the lent store; otherwise nothing is written |
| GiveBattery.SubmitLend | components/pages/GiveBattery.tsx:56-95 | an empty customer fails first and an empty selection second, both without writes; a delivered commit whose batteries exist lends and reports the selection size; any other failure writes nothing and reports an error |
| ReturnBattery.PendingTransactions | components/pages/ReturnBattery.tsx:17 | exactly the Pending transactions in view |
| ReturnBattery.SelectedCustomerTransactions | components/pages/ReturnBattery.tsx:43-46 | empty without a selected customer; otherwise exactly the given transactions of that customer |
| ReturnBattery.OfferedForReturn | components/pages/ReturnBattery.tsx:43-46 | the detail view offers exactly the Pending transactions of the selected customer |
| ReturnBattery.FindCustomer | components/pages/ReturnBattery.tsx:25 | None exactly when no customer has the id; otherwise the first customer with that id |
| ReturnBattery.GroupPending | components/pages/ReturnBattery.tsx:21-33 | at most one row per customer; each row shows the first loaded customer with that id and counts all of its pending transactions (more than zero); a pending transaction whose customer is loaded always has a row; one whose customer is missing is skipped |
| ReturnBattery.NameFilter | components/pages/ReturnBattery.tsx:36-38 | keeps exactly the rows whose lowered customer name contains the lowered term |
| ReturnBattery.InsertByCount | components/pages/ReturnBattery.tsx:39 | inserting a row is a permutation of the rows plus that row |
| ReturnBattery.InsertKeepsSorted | components/pages/ReturnBattery.tsx:39 | inserting into rows in non-increasing count order keeps that order |
| ReturnBattery.SortByCount | components/pages/ReturnBattery.tsx:39 | the sorted rows are a permutation of the input in non-increasing count order |
| ReturnBattery.PermutationKeepsDistinct | components/pages/ReturnBattery.tsx:35-39 | reordering rows keeps at most one row per customer |
| ReturnBattery.CustomersWithReturns | components/pages/ReturnBattery.tsx:20-40 | rows are distinct per customer and sorted by count; each shows its customer's pending count and matches the term; every listed customer with a pending return has a row |
| ReturnBattery.FirstWithNumber | components/pages/ReturnBattery.tsx:62-63 | the lookup finds the first battery with the rental's number, or None when no battery has it |
| ReturnBattery.ReturnedChangesOnlyItsRecords | components/pages/ReturnBattery.tsx:53-68 | a return closes exactly that transaction with the return time and makes only the first battery with its number Available; without a match no battery changes |
| ReturnBattery.ApplyReturnOps | components/pages/ReturnBattery.tsx:51-70 | the return batch succeeds exactly when the transaction document exists, and it then yields the returned store |
| ReturnBattery.SubmitReturn | components/pages/ReturnBattery.tsx:48-82 | a successful lookup and commit returns and reports the battery; the detail view closes when at most one rental was shown; any failure writes nothing and reports an error |
| ReturnBattery.ReturnBatteryPage.constructor | components/pages/ReturnBattery.tsx:14 | no customer is selected |
| ReturnBattery.ReturnBatteryPage.SelectCustomer | components/pages/ReturnBattery.tsx:105 | the clicked customer becomes the selected customer |
| ReturnBattery.ReturnBatteryPage.HandleReturn | components/pages/ReturnBattery.tsx:48-82 | a successful return writes the returned store and reports "Battery <number> returned"; a failure writes nothing and reports "Return failed"; the selection is cleared exactly when the return succeeded and the open detail view showed at most one rental |
| Dashboard.StatusCount | components/pages/Dashboard.tsx:15-17 | the count is at most the inventory size and is zero exactly when no battery has the status |
| Dashboard.PendingTotal | components/pages/Dashboard.tsx:20 | the count is at most the list size and is zero exactly when no transaction is Pending |
| Dashboard.DashboardStats | components/pages/Dashboard.tsx:13-20 | total is the inventory size; each other count is zero exactly when nothing has its status |
| Dashboard.StatusCountsPartition | components/pages/Dashboard.tsx:13-17 | the Available, Given and Returned counts add up to the total |
| Dashboard.AvailablePlusRented | components/pages/Dashboard.tsx:13-17 | available plus rented is at most the total, with equality exactly when no battery is Returned |
| Dashboard.PendingReturnsOfMarket | components/pages/Dashboard.tsx:19-20 | pending returns count the Pending transactions of the selected market, or of all markets under 'All' |
| Helpers.SplitDigitRunsShape | utils/helpers.ts:9-11 | splitting on digit runs alternates digit-free parts (even indices) with non-empty digit runs (odd indices), ending with a text part |
| Helpers.SplitDigitRunsJoin | utils/helpers.ts:9-11 | joining the split parts gives back the serial |
| Helpers.LexLessTrichotomy | utils/helpers.ts:22-23 | string `<` is irreflexive, and of two different strings exactly one is smaller |
| Helpers.NaturalSort | utils/helpers.ts:1-26 | the comparator's loop returns NaturalOrder: serial-first rules, then the first unequal part, then the part-count difference |
| Helpers.NaturalOrderEmptySerials | utils/helpers.ts:2-7 | a present serial sorts before an empty one (-1, or 1 swapped); two empty serials compare by name |
| Helpers.NumbersCompareByValue | utils/helpers.ts:9-20 | "B2" sorts before "B10" although "B10" is the smaller string |
| Helpers.FirstDifferenceDecides | utils/helpers.ts:13-24 | the first unequal part (numeric at odd, textual at even index) decides the sign |
| Helpers.CommonPartsEqual | utils/helpers.ts:22-26 | when all common parts are equal the result is the difference of the part counts |
| Helpers.ComparePartsAntisymmetric | utils/helpers.ts:13-26 | swapping the split serials negates the comparison |
| Helpers.ComparePartsSame | utils/helpers.ts:13-26 | a split serial compares equal to itself |
| Helpers.NaturalOrderAntisymmetric | utils/helpers.ts:1-26 | when a serial is present, swapping the arguments negates the result |
| Helpers.NaturalOrderReflexive | utils/helpers.ts:9-26 | identical non-empty serials compare 0 |
| Helpers.ChunkArray | utils/helpers.ts:29-35 | the chunks concatenate to the input; each is non-empty and at most `size` long, all but the last exactly `size`; there are ⌈len/size⌉ of them and none for an empty input |
| Inventory.NewTransactionsCount | components/pages/GiveBattery.tsx:71-81 | with distinct numbers, the new rentals hold one Pending rental for each selected number and none for others |
| Inventory.LendPreservesConsistency | components/pages/GiveBattery.tsx:71-88 | lending existing Available batteries with fresh ids keeps the inventory invariant |
| Inventory.SubmitFormKeepsConsistency | components/pages/GiveBattery.tsx:56-95 | submitting the lend form with current Available batteries keeps the invariant whatever the outcome; the store is either unchanged or the lent store |
| Inventory.DuplicateLendBreaksConsistency | components/pages/GiveBattery.tsx:71-86 | lending the same battery twice in a row succeeds both times, adds two Pending rentals for its number and breaks the invariant |
| Inventory.ReturnPreservesConsistency | components/pages/ReturnBattery.tsx:53-70 | returning a Pending rental keeps the invariant, whether or not a battery carries its number |
| Inventory.StaleReturnBreaksConsistency | components/pages/ReturnBattery.tsx:53-70 | re-returning a closed rental whose battery is Given again is accepted, frees that battery and breaks the invariant |
| Inventory.LentKeepsReturnDates | components/pages/GiveBattery.tsx:74-81 | a lend keeps a return date on exactly the Returned transactions, since new rentals are Pending without one |
| Inventory.ReturnedKeepsReturnDates | components/pages/ReturnBattery.tsx:54-58 | a return keeps a return date on exactly the Returned transactions, since it sets both together |
| Inventory.LendScenarioStore | components/pages/GiveBattery.tsx:71-86 | lending A1 and A2 to C1 appends their two Pending rentals and turns exactly A1 and A2 Given |

## Left out

- Sort orders by `localeCompare`: the offered batteries (numeric collation) and the customer
  list (by name) are modelled only as filters. Their order is not modelled.
- `toLowerCase`, and the empty-serial branch of `naturalSort`, use the host's string functions.
  These are uninterpreted parameters `lower` and `localeCompare`. Only `lower("") == ""` is
  assumed, and only where an empty search is discussed.
- `String.includes` and string `<` (`Helpers.LexLess`) work on Dafny characters, which are
  Unicode scalar values. JavaScript compares UTF-16 code units. The two orders differ for
  characters outside the Basic Multilingual Plane: JavaScript puts them before U+E000-U+FFFF,
  because their surrogate code units are smaller, while `LexLess` puts them after. Containment
  agrees on well-formed text.
- `parseInt` on a digit run is modelled as its exact natural value. The model does not capture
  the loss of precision beyond 2^53.
- Digit runs are ASCII `0`-`9`, the `\d` class of the split pattern.
- The store holds each collection as a sequence in store order. The Firestore query order and
  its document-id generator are outside the model: new ids are an input that must be distinct
  and unused.
- Server timestamps are an opaque `Timestamp` input. `formatDate` only formats dates for display
  and is not modelled.
- The network and the Firestore client itself are not modelled: `writeBatch`, `onSnapshot`,
  `getDocs`, listener scheduling and retries. A commit's outcome is the `delivered` input and the
  battery lookup's outcome is `lookupOk`. For a return, the battery lookup and the commit see
  the same store. The model does not capture a store that changes between them.
- Concurrent clients are not modelled. The duplicate-lend race appears only as two lends in a
  row.
- `localStorage` is the single field `storedMarket`.
- The `manualBatteryInput` field of the lend page is kept in state but never used in the
  workflow, so it is not modelled.
- The guard that refuses to lend under 'All' is in the rendering (`PageScreen`), not in
  `handleSubmit`. `SubmitLend` therefore takes any market, as the code does.
- `ReturnBattery.InsertByCount` / `SortByCount`: the stable order of rows with equal counts, which
  follows `Array.prototype.sort`, is not stated. Only the permutation and the non-increasing
  order are proved.
- `DataContext.DataProvider.OnAuthStateChanged`: the asynchronous scheduling of React effects is
  collapsed. The effect re-runs at once, inside the callback.
- Rendering, navigation, the toast timer, the layout and the Firebase configuration and
  anonymous sign-in (`App.tsx`, `components/Layout.tsx`, `components/ui/Toast.tsx`,
  `services/firebase.ts`) are not part of this model.
- The snapshot mapping builds each record as `{ id: d.id, ...d.data() }`, so a stored field
  named `id` would override the document id. The model takes every record's `id` to be its
  document id.
- `Helpers.ChunkArray` takes an integer `size`. JavaScript accepts any number: a fractional size
  gives empty or over-long chunks (size 0.5 on `[a0, a1]` gives `[[], [a0], [], [a1]]`). This is
  not modelled.
- `getDbPaths` and the collection paths are not modelled. Each collection is a field of
  `Store.Db`.
