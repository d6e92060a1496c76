/** The records of the battery rental inventory and their status enumerations. */
module Types {

  datatype Option<+T> = None | Some(value: T)

  /** A store-assigned commit time. Only its identity matters to this model. */
  datatype Timestamp = Timestamp(tick: nat)

  /** A battery's status is exactly one of these three values. No workflow of the core sets the third.
      Its constructor shares its name with TransactionStatus.Returned, so write BatteryStatus.Returned. */
  datatype BatteryStatus = Available | Given | Returned

  /** A transaction's status is exactly one of these two values. */
  datatype TransactionStatus = Pending | Returned

  datatype Customer = Customer(
    id: string,
    name: string,
    market: string,
    mobile: string,
    address: string,
    serialNumber: string,
    isActive: int)

  datatype Battery = Battery(
    id: string,
    batteryNumber: string,
    status: BatteryStatus,
    color: string,
    market: string)

  /** A lending event. It names its customer by id and its battery by number, not by id. */
  datatype Transaction = Transaction(
    id: string,
    customerId: string,
    batteryNumber: string,
    market: string,
    dateGiven: Timestamp,
    dateReturned: Option<Timestamp>,
    status: TransactionStatus)

  /** The pseudo-market under which nothing is market-filtered. */
  const AllMarkets: string := "All"

  /** The market list used until the settings document provides one. */
  const DefaultMarkets: seq<string> := ["Sunday", "Wednesday", "Friday", "Unassigned"]
}

/** The notification each workflow outcome reports to the user (`showToast`). */
module Notices {

  datatype NoticeKind = Success | Error | Info

  datatype Message =
    | SelectCustomerFirst
    | SelectBatteryFirst
    | BatteriesGiven(count: nat)
    | TransactionFailed
    | BatteryReturned(batteryNumber: string)
    | ReturnFailed

  datatype Notice = Notice(kind: NoticeKind, message: Message)
}
