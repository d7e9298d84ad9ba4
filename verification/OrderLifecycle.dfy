/** Order rows, the transition rules (src/services/orderStateTransition.service.ts,
    src/utils/dispatchAttribution.ts) and the conditional updates the controllers
    make (src/controllers/orderAssignment.controller.ts, driverAction.controller.ts,
    order.controller.ts). Instants are integers; None is a null column. */
module OrderLifecycle {
  import opened Options

  datatype Status = Placed | Dispatched | Accepted | OutForDelivery | Delivered | Cancelled {
    predicate Final() { Delivered? || Cancelled? }
  }

  datatype Actor =
    AutoDispatch | ManualAssignment | ManualUnassignment | DriverAction | ReceiptFlow | StaffCancellation

  datatype Source = Manual | Auto | ByDriver

  datatype Row = Row(
    status: Status,
    driver: Option<string>,
    assignedAt: Option<int>,
    dispatchedAt: Option<int>,
    dispatchedBy: Option<string>,
    dispatchSource: Option<Source>,
    acceptedAt: Option<int>,
    outForDeliveryAt: Option<int>,
    deliveredAt: Option<int>,
    cancelledAt: Option<int>,
    cancelledFrom: Option<Status>,
    cancellationReason: Option<string>)

  const NEW_ORDER: Row := Row(Placed, None, None, None, None, None, None, None, None, None, None, None)

  /** evaluateOrderStatusTransition. */
  predicate TransitionAllowed(actor: Actor, current: Status, target: Status, receipt: bool) {
    if current.Final() || current == target then false
    else
      match actor
      case StaffCancellation => target.Cancelled?
      case AutoDispatch => current.Placed? && target.Dispatched?
      case ManualAssignment => current.Placed? && target.Dispatched?
      case ManualUnassignment => current.Dispatched? && target.Placed?
      case ReceiptFlow => current.Accepted? && target.OutForDelivery? && receipt
      case DriverAction =>
        (current.Accepted? && target.OutForDelivery? && receipt) ||
        ((current.Placed? || current.Dispatched?) && target.Accepted?) ||
        (current.OutForDelivery? && target.Delivered? && receipt)
  }

  /** The whole table of permitted changes. */
  lemma TransitionTable(actor: Actor, current: Status, target: Status, receipt: bool)
    ensures TransitionAllowed(actor, current, target, receipt) <==>
      || (actor == StaffCancellation && target == Cancelled && current !in {Delivered, Cancelled})
      || (actor, current, target) in
           {(AutoDispatch, Placed, Dispatched), (ManualAssignment, Placed, Dispatched),
            (ManualUnassignment, Dispatched, Placed),
            (DriverAction, Placed, Accepted), (DriverAction, Dispatched, Accepted)}
      || (receipt && (actor, current, target) in
            {(DriverAction, Accepted, OutForDelivery), (ReceiptFlow, Accepted, OutForDelivery),
             (DriverAction, OutForDelivery, Delivered)})
  {
  }

  function OrNow(at: Option<int>, now: int): Option<int> { if at.Some? then at else Some(now) }

  /** buildOrderTransitionTimestampData, laid over a row. */
  function Stamped(row: Row, snap: Row, target: Status, now: int): Row {
    var dispatched := if snap.dispatchedAt.Some? then snap.dispatchedAt else OrNow(snap.assignedAt, now);
    match target
    case Dispatched => row.(dispatchedAt := OrNow(snap.dispatchedAt, now))
    case Accepted => row.(dispatchedAt := dispatched, acceptedAt := OrNow(snap.acceptedAt, now))
    case OutForDelivery =>
      row.(dispatchedAt := dispatched, acceptedAt := OrNow(snap.acceptedAt, now),
           outForDeliveryAt := OrNow(snap.outForDeliveryAt, now))
    case Delivered =>
      row.(dispatchedAt := dispatched, acceptedAt := OrNow(snap.acceptedAt, now),
           outForDeliveryAt := OrNow(snap.outForDeliveryAt, now), deliveredAt := OrNow(snap.deliveredAt, now))
    case _ => row
  }

  /** getFirstDispatchAttribution, laid over a row. */
  function Attributed(row: Row, snap: Row, user: string, asDriver: bool): Row {
    if snap.dispatchedAt.Some? then row
    else if asDriver then row.(dispatchSource := Some(ByDriver), dispatchedBy := None)
    else row.(dispatchSource := Some(Manual), dispatchedBy := Some(user))
  }

  /** The times column by column, for any row: a change fills in its own time and every
      earlier one that is still missing, the dispatch with the assignment time if there is
      one, keeps those that were read, and touches no other column. */
  lemma StampedTimes(row: Row, snap: Row, target: Status, now: int)
    ensures var r := Stamped(row, snap, target, now);
      && r.deliveredAt == (if target == Delivered then Filled([snap.deliveredAt], now) else row.deliveredAt)
      && r.outForDeliveryAt ==
         (if target in {OutForDelivery, Delivered} then Filled([snap.outForDeliveryAt], now) else row.outForDeliveryAt)
      && r.acceptedAt ==
         (if target in {Accepted, OutForDelivery, Delivered} then Filled([snap.acceptedAt], now) else row.acceptedAt)
      && r.dispatchedAt ==
         (if target in {Accepted, OutForDelivery, Delivered} then Filled([snap.dispatchedAt, snap.assignedAt], now)
          else if target == Dispatched then Filled([snap.dispatchedAt], now)
          else row.dispatchedAt)
      && r == row.(dispatchedAt := r.dispatchedAt, acceptedAt := r.acceptedAt,
                   outForDeliveryAt := r.outForDeliveryAt, deliveredAt := r.deliveredAt)
  {
    assert Filled([snap.dispatchedAt, snap.assignedAt], now) ==
           if snap.dispatchedAt.Some? then snap.dispatchedAt else Filled([snap.assignedAt], now);
  }

  /** The first time that is set, else now. */
  function Filled(times: seq<Option<int>>, now: int): Option<int> {
    if times == [] then Some(now) else if times[0].Some? then times[0] else Filled(times[1..], now)
  }

  /** The first dispatch is attributed to the driver, or to the user by name; a later one
      changes nothing. */
  lemma AttributedOnce(row: Row, snap: Row, user: string, asDriver: bool)
    ensures var r := Attributed(row, snap, user, asDriver);
      && (snap.dispatchedAt.Some? ==> r == row)
      && (snap.dispatchedAt.None? ==>
            && r.dispatchedBy == (if asDriver then None else Some(user))
            && r.dispatchSource == Some(if asDriver then ByDriver else Manual)
            && r == row.(dispatchedBy := r.dispatchedBy, dispatchSource := r.dispatchSource))
  {
  }

  // ----- requests ---------------------------------------------------------------------------

  datatype Request =
    | Assign(driver: string, user: string, asDriver: bool, hasPriority: bool)
    | Unassign
    | Drive(driver: string, target: Status)
    | Cancel(reason: Option<string>)

  /** A driver may ask for these three. */
  predicate DriverTarget(target: Status) { target.Accepted? || target.OutForDelivery? || target.Delivered? }

  /** The checks made on the row just read; a request that fails is answered at once. */
  predicate PassesRead(req: Request, snap: Row) {
    match req
    case Assign(driver, _, _, hasPriority) =>
      !snap.status.Final() && !(snap.driver == Some(driver) && !hasPriority)
    case Unassign => !snap.status.Final()
    case Drive(driver, target) => snap.driver == Some(driver) && DriverTarget(target)
    case Cancel(_) => true
  }

  function ActorOf(req: Request): Actor {
    match req
    case Assign(_, _, _, _) => ManualAssignment
    case Unassign => ManualUnassignment
    case Drive(_, _) => DriverAction
    case Cancel(_) => StaffCancellation
  }

  predicate MarksDispatched(snap: Row) { snap.status.Placed? || snap.status.Dispatched? }

  /** The status the update will write. */
  function TargetOf(req: Request, snap: Row): Status {
    match req
    case Assign(_, _, _, _) => if MarksDispatched(snap) then Dispatched else snap.status
    case Unassign => if snap.status.Dispatched? then Placed else snap.status
    case Drive(_, target) => target
    case Cancel(_) => Cancelled
  }

  /** The transition check; assigning and unassigning are checked only when they
      change the status. */
  predicate PassesCheck(req: Request, snap: Row, receipt: bool) {
    var target := TargetOf(req, snap);
    ((req.Assign? || req.Unassign?) && target == snap.status) ||
    TransitionAllowed(ActorOf(req), snap.status, target, receipt)
  }

  // ----- the conditional updates --------------------------------------------------------------

  /** The `where` of the update, against the row as it is now. */
  predicate Matches(req: Request, snap: Row, row: Row) {
    row.status == snap.status && (req.Drive? ==> row.driver == Some(req.driver))
  }

  /** The row after a matching update. */
  function Updated(req: Request, snap: Row, row: Row, now: int): Row {
    match req
    case Assign(driver, user, asDriver, _) =>
      var taken := row.(driver := Some(driver),
        assignedAt := if snap.driver != Some(driver) then Some(now) else OrNow(snap.assignedAt, now));
      if MarksDispatched(snap) then
        Attributed(Stamped(taken.(status := Dispatched), snap, Dispatched, now), snap, user, asDriver)
      else taken
    case Unassign =>
      var cleared := row.(driver := None, assignedAt := None);
      if snap.status.Dispatched? then
        cleared.(status := Placed, dispatchedAt := None, dispatchedBy := None, dispatchSource := None)
      else cleared
    case Drive(driver, target) =>
      Attributed(Stamped(row.(status := target), snap, target, now), snap, driver, true)
    case Cancel(reason) =>
      row.(status := Cancelled, cancelledAt := Some(now), cancelledFrom := Some(snap.status),
           cancellationReason := reason)
  }

  /** A driver's update of an order never dispatched counts as the driver's own dispatch. */
  lemma DriverDispatches(driver: string, target: Status, snap: Row, row: Row, now: int)
    requires DriverTarget(target) && snap.dispatchedAt.None?
    ensures var r := Updated(Drive(driver, target), snap, row, now);
      && r.status == target && r.dispatchedAt == Filled([snap.assignedAt], now)
      && r.dispatchSource == Some(ByDriver) && r.dispatchedBy.None?
  {
    StampedTimes(row.(status := target), snap, target, now);
    AttributedOnce(Stamped(row.(status := target), snap, target, now), snap, driver, true);
    assert Filled([snap.dispatchedAt, snap.assignedAt], now) == Filled([snap.assignedAt], now);
  }

  /** The order row in the database. `count` is the number of rows an update changed. */
  class OrderRecord {
    var row: Row

    constructor ()
      ensures row == NEW_ORDER
    {
      row := NEW_ORDER;
    }

    method Set(status: Status, driver: Option<string>, assignedAt: Option<int>)
      modifies this
      ensures row == old(row).(status := status, driver := driver, assignedAt := assignedAt)
    {
      row := row.(status := status, driver := driver, assignedAt := assignedAt);
    }

    method AssignDriver(req: Request, snap: Row, driverLocked: bool, now: int) returns (count: nat)
      requires req.Assign?
      modifies this
      ensures count == if driverLocked && Matches(req, snap, old(row)) then 1 else 0
      ensures row == if count == 1 then Updated(req, snap, old(row), now) else old(row)
    {
      if !driverLocked || row.status != snap.status { return 0; }
      var wasAssignedToDifferentDriver := snap.driver != Some(req.driver);
      var shouldMarkDispatched := snap.status == Placed || snap.status == Dispatched;
      var assignedAt := Some(now);
      if !wasAssignedToDifferentDriver && snap.assignedAt.Some? { assignedAt := snap.assignedAt; }
      Set(if shouldMarkDispatched then Dispatched else row.status, Some(req.driver), assignedAt);
      if shouldMarkDispatched {
        row := Stamped(row, snap, Dispatched, now);
        row := Attributed(row, snap, req.user, req.asDriver);
      }
      count := 1;
    }

    method UnassignDriver(snap: Row) returns (count: nat)
      modifies this
      ensures count == if Matches(Unassign, snap, old(row)) then 1 else 0
      ensures row == if count == 1 then Updated(Unassign, snap, old(row), 0) else old(row)
    {
      if row.status != snap.status { return 0; }
      Set(row.status, None, None);
      if snap.status == Dispatched {
        row := row.(status := Placed, dispatchedAt := None, dispatchedBy := None, dispatchSource := None);
      }
      count := 1;
    }

    method DriverUpdate(req: Request, snap: Row, now: int) returns (count: nat)
      requires req.Drive?
      modifies this
      ensures count == if Matches(req, snap, old(row)) then 1 else 0
      ensures row == if count == 1 then Updated(req, snap, old(row), now) else old(row)
    {
      if row.driver != Some(req.driver) || row.status != snap.status { return 0; }
      Set(req.target, row.driver, row.assignedAt);
      row := Stamped(row, snap, req.target, now);
      row := Attributed(row, snap, req.driver, true);
      count := 1;
    }

    method CancelOrder(snap: Row, reason: Option<string>, now: int) returns (count: nat)
      modifies this
      ensures count == if Matches(Cancel(reason), snap, old(row)) then 1 else 0
      ensures row == if count == 1 then Updated(Cancel(reason), snap, old(row), now) else old(row)
    {
      if row.status != snap.status { return 0; }
      row := row.(status := Cancelled, cancelledAt := Some(now), cancelledFrom := Some(snap.status),
                  cancellationReason := reason);
      count := 1;
    }
  }
}
