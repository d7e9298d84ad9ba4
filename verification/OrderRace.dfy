/** Every interleaving of assignment, unassignment, driver and cancellation requests
    on one order, each reading, checking and committing at different times, together
    with the writers that lock the row (automatic dispatch and receipts). */
module OrderRace {
  import opened Options
  import opened OrderLifecycle

  /** Where a request stands. */
  datatype Stage = HasRead | HasChecked(now: int) | OwesCredit | Done

  datatype Pending = Pending(req: Request, snap: Row, stage: Stage)

  /** `credits` counts loyalty credits given; `withdrawn` records whether a dispatch has
      ever been withdrawn by an unassignment. */
  datatype World = World(row: Row, receipt: bool, pending: seq<Pending>, credits: nat, withdrawn: bool)

  const START: World := World(NEW_ORDER, false, [], 0, false)

  datatype Event =
    | Read(req: Request)
    | Check(i: nat, now: int)
    | Commit(i: nat, driverLocked: bool)
    | Credit(i: nat)
    | AutoAssign(driver: string, now: int)
    | DriverReceipt(driver: string, now: int)
    | StaffReceipt

  function Checked(w: World, i: nat, now: int): World
    requires i < |w.pending| && w.pending[i].stage.HasRead?
  {
    var p := w.pending[i];
    w.(pending := w.pending[i := p.(stage :=
      if PassesCheck(p.req, p.snap, w.receipt) then HasChecked(now) else Done)])
  }

  predicate Lands(p: Pending, row: Row, driverLocked: bool) {
    p.stage.HasChecked? && Matches(p.req, p.snap, row) && (p.req.Assign? ==> driverLocked)
  }

  predicate Delivers(req: Request) { req.Drive? && req.target.Delivered? }

  function Committed(w: World, i: nat, driverLocked: bool): World
    requires i < |w.pending| && w.pending[i].stage.HasChecked?
  {
    var p := w.pending[i];
    if !Lands(p, w.row, driverLocked) then w.(pending := w.pending[i := p.(stage := Done)])
    else
      w.(row := Updated(p.req, p.snap, w.row, p.stage.now),
         pending := w.pending[i := p.(stage := if Delivers(p.req) then OwesCredit else Done)],
         withdrawn := w.withdrawn || (p.req.Unassign? && w.row.status.Dispatched?))
  }

  /** The row lock makes read, check and update one step. */
  function AutoAssigned(row: Row, driver: string, now: int): Row {
    Stamped(row.(driver := Some(driver), assignedAt := Some(now), dispatchedBy := None,
                 dispatchSource := Some(Auto), status := Dispatched), row, Dispatched, now)
  }

  function Step(w: World, e: Event): World {
    match e
    case Read(req) =>
      if PassesRead(req, w.row) then w.(pending := w.pending + [Pending(req, w.row, HasRead)]) else w
    case Check(i, now) => if i < |w.pending| && w.pending[i].stage.HasRead? then Checked(w, i, now) else w
    case Commit(i, driverLocked) =>
      if i < |w.pending| && w.pending[i].stage.HasChecked? then Committed(w, i, driverLocked) else w
    case Credit(i) =>
      if i < |w.pending| && w.pending[i].stage.OwesCredit? then
        w.(credits := w.credits + 1, pending := w.pending[i := w.pending[i].(stage := Done)])
      else w
    case AutoAssign(driver, now) =>
      if w.row.status.Placed? && w.row.driver.None? then w.(row := AutoAssigned(w.row, driver, now)) else w
    case DriverReceipt(driver, now) =>
      if w.row.driver != Some(driver) then w
      else if !w.row.status.Accepted? then w.(receipt := true)
      else w.(receipt := true,
              row := Stamped(w.row.(status := OutForDelivery), w.row, OutForDelivery, now))
    case StaffReceipt => w.(receipt := true)
  }

  function Run(w: World, events: seq<Event>): World {
    if events == [] then w else Step(Run(w, events[..|events| - 1]), events[|events| - 1])
  }

  // ----- the invariants -------------------------------------------------------------------

  predicate UnderWay(s: Status) { s.Dispatched? || s.Accepted? || s.OutForDelivery? || s.Delivered? }

  /** What every row satisfies, whatever was read when. */
  predicate GoodRow(row: Row, receipt: bool) {
    && (row.status.Dispatched? ==> row.driver.Some?)
    && (row.driver.Some? <==> row.assignedAt.Some?)
    && (row.status.Placed? ==> row.driver.None? && row.dispatchedAt.None? &&
                               row.dispatchedBy.None? && row.dispatchSource.None?)
    && (UnderWay(row.status) ==> row.dispatchedAt.Some? && row.dispatchSource.Some?)
    && (row.status.Placed? || row.status.Dispatched? ==> row.acceptedAt.None?)
    && (row.status.Accepted? ==> row.acceptedAt.Some? && row.outForDeliveryAt.None?)
    && (row.status.OutForDelivery? ==> row.acceptedAt.Some? && row.outForDeliveryAt.Some?)
    && (row.status.Delivered? <==> row.deliveredAt.Some?)
    && (row.acceptedAt.None? ==> row.outForDeliveryAt.None?)
    && (row.status.Delivered? ==> row.acceptedAt.Some? && row.outForDeliveryAt.Some?)
    && (row.status.OutForDelivery? || row.status.Delivered? ==> receipt)
    && (row.status.Cancelled? <==> row.cancelledAt.Some?)
    && (row.status.Cancelled? <==> row.cancelledFrom.Some?)
    && (row.cancelledFrom.Some? ==> !row.cancelledFrom.value.Final())
    && (row.cancellationReason.Some? ==> row.status.Cancelled?)
  }

  function Rank(s: Status): nat {
    match s
    case Placed => 0
    case Dispatched => 0
    case Accepted => 1
    case OutForDelivery => 2
    case Delivered => 3
    case Cancelled => 3
  }

  predicate SameTimes(a: Row, b: Row) {
    a.dispatchedAt == b.dispatchedAt && a.acceptedAt == b.acceptedAt &&
    a.outForDeliveryAt == b.outForDeliveryAt
  }

  /** A snapshot was a good row; from acceptance on it still has the row's times or the
      row has moved past it; and until a dispatch is withdrawn so has its dispatch time. */
  predicate GoodPending(p: Pending, row: Row, receipt: bool, withdrawn: bool) {
    && GoodRow(p.snap, receipt) && PassesRead(p.req, p.snap)
    && (p.stage.HasChecked? ==> PassesCheck(p.req, p.snap, receipt))
    && Rank(p.snap.status) <= Rank(row.status)
    && (p.snap.status == row.status && Rank(p.snap.status) >= 1 ==> SameTimes(p.snap, row))
    && (!withdrawn && p.snap.dispatchedAt.Some? ==> p.snap.dispatchedAt == row.dispatchedAt)
  }

  function Owed(pending: seq<Pending>): nat {
    if pending == [] then 0
    else Owed(pending[..|pending| - 1]) + (if pending[|pending| - 1].stage.OwesCredit? then 1 else 0)
  }

  ghost predicate Inv(w: World) {
    && GoodRow(w.row, w.receipt)
    && (forall p :: p in w.pending ==> GoodPending(p, w.row, w.receipt, w.withdrawn))
    && w.credits + Owed(w.pending) == (if w.row.status.Delivered? then 1 else 0)
  }

  lemma {:induction false} OwedUpdate(pending: seq<Pending>, i: nat, p: Pending)
    requires i < |pending|
    ensures Owed(pending[i := p]) + (if pending[i].stage.OwesCredit? then 1 else 0) ==
            Owed(pending) + (if p.stage.OwesCredit? then 1 else 0)
  {
    var last := |pending| - 1;
    if i == last {
      assert pending[i := p][..last] == pending[..last];
    } else {
      OwedUpdate(pending[..last], i, p);
      assert pending[i := p][..last] == pending[..last][i := p];
    }
  }

  /** A row moves forward only; acceptance, pickup and delivery times are written once,
      and the dispatch time is fixed from acceptance on. */
  predicate Advances(before: Row, after: Row) {
    && Rank(before.status) <= Rank(after.status)
    && (before.status.Final() ==> after == before)
    && (after.status == before.status && Rank(before.status) >= 1 ==> SameTimes(before, after))
    && (before.acceptedAt.Some? ==> after.acceptedAt == before.acceptedAt &&
                                    after.dispatchedAt == before.dispatchedAt)
    && (before.outForDeliveryAt.Some? ==> after.outForDeliveryAt == before.outForDeliveryAt)
    && (before.deliveredAt.Some? ==> after.deliveredAt == before.deliveredAt)
  }

  /** A dispatch time once set stays, as long as no dispatch was ever withdrawn. */
  predicate KeepsDispatchTime(before: World, after: World) {
    !after.withdrawn && before.row.dispatchedAt.Some? ==> after.row.dispatchedAt == before.row.dispatchedAt
  }

  predicate Follows(before: World, after: World) {
    && Advances(before.row, after.row) && KeepsDispatchTime(before, after)
    && (before.receipt ==> after.receipt) && (before.withdrawn ==> after.withdrawn)
  }

  lemma FollowsTransitive(a: World, b: World, c: World)
    requires Follows(a, b) && Follows(b, c)
    ensures Follows(a, c)
  {
  }

  lemma PendingFollows(p: Pending, before: World, after: World)
    requires GoodPending(p, before.row, before.receipt, before.withdrawn) && Follows(before, after)
    ensures GoodPending(p, after.row, after.receipt, after.withdrawn)
  {
  }

  /** One landing update keeps the row good and moves it forward. */
  lemma {:induction false} UpdateKeeps(p: Pending, row: Row, receipt: bool, withdrawn: bool)
    requires GoodRow(row, receipt) && GoodPending(p, row, receipt, withdrawn) && Lands(p, row, true)
    ensures var after := Updated(p.req, p.snap, row, p.stage.now);
      && GoodRow(after, receipt) && Advances(row, after)
      && (after.status.Delivered? <==> Delivers(p.req)) && !row.status.Final()
      && (!withdrawn && !(p.req.Unassign? && row.status.Dispatched?) && row.dispatchedAt.Some? ==>
            after.dispatchedAt == row.dispatchedAt)
  {
  }

  lemma CommitFollows(w: World, i: nat, driverLocked: bool)
    requires Inv(w) && i < |w.pending| && w.pending[i].stage.HasChecked?
    ensures var after := Committed(w, i, driverLocked);
      && Follows(w, after) && GoodRow(after.row, after.receipt)
      && after.credits + Owed(after.pending) == (if after.row.status.Delivered? then 1 else 0)
  {
    var p, after := w.pending[i], Committed(w, i, driverLocked);
    OwedUpdate(w.pending, i, after.pending[i]);
    if Lands(p, w.row, driverLocked) { UpdateKeeps(p, w.row, w.receipt, w.withdrawn); }
  }

  lemma CommittedInv(w: World, i: nat, driverLocked: bool)
    requires Inv(w) && i < |w.pending| && w.pending[i].stage.HasChecked?
    ensures Inv(Committed(w, i, driverLocked)) && Follows(w, Committed(w, i, driverLocked))
  {
    var after := Committed(w, i, driverLocked);
    CommitFollows(w, i, driverLocked);
    var p := w.pending[i].(stage := after.pending[i].stage);
    assert after.pending == w.pending[i := p];
    assert w.pending[i] in w.pending;
    assert forall q :: q in after.pending ==> q == p || q in w.pending;
    forall q | q in after.pending ensures GoodPending(q, after.row, after.receipt, after.withdrawn) {
      if q in w.pending { PendingFollows(q, w, after); } else { PendingFollows(p, w, after); }
    }
  }

  lemma StageInv(w: World, i: nat, stage: Stage, credits: nat)
    requires Inv(w) && i < |w.pending|
    requires var p := w.pending[i];
      && (stage.HasChecked? ==> PassesCheck(p.req, p.snap, w.receipt))
      && credits + (if stage.OwesCredit? then 1 else 0) ==
         w.credits + (if p.stage.OwesCredit? then 1 else 0)
    ensures Inv(w.(credits := credits, pending := w.pending[i := w.pending[i].(stage := stage)]))
  {
    var p := w.pending[i].(stage := stage);
    OwedUpdate(w.pending, i, p);
    assert w.pending[i] in w.pending;
    assert forall q :: q in w.pending[i := p] ==> q == p || q in w.pending;
  }

  lemma RowInv(w: World, after: World)
    requires Inv(w) && Follows(w, after) && after.pending == w.pending && after.credits == w.credits
    requires GoodRow(after.row, after.receipt)
    requires after.row.status.Delivered? <==> w.row.status.Delivered?
    ensures Inv(after)
  {
    forall p | p in after.pending ensures GoodPending(p, after.row, after.receipt, after.withdrawn) {
      PendingFollows(p, w, after);
    }
  }

  lemma ReadInv(w: World, req: Request)
    requires Inv(w) && PassesRead(req, w.row)
    ensures Inv(w.(pending := w.pending + [Pending(req, w.row, HasRead)]))
  {
    var more := w.pending + [Pending(req, w.row, HasRead)];
    assert more[..|w.pending|] == w.pending;
  }

  lemma CheckInv(w: World, i: nat, now: int)
    requires Inv(w) && i < |w.pending| && w.pending[i].stage.HasRead?
    ensures Inv(Checked(w, i, now))
  {
    StageInv(w, i, Checked(w, i, now).pending[i].stage, w.credits);
  }

  predicate LocksRow(e: Event) { e.AutoAssign? || e.DriverReceipt? || e.StaffReceipt? }

  lemma LockedStepInv(w: World, e: Event)
    requires Inv(w) && LocksRow(e)
    ensures Inv(Step(w, e)) && Follows(w, Step(w, e))
  {
    RowInv(w, Step(w, e));
  }

  lemma StepInv(w: World, e: Event)
    requires Inv(w)
    ensures Inv(Step(w, e)) && Follows(w, Step(w, e))
  {
    match e {
      case Read(req) => if PassesRead(req, w.row) { ReadInv(w, req); }
      case Check(i, now) => if i < |w.pending| && w.pending[i].stage.HasRead? { CheckInv(w, i, now); }
      case Commit(i, driverLocked) =>
        if i < |w.pending| && w.pending[i].stage.HasChecked? { CommittedInv(w, i, driverLocked); }
      case Credit(i) =>
        if i < |w.pending| && w.pending[i].stage.OwesCredit? { StageInv(w, i, Done, w.credits + 1); }
      case _ => LockedStepInv(w, e);
    }
  }

  lemma {:induction false} RunInv(events: seq<Event>)
    ensures Inv(Run(START, events))
  {
    if events != [] {
      RunInv(events[..|events| - 1]);
      StepInv(Run(START, events[..|events| - 1]), events[|events| - 1]);
    }
  }

  // ----- main results ---------------------------------------------------------------------------

  /** Under every interleaving: a dispatched order has a driver, a driver comes with an
      assignment time, a placed order carries no trace of a dispatch, times match the
      status, and loyalty is credited once exactly when the order is delivered. */
  lemma EveryRunIsSound(events: seq<Event>)
    ensures var w := Run(START, events);
      && GoodRow(w.row, w.receipt)
      && w.credits <= 1
      && (!w.row.status.Delivered? ==> w.credits == 0)
      && (w.row.status.Delivered? && Owed(w.pending) == 0 ==> w.credits == 1)
  {
    RunInv(events);
  }

  /** Whatever was read before, an update that lands starts from the status its check
      approved, from no final status, and for a driver only while that driver is
      assigned; so no driver ever accepts a placed order. */
  lemma LandingIsApproved(events: seq<Event>, i: nat, driverLocked: bool)
    requires var w := Run(START, events); i < |w.pending| && Lands(w.pending[i], w.row, driverLocked)
    ensures var w := Run(START, events);
      var p, after := w.pending[i], Step(w, Commit(i, driverLocked)).row;
      && w.row.status == p.snap.status && !w.row.status.Final()
      && (after.status != w.row.status ==>
            TransitionAllowed(ActorOf(p.req), w.row.status, after.status, w.receipt))
      && (after.status.Cancelled? ==> after.cancelledFrom == Some(w.row.status))
      && (p.req.Drive? ==> w.row.driver == Some(p.req.driver) && !w.row.status.Placed?)
  {
    RunInv(events);
    var w := Run(START, events);
    assert w.pending[i] in w.pending;
    LandingChecked(w.pending[i], w.row, w.receipt, w.withdrawn, driverLocked);
  }

  lemma LandingChecked(p: Pending, row: Row, receipt: bool, withdrawn: bool, driverLocked: bool)
    requires GoodRow(row, receipt) && GoodPending(p, row, receipt, withdrawn) && Lands(p, row, driverLocked)
    ensures var after := Updated(p.req, p.snap, row, p.stage.now);
      && row.status == p.snap.status && !row.status.Final()
      && (after.status != row.status ==> TransitionAllowed(ActorOf(p.req), row.status, after.status, receipt))
      && (after.status.Cancelled? ==> after.cancelledFrom == Some(row.status))
      && (p.req.Drive? ==> row.driver == Some(p.req.driver) && !row.status.Placed?)
  {
    UpdateKeeps(p, row, receipt, withdrawn);
  }

  lemma RunExtends(events: seq<Event>, e: Event)
    ensures Run(START, events + [e]) == Step(Run(START, events), e)
  {
    assert (events + [e])[..|events|] == events;
  }

  /** Over any stretch of a run the row only moves forward: final rows never change, and
      from acceptance on times are written once. */
  lemma {:induction false} RunFollows(events: seq<Event>, more: seq<Event>)
    ensures Follows(Run(START, events), Run(START, events + more))
    decreases |more|
  {
    if more == [] {
      assert events + more == events;
    } else {
      var init, e := more[..|more| - 1], more[|more| - 1];
      RunFollows(events, init);
      RunInv(events + init);
      StepInv(Run(START, events + init), e);
      assert events + more == events + init + [e];
      RunExtends(events + init, e);
      FollowsTransitive(Run(START, events), Run(START, events + init), Run(START, events + more));
    }
  }

  // ----- what each event does ---------------------------------------------------------------------

  /** The row after a checked request commits. An update lands only on the status that was
      read, a driver's only while that driver is assigned, an assignment only with the
      driver's lock; it sets the time of its own step and leaves every other column. */
  function RowAfter(p: Pending, row: Row, driverLocked: bool): Row
    requires p.stage.HasChecked?
  {
    var now := Some(p.stage.now);
    if row.status != p.snap.status then row
    else
      match p.req
      case Assign(driver, user, asDriver, _) =>
        if !driverLocked then row
        else
          var taken := row.(driver := Some(driver),
                            assignedAt := if p.snap.driver == Some(driver) then p.snap.assignedAt else now);
          if row.status == Placed then
            taken.(status := Dispatched, dispatchedAt := now,
                   dispatchSource := Some(if asDriver then ByDriver else Manual),
                   dispatchedBy := if asDriver then None else Some(user))
          else if row.status == Dispatched then taken.(dispatchedAt := p.snap.dispatchedAt)
          else taken
      case Unassign =>
        var cleared := row.(driver := None, assignedAt := None);
        if row.status == Dispatched then
          cleared.(status := Placed, dispatchedAt := None, dispatchedBy := None, dispatchSource := None)
        else cleared
      case Drive(driver, target) =>
        if row.driver != Some(driver) then row
        else if target == Accepted then
          row.(status := Accepted, acceptedAt := now, dispatchedAt := p.snap.dispatchedAt)
        else if target == OutForDelivery then row.(status := OutForDelivery, outForDeliveryAt := now)
        else row.(status := Delivered, deliveredAt := now)
      case Cancel(reason) =>
        row.(status := Cancelled, cancelledAt := now, cancelledFrom := Some(row.status), cancellationReason := reason)
  }

  lemma LandingRow(p: Pending, row: Row, receipt: bool, withdrawn: bool, driverLocked: bool)
    requires GoodRow(row, receipt) && GoodPending(p, row, receipt, withdrawn) && p.stage.HasChecked?
    ensures RowAfter(p, row, driverLocked) ==
            if Lands(p, row, driverLocked) then Updated(p.req, p.snap, row, p.stage.now) else row
  {
  }

  /** In every reachable state a commit writes exactly that, and a landed delivery leaves one
      loyalty credit to give. */
  lemma {:induction false} CommitWrites(events: seq<Event>, i: nat, driverLocked: bool)
    requires i < |Run(START, events).pending| && Run(START, events).pending[i].stage.HasChecked?
    ensures var (w, after) := (Run(START, events), Step(Run(START, events), Commit(i, driverLocked)));
      && after.row == RowAfter(w.pending[i], w.row, driverLocked)
      && after.credits == w.credits && after.receipt == w.receipt
      && (after.withdrawn <==> w.withdrawn || (w.row.status == Dispatched && after.row.status == Placed))
      && (after.pending[i].stage.OwesCredit? <==> after.row.status == Delivered != w.row.status)
  {
    RunInv(events);
    var w := Run(START, events);
    var p := w.pending[i];
    assert p in w.pending;
    LandingRow(p, w.row, w.receipt, w.withdrawn, driverLocked);
    if Lands(p, w.row, driverLocked) { UpdateKeeps(p, w.row, w.receipt, w.withdrawn); }
  }

  /** Which requests go on after reading the row. */
  lemma ReadExactly(w: World, req: Request)
    ensures var after := Step(w, Read(req));
      if match req
         case Assign(driver, _, _, hasPriority) =>
           w.row.status !in {Delivered, Cancelled} && (w.row.driver == Some(driver) ==> hasPriority)
         case Unassign => w.row.status !in {Delivered, Cancelled}
         case Drive(driver, target) =>
           w.row.driver == Some(driver) && target in {Accepted, OutForDelivery, Delivered}
         case Cancel(_) => true
      then after == w.(pending := w.pending + [Pending(req, w.row, HasRead)])
      else after == w
  {
  }

  /** Which requests pass their check, in every reachable state: every assignment and
      unassignment, a driver's next step, with a receipt from pickup on, and a cancellation
      of an order that is not final. */
  lemma {:induction false} CheckExactly(events: seq<Event>, i: nat, now: int)
    requires i < |Run(START, events).pending| && Run(START, events).pending[i].stage.HasRead?
    ensures var (w, after) := (Run(START, events), Step(Run(START, events), Check(i, now)));
      var p := w.pending[i];
      && i < |after.pending| && after.row == w.row
      && after.pending[i] == p.(stage :=
           if match p.req
              case Assign(_, _, _, _) => true
              case Unassign => true
              case Drive(_, target) =>
                (p.snap.status, target) == (Dispatched, Accepted) ||
                (w.receipt && (p.snap.status, target) in {(Accepted, OutForDelivery), (OutForDelivery, Delivered)})
              case Cancel(_) => p.snap.status !in {Delivered, Cancelled}
           then HasChecked(now) else Done)
  {
    RunInv(events);
    assert Run(START, events).pending[i] in Run(START, events).pending;
  }

  /** What the writers that lock the row do in every reachable state. */
  lemma {:induction false} LockedWrites(events: seq<Event>, driver: string, now: int)
    ensures var w := Run(START, events);
      && Step(w, AutoAssign(driver, now)) ==
         (if w.row.status != Placed then w
          else w.(row := w.row.(status := Dispatched, driver := Some(driver), assignedAt := Some(now),
                                dispatchedAt := Some(now), dispatchedBy := None, dispatchSource := Some(Auto))))
      && Step(w, DriverReceipt(driver, now)) ==
         (if w.row.driver != Some(driver) then w
          else if w.row.status != Accepted then w.(receipt := true)
          else w.(receipt := true, row := w.row.(status := OutForDelivery, outForDeliveryAt := Some(now))))
      && Step(w, StaffReceipt) == w.(receipt := true)
  {
    RunInv(events);
  }

  /** The status moves along these lines only. */
  lemma {:induction false} StatusSteps(events: seq<Event>, e: Event)
    ensures var (before, after) := (Run(START, events).row.status, Step(Run(START, events), e).row.status);
      || after == before
      || (before, after) in {(Placed, Dispatched), (Dispatched, Placed), (Dispatched, Accepted),
                             (Accepted, OutForDelivery), (OutForDelivery, Delivered)}
      || (before in {Placed, Dispatched, Accepted, OutForDelivery} && after == Cancelled)
  {
    RunInv(events);
    var w := Run(START, events);
    if e.Commit? && e.i < |w.pending| && Lands(w.pending[e.i], w.row, e.driverLocked) {
      var p := w.pending[e.i];
      assert p in w.pending;
      UpdateKeeps(p, w.row, w.receipt, w.withdrawn);
    }
  }

  // ----- dispatch and assignment times under late commits -----------------------------------------------

  /** An update that withdraws a dispatch lands, or one that writes the dispatch time of
      the row it read lands although the row now has another. */
  predicate LosesDispatchTime(w: World, e: Event) {
    e.Commit? && e.i < |w.pending| && Lands(w.pending[e.i], w.row, e.driverLocked) &&
    var p := w.pending[e.i];
    Withdraws(p.req, p.snap) || (WritesDispatchTime(p.req, p.snap) && p.snap.dispatchedAt != w.row.dispatchedAt)
  }

  predicate Withdraws(req: Request, snap: Row) { req.Unassign? && snap.status.Dispatched? }

  predicate WritesDispatchTime(req: Request, snap: Row) { req.Drive? || (req.Assign? && MarksDispatched(snap)) }

  lemma LandingDispatchTime(p: Pending, row: Row, receipt: bool, withdrawn: bool)
    requires GoodRow(row, receipt) && GoodPending(p, row, receipt, withdrawn) && Lands(p, row, true)
    requires row.dispatchedAt.Some?
    ensures Updated(p.req, p.snap, row, p.stage.now).dispatchedAt ==
            if Withdraws(p.req, p.snap) then None
            else if WritesDispatchTime(p.req, p.snap) then p.snap.dispatchedAt
            else row.dispatchedAt
    ensures !withdrawn && WritesDispatchTime(p.req, p.snap) ==> p.snap.dispatchedAt == row.dispatchedAt
  {
  }

  lemma StepDispatchTime(w: World, e: Event)
    requires Inv(w) && w.row.dispatchedAt.Some?
    ensures var after := Step(w, e);
      if !LosesDispatchTime(w, e) then after.row.dispatchedAt == w.row.dispatchedAt
      else if Withdraws(w.pending[e.i].req, w.pending[e.i].snap) then after.row.dispatchedAt.None?
      else w.withdrawn && after.row.dispatchedAt == w.pending[e.i].snap.dispatchedAt != w.row.dispatchedAt
  {
    if e.Commit? && e.i < |w.pending| && Lands(w.pending[e.i], w.row, e.driverLocked) {
      assert w.pending[e.i] in w.pending;
      LandingDispatchTime(w.pending[e.i], w.row, w.receipt, w.withdrawn);
    }
  }

  /** Exactly when an event changes a dispatch time: the `where` of the update compares the
      status, not the dispatch time. What replaces it is the time that was read, and only
      after some dispatch was withdrawn can that be another one. */
  lemma {:induction false} DispatchTimeKeptExactly(events: seq<Event>, e: Event)
    requires Run(START, events).row.dispatchedAt.Some?
    ensures var (w, after) := (Run(START, events), Step(Run(START, events), e));
      && (after.row.dispatchedAt == w.row.dispatchedAt <==> !LosesDispatchTime(w, e))
      && (LosesDispatchTime(w, e) ==>
            if Withdraws(w.pending[e.i].req, w.pending[e.i].snap) then after.row.dispatchedAt.None?
            else w.withdrawn && after.row.dispatchedAt == w.pending[e.i].snap.dispatchedAt)
  {
    RunInv(events);
    StepDispatchTime(Run(START, events), e);
  }

  /** No event of `more`, following on `events`, loses the dispatch time. */
  predicate NeverLoses(events: seq<Event>, more: seq<Event>)
    decreases |more|
  {
    more == [] ||
    (NeverLoses(events, more[..|more| - 1]) &&
     !LosesDispatchTime(Run(START, events + more[..|more| - 1]), more[|more| - 1]))
  }

  lemma {:induction false} DispatchTimeOverRun(events: seq<Event>, more: seq<Event>)
    requires Run(START, events).row.dispatchedAt.Some? && NeverLoses(events, more)
    ensures Run(START, events + more).row.dispatchedAt == Run(START, events).row.dispatchedAt
    decreases |more|
  {
    if more == [] {
      assert events + more == events;
    } else {
      var init, e := more[..|more| - 1], more[|more| - 1];
      DispatchTimeOverRun(events, init);
      DispatchTimeKeptExactly(events + init, e);
      assert events + more == events + init + [e];
      RunExtends(events + init, e);
    }
  }

  /** Time and attribution of a dispatch. */
  function DispatchOf(row: Row): (Option<int>, Option<string>, Option<Source>) {
    (row.dispatchedAt, row.dispatchedBy, row.dispatchSource)
  }

  predicate MixesDispatches(w: World, e: Event) {
    LosesDispatchTime(w, e) && !Withdraws(w.pending[e.i].req, w.pending[e.i].snap)
  }

  lemma LandingAttribution(p: Pending, row: Row, receipt: bool, withdrawn: bool)
    requires GoodRow(row, receipt) && GoodPending(p, row, receipt, withdrawn) && Lands(p, row, true)
    requires row.dispatchedAt.Some? && !Withdraws(p.req, p.snap)
    ensures var after := Updated(p.req, p.snap, row, p.stage.now);
      after.dispatchedBy == row.dispatchedBy && after.dispatchSource == row.dispatchSource
  {
  }

  /** Exactly when an event puts the time of one dispatch beside the attribution of another:
      it writes a time read from an earlier dispatch, and leaves the attribution as it is. */
  lemma {:induction false} DispatchKeptWhole(events: seq<Event>, e: Event)
    requires Run(START, events).row.dispatchedAt.Some?
    ensures var (w, after) := (Run(START, events), Step(Run(START, events), e).row);
      && (MixesDispatches(w, e) <==> after.dispatchedAt.Some? && DispatchOf(after) != DispatchOf(w.row))
      && (MixesDispatches(w, e) ==>
            DispatchOf(after) == (w.pending[e.i].snap.dispatchedAt, w.row.dispatchedBy, w.row.dispatchSource))
  {
    RunInv(events);
    var w := Run(START, events);
    StepDispatchTime(w, e);
    if e.Commit? && e.i < |w.pending| && Lands(w.pending[e.i], w.row, e.driverLocked) {
      var p := w.pending[e.i];
      assert p in w.pending;
      if !Withdraws(p.req, p.snap) { LandingAttribution(p, w.row, w.receipt, w.withdrawn); }
    }
  }

  /** No event of the run puts together what two dispatches wrote. */
  predicate NeverMixes(events: seq<Event>) {
    events == [] ||
    (NeverMixes(events[..|events| - 1]) &&
     !MixesDispatches(Run(START, events[..|events| - 1]), events[|events| - 1]))
  }

  /** Then the time and the attribution of a dispatched order were written by one event. */
  lemma {:induction false} DispatchIsOneEvent(events: seq<Event>) returns (n: nat)
    requires NeverMixes(events) && Run(START, events).row.dispatchedAt.Some?
    ensures n < |events| && Run(START, events[..n]).row.dispatchedAt.None?
    ensures DispatchOf(Run(START, events[..n + 1]).row) == DispatchOf(Run(START, events).row)
  {
    var init, e := events[..|events| - 1], events[|events| - 1];
    if Run(START, init).row.dispatchedAt.None? {
      n := |init|;
      assert events[..n + 1] == events;
    } else {
      n := DispatchIsOneEvent(init);
      DispatchKeptWhole(init, e);
      assert init[..n] == events[..n] && init[..n + 1] == events[..n + 1];
    }
  }

  /** The assignment time an assignment writes: the one read if the order was read with
      this driver, else the time of the request. */
  function AssignedAtWritten(p: Pending): Option<int>
    requires p.req.Assign? && p.stage.HasChecked?
  {
    if p.snap.driver == Some(p.req.driver) then p.snap.assignedAt else Some(p.stage.now)
  }

  predicate LosesAssignmentTime(w: World, e: Event) {
    e.Commit? && e.i < |w.pending| && Lands(w.pending[e.i], w.row, e.driverLocked) &&
    var p := w.pending[e.i];
    p.req.Unassign? || (p.req.Assign? && AssignedAtWritten(p) != w.row.assignedAt)
  }

  /** Exactly when an event changes an assignment time, and to what. */
  lemma {:induction false} AssignmentTimeKeptExactly(events: seq<Event>, e: Event)
    requires Run(START, events).row.assignedAt.Some?
    ensures var (w, after) := (Run(START, events), Step(Run(START, events), e));
      && (after.row.assignedAt == w.row.assignedAt <==> !LosesAssignmentTime(w, e))
      && (LosesAssignmentTime(w, e) ==>
            after.row.assignedAt ==
            if w.pending[e.i].req.Unassign? then None else AssignedAtWritten(w.pending[e.i]))
  {
    RunInv(events);
    var w := Run(START, events);
    if e.Commit? && e.i < |w.pending| && Lands(w.pending[e.i], w.row, e.driverLocked) {
      assert w.pending[e.i] in w.pending;
      LandingAssignmentTime(w.pending[e.i], w.row, w.receipt);
    }
  }

  lemma LandingAssignmentTime(p: Pending, row: Row, receipt: bool)
    requires GoodRow(p.snap, receipt) && Lands(p, row, true)
    ensures Updated(p.req, p.snap, row, p.stage.now).assignedAt ==
            if p.req.Unassign? then None else if p.req.Assign? then AssignedAtWritten(p) else row.assignedAt
  {
  }

  lemma Then(events: seq<Event>, w: World, e: Event) returns (more: seq<Event>, after: World)
    requires w == Run(START, events)
    ensures more == events + [e] && after == Step(w, e) == Run(START, more)
  {
    more, after := events + [e], Step(w, e);
    RunExtends(events, e);
  }

  const ASSIGN_D: Request := Assign("d", "u", false, false)
  const PRIORITY_D: Request := Assign("d", "u", false, true)
  const ASSIGN_E: Request := Assign("e", "u", false, false)
  const ACCEPT_D: Request := Drive("d", Accepted)

  function DispatchedToD(at: int): Row {
    NEW_ORDER.(status := Dispatched, driver := Some("d"), assignedAt := Some(at),
               dispatchedAt := Some(at), dispatchedBy := Some("u"), dispatchSource := Some(Manual))
  }

  /** Read, check and commit an assignment of driver d to the new order. */
  lemma AssignsD(events: seq<Event>, pending: seq<Pending>, withdrawn: bool, now: int)
    returns (more: seq<Event>)
    requires Run(START, events) == World(NEW_ORDER, false, pending, 0, withdrawn)
    ensures Run(START, more) ==
            World(DispatchedToD(now), false, pending + [Pending(ASSIGN_D, NEW_ORDER, Done)], 0, withdrawn)
  {
    var w: World;
    more, w := Then(events, Run(START, events), Read(ASSIGN_D));
    assert w == World(NEW_ORDER, false, pending + [Pending(ASSIGN_D, NEW_ORDER, HasRead)], 0, withdrawn);
    more, w := Then(more, w, Check(|pending|, now));
    assert w == World(NEW_ORDER, false, pending + [Pending(ASSIGN_D, NEW_ORDER, HasChecked(now))], 0, withdrawn);
    more, w := Then(more, w, Commit(|pending|, true));
    assert w.pending == pending + [Pending(ASSIGN_D, NEW_ORDER, Done)];
  }

  /** While a checked request waits to commit, the dispatch it read is withdrawn and driver
      d is dispatched again. */
  lemma DispatchesAgainBehind(late: Request) returns (events: seq<Event>)
    requires PassesRead(late, DispatchedToD(1)) && PassesCheck(late, DispatchedToD(1), false)
    ensures var w := Run(START, events);
      w.row == DispatchedToD(4) && 1 < |w.pending| && w.pending[1] == Pending(late, DispatchedToD(1), HasChecked(2))
  {
    events := AssignsD([], [], false, 1);
    var done := Pending(ASSIGN_D, NEW_ORDER, Done);
    assert [] + [done] == [done];
    events := WithdrawsBehind(events, done, late);
    events := AssignsD(events, [done, Pending(late, DispatchedToD(1), HasChecked(2)),
                                Pending(Unassign, DispatchedToD(1), Done)], true, 4);
  }

  lemma WithdrawsBehind(events: seq<Event>, done: Pending, late: Request) returns (more: seq<Event>)
    requires Run(START, events) == World(DispatchedToD(1), false, [done], 0, false)
    requires PassesRead(late, DispatchedToD(1)) && PassesCheck(late, DispatchedToD(1), false)
    ensures Run(START, more) == World(NEW_ORDER, false,
              [done, Pending(late, DispatchedToD(1), HasChecked(2)),
               Pending(Unassign, DispatchedToD(1), Done)], 0, true)
  {
    var w: World;
    more, w := Then(events, Run(START, events), Read(late));
    more, w := Then(more, w, Check(1, 2));
    var waiting := Pending(late, DispatchedToD(1), HasChecked(2));
    assert w == World(DispatchedToD(1), false, [done, waiting], 0, false);
    more, w := Then(more, w, Read(Unassign));
    more, w := Then(more, w, Check(2, 3));
    assert w.pending == [done, waiting, Pending(Unassign, DispatchedToD(1), HasChecked(3))];
    more, w := Then(more, w, Commit(2, true));
  }

  /** Before acceptance a dispatch time can be overwritten: after a withdrawn dispatch, an
      acceptance that was read earlier lands on the same driver's new dispatch and puts
      the old dispatch time back. */
  lemma StaleAcceptanceRestoresOldDispatch() returns (events: seq<Event>)
    ensures var w := Run(START, events);
      && w.row.dispatchedAt == w.row.assignedAt == Some(4)
      && LosesDispatchTime(w, Commit(1, true))
      && Step(w, Commit(1, true)).row.status.Accepted?
      && Step(w, Commit(1, true)).row.dispatchedAt == Some(1)
      && Step(w, Commit(1, true)).row.assignedAt == Some(4)
  {
    events := DispatchesAgainBehind(ACCEPT_D);
  }

  /** It takes no driver: a reassignment to another driver that was read before the
      withdrawal does the same, and the row says it was dispatched before it was assigned. */
  lemma StaleReassignmentRestoresOldDispatch() returns (events: seq<Event>)
    ensures var w := Run(START, events);
      && w.row.driver == Some("d") && w.row.dispatchedAt == w.row.assignedAt == Some(4)
      && LosesDispatchTime(w, Commit(1, true))
      && Step(w, Commit(1, true)).row.driver == Some("e")
      && Step(w, Commit(1, true)).row.dispatchedAt == Some(1)
      && Step(w, Commit(1, true)).row.assignedAt == Some(2)
  {
    events := DispatchesAgainBehind(ASSIGN_E);
  }

  /** Assigning the driver again, with a priority, also writes the assignment time that was
      read: the new assignment to the same driver gets the time of the withdrawn one. */
  lemma StalePriorityRestoresOldAssignment() returns (events: seq<Event>)
    ensures var w := Run(START, events);
      && w.row.driver == Some("d") && w.row.assignedAt == Some(4)
      && LosesAssignmentTime(w, Commit(1, true))
      && Step(w, Commit(1, true)).row.driver == Some("d")
      && Step(w, Commit(1, true)).row.assignedAt == Some(1)
  {
    events := DispatchesAgainBehind(PRIORITY_D);
  }

  /** A reassignment read before the withdrawal lands over an automatic dispatch: the row
      then tells of an automatic dispatch at a time at which there was none. */
  lemma StaleReassignmentMixesDispatches() returns (events: seq<Event>)
    ensures var w := Run(START, events);
      && w.row.dispatchedAt == Some(4) && w.row.dispatchSource == Some(Auto)
      && MixesDispatches(w, Commit(1, true))
      && Step(w, Commit(1, true)).row.dispatchedAt == Some(1)
      && Step(w, Commit(1, true)).row.dispatchSource == Some(Auto)
  {
    events := AssignsD([], [], false, 1);
    var done := Pending(ASSIGN_D, NEW_ORDER, Done);
    assert [] + [done] == [done];
    events := WithdrawsBehind(events, done, ASSIGN_E);
    var w: World;
    events, w := Then(events, Run(START, events), AutoAssign("d", 4));
    assert w.pending[1] == Pending(ASSIGN_E, DispatchedToD(1), HasChecked(2));
  }

  // ----- an order delivered ----------------------------------------------------------------------------

  function Acted(w: World, req: Request, stage: Stage): seq<Pending> {
    w.pending + [Pending(req, w.row, stage)]
  }

  /** Read, check and commit one request with nothing in between. */
  lemma ActsAtOnce(events: seq<Event>, w: World, req: Request, now: int) returns (more: seq<Event>, after: World)
    requires w == Run(START, events)
    requires PassesRead(req, w.row) && PassesCheck(req, w.row, w.receipt) && Matches(req, w.row, w.row)
    ensures after == Run(START, more)
    ensures after.row == Updated(req, w.row, w.row, now)
    ensures after.pending == Acted(w, req, if Delivers(req) then OwesCredit else Done)
    ensures after.receipt == w.receipt && after.credits == w.credits
  {
    var n, read := |w.pending|, Acted(w, req, HasRead);
    more, after := Then(events, w, Read(req));
    assert after.pending == read;
    more, after := Then(more, after, Check(n, now));
    assert after.pending == Acted(w, req, HasChecked(now));
    more, after := Then(more, after, Commit(n, true));
    assert after.pending[..n] == w.pending;
  }

  /** An order is assigned at 1, accepted at 2, given a receipt and picked up at 3. */
  lemma PickedUpRun() returns (events: seq<Event>, w: World)
    ensures w == Run(START, events) && w.receipt && w.credits == 0 && |w.pending| == 3
    ensures w.row == Row(OutForDelivery, Some("d"), Some(1), Some(1), Some("u"), Some(Manual), Some(2), Some(3), None,
                         None, None, None)
  {
    events, w := ActsAtOnce([], START, ASSIGN_D, 1);
    events, w := ActsAtOnce(events, w, ACCEPT_D, 2);
    events, w := Then(events, w, StaffReceipt);
    events, w := ActsAtOnce(events, w, Drive("d", OutForDelivery), 3);
  }

  /** It is delivered at 4 and credited, and its row tells all five times. */
  lemma DeliveredRun() returns (events: seq<Event>)
    ensures var w := Run(START, events);
      && w.row == Row(Delivered, Some("d"), Some(1), Some(1), Some("u"), Some(Manual), Some(2), Some(3), Some(4),
                      None, None, None)
      && w.receipt && w.credits == 1 && Owed(w.pending) == 0
  {
    var w: World;
    events, w := PickedUpRun();
    events, w := ActsAtOnce(events, w, Drive("d", Delivered), 4);
    events, w := Then(events, w, Credit(3));
    RunInv(events);
  }
}
