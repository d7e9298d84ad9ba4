/** The incoming-order alarm (speedy-dispatcher/src/incomingOrderAlarm.ts): what each
    action does to the alarm's state, and what holds over every sequence of actions. */
module OrderAlarm {
  import opened Options

  datatype AlarmOrder = AlarmOrder(
    id: string,
    orderStatus: string,
    orderSource: Option<string>,
    createdByUserId: Option<string>,
    acceptedAt: Option<string>)

  datatype AlarmState = AlarmState(
    enabled: bool,
    initialized: bool,
    seen: set<string>,
    pending: seq<AlarmOrder>,
    waitingForAcceptance: seq<AlarmOrder>,
    testing: bool)

  datatype Action =
    | Snapshot(orders: seq<AlarmOrder>)
    | Enabled(enabled: bool)
    | Acknowledge
    | Test
    | Reset

  /** `Boolean(text)`: absent and empty texts are false. */
  predicate Present(text: Option<string>) { text.Some? && text.value != "" }

  predicate IsWaitingForAcceptance(order: AlarmOrder) {
    !Present(order.acceptedAt) && order.orderStatus in ["PLACED", "DISPATCHED"]
  }

  predicate IsIncomingCustomerOrder(order: AlarmOrder) {
    && order.orderSource != Some("DISPATCHER_MANUAL") && !Present(order.createdByUserId)
    && order.orderStatus in ["PLACED", "DISPATCHED", "ACCEPTED", "OUT_FOR_DELIVERY"]
  }

  function CreateOrderAlarmState(enabled: bool): AlarmState {
    AlarmState(enabled, false, {}, [], [], false)
  }

  function Ids(orders: seq<AlarmOrder>): set<string> { set k | 0 <= k < |orders| :: orders[k].id }

  predicate IncomingAmong(orders: seq<AlarmOrder>, id: string) {
    exists k :: 0 <= k < |orders| && orders[k].id == id && IsIncomingCustomerOrder(orders[k])
  }

  // ----- what a snapshot does --------------------------------------------------------

  predicate FirstSighting(orders: seq<AlarmOrder>, k: nat)
    requires k < |orders|
  {
    forall j :: 0 <= j < k ==> orders[j].id != orders[k].id
  }

  predicate FirstIncoming(orders: seq<AlarmOrder>, k: nat)
    requires k < |orders|
  {
    && IsIncomingCustomerOrder(orders[k])
    && forall j :: 0 <= j < k && IsIncomingCustomerOrder(orders[j]) ==> orders[j].id != orders[k].id
  }

  /** The entry is kept pending: the alarm is on and past its baseline, and the entry is
      the first incoming one for a pending order or the very first sighting of an order. */
  predicate Chosen(state: AlarmState, orders: seq<AlarmOrder>, k: nat)
    requires k < |orders|
  {
    && state.enabled && state.initialized && IsIncomingCustomerOrder(orders[k])
    && ((orders[k].id in Ids(state.pending) && FirstIncoming(orders, k)) ||
        (orders[k].id !in state.seen && FirstSighting(orders, k)))
  }

  function ChosenUpTo(state: AlarmState, orders: seq<AlarmOrder>, n: nat): seq<AlarmOrder>
    requires n <= |orders|
  {
    if n == 0 then []
    else ChosenUpTo(state, orders, n - 1) + (if Chosen(state, orders, n - 1) then [orders[n - 1]] else [])
  }

  /** `map.set(order.id, order)` on a map held as its values in insertion order: a known
      id keeps its place and takes the new value. */
  function Put(values: seq<AlarmOrder>, order: AlarmOrder): seq<AlarmOrder> {
    if values == [] then [order]
    else if values[0].id == order.id then [order] + values[1..]
    else [values[0]] + Put(values[1..], order)
  }

  function Waiting(orders: seq<AlarmOrder>): seq<AlarmOrder> {
    if orders == [] then []
    else
      var (rest, last) := (Waiting(orders[..|orders| - 1]), orders[|orders| - 1]);
      if IsWaitingForAcceptance(last) then Put(rest, last) else rest
  }

  function TakeSnapshot(state: AlarmState, orders: seq<AlarmOrder>): AlarmState {
    state.(initialized := true, seen := state.seen + Ids(orders),
           pending := ChosenUpTo(state, orders, |orders|), waitingForAcceptance := Waiting(orders))
  }

  /** What the loop's sets say of entry i, and how they grow past it. */
  lemma SightingsUpTo(orders: seq<AlarmOrder>, i: nat)
    requires i < |orders|
    ensures orders[i].id !in Ids(orders[..i]) <==> FirstSighting(orders, i)
    ensures Ids(orders[..i + 1]) == Ids(orders[..i]) + {orders[i].id}
    ensures FirstIncoming(orders, i) <==>
              IsIncomingCustomerOrder(orders[i]) && !IncomingAmong(orders[..i], orders[i].id)
    ensures forall id :: IncomingAmong(orders[..i + 1], id) <==>
              (IncomingAmong(orders[..i], id) || (id == orders[i].id && IsIncomingCustomerOrder(orders[i])))
  {
    var before, more := orders[..i], orders[..i + 1];
    assert forall j :: 0 <= j < i ==> before[j] == orders[j] == more[j];
    assert more[i] == orders[i];
  }

  method ReceiveSnapshot(state: AlarmState, orders: seq<AlarmOrder>) returns (next: AlarmState)
    ensures next == TakeSnapshot(state, orders)
  {
    var seen, pendingIds, pending := state.seen, set k | 0 <= k < |state.pending| :: state.pending[k].id, [];
    for i := 0 to |orders|
      invariant seen == state.seen + Ids(orders[..i])
      invariant forall id :: id in pendingIds <==>
        (id in Ids(state.pending) && !(state.enabled && state.initialized && IncomingAmong(orders[..i], id)))
      invariant pending == ChosenUpTo(state, orders, i)
    {
      var order := orders[i];
      var unseen := order.id !in seen;
      SightingsUpTo(orders, i);
      assert Chosen(state, orders, i) <==> state.enabled && state.initialized && IsIncomingCustomerOrder(order) &&
                                           (order.id in pendingIds || unseen);
      seen := seen + {order.id};
      if state.enabled && state.initialized && IsIncomingCustomerOrder(order) && (order.id in pendingIds || unseen) {
        pending := pending + [order];
        pendingIds := pendingIds - {order.id};
      }
    }
    assert orders[..|orders|] == orders;
    next := state.(initialized := true, seen := seen, pending := pending, waitingForAcceptance := Waiting(orders));
  }

  function OrderAlarmReducer(state: AlarmState, action: Action): AlarmState {
    match action
    case Enabled(enabled) => state.(enabled := enabled, pending := [], testing := false)
    case Acknowledge => state.(pending := [], testing := false)
    case Test => if state.enabled then state.(testing := true) else state
    case Reset => CreateOrderAlarmState(state.enabled)
    case Snapshot(orders) => TakeSnapshot(state, orders)
  }

  function Run(state: AlarmState, actions: seq<Action>): AlarmState {
    if actions == [] then state
    else OrderAlarmReducer(Run(state, actions[..|actions| - 1]), actions[|actions| - 1])
  }

  /** An order id is pending after the first n actions. */
  predicate PendingAt(state: AlarmState, actions: seq<Action>, n: nat, id: string)
    requires n <= |actions|
  {
    id in Ids(Run(state, actions[..n]).pending)
  }

  // ----- which orders and which actions ---------------------------------------------------------------

  /** Orders a dispatcher entered never ring; a customer's does from placing to delivery. */
  lemma IncomingExactly(order: AlarmOrder)
    ensures (order.orderSource == Some("DISPATCHER_MANUAL") || order.createdByUserId !in [None, Some("")]) ==>
              !IsIncomingCustomerOrder(order)
    ensures !(order.orderSource == Some("DISPATCHER_MANUAL") || order.createdByUserId !in [None, Some("")]) ==>
              (IsIncomingCustomerOrder(order) <==>
                order.orderStatus in {"PLACED", "DISPATCHED", "ACCEPTED", "OUT_FOR_DELIVERY"})
    ensures IsWaitingForAcceptance(order) <==>
              order.acceptedAt in [None, Some("")] && order.orderStatus in {"PLACED", "DISPATCHED"}
  {
  }

  /** Acknowledging and switching empty the list; a test rings only an alarm that is on; a
      reset keeps the switch alone; a snapshot sets only what it tells. */
  lemma ActionsDo(state: AlarmState, enabled: bool, orders: seq<AlarmOrder>)
    ensures OrderAlarmReducer(state, Acknowledge) == state.(pending := [], testing := false)
    ensures OrderAlarmReducer(state, Enabled(enabled)) == state.(pending := [], testing := false, enabled := enabled)
    ensures OrderAlarmReducer(state, Test) == state.(testing := state.testing || state.enabled)
    ensures OrderAlarmReducer(state, Reset) == AlarmState(state.enabled, false, {}, [], [], false)
    ensures var after := OrderAlarmReducer(state, Snapshot(orders));
      && after.initialized && (after.enabled, after.testing) == (state.enabled, state.testing)
      && after.waitingForAcceptance == Waiting(orders)
  {
  }

  // ----- one snapshot -----------------------------------------------------------------

  lemma {:induction false} ChosenIds(state: AlarmState, orders: seq<AlarmOrder>, n: nat, id: string)
    requires n <= |orders|
    ensures id in Ids(ChosenUpTo(state, orders, n)) <==>
            exists k :: 0 <= k < n && orders[k].id == id && Chosen(state, orders, k)
  {
    if n > 0 {
      ChosenIds(state, orders, n - 1, id);
      var before, now := ChosenUpTo(state, orders, n - 1), ChosenUpTo(state, orders, n);
      assert Ids(now) == Ids(before) + (if Chosen(state, orders, n - 1) then {orders[n - 1].id} else {}) by {
        assert forall k :: 0 <= k < |before| ==> now[k] == before[k];
        if Chosen(state, orders, n - 1) { assert now[|before|] == orders[n - 1]; }
      }
    }
  }

  predicate UniqueIds(orders: seq<AlarmOrder>) {
    forall j, k :: 0 <= j < k < |orders| ==> orders[j].id != orders[k].id
  }

  lemma {:induction false} ChosenUnique(state: AlarmState, orders: seq<AlarmOrder>, n: nat)
    requires n <= |orders|
    ensures UniqueIds(ChosenUpTo(state, orders, n))
    ensures forall order :: order in ChosenUpTo(state, orders, n) ==> IsIncomingCustomerOrder(order)
  {
    if n > 0 {
      ChosenUnique(state, orders, n - 1);
      if Chosen(state, orders, n - 1) {
        ChosenIds(state, orders, n - 1, orders[n - 1].id);
        assert orders[n - 1].id !in Ids(ChosenUpTo(state, orders, n - 1));
      }
    }
  }

  /** Exactly which orders are pending after a snapshot: with the alarm on and past its
      baseline, those pending before that are still incoming, and those never seen whose
      first entry is incoming. */
  lemma PendingAfterSnapshot(state: AlarmState, orders: seq<AlarmOrder>, id: string)
    ensures id in Ids(TakeSnapshot(state, orders).pending) <==>
      && state.enabled && state.initialized
      && ((id in Ids(state.pending) && IncomingAmong(orders, id)) ||
          (id !in state.seen && exists k :: 0 <= k < |orders| && orders[k].id == id &&
                                            IsIncomingCustomerOrder(orders[k]) && FirstSighting(orders, k)))
  {
    ChosenIds(state, orders, |orders|, id);
    if IncomingAmong(orders, id) {
      var k :| 0 <= k < |orders| && orders[k].id == id && IsIncomingCustomerOrder(orders[k]);
      var first := EarliestIncoming(orders, k);
      if state.enabled && state.initialized && id in Ids(state.pending) { assert Chosen(state, orders, first); }
    }
    forall k | 0 <= k < |orders| && orders[k].id == id && IsIncomingCustomerOrder(orders[k]) && FirstSighting(orders, k)
      ensures state.enabled && state.initialized && id !in state.seen ==> Chosen(state, orders, k)
    {
    }
  }

  lemma EarliestIncoming(orders: seq<AlarmOrder>, k: nat) returns (first: nat)
    requires k < |orders| && IsIncomingCustomerOrder(orders[k])
    ensures first <= k && orders[first].id == orders[k].id && FirstIncoming(orders, first)
  {
    if FirstIncoming(orders, k) {
      first := k;
    } else {
      var j :| 0 <= j < k && IsIncomingCustomerOrder(orders[j]) && orders[j].id == orders[k].id;
      first := EarliestIncoming(orders, j);
    }
  }

  /** Receiving one snapshot twice is receiving it once, whatever the state and even if
      the snapshot repeats ids. */
  lemma SnapshotIdempotent(state: AlarmState, orders: seq<AlarmOrder>)
    ensures TakeSnapshot(TakeSnapshot(state, orders), orders) == TakeSnapshot(state, orders)
  {
    var once := TakeSnapshot(state, orders);
    forall k | 0 <= k < |orders| ensures Chosen(once, orders, k) <==> Chosen(state, orders, k) {
      ChosenIds(state, orders, |orders|, orders[k].id);
      if Chosen(once, orders, k) {
        var j :| 0 <= j < |orders| && orders[j].id == orders[k].id && Chosen(state, orders, j);
        assert FirstIncoming(orders, j) && FirstIncoming(orders, k);
        assert j == k;
      }
    }
    SameChoices(once, state, orders, |orders|);
    assert once.seen + Ids(orders) == once.seen;
  }

  lemma {:induction false} SameChoices(a: AlarmState, b: AlarmState, orders: seq<AlarmOrder>, n: nat)
    requires n <= |orders|
    requires forall k :: 0 <= k < n ==> (Chosen(a, orders, k) <==> Chosen(b, orders, k))
    ensures ChosenUpTo(a, orders, n) == ChosenUpTo(b, orders, n)
  {
    if n > 0 { SameChoices(a, b, orders, n - 1); }
  }

  // ----- the orders waiting for acceptance ---------------------------------------------------

  predicate LastWaiting(orders: seq<AlarmOrder>, k: nat)
    requires k < |orders|
  {
    && IsWaitingForAcceptance(orders[k])
    && forall j :: k < j < |orders| && IsWaitingForAcceptance(orders[j]) ==> orders[j].id != orders[k].id
  }

  lemma {:induction false} PutMembers(values: seq<AlarmOrder>, order: AlarmOrder)
    requires UniqueIds(values)
    ensures UniqueIds(Put(values, order))
    ensures forall o :: o in Put(values, order) <==> o == order || (o in values && o.id != order.id)
  {
    if values != [] && values[0].id != order.id {
      var rest := values[1..];
      PutMembers(rest, order);
      var put := Put(rest, order);
      forall k | 0 <= k < |put| ensures put[k].id != values[0].id { assert put[k] in put; }
      assert forall o :: o in values <==> o == values[0] || o in rest;
    } else if values != [] {
      assert forall o :: o in values <==> o == values[0] || o in values[1..];
      forall o | o in values[1..] ensures o.id != order.id {}
    }
  }

  /** Each order waiting for acceptance is listed once, in its latest form. */
  lemma {:induction false} WaitingIsLatest(orders: seq<AlarmOrder>)
    ensures UniqueIds(Waiting(orders))
    ensures forall o :: o in Waiting(orders) <==>
              exists k :: 0 <= k < |orders| && orders[k] == o && LastWaiting(orders, k)
  {
    if orders != [] {
      var init, last := orders[..|orders| - 1], orders[|orders| - 1];
      WaitingIsLatest(init);
      assert forall k :: 0 <= k < |init| ==> init[k] == orders[k];
      assert forall k :: 0 <= k < |init| ==>
        (LastWaiting(orders, k) <==>
          (LastWaiting(init, k) && !(IsWaitingForAcceptance(last) && last.id == orders[k].id)));
      if IsWaitingForAcceptance(last) {
        PutMembers(Waiting(init), last);
        assert LastWaiting(orders, |orders| - 1);
      }
    }
  }

  // ----- whole runs ---------------------------------------------------------------------------

  /** Pending orders are distinct, incoming and seen, and only an alarm that is on and
      past its baseline has any. */
  ghost predicate Inv(state: AlarmState) {
    && UniqueIds(state.pending) && Ids(state.pending) <= state.seen
    && (forall k :: 0 <= k < |state.pending| ==> IsIncomingCustomerOrder(state.pending[k]))
    && (state.pending != [] ==> state.enabled && state.initialized)
    && (state.testing ==> state.enabled)
  }

  lemma StepInv(state: AlarmState, action: Action)
    requires Inv(state)
    ensures Inv(OrderAlarmReducer(state, action))
  {
    if action.Snapshot? {
      var after := TakeSnapshot(state, action.orders);
      ChosenUnique(state, action.orders, |action.orders|);
      forall id | id in Ids(after.pending) ensures id in after.seen && state.enabled && state.initialized {
        PendingAfterSnapshot(state, action.orders, id);
      }
      if after.pending != [] { assert after.pending[0].id in Ids(after.pending); }
    }
  }

  lemma {:induction false} RunInv(enabled: bool, actions: seq<Action>)
    ensures Inv(Run(CreateOrderAlarmState(enabled), actions))
  {
    if actions != [] {
      RunInv(enabled, actions[..|actions| - 1]);
      StepInv(Run(CreateOrderAlarmState(enabled), actions[..|actions| - 1]), actions[|actions| - 1]);
    }
  }

  /** Sessions are independent: what follows a reset runs as from a new state. */
  lemma {:induction false} ResetStartsOver(state: AlarmState, before: seq<Action>, after: seq<Action>)
    ensures Run(state, before + [Reset] + after) == Run(CreateOrderAlarmState(Run(state, before).enabled), after)
    decreases |after|
  {
    var all := before + [Reset] + after;
    if after == [] {
      assert all[..|all| - 1] == before;
    } else {
      ResetStartsOver(state, before, after[..|after| - 1]);
      assert all[..|all| - 1] == before + [Reset] + after[..|after| - 1];
    }
  }

  predicate NoReset(actions: seq<Action>) { forall k :: 0 <= k < |actions| ==> !actions[k].Reset? }

  predicate SightedIn(actions: seq<Action>, id: string) {
    exists k :: 0 <= k < |actions| && actions[k].Snapshot? && id in Ids(actions[k].orders)
  }

  /** Between resets `seen` holds exactly the ids of every snapshot so far, and the alarm
      is past its baseline exactly when a snapshot came. */
  lemma {:induction false} SeenIsSighted(enabled: bool, actions: seq<Action>, id: string)
    requires NoReset(actions)
    ensures id in Run(CreateOrderAlarmState(enabled), actions).seen <==> SightedIn(actions, id)
    ensures Run(CreateOrderAlarmState(enabled), actions).initialized <==>
            exists k :: 0 <= k < |actions| && actions[k].Snapshot?
  {
    if actions != [] {
      var init, last := actions[..|actions| - 1], actions[|actions| - 1];
      SeenIsSighted(enabled, init, id);
      assert forall k :: 0 <= k < |init| ==> init[k] == actions[k];
      assert actions[|init|] == last;
    }
  }

  lemma SightingsStay(actions: seq<Action>, i: nat, j: nat, id: string)
    requires i <= j <= |actions| && SightedIn(actions[..i], id)
    ensures SightedIn(actions[..j], id)
  {
    var k :| 0 <= k < i && actions[..i][k].Snapshot? && id in Ids(actions[..i][k].orders);
    assert actions[..j][k] == actions[..i][k];
  }

  /** An order becomes pending only by a snapshot that is its first-ever sighting, taken
      with the alarm on and after the baseline. */
  lemma BecomesPendingOnce(enabled: bool, actions: seq<Action>, i: nat, id: string)
    requires NoReset(actions) && i < |actions|
    requires !PendingAt(CreateOrderAlarmState(enabled), actions, i, id)
    requires PendingAt(CreateOrderAlarmState(enabled), actions, i + 1, id)
    ensures actions[i].Snapshot? && id in Ids(actions[i].orders) && !SightedIn(actions[..i], id)
    ensures Run(CreateOrderAlarmState(enabled), actions[..i]).enabled
    ensures exists k :: 0 <= k < i && actions[k].Snapshot?
  {
    var state := Run(CreateOrderAlarmState(enabled), actions[..i]);
    assert actions[..i + 1][..i] == actions[..i];
    if actions[i].Snapshot? {
      PendingAfterSnapshot(state, actions[i].orders, id);
      SeenIsSighted(enabled, actions[..i], id);
      var k :| 0 <= k < i && actions[..i][k].Snapshot?;
      assert actions[k].Snapshot?;
    }
  }

  /** Between resets, an order is pending over at most one contiguous stretch: once it
      has been pending and is not, it never is again. */
  lemma {:induction false} OneStretch(enabled: bool, actions: seq<Action>, i: nat, j: nat, k: nat, id: string)
    requires NoReset(actions) && i < j <= k <= |actions|
    requires PendingAt(CreateOrderAlarmState(enabled), actions, i, id)
    requires !PendingAt(CreateOrderAlarmState(enabled), actions, j, id)
    ensures !PendingAt(CreateOrderAlarmState(enabled), actions, k, id)
    decreases k
  {
    if k > j {
      OneStretch(enabled, actions, i, j, k - 1, id);
      if PendingAt(CreateOrderAlarmState(enabled), actions, k, id) {
        BecomesPendingOnce(enabled, actions, k - 1, id);
        RunInv(enabled, actions[..i]);
        SeenIsSighted(enabled, actions[..i], id);
        SightingsStay(actions, i, k - 1, id);
      }
    }
  }

  /** Every pending order has the start of its stretch: a first sighting after the
      baseline with the alarm on, from which it has been pending ever since. */
  lemma {:induction false} StretchHasStart(enabled: bool, actions: seq<Action>, n: nat, id: string) returns (s: nat)
    requires NoReset(actions) && n <= |actions|
    requires PendingAt(CreateOrderAlarmState(enabled), actions, n, id)
    ensures s < n && actions[s].Snapshot? && id in Ids(actions[s].orders) && !SightedIn(actions[..s], id)
    ensures Run(CreateOrderAlarmState(enabled), actions[..s]).enabled
    ensures exists k :: 0 <= k < s && actions[k].Snapshot?
    ensures forall m :: s < m <= n ==> PendingAt(CreateOrderAlarmState(enabled), actions, m, id)
  {
    assert n > 0;
    if PendingAt(CreateOrderAlarmState(enabled), actions, n - 1, id) {
      s := StretchHasStart(enabled, actions, n - 1, id);
    } else {
      BecomesPendingOnce(enabled, actions, n - 1, id);
      s := n - 1;
    }
  }
}
