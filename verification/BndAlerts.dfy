/** The B&D alert state, its view, and the check of a status response
    (speedy-dispatcher/src/bndOrderAlerts.ts). */
module BndAlerts {
  import opened Options
  import opened TorontoClock
  import opened BndSchedule

  /** Unnamed is a value that is no text but reads as one of the six names, such as an array
      of one name: accepted, and then equal to none of them. */
  datatype MonitorState = Disabled | Unconfigured | Checking | Connected | Failing | Paused | Unnamed

  datatype PendingOrder = PendingOrder(id: string, number: string)

  datatype ErrorCode = Authentication | Connection | Response | RateLimited | UnnamedCode

  datatype BndStatus = BndStatus(
    state: MonitorState,
    pendingOrders: seq<PendingOrder>,
    lastSuccessAt: Option<int>,
    lastCheckedAt: Option<int>,
    nextCheckAt: Option<int>,
    errorCode: Option<ErrorCode>)

  // ----- the status response -----------------------------------------------------------

  datatype RawOrder = BadOrder | RawOrder(id: string, number: string)

  /** A response after decoding; None marks a field that is not of an accepted form, and
      Some(None) a null. */
  datatype RawStatus = RawStatus(
    state: Option<MonitorState>,
    pendingOrders: Option<seq<RawOrder>>,
    lastSuccessAt: Option<Option<int>>,
    lastCheckedAt: Option<Option<int>>,
    nextCheckAt: Option<Option<int>>,
    errorCode: Option<Option<ErrorCode>>)

  predicate PlainText(s: string) {
    && 1 <= |s| <= 64
    && forall i :: 0 <= i < |s| ==>
         'A' <= s[i] <= 'Z' || 'a' <= s[i] <= 'z' || '0' <= s[i] <= '9' || s[i] == '_' || s[i] == '-'
  }

  /** One to 64 ASCII letters, digits, underscores and hyphens, by their codes. */
  lemma PlainTextExactly(s: string)
    ensures PlainText(s) <==> 0 < |s| < 65 && forall i :: 0 <= i < |s| ==> PlainCode(s[i] as int)
  {
  }

  predicate PlainCode(code: int) {
    65 <= code <= 90 || 97 <= code <= 122 || 48 <= code <= 57 || code == 95 || code == 45
  }

  predicate GoodOrder(order: RawOrder) {
    order.RawOrder? && PlainText(order.id) && PlainText(order.number)
  }

  predicate DistinctIds(orders: seq<PendingOrder>) {
    forall i, j :: 0 <= i < j < |orders| ==> orders[i].id != orders[j].id
  }

  predicate AcceptableStatus(raw: RawStatus) {
    && raw.state.Some? && raw.errorCode.Some?
    && raw.lastSuccessAt.Some? && raw.lastCheckedAt.Some? && raw.nextCheckAt.Some?
    && raw.pendingOrders.Some? && |raw.pendingOrders.value| <= 10_000
    && (forall i :: 0 <= i < |raw.pendingOrders.value| ==>
          raw.pendingOrders.value[i].RawOrder? &&
          PlainText(raw.pendingOrders.value[i].id) && PlainText(raw.pendingOrders.value[i].number))
    && (forall i, j :: 0 <= i < j < |raw.pendingOrders.value| ==>
          raw.pendingOrders.value[i].id != raw.pendingOrders.value[j].id)
    && (raw.state.value.Connected? ==> raw.lastSuccessAt.value.Some?)
  }

  /** None stands for the thrown error. */
  method ParseBndStatus(raw: RawStatus) returns (r: Option<BndStatus>)
    ensures r.Some? <==> AcceptableStatus(raw)
    ensures r.Some? ==>
      && r.value.state == raw.state.value && r.value.errorCode == raw.errorCode.value
      && r.value.lastSuccessAt == raw.lastSuccessAt.value && r.value.lastCheckedAt == raw.lastCheckedAt.value
      && r.value.nextCheckAt == raw.nextCheckAt.value
      && |r.value.pendingOrders| == |raw.pendingOrders.value|
      && (forall i :: 0 <= i < |r.value.pendingOrders| ==>
            r.value.pendingOrders[i] ==
            PendingOrder(raw.pendingOrders.value[i].id, raw.pendingOrders.value[i].number))
      && DistinctIds(r.value.pendingOrders)
  {
    if raw.state.None? || raw.pendingOrders.None? || |raw.pendingOrders.value| > 10_000 ||
       raw.errorCode.None? || raw.lastSuccessAt.None? || raw.lastCheckedAt.None? || raw.nextCheckAt.None? {
      return None;
    }
    var orders := raw.pendingOrders.value;
    var seen: set<string> := {};
    var pending: seq<PendingOrder> := [];
    for i := 0 to |orders|
      invariant |pending| == i
      invariant forall k :: 0 <= k < i ==> GoodOrder(orders[k]) && orders[k].id in seen
      invariant forall k :: 0 <= k < i ==> pending[k] == PendingOrder(orders[k].id, orders[k].number)
      invariant forall id :: id in seen ==> exists k :: 0 <= k < i && orders[k] == RawOrder(id, orders[k].number)
      invariant forall k, l :: 0 <= k < l < i ==> orders[k].id != orders[l].id
    {
      if !GoodOrder(orders[i]) || orders[i].id in seen {
        return None;
      }
      seen := seen + {orders[i].id};
      pending := pending + [PendingOrder(orders[i].id, orders[i].number)];
    }
    if raw.state.value.Connected? && raw.lastSuccessAt.value.None? {
      return None;
    }
    r := Some(BndStatus(raw.state.value, pending, raw.lastSuccessAt.value, raw.lastCheckedAt.value,
                        raw.nextCheckAt.value, raw.errorCode.value));
  }

  // ----- the reducer -------------------------------------------------------------------

  datatype AlertState = AlertState(
    token: Option<string>,
    enabled: bool,
    snapshot: Option<BndStatus>,
    connectionFailed: bool)

  datatype Action =
    | Session(token: Option<string>)
    | Snapshot(reporter: string, snapshot: BndStatus)
    | Failed(reporter: string)
    | Enabled(enabled: bool)

  function CreateBndAlertState(enabled: bool): AlertState {
    AlertState(None, enabled, None, false)
  }

  function BndAlertReducer(state: AlertState, action: Action): AlertState {
    match action
    case Session(token) =>
      if state.token == token then state else CreateBndAlertState(true).(token := token)
    case Enabled(enabled) => state.(enabled := enabled)
    case Failed(reporter) =>
      state.(token := Some(reporter), connectionFailed := true,
             snapshot := if state.token == Some(reporter) then state.snapshot else None)
    case Snapshot(reporter, snapshot) =>
      state.(token := Some(reporter), snapshot := Some(snapshot), connectionFailed := false)
  }

  // ----- the view ----------------------------------------------------------------------

  datatype AlertView = AlertView(
    snapshot: Option<BndStatus>,
    unavailable: bool,
    pending: seq<PendingOrder>,
    paused: bool,
    alerting: bool)

  /** A token that is null or empty is no session. */
  predicate SignedIn(token: Option<string>) { token.Some? && token.value != "" }

  function ShownSnapshot(state: AlertState, token: Option<string>): Option<BndStatus> {
    if SignedIn(token) && state.token == token then state.snapshot else None
  }

  predicate Monitoring(snapshot: Option<BndStatus>) {
    snapshot.Some? && !snapshot.value.state.Disabled? && !snapshot.value.state.Unconfigured?
  }

  predicate Stale(snapshot: BndStatus, now: int) {
    snapshot.state.Connected? && snapshot.lastSuccessAt.Some? &&
    now - snapshot.lastSuccessAt.value > 120_000
  }

  function GetBndAlertView(c: Clock, h: Hours, state: AlertState, token: Option<string>, now: int): AlertView
    requires ValidHours(c, h)
  {
    var snapshot := ShownSnapshot(state, token);
    var paused := !ScheduleAt(c, h, now).open || (snapshot.Some? && snapshot.value.state.Paused?);
    var unavailable := !paused &&
      ((SignedIn(token) && state.token == token && state.connectionFailed) ||
       (snapshot.Some? && (snapshot.value.state.Failing? || Stale(snapshot.value, now))));
    var pending := if Monitoring(snapshot) then snapshot.value.pendingOrders else [];
    var checkedToday := snapshot.Some? && snapshot.value.lastSuccessAt.Some? &&
      ScheduleAt(c, h, snapshot.value.lastSuccessAt.value).nextChangeAt > now;
    AlertView(snapshot, unavailable, pending, paused,
              SignedIn(token) && state.enabled && !paused && checkedToday && pending != [])
  }

  // ----- when the alarm sounds -----------------------------------------------------------

  /** Both instants lie in the opening window of one local date. */
  predicate SameWindow(c: Clock, h: Hours, t: int, u: int)
    requires ValidHours(c, h)
  {
    c.LocalDate(t) == c.LocalDate(u) && IsOpen(c, h, t) && IsOpen(c, h, u)
  }

  lemma NextChangeSameWindow(c: Clock, h: Hours, checked: int, now: int)
    requires Regular(c) && ValidHours(c, h) && checked <= now
    ensures ScheduleAt(c, h, checked).nextChangeAt > now && IsOpen(c, h, now)
            <==> SameWindow(c, h, checked, now)
  {
    ScheduleHolds(c, h, checked, now);
    if ScheduleAt(c, h, checked).nextChangeAt > now && IsOpen(c, h, now) {
      WindowInsideDay(c, h, c.LocalDate(checked));
      MidnightBoundary(c, c.LocalDate(checked) + 1, now);
      LocalDateMonotone(c, checked, now);
    }
  }

  /** The alarm sounds exactly when something waits, it is open now, and the last
      successful check was in this same opening window, or, with a clock ahead of
      ours, is still to come. */
  lemma AlertingExactly(c: Clock, h: Hours, state: AlertState, token: Option<string>, now: int)
    requires Regular(c) && ValidHours(c, h)
    ensures GetBndAlertView(c, h, state, token, now).alerting <==>
      && token.Some? && token.value != "" && state.token == token && state.enabled
      && state.snapshot.Some? && state.snapshot.value.state !in {Disabled, Unconfigured, Paused}
      && state.snapshot.value.pendingOrders != [] && state.snapshot.value.lastSuccessAt.Some?
      && var checked := state.snapshot.value.lastSuccessAt.value;
         if checked <= now then SameWindow(c, h, checked, now) else IsOpen(c, h, now)
  {
    ScheduleHolds(c, h, now, now);
    var snapshot := ShownSnapshot(state, token);
    if snapshot.Some? && snapshot.value.lastSuccessAt.Some? {
      var checked := snapshot.value.lastSuccessAt.value;
      ScheduleHolds(c, h, checked, checked);
      if checked <= now { NextChangeSameWindow(c, h, checked, now); }
    }
  }

  predicate InTrouble(snapshot: BndStatus, now: int) {
    || snapshot.state == Failing
    || (snapshot.state == Connected && snapshot.lastSuccessAt.Some? && snapshot.lastSuccessAt.value < now - 120_000)
  }

  /** What else is shown: the session's own snapshot and, unless monitoring is off, its
      orders; a pause when it is closed or the monitor paused; and trouble, while neither,
      when the last report failed, the monitor reports an error, or a connected monitor has
      not succeeded for two minutes. */
  lemma ViewExactly(c: Clock, h: Hours, state: AlertState, token: Option<string>, now: int)
    requires Regular(c) && ValidHours(c, h)
    ensures var v := GetBndAlertView(c, h, state, token, now);
      var mine := token.Some? && token.value != "" && state.token == token;
      && v.snapshot == (if mine then state.snapshot else None)
      && v.pending == (if v.snapshot.Some? && v.snapshot.value.state !in {Disabled, Unconfigured}
                       then v.snapshot.value.pendingOrders else [])
      && (v.paused <==> !IsOpen(c, h, now) || (v.snapshot.Some? && v.snapshot.value.state == Paused))
      && (v.unavailable <==>
          (!v.paused && ((mine && state.connectionFailed) || (v.snapshot.Some? && InTrouble(v.snapshot.value, now)))))
  {
    ScheduleHolds(c, h, now, now);
  }

  /** So while it sounds it has been open without a break since that check. */
  lemma AlertingOpenSinceCheck(c: Clock, h: Hours, state: AlertState, token: Option<string>, now: int, t: int)
    requires Regular(c) && ValidHours(c, h) && GetBndAlertView(c, h, state, token, now).alerting
    ensures ShownSnapshot(state, token).Some? && ShownSnapshot(state, token).value.lastSuccessAt.Some?
    ensures ShownSnapshot(state, token).value.lastSuccessAt.value <= t <= now ==> IsOpen(c, h, t)
  {
    AlertingExactly(c, h, state, token, now);
    var checked := ShownSnapshot(state, token).value.lastSuccessAt.value;
    if checked <= t <= now {
      ScheduleHolds(c, h, checked, t);
      NextChangeSameWindow(c, h, checked, now);
    }
  }

  // ----- sessions do not mix ---------------------------------------------------------------

  function Run(state: AlertState, actions: seq<Action>): AlertState {
    if actions == [] then state
    else BndAlertReducer(Run(state, actions[..|actions| - 1]), actions[|actions| - 1])
  }

  /** Actions that neither report a snapshot nor turn to another session. */
  predicate Keeps(action: Action, token: string) {
    action.Enabled? || action == Session(Some(token)) || action == Failed(token)
  }

  /** The last report under the token, with no other report or session since. */
  ghost predicate LatestReport(actions: seq<Action>, token: string, snapshot: BndStatus) {
    exists i :: 0 <= i < |actions| && actions[i] == Snapshot(token, snapshot) &&
                forall j :: i < j < |actions| ==> Keeps(actions[j], token)
  }

  lemma LatestReportExtends(actions: seq<Action>, action: Action, token: string, snapshot: BndStatus)
    ensures LatestReport(actions + [action], token, snapshot) <==>
            action == Snapshot(token, snapshot) ||
            (Keeps(action, token) && LatestReport(actions, token, snapshot))
  {
    var more := actions + [action];
    if LatestReport(more, token, snapshot) {
      var i :| 0 <= i < |more| && more[i] == Snapshot(token, snapshot) &&
               forall j :: i < j < |more| ==> Keeps(more[j], token);
      if i < |actions| {
        assert Keeps(more[|actions|], token);
        forall j | i < j < |actions| ensures Keeps(actions[j], token) { assert Keeps(more[j], token); }
        assert actions[i] == Snapshot(token, snapshot);
      }
    }
    if action == Snapshot(token, snapshot) {
      assert more[|actions|] == Snapshot(token, snapshot);
    } else if Keeps(action, token) && LatestReport(actions, token, snapshot) {
      var i :| 0 <= i < |actions| && actions[i] == Snapshot(token, snapshot) &&
               forall j :: i < j < |actions| ==> Keeps(actions[j], token);
      assert more[i] == Snapshot(token, snapshot);
    }
  }

  /** After any actions, a session is shown exactly the latest snapshot reported under
      its own token since it was last entered. */
  lemma {:induction false} ShownIsOwnLatestReport(
    enabled: bool, actions: seq<Action>, token: string, snapshot: BndStatus)
    requires token != ""
    ensures ShownSnapshot(Run(CreateBndAlertState(enabled), actions), Some(token)) == Some(snapshot) <==>
            LatestReport(actions, token, snapshot)
  {
    if actions != [] {
      var before, last := actions[..|actions| - 1], actions[|actions| - 1];
      ShownIsOwnLatestReport(enabled, before, token, snapshot);
      LatestReportExtends(before, last, token, snapshot);
      assert before + [last] == actions;
    }
  }

  /** Turning to another session switches the alarm on and forgets the rest; apart from
      that only the switch changes it. */
  lemma ActionsDo(state: AlertState, token: Option<string>, text: string, snapshot: BndStatus, enabled: bool)
    ensures BndAlertReducer(state, Session(token)) ==
            if state.token == token then state else AlertState(token, true, None, false)
    ensures BndAlertReducer(state, Enabled(enabled)) == state.(enabled := enabled)
    ensures BndAlertReducer(state, Snapshot(text, snapshot)) ==
            AlertState(Some(text), state.enabled, Some(snapshot), false)
    ensures BndAlertReducer(state, Failed(text)) ==
            AlertState(Some(text), state.enabled, if state.token == Some(text) then state.snapshot else None, true)
  {
  }
}
