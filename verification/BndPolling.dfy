/** The status poller of speedy-dispatcher/src/bndStatusPolling.ts, cut at its awaits:
    each step below runs without interruption, at one reading `now` of the clock. */
module BndPolling {
  import opened Options
  import opened TorontoClock
  import opened BndSchedule

  const BND_STATUS_POLL_MS: int := 10_000
  const HOURS_RETRY_MS: int := 15 * 60_000

  /** Where the running `poll` call waits; Idle when none runs. */
  datatype Phase = Idle | AwaitHours | AwaitStatus

  /** What an observer sees: the callbacks, the requests and the timers set. */
  datatype Mark =
    | Tick(at: int)
    | SnapshotCall(at: int)
    | FailureCall(at: int)
    | HoursRequest(at: int)
    | StatusRequest(at: int, hours: Hours)
    | Armed(at: int, deadline: int, hours: Hours)

  /** `timers` are the timeouts pending in the event loop, `timer` the one variable
      that names the last of them; `requests` counts unanswered fetches. */
  datatype Poller = Poller(
    disposed: bool,
    phase: Phase,
    timers: map<nat, int>,
    timer: Option<nat>,
    nextId: nat,
    requests: nat,
    hoursRefreshAt: int,
    hours: Hours,
    marks: seq<Mark>)

  function Initial(hours: Hours): Poller {
    Poller(false, Idle, map[], None, 0, 0, 0, hours, [])
  }

  // ----- the code as state functions ----------------------------------------------------

  function Delay(c: Clock, hours: Hours, hoursUrl: bool, hoursRefreshAt: int, now: int): int
    requires ValidHours(c, hours)
  {
    var s := ScheduleAt(c, hours, now);
    var wait := s.nextChangeAt - now;
    var delay := if s.open && BND_STATUS_POLL_MS < wait then BND_STATUS_POLL_MS else wait;
    var capped := if hoursUrl && hoursRefreshAt - now < delay then hoursRefreshAt - now else delay;
    if capped < 1 then 1 else capped
  }

  function WithTimer(p: Poller, now: int, deadline: int): Poller {
    p.(timers := p.timers[p.nextId := deadline], timer := Some(p.nextId), nextId := p.nextId + 1,
       marks := p.marks + [Armed(now, deadline, p.hours)])
  }

  function Scheduled(c: Clock, hoursUrl: bool, p: Poller, now: int): Poller
    requires ValidHours(c, p.hours)
  {
    if p.disposed then p
    else
      WithTimer(p, now, now + Delay(c, p.hours, hoursUrl, p.hoursRefreshAt, now))
  }

  function ClearTimer(p: Poller): Poller {
    if p.timer.Some? then p.(timers := p.timers - {p.timer.value}) else p
  }

  function Marked(p: Poller, mark: Mark): Poller {
    if p.disposed then p else p.(marks := p.marks + [mark])
  }

  /** The `finally` block of poll. */
  function Finished(c: Clock, hoursUrl: bool, p: Poller, now: int): Poller
    requires ValidHours(c, p.hours)
  {
    Scheduled(c, hoursUrl, Marked(p.(phase := Idle), Tick(now)), now)
  }

  /** poll from the second disposed check on. */
  function AfterHours(c: Clock, hoursUrl: bool, p: Poller, now: int): Poller
    requires ValidHours(c, p.hours)
  {
    if p.disposed then Finished(c, hoursUrl, p, now)
    else
      var q := Marked(p, Tick(now));
      if !ScheduleAt(c, p.hours, now).open then Finished(c, hoursUrl, q, now)
      else Marked(q.(phase := AwaitStatus, requests := q.requests + 1), StatusRequest(now, p.hours))
  }

  function Polled(c: Clock, hoursUrl: bool, p: Poller, now: int): Poller
    requires ValidHours(c, p.hours)
  {
    if p.disposed || !p.phase.Idle? then p
    else
      var q := ClearTimer(p);
      if hoursUrl && now >= p.hoursRefreshAt then
        Marked(q.(phase := AwaitHours, requests := q.requests + 1), HoursRequest(now))
      else AfterHours(c, hoursUrl, q, now)
  }

  function NewRefreshAt(hours: Hours, now: int): int {
    if hours.refreshAt == 0 then now + HOURS_RETRY_MS
    else if hours.refreshAt + 3_000 < now + 30_000 then now + 30_000
    else hours.refreshAt + 3_000
  }

  function SavedHours(hours: Hours): Hours {
    hours.(source := if hours.checkedAt.None? then Fallback else Cached)
  }

  function WithHours(p: Poller, reply: Option<Hours>, now: int): Poller {
    if reply.Some? then p.(hours := reply.value, hoursRefreshAt := NewRefreshAt(reply.value, now))
    else p.(hours := SavedHours(p.hours), hoursRefreshAt := now + HOURS_RETRY_MS)
  }

  function SettledRequest(p: Poller): Poller
    requires p.requests > 0
  {
    p.(requests := p.requests - 1)
  }

  /** The hours reply: None for any failure, abort or rejected content. */
  function HoursAnswered(c: Clock, hoursUrl: bool, p: Poller, reply: Option<Hours>, now: int): Poller
    requires ValidHours(c, p.hours) && (reply.Some? ==> ValidHours(c, reply.value))
  {
    if !p.phase.AwaitHours? || p.requests == 0 then p
    else
      var q := SettledRequest(p);
      if p.disposed then Finished(c, hoursUrl, q, now)
      else AfterHours(c, hoursUrl, WithHours(q, reply, now), now)
  }

  /** The status reply: `usable` when it arrived whole and parsed. */
  function StatusAnswered(c: Clock, hoursUrl: bool, p: Poller, usable: bool, now: int): Poller
    requires ValidHours(c, p.hours)
  {
    if !p.phase.AwaitStatus? || p.requests == 0 then p
    else
      var q := SettledRequest(p);
      var r := if usable then Marked(q, SnapshotCall(now))
               else if ScheduleAt(c, p.hours, now).open then Marked(q, FailureCall(now))
               else q;
      Finished(c, hoursUrl, r, now)
  }

  function Stopped(p: Poller): Poller { ClearTimer(p.(disposed := true)) }

  datatype Event =
    | PollCall(now: int)
    | TimerFires(id: nat, now: int)
    | HoursReply(reply: Option<Hours>, now: int)
    | StatusReply(usable: bool, now: int)
    | StopCall

  predicate ValidEvent(c: Clock, e: Event) {
    e.HoursReply? && e.reply.Some? ==> ValidHours(c, e.reply.value)
  }

  function Step(c: Clock, hoursUrl: bool, p: Poller, e: Event): Poller
    requires ValidHours(c, p.hours) && ValidEvent(c, e)
  {
    match e
    case PollCall(now) => Polled(c, hoursUrl, p, now)
    case TimerFires(id, now) =>
      if id in p.timers then Polled(c, hoursUrl, p.(timers := p.timers - {id}), now) else p
    case HoursReply(reply, now) => HoursAnswered(c, hoursUrl, p, reply, now)
    case StatusReply(usable, now) => StatusAnswered(c, hoursUrl, p, usable, now)
    case StopCall => Stopped(p)
  }

  // ----- the closure -----------------------------------------------------------------------

  class BndStatusPolling {
    const c: Clock
    const hoursUrl: bool
    var hoursRefreshAt: int
    var disposed: bool
    var phase: Phase
    var timers: map<nat, int>
    var timer: Option<nat>
    var nextId: nat
    var requests: nat
    var hours: Hours
    var marks: seq<Mark>

    function State(): Poller
      reads this
    {
      Poller(disposed, phase, timers, timer, nextId, requests, hoursRefreshAt, hours, marks)
    }

    constructor (c: Clock, hoursUrl: bool, hours: Hours)
      requires ValidHours(c, hours)
      ensures State() == Initial(hours) && this.c == c && this.hoursUrl == hoursUrl
    {
      this.c, this.hoursUrl, this.hours := c, hoursUrl, hours;
      hoursRefreshAt, disposed, phase := 0, false, Idle;
      timers, timer, nextId, requests, marks := map[], None, 0, 0, [];
    }

    method SetTimeout(now: int, delay: int)
      modifies this
      ensures State() == WithTimer(old(State()), now, now + delay)
    {
      timers := timers[nextId := now + delay];
      timer := Some(nextId);
      nextId := nextId + 1;
      marks := marks + [Armed(now, now + delay, hours)];
    }

    method NextDelay(now: int) returns (delay: int)
      requires ValidHours(c, hours)
      ensures delay == Delay(c, hours, hoursUrl, hoursRefreshAt, now)
    {
      var s := GetBndSchedule(c, hours, now);
      delay := s.nextChangeAt - now;
      if s.open && BND_STATUS_POLL_MS < delay { delay := BND_STATUS_POLL_MS; }
      if hoursUrl && hoursRefreshAt - now < delay { delay := hoursRefreshAt - now; }
      if delay < 1 { delay := 1; }
    }

    method Schedule(now: int)
      requires ValidHours(c, hours)
      modifies this
      ensures State() == Scheduled(c, hoursUrl, old(State()), now)
    {
      if disposed { return; }
      var delay := NextDelay(now);
      SetTimeout(now, delay);
    }

    method Mark(mark: Mark)
      modifies this
      ensures State() == Marked(old(State()), mark)
    {
      if !disposed { marks := marks + [mark]; }
    }

    method ClearTimeout()
      modifies this
      ensures State() == ClearTimer(old(State()))
    {
      if timer.Some? { timers := timers - {timer.value}; }
    }

    method Finish(now: int)
      requires ValidHours(c, hours)
      modifies this
      ensures State() == Finished(c, hoursUrl, old(State()), now)
    {
      phase := Idle;
      Mark(Tick(now));
      Schedule(now);
    }

    method ContinueAfterHours(now: int)
      requires ValidHours(c, hours)
      modifies this
      ensures State() == AfterHours(c, hoursUrl, old(State()), now)
    {
      if disposed { Finish(now); return; }
      Mark(Tick(now));
      var s := GetBndSchedule(c, hours, now);
      if !s.open { Finish(now); return; }
      phase, requests := AwaitStatus, requests + 1;
      Mark(StatusRequest(now, hours));
    }

    method Poll(now: int)
      requires ValidHours(c, hours)
      modifies this
      ensures State() == Polled(c, hoursUrl, old(State()), now)
    {
      if disposed || phase != Idle { return; }
      ClearTimeout();
      if hoursUrl && now >= hoursRefreshAt {
        phase, requests := AwaitHours, requests + 1;
        Mark(HoursRequest(now));
      } else {
        ContinueAfterHours(now);
      }
    }

    method FireTimer(id: nat, now: int)
      requires ValidHours(c, hours)
      modifies this
      ensures State() == Step(c, hoursUrl, old(State()), TimerFires(id, now))
    {
      if id !in timers { return; }
      timers := timers - {id};
      Poll(now);
    }

    method ApplyHours(reply: Option<Hours>, now: int)
      requires ValidHours(c, hours) && (reply.Some? ==> ValidHours(c, reply.value))
      modifies this
      ensures State() == WithHours(old(State()), reply, now)
      ensures ValidHours(c, hours)
    {
      if reply.Some? {
        hours := reply.value;
        hoursRefreshAt := NewRefreshAt(hours, now);
      } else {
        hours := SavedHours(hours);
        hoursRefreshAt := now + HOURS_RETRY_MS;
      }
    }

    method SettleRequest()
      requires requests > 0
      modifies this
      ensures State() == SettledRequest(old(State()))
    {
      requests := requests - 1;
    }

    method ContinueWithHours(reply: Option<Hours>, now: int)
      requires ValidHours(c, hours) && (reply.Some? ==> ValidHours(c, reply.value))
      modifies this
      ensures State() == AfterHours(c, hoursUrl, WithHours(old(State()), reply, now), now)
    {
      ApplyHours(reply, now);
      ContinueAfterHours(now);
    }

    method AnswerHours(reply: Option<Hours>, now: int)
      requires ValidHours(c, hours) && (reply.Some? ==> ValidHours(c, reply.value))
      modifies this
      ensures State() == HoursAnswered(c, hoursUrl, old(State()), reply, now)
    {
      if phase != AwaitHours || requests == 0 { return; }
      SettleRequest();
      if disposed { Finish(now); } else { ContinueWithHours(reply, now); }
    }

    method AnswerStatus(usable: bool, now: int)
      requires ValidHours(c, hours)
      modifies this
      ensures State() == StatusAnswered(c, hoursUrl, old(State()), usable, now)
    {
      if phase != AwaitStatus || requests == 0 { return; }
      SettleRequest();
      if usable {
        Mark(SnapshotCall(now));
      } else {
        var s := GetBndSchedule(c, hours, now);
        if s.open { Mark(FailureCall(now)); }
      }
      Finish(now);
    }

    method Stop()
      modifies this
      ensures State() == Stopped(old(State()))
    {
      disposed := true;
      ClearTimeout();
    }
  }

  // ----- every run ----------------------------------------------------------------------------

  /** A status request starts only while it is open. A timer never sleeps past the next
      change of the schedule, and polls at least every ten seconds while it is open. */
  ghost predicate GoodMark(c: Clock, mark: Mark) {
    match mark
    case StatusRequest(at, hours) => ValidHours(c, hours) && IsOpen(c, hours, at)
    case Armed(at, deadline, hours) =>
      && ValidHours(c, hours) && at < deadline
      && (forall t :: at <= t < deadline ==> IsOpen(c, hours, t) == IsOpen(c, hours, at))
      && (IsOpen(c, hours, at) ==> deadline <= at + BND_STATUS_POLL_MS)
    case _ => true
  }

  /** Exactly one of "a poll runs" and "one timer is armed", from the first poll until
      stop; the variable `timer` always names the armed one. */
  ghost predicate Inv(c: Clock, p: Poller, started: bool) {
    && ValidHours(c, p.hours)
    && (forall mark :: mark in p.marks ==> GoodMark(c, mark))
    && p.requests == (if p.phase.Idle? then 0 else 1)
    && (forall id :: id in p.timers ==> p.timer == Some(id))
    && (!p.phase.Idle? || p.disposed || !started ==> p.timers == map[])
    && (started && p.phase.Idle? && !p.disposed ==>
          p.timer.Some? && p.timers.Keys == {p.timer.value})
    && (!started ==> p.phase.Idle? && p.marks == [])
  }

  lemma ArmedIsGood(c: Clock, hoursUrl: bool, hours: Hours, refreshAt: int, now: int)
    requires Regular(c) && ValidHours(c, hours)
    ensures GoodMark(c, Armed(now, now + Delay(c, hours, hoursUrl, refreshAt, now), hours))
  {
    var deadline := now + Delay(c, hours, hoursUrl, refreshAt, now);
    ScheduleHolds(c, hours, now, now);
    forall t | now <= t < deadline ensures IsOpen(c, hours, t) == IsOpen(c, hours, now) {
      ScheduleHolds(c, hours, now, t);
    }
  }

  // ----- what each event does ---------------------------------------------------------------------

  /** The instants that can end a sleep begun now: the next change of the schedule, ten
      seconds from now while it is open, and the refresh of the hours where there is one. */
  function WakeTimes(c: Clock, hoursUrl: bool, hours: Hours, refreshAt: int, now: int): set<int>
    requires ValidHours(c, hours)
  {
    {ScheduleAt(c, hours, now).nextChangeAt} + (if IsOpen(c, hours, now) then {now + 10_000} else {}) +
    (if hoursUrl then {refreshAt} else {})
  }

  /** The earliest of them, but at least one millisecond from now. */
  ghost predicate WakesAt(c: Clock, hoursUrl: bool, hours: Hours, refreshAt: int, now: int, deadline: int)
    requires ValidHours(c, hours)
  {
    var times := WakeTimes(c, hoursUrl, hours, refreshAt, now);
    && now < deadline && (deadline in times || (deadline == now + 1 && exists t :: t in times && t <= now))
    && forall t :: t in times ==> deadline <= t || deadline == now + 1
  }

  /** The poll is over and the one timer is set. */
  ghost predicate Sleeps(c: Clock, hoursUrl: bool, q: Poller, now: int)
    requires ValidHours(c, q.hours)
  {
    && q.phase.Idle? && q.marks != [] && q.timer.Some? && q.timer.value in q.timers
    && var deadline := q.timers[q.timer.value];
       q.marks[|q.marks| - 1] == Armed(now, deadline, q.hours) &&
       WakesAt(c, hoursUrl, q.hours, q.hoursRefreshAt, now, deadline)
  }

  lemma EarliestWake(limit: int, hurry: Option<int>, refresh: Option<int>, now: int, times: set<int>)
    requires now < limit && (hurry.Some? ==> now < hurry.value)
    requires times == {limit} + (if hurry.Some? then {hurry.value} else {}) +
                      (if refresh.Some? then {refresh.value} else {})
    ensures var first := if hurry.Some? && hurry.value < limit then hurry.value else limit;
      var soon := if refresh.Some? && refresh.value < first then refresh.value else first;
      var deadline := if soon < now + 1 then now + 1 else soon;
      && now < deadline && (deadline in times || (deadline == now + 1 && exists t :: t in times && t <= now))
      && forall t :: t in times ==> deadline <= t || deadline == now + 1
  {
    assert forall t :: t in times <==> t == limit || hurry == Some(t) || refresh == Some(t);
    if refresh.Some? && refresh.value < now + 1 { assert refresh.value in times; }
  }

  lemma DelayWakes(c: Clock, hoursUrl: bool, hours: Hours, refreshAt: int, now: int)
    requires Regular(c) && ValidHours(c, hours)
    ensures WakesAt(c, hoursUrl, hours, refreshAt, now, now + Delay(c, hours, hoursUrl, refreshAt, now))
  {
    ScheduleHolds(c, hours, now, now);
    EarliestWake(ScheduleAt(c, hours, now).nextChangeAt,
                 if IsOpen(c, hours, now) then Some(now + 10_000) else None,
                 if hoursUrl then Some(refreshAt) else None,
                 now, WakeTimes(c, hoursUrl, hours, refreshAt, now));
  }

  lemma FinishedSleeps(c: Clock, hoursUrl: bool, p: Poller, now: int)
    requires Regular(c) && ValidHours(c, p.hours) && !p.disposed
    ensures var q := Finished(c, hoursUrl, p, now);
      && q.hours == p.hours && q.hoursRefreshAt == p.hoursRefreshAt && q.requests == p.requests && !q.disposed
      && Sleeps(c, hoursUrl, q, now) && q.marks[..|q.marks| - 1] == p.marks + [Tick(now)]
  {
    DelayWakes(c, hoursUrl, p.hours, p.hoursRefreshAt, now);
  }

  /** From the hours on: a tick, then a status request if it is open, else a sleep. */
  ghost predicate GoesOnFrom(c: Clock, hoursUrl: bool, p: Poller, q: Poller, now: int)
    requires ValidHours(c, p.hours)
  {
    && q.hours == p.hours && q.hoursRefreshAt == p.hoursRefreshAt && !q.disposed
    && if IsOpen(c, p.hours, now) then
         q.phase.AwaitStatus? && q.requests == p.requests + 1 && q.timers == p.timers &&
         q.marks == p.marks + [Tick(now), StatusRequest(now, p.hours)]
       else
         q.requests == p.requests && Sleeps(c, hoursUrl, q, now) &&
         q.marks[..|q.marks| - 1] == p.marks + [Tick(now), Tick(now)]
  }

  lemma AfterHoursDoes(c: Clock, hoursUrl: bool, p: Poller, now: int)
    requires Regular(c) && ValidHours(c, p.hours) && !p.disposed
    ensures GoesOnFrom(c, hoursUrl, p, AfterHours(c, hoursUrl, p, now), now)
  {
    ScheduleHolds(c, p.hours, now, now);
    assert p.marks + [Tick(now)] + [Tick(now)] == p.marks + [Tick(now), Tick(now)];
    if !IsOpen(c, p.hours, now) { FinishedSleeps(c, hoursUrl, Marked(p, Tick(now)), now); }
  }

  /** A poll while none runs clears the timer; it asks for the hours if they are due, else
      goes on with those it has. */
  lemma PollDoes(c: Clock, hoursUrl: bool, p: Poller, now: int)
    requires Regular(c) && ValidHours(c, p.hours) && !p.disposed && p.phase.Idle?
    requires forall id :: id in p.timers ==> p.timer == Some(id)
    ensures var (q, awake) := (Step(c, hoursUrl, p, PollCall(now)), p.(timers := map[]));
      if hoursUrl && p.hoursRefreshAt <= now then
        q == awake.(phase := AwaitHours, requests := p.requests + 1, marks := p.marks + [HoursRequest(now)])
      else GoesOnFrom(c, hoursUrl, awake, q, now)
  {
    assert ClearTimer(p).timers == map[];
    AfterHoursDoes(c, hoursUrl, ClearTimer(p), now);
  }

  /** The very first poll asks for the hours, where there are any to ask for, since they are
      due from instant 0 on. */
  lemma FirstPollDoes(c: Clock, hours: Hours, now: int)
    requires ValidHours(c, hours)
    ensures Step(c, true, Initial(hours), PollCall(now)).marks == [HoursRequest(now)] <==> 0 <= now
  {
  }

  /** The hours answered: new hours are taken over and asked for again when they say, not
      within 30 seconds, or after 15 minutes; on a failure the old ones stay, marked as
      saved, for 15 minutes. Then the poll goes on. */
  lemma HoursDo(c: Clock, hoursUrl: bool, p: Poller, reply: Option<Hours>, now: int)
    requires Regular(c) && ValidHours(c, p.hours) && (reply.Some? ==> ValidHours(c, reply.value))
    requires p.phase.AwaitHours? && p.requests == 1 && !p.disposed
    ensures var q := Step(c, hoursUrl, p, HoursReply(reply, now));
      var hours := if reply.Some? then reply.value
                   else p.hours.(source := if p.hours.checkedAt.Some? then Cached else Fallback);
      var refreshAt := if reply.None? || hours.refreshAt == 0 then now + 900_000
                       else if now + 30_000 <= hours.refreshAt + 3_000 then hours.refreshAt + 3_000
                       else now + 30_000;
      ValidHours(c, hours) &&
      GoesOnFrom(c, hoursUrl, p.(requests := 0, hours := hours, hoursRefreshAt := refreshAt), q, now)
  {
    AfterHoursDoes(c, hoursUrl, WithHours(p.(requests := 0), reply, now), now);
  }

  /** The status answered: a usable one is passed on, anything else is a failure if it is
      still open, and the poll ends with a tick and a sleep. */
  lemma StatusDoes(c: Clock, hoursUrl: bool, p: Poller, usable: bool, now: int)
    requires Regular(c) && ValidHours(c, p.hours) && p.phase.AwaitStatus? && p.requests == 1 && !p.disposed
    ensures var q := Step(c, hoursUrl, p, StatusReply(usable, now));
      && q.hours == p.hours && q.hoursRefreshAt == p.hoursRefreshAt && q.requests == 0 && !q.disposed
      && Sleeps(c, hoursUrl, q, now)
      && q.marks[..|q.marks| - 1] == p.marks +
         (if usable then [SnapshotCall(now), Tick(now)]
          else if IsOpen(c, p.hours, now) then [FailureCall(now), Tick(now)]
          else [Tick(now)])
  {
    ScheduleHolds(c, p.hours, now, now);
    var r := p.(requests := 0);
    var call := if usable then [SnapshotCall(now)] else if IsOpen(c, p.hours, now) then [FailureCall(now)] else [];
    assert p.marks + call + [Tick(now)] == p.marks + (call + [Tick(now)]);
    FinishedSleeps(c, hoursUrl, r.(marks := p.marks + call), now);
    assert p.marks + [] == p.marks;
  }

  /** The armed timer polls once; stop clears it. */
  lemma TimerAndStopDo(c: Clock, hoursUrl: bool, p: Poller, id: nat, now: int)
    requires ValidHours(c, p.hours) && forall i :: i in p.timers ==> p.timer == Some(i)
    ensures Step(c, hoursUrl, p, TimerFires(id, now)) ==
            if id in p.timers then Step(c, hoursUrl, p.(timers := map[]), PollCall(now)) else p
    ensures Step(c, hoursUrl, p, StopCall) == p.(disposed := true, timers := map[])
  {
    if id in p.timers { assert p.timers - {id} == map[]; }
    assert ClearTimer(p).timers == map[];
  }

  /** After stop an answer only ends the poll. */
  lemma DisposedDoes(c: Clock, hoursUrl: bool, p: Poller, reply: Option<Hours>, usable: bool, now: int)
    requires ValidHours(c, p.hours) && (reply.Some? ==> ValidHours(c, reply.value)) && p.disposed && p.requests == 1
    ensures p.phase.AwaitHours? ==> HoursAnswered(c, hoursUrl, p, reply, now) == p.(phase := Idle, requests := 0)
    ensures p.phase.AwaitStatus? ==> StatusAnswered(c, hoursUrl, p, usable, now) == p.(phase := Idle, requests := 0)
    ensures Polled(c, hoursUrl, p, now) == p
  {
  }

  lemma ScheduledInv(c: Clock, hoursUrl: bool, p: Poller, now: int)
    requires Regular(c) && Inv(c, p.(phase := AwaitHours, requests := 1), true)
    requires p.phase.Idle? && p.requests == 0
    ensures Inv(c, Scheduled(c, hoursUrl, p, now), true)
  {
    ArmedIsGood(c, hoursUrl, p.hours, p.hoursRefreshAt, now);
  }

  /** A poll that has no request outstanding ends by arming its one timer. */
  lemma FinishedInv(c: Clock, hoursUrl: bool, p: Poller, now: int)
    requires Regular(c) && p.requests == 0
    requires Inv(c, p.(phase := AwaitHours, requests := 1), true)
    ensures Inv(c, Finished(c, hoursUrl, p, now), true)
  {
    ScheduledInv(c, hoursUrl, Marked(p.(phase := Idle), Tick(now)), now);
  }

  lemma AfterHoursInv(c: Clock, hoursUrl: bool, p: Poller, now: int)
    requires Regular(c) && p.requests == 0
    requires Inv(c, p.(phase := AwaitHours, requests := 1), true)
    ensures Inv(c, AfterHours(c, hoursUrl, p, now), true)
  {
    ScheduleHolds(c, p.hours, now, now);
    if p.disposed {
      FinishedInv(c, hoursUrl, p, now);
    } else if !ScheduleAt(c, p.hours, now).open {
      FinishedInv(c, hoursUrl, Marked(p, Tick(now)), now);
    }
  }

  lemma PolledInv(c: Clock, hoursUrl: bool, p: Poller, started: bool, now: int)
    requires Regular(c) && !p.disposed && p.phase.Idle?
    requires Inv(c, p, started) || Inv(c, p.(phase := AwaitHours, requests := 1), true)
    requires p.requests == 0
    ensures Inv(c, Polled(c, hoursUrl, p, now), true)
  {
    var q := ClearTimer(p);
    assert q.timers == map[];
    if !(hoursUrl && now >= p.hoursRefreshAt) {
      AfterHoursInv(c, hoursUrl, q, now);
    }
  }

  lemma HoursAnsweredInv(c: Clock, hoursUrl: bool, p: Poller, reply: Option<Hours>, now: int)
    requires Regular(c) && Inv(c, p, true) && (reply.Some? ==> ValidHours(c, reply.value))
    ensures Inv(c, HoursAnswered(c, hoursUrl, p, reply, now), true)
  {
    if p.phase.AwaitHours? {
      var q := p.(requests := 0);
      if p.disposed {
        FinishedInv(c, hoursUrl, q, now);
      } else {
        AfterHoursInv(c, hoursUrl, WithHours(q, reply, now), now);
      }
    }
  }

  lemma StatusAnsweredInv(c: Clock, hoursUrl: bool, p: Poller, usable: bool, now: int)
    requires Regular(c) && Inv(c, p, true)
    ensures Inv(c, StatusAnswered(c, hoursUrl, p, usable, now), true)
  {
    if p.phase.AwaitStatus? {
      var q := p.(requests := 0);
      var r := if usable then Marked(q, SnapshotCall(now))
               else if ScheduleAt(c, p.hours, now).open then Marked(q, FailureCall(now))
               else q;
      FinishedInv(c, hoursUrl, r, now);
    }
  }

  lemma StepInv(c: Clock, hoursUrl: bool, p: Poller, started: bool, e: Event)
    requires Regular(c) && ValidEvent(c, e) && Inv(c, p, started)
    ensures Inv(c, Step(c, hoursUrl, p, e), started || e.PollCall?)
  {
    match e {
      case PollCall(now) =>
        if !p.disposed && p.phase.Idle? { PolledInv(c, hoursUrl, p, started, now); }
      case TimerFires(id, now) =>
        if id in p.timers {
          assert p.timers - {id} == map[];
          PolledInv(c, hoursUrl, p.(timers := map[]), started, now);
        }
      case HoursReply(reply, now) =>
        if p.phase.AwaitHours? { HoursAnsweredInv(c, hoursUrl, p, reply, now); }
      case StatusReply(usable, now) =>
        if p.phase.AwaitStatus? { StatusAnsweredInv(c, hoursUrl, p, usable, now); }
      case StopCall =>
    }
  }

  predicate HasPoll(events: seq<Event>) {
    exists i :: 0 <= i < |events| && events[i].PollCall?
  }

  ghost predicate Reaches(c: Clock, hoursUrl: bool, p: Poller, events: seq<Event>, q: Poller)
    decreases |events|
  {
    if events == [] then q == p
    else ValidHours(c, p.hours) && ValidEvent(c, events[0]) &&
         Reaches(c, hoursUrl, Step(c, hoursUrl, p, events[0]), events[1..], q)
  }

  lemma {:induction false} ReachesInv(c: Clock, hoursUrl: bool, p: Poller, started: bool, events: seq<Event>, q: Poller)
    requires Regular(c) && Inv(c, p, started) && Reaches(c, hoursUrl, p, events, q)
    ensures Inv(c, q, started || HasPoll(events))
    decreases |events|
  {
    if events != [] {
      StepInv(c, hoursUrl, p, started, events[0]);
      ReachesInv(c, hoursUrl, Step(c, hoursUrl, p, events[0]), started || events[0].PollCall?, events[1..], q);
      assert HasPoll(events) <==> events[0].PollCall? || HasPoll(events[1..]) by {
        if HasPoll(events[1..]) {
          var i :| 0 <= i < |events[1..]| && events[1..][i].PollCall?;
          assert events[i + 1].PollCall?;
        }
      }
    }
  }

  /** In every state some events reach: at most one request is unanswered; once polled
      and until stopped, exactly one of "a poll runs" and "one timer is armed" holds;
      status requests start only while open; no sleep passes the next change. */
  lemma PollerIsSafe(c: Clock, hoursUrl: bool, hours: Hours, events: seq<Event>, q: Poller)
    requires Regular(c) && ValidHours(c, hours)
    requires Reaches(c, hoursUrl, Initial(hours), events, q)
    ensures q.requests <= 1 && |q.timers| <= 1
    ensures HasPoll(events) && !q.disposed ==> (!q.phase.Idle? <==> |q.timers| == 0)
    ensures forall mark :: mark in q.marks ==> GoodMark(c, mark)
  {
    ReachesInv(c, hoursUrl, Initial(hours), false, events, q);
    assert q.timers.Keys <= {if q.timer.Some? then q.timer.value else 0};
    assert |q.timers| == |q.timers.Keys|;
    if q.timers.Keys == {} {
      assert q.timers == map[];
    } else {
      assert q.timers.Keys == {q.timer.value};
    }
  }

  lemma SilentStep(c: Clock, hoursUrl: bool, p: Poller, e: Event)
    requires ValidHours(c, p.hours) && ValidEvent(c, e) && p.disposed && p.timers == map[]
    ensures var q := Step(c, hoursUrl, p, e); q.disposed && q.marks == p.marks && q.timers == map[]
  {
  }

  /** After stop nothing is called, requested or armed any more, whatever still arrives. */
  lemma {:induction false} SilentAfterStop(c: Clock, hoursUrl: bool, p: Poller, events: seq<Event>, q: Poller)
    requires p.disposed && p.timers == map[] && Reaches(c, hoursUrl, p, events, q)
    ensures q.disposed && q.marks == p.marks && q.timers == map[]
    decreases |events|
  {
    if events != [] {
      SilentStep(c, hoursUrl, p, events[0]);
      SilentAfterStop(c, hoursUrl, Step(c, hoursUrl, p, events[0]), events[1..], q);
    }
  }

  /** stop leaves no timer behind, in every reachable state. */
  lemma StopClears(c: Clock, hoursUrl: bool, hours: Hours, events: seq<Event>, q: Poller)
    requires Regular(c) && ValidHours(c, hours)
    requires Reaches(c, hoursUrl, Initial(hours), events, q)
    ensures Stopped(q).disposed && Stopped(q).timers == map[] && Stopped(q).marks == q.marks
  {
    ReachesInv(c, hoursUrl, Initial(hours), false, events, q);
  }
}
