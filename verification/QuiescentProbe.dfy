/** The handler of the quiescent API server (src/quiescentServer.ts): simultaneous
    readiness requests share one database probe. */
module QuiescentProbe {
  import opened Options

  datatype Body = Alive | ApiQuiescent | Database(ok: bool)

  datatype Reply = Reply(status: int, body: Body)

  /** A request and its response. A readiness request names the probe it joined until its
      callback has run, and after; `replies` is what was written, in order. */
  datatype Exchange = Exchange(probe: Option<nat>, called: bool, destroyed: bool, replies: seq<Reply>)

  /** `probes` holds the result of each probe ever started, None while it is pending. */
  datatype State = State(inFlight: Option<nat>, probes: seq<Option<bool>>, exchanges: seq<Exchange>)

  datatype Event =
    | Arrives(verb: string, url: string)
    | ProbeSettles(p: nat, ok: bool)
    | CallbackRuns(x: nat)
    | ResponseDestroyed(x: nat)

  const START: State := State(None, [], [])

  function LiveReply(): Reply { Reply(200, Alive) }

  function RefusedReply(): Reply { Reply(503, ApiQuiescent) }

  function ReadyReply(ok: bool): Reply { Reply(if ok then 200 else 503, Database(ok)) }

  predicate IsLive(verb: string, url: string) { verb == "GET" && url == "/api/v1/health/live" }

  predicate IsReady(verb: string, url: string) { verb == "GET" && url == "/api/v1/health/ready" }

  function Arrived(s: State, verb: string, url: string): State {
    if IsLive(verb, url) then s.(exchanges := s.exchanges + [Exchange(None, false, false, [LiveReply()])])
    else if !IsReady(verb, url) then
      s.(exchanges := s.exchanges + [Exchange(None, false, false, [RefusedReply()])])
    else
      match s.inFlight
      case Some(p) => s.(exchanges := s.exchanges + [Exchange(Some(p), false, false, [])])
      case None =>
        State(Some(|s.probes|), s.probes + [None],
              s.exchanges + [Exchange(Some(|s.probes|), false, false, [])])
  }

  /** A probe settles once. */
  function Settled(s: State, p: nat, ok: bool): State {
    if p < |s.probes| && s.probes[p].None? then s.(probes := s.probes[p := Some(ok)]) else s
  }

  /** The callback of an exchange can run: it waits on a probe that has settled. */
  predicate Ready(s: State, x: nat) {
    && x < |s.exchanges| && s.exchanges[x].probe.Some? && !s.exchanges[x].called
    && s.exchanges[x].probe.value < |s.probes| && s.probes[s.exchanges[x].probe.value].Some?
  }

  function Called(s: State, x: nat): State {
    if !Ready(s, x) then s
    else
      var (was, check) := (s.exchanges[x], s.exchanges[x].probe.value);
      var ok := s.probes[check].value;
      s.(inFlight := if s.inFlight == Some(check) then None else s.inFlight,
         exchanges := s.exchanges[x := was.(called := true,
           replies := if was.destroyed then was.replies else was.replies + [ReadyReply(ok)])])
  }

  function Destroyed(s: State, x: nat): State {
    if x < |s.exchanges| then s.(exchanges := s.exchanges[x := s.exchanges[x].(destroyed := true)]) else s
  }

  function Step(s: State, e: Event): State {
    match e
    case Arrives(verb, url) => Arrived(s, verb, url)
    case ProbeSettles(p, ok) => Settled(s, p, ok)
    case CallbackRuns(x) => Called(s, x)
    case ResponseDestroyed(x) => Destroyed(s, x)
  }

  function Run(events: seq<Event>): State {
    if events == [] then START else Step(Run(events[..|events| - 1]), events[|events| - 1])
  }

  /** `inFlight` is the handler's only variable; the rest is the world it acts on. */
  class QuiescentHandler {
    var inFlight: Option<nat>
    var probes: seq<Option<bool>>
    var exchanges: seq<Exchange>

    ghost function Contents(): State
      reads this
    {
      State(inFlight, probes, exchanges)
    }

    constructor ()
      ensures Contents() == START
    {
      inFlight, probes, exchanges := None, [], [];
    }

    method Handle(verb: string, url: string)
      modifies this
      ensures Contents() == Arrived(old(Contents()), verb, url)
    {
      if verb == "GET" && url == "/api/v1/health/live" {
        exchanges := exchanges + [Exchange(None, false, false, [LiveReply()])];
        return;
      }
      if verb != "GET" || url != "/api/v1/health/ready" {
        exchanges := exchanges + [Exchange(None, false, false, [RefusedReply()])];
        return;
      }
      if inFlight.None? {
        inFlight := Some(|probes|);
        probes := probes + [None];
      }
      exchanges := exchanges + [Exchange(Some(inFlight.value), false, false, [])];
    }

    /** `check.then(ok => …)` for the request that joined `check`. */
    method CheckDone(x: nat)
      requires Ready(Contents(), x)
      modifies this
      ensures Contents() == Called(old(Contents()), x)
    {
      var check := exchanges[x].probe.value;
      var ok := probes[check].value;
      if inFlight == Some(check) { inFlight := None; }
      var exchange := exchanges[x].(called := true);
      if !exchange.destroyed { exchange := exchange.(replies := exchange.replies + [ReadyReply(ok)]); }
      exchanges := exchanges[x := exchange];
    }
  }

  // ----- what every run keeps -------------------------------------------------------------

  /** An exchange has joined a probe that exists; its callback ran only after the probe
      settled; and what it wrote is the one reply it was due. */
  predicate ExchangeGood(exchange: Exchange, probes: seq<Option<bool>>) {
    match exchange.probe
    case None => |exchange.replies| == 1 && exchange.replies[0] in [LiveReply(), RefusedReply()]
    case Some(p) =>
      && p < |probes|
      && (exchange.called ==> probes[p].Some?)
      && (!exchange.called ==> exchange.replies == [])
      && (exchange.called && !exchange.destroyed ==> exchange.replies == [ReadyReply(probes[p].value)])
      && (exchange.called ==> exchange.replies in [[], [ReadyReply(probes[p].value)]])
  }

  ghost predicate ExchangesGood(s: State) {
    forall x :: 0 <= x < |s.exchanges| ==> ExchangeGood(s.exchanges[x], s.probes)
  }

  /** The probe in flight has callbacks to run, and none of them has run. */
  ghost predicate FlightGood(s: State) {
    s.inFlight.Some? ==>
      && s.inFlight.value < |s.probes|
      && (exists x :: 0 <= x < |s.exchanges| && s.exchanges[x].probe == s.inFlight)
      && (forall x :: 0 <= x < |s.exchanges| && s.exchanges[x].probe == s.inFlight ==> !s.exchanges[x].called)
  }

  ghost predicate OthersSettled(s: State) {
    forall p :: 0 <= p < |s.probes| && s.probes[p].None? ==> s.inFlight == Some(p)
  }

  ghost predicate Inv(s: State) { ExchangesGood(s) && FlightGood(s) && OthersSettled(s) }

  lemma ArrivedInv(s: State, verb: string, url: string)
    requires Inv(s)
    ensures Inv(Arrived(s, verb, url))
  {
    var after, n := Arrived(s, verb, url), |s.exchanges|;
    assert forall x :: 0 <= x < n ==> after.exchanges[x] == s.exchanges[x];
    forall x | 0 <= x <= n ensures ExchangeGood(after.exchanges[x], after.probes) {
      if x < n { assert ExchangeGood(s.exchanges[x], s.probes); }
    }
    if IsReady(verb, url) { assert after.exchanges[n].probe == after.inFlight; }
  }

  lemma SettledInv(s: State, p: nat, ok: bool)
    requires Inv(s)
    ensures Inv(Settled(s, p, ok))
  {
    forall x | 0 <= x < |s.exchanges| ensures ExchangeGood(s.exchanges[x], Settled(s, p, ok).probes) {
      assert ExchangeGood(s.exchanges[x], s.probes);
    }
  }

  lemma CalledExchanges(s: State, x: nat)
    requires ExchangesGood(s) && Ready(s, x)
    ensures ExchangesGood(Called(s, x))
  {
    var after := Called(s, x);
    forall y | 0 <= y < |s.exchanges| ensures ExchangeGood(after.exchanges[y], after.probes) {
      assert ExchangeGood(s.exchanges[y], s.probes);
    }
  }

  lemma CalledInv(s: State, x: nat)
    requires Inv(s) && Ready(s, x)
    ensures Inv(Called(s, x))
  {
    CalledExchanges(s, x);
    FlightKept(s, Called(s, x));
  }

  lemma DestroyedInv(s: State, x: nat)
    requires Inv(s) && x < |s.exchanges|
    ensures Inv(Destroyed(s, x))
  {
    var after := Destroyed(s, x);
    forall y | 0 <= y < |s.exchanges| ensures ExchangeGood(after.exchanges[y], after.probes) {
      assert ExchangeGood(s.exchanges[y], s.probes);
    }
    FlightKept(s, after);
  }

  lemma FlightKept(s: State, after: State)
    requires FlightGood(s) && after.inFlight in [s.inFlight, None]
    requires after.probes == s.probes && |after.exchanges| == |s.exchanges|
    requires forall x :: 0 <= x < |s.exchanges| ==> after.exchanges[x].probe == s.exchanges[x].probe
    requires forall x :: 0 <= x < |s.exchanges| && after.exchanges[x].probe == after.inFlight ==>
      after.exchanges[x].called == s.exchanges[x].called
    ensures FlightGood(after)
  {
    if after.inFlight.Some? {
      var x :| 0 <= x < |s.exchanges| && s.exchanges[x].probe == s.inFlight;
      assert after.exchanges[x].probe == after.inFlight;
    }
  }

  lemma StepInv(s: State, e: Event)
    requires Inv(s)
    ensures Inv(Step(s, e))
  {
    match e {
      case Arrives(verb, url) => ArrivedInv(s, verb, url);
      case ProbeSettles(p, ok) => SettledInv(s, p, ok);
      case CallbackRuns(x) => if Ready(s, x) { CalledInv(s, x); }
      case ResponseDestroyed(x) => if x < |s.exchanges| { DestroyedInv(s, x); }
    }
  }

  lemma {:induction false} RunInv(events: seq<Event>)
    ensures Inv(Run(events))
  {
    if events != [] {
      RunInv(events[..|events| - 1]);
      StepInv(Run(events[..|events| - 1]), events[|events| - 1]);
    }
  }

  // ----- what each event does ------------------------------------------------------------------------

  /** Liveness is answered 200 and anything but readiness 503, at once; a readiness request
      waits on the probe in flight, or on a new one. */
  lemma ArrivalDoes(s: State, verb: string, url: string)
    ensures var after := Step(s, Arrives(verb, url));
      && |after.exchanges| == |s.exchanges| + 1 && after.exchanges[..|s.exchanges|] == s.exchanges
      && var exchange := after.exchanges[|s.exchanges|];
         if verb == "GET" && url == "/api/v1/health/live" then
           exchange == Exchange(None, false, false, [Reply(200, Alive)]) &&
           (after.inFlight, after.probes) == (s.inFlight, s.probes)
         else if verb != "GET" || url != "/api/v1/health/ready" then
           exchange == Exchange(None, false, false, [Reply(503, ApiQuiescent)]) &&
           (after.inFlight, after.probes) == (s.inFlight, s.probes)
         else
           exchange == Exchange(after.inFlight, false, false, []) && after.inFlight.Some? &&
           if s.inFlight.Some? then (after.inFlight, after.probes) == (s.inFlight, s.probes)
           else (after.inFlight, after.probes) == (Some(|s.probes|), s.probes + [None])
  {
  }

  predicate Waits(s: State, x: nat) {
    x < |s.exchanges| && !s.exchanges[x].called &&
    exists p :: 0 <= p < |s.probes| && s.exchanges[x].probe == Some(p) && s.probes[p].Some?
  }

  /** A probe settles once; its callback answers 200 if it went well and 503 if not, unless
      the response is destroyed; and destroying a response takes nothing back. */
  lemma CallbackDoes(s: State, p: nat, ok: bool, x: nat)
    ensures Step(s, ProbeSettles(p, ok)) ==
            if p < |s.probes| && s.probes[p].None? then s.(probes := s.probes[p := Some(ok)]) else s
    ensures Step(s, CallbackRuns(x)) == s || Ready(s, x)
    ensures Waits(s, x) ==>
      var (after, went) := (Step(s, CallbackRuns(x)), s.probes[s.exchanges[x].probe.value].value);
      && |after.exchanges| == |s.exchanges| && after.exchanges[x].called && after.probes == s.probes
      && after.exchanges[x].replies == s.exchanges[x].replies +
         (if s.exchanges[x].destroyed then [] else [Reply(if went then 200 else 503, Database(went))])
      && after.inFlight == (if s.inFlight == s.exchanges[x].probe then None else s.inFlight)
    ensures x < |s.exchanges| ==>
      Step(s, ResponseDestroyed(x)) == s.(exchanges := s.exchanges[x := s.exchanges[x].(destroyed := true)])
  {
  }

  // ----- main results ------------------------------------------------------------------------

  /** At most one database probe is pending, in every reachable state. */
  lemma OneProbePending(events: seq<Event>, p: nat, q: nat)
    requires p < |Run(events).probes| && Run(events).probes[p].None?
    requires q < |Run(events).probes| && Run(events).probes[q].None?
    ensures p == q
  {
    RunInv(events);
  }

  /** Every request gets at most one reply; an undestroyed readiness request gets exactly
      one, when its callback has run, and it carries the result of the probe it joined. */
  lemma {:induction false} OneReply(events: seq<Event>, x: nat)
    requires x < |Run(events).exchanges|
    ensures var (s, exchange) := (Run(events), Run(events).exchanges[x]);
      && |exchange.replies| <= 1
      && (exchange.probe.None? ==> |exchange.replies| == 1)
      && (exchange.probe.Some? && !exchange.called ==> exchange.replies == [])
      && (exchange.probe.Some? && exchange.called && !exchange.destroyed ==>
            exchange.probe.value < |s.probes| && s.probes[exchange.probe.value].Some? &&
            exchange.replies == [ReadyReply(s.probes[exchange.probe.value].value)])
  {
    RunInv(events);
    assert ExchangeGood(Run(events).exchanges[x], Run(events).probes);
  }

  /** No request is forgotten: in any reachable state, once the probe it joined settles
      and its callback runs, an undestroyed readiness request has its reply. */
  lemma WaitingIsAnswered(events: seq<Event>, x: nat, ok: bool)
    requires x < |Run(events).exchanges| && !Run(events).exchanges[x].destroyed
    requires Run(events).exchanges[x].probe.Some? && !Run(events).exchanges[x].called
    ensures var (s, p) := (Run(events), Run(events).exchanges[x].probe.value);
      var after := Step(Step(s, ProbeSettles(p, ok)), CallbackRuns(x));
      p < |after.probes| && after.probes[p].Some? &&
      after.exchanges[x].replies == [ReadyReply(after.probes[p].value)]
  {
    RunInv(events);
    assert ExchangeGood(Run(events).exchanges[x], Run(events).probes);
  }

  /** A callback takes away the probe in flight only if it is the one it waited on: a late
      callback of an older probe never clears a newer one. */
  lemma LateCallbackKeepsNewer(events: seq<Event>, x: nat)
    requires Ready(Run(events), x)
    ensures var (s, after) := (Run(events), Step(Run(events), CallbackRuns(x)));
      && (s.inFlight != s.exchanges[x].probe ==> after.inFlight == s.inFlight)
      && (forall p :: 0 <= p < |after.probes| && after.probes[p].None? ==> after.inFlight == Some(p))
  {
    RunInv(events);
    StepInv(Run(events), CallbackRuns(x));
  }

  /** Once the callbacks of settled probes have run, a readiness request that arrives
      joins a probe that has not settled yet, so its answer is never older than itself. */
  lemma AnswersAreCurrent(events: seq<Event>, verb: string, url: string)
    requires IsReady(verb, url) && forall x :: 0 <= x < |Run(events).exchanges| ==> !Ready(Run(events), x)
    ensures var (s, after) := (Run(events), Step(Run(events), Arrives(verb, url)));
      var joined := after.exchanges[|s.exchanges|].probe;
      joined.Some? && joined == after.inFlight && joined.value < |after.probes| && after.probes[joined.value].None?
  {
    RunInv(events);
    var s := Run(events);
    if s.inFlight.Some? {
      var x :| 0 <= x < |s.exchanges| && s.exchanges[x].probe == s.inFlight;
      assert !Ready(s, x);
    }
  }

  /** A probe's result and a written reply never change. */
  ghost predicate Extends(s: State, after: State) {
    && |s.probes| <= |after.probes| && |s.exchanges| <= |after.exchanges|
    && (forall p :: 0 <= p < |s.probes| && s.probes[p].Some? ==> after.probes[p] == s.probes[p])
    && (forall x :: 0 <= x < |s.exchanges| ==>
          s.exchanges[x].probe == after.exchanges[x].probe && s.exchanges[x].replies <= after.exchanges[x].replies)
  }

  lemma StepExtends(s: State, e: Event)
    ensures Extends(s, Step(s, e))
  {
  }

  /** What an exchange was told stays told, and stays true of its probe, for the rest of
      the run. */
  lemma {:induction false} NothingIsTakenBack(events: seq<Event>, more: seq<Event>)
    ensures Extends(Run(events), Run(events + more))
    decreases |more|
  {
    if more == [] {
      assert events + more == events;
    } else {
      var init, e := more[..|more| - 1], more[|more| - 1];
      NothingIsTakenBack(events, init);
      assert (events + more)[..|events + more| - 1] == events + init && (events + more)[|events + more| - 1] == e;
      StepExtends(Run(events + init), e);
      ExtendsTransitive(Run(events), Run(events + init), Step(Run(events + init), e));
    }
  }

  lemma ExtendsTransitive(a: State, b: State, c: State)
    requires Extends(a, b) && Extends(b, c)
    ensures Extends(a, c)
  {
    forall x | 0 <= x < |a.exchanges| ensures a.exchanges[x].replies <= c.exchanges[x].replies {
      assert a.exchanges[x].replies <= b.exchanges[x].replies <= c.exchanges[x].replies;
    }
  }
}
