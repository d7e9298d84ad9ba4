/** The dispatch timer with edit pauses (speedy-dispatcher/src/dispatchTiming.ts)
    and the five-minute warning that reads it (incomingOrderAlarm.ts).
    Instants are integer milliseconds. */
module DispatchTiming {
  import opened Collections
  import opened Sorting

  /** A timestamp text: absent or empty, present but unparseable, or an instant. */
  datatype Stamp = Missing | Malformed | At(ms: int)

  datatype EditPause = EditPause(startedAt: Stamp, expiresAt: Stamp, endedAt: Stamp)

  datatype TimedOrder = TimedOrder(
    createdAt: Stamp,
    dispatchedAt: Stamp,
    firstDispatchedAt: Stamp,
    pauses: seq<EditPause>)

  type Range = (int, int)

  function Max(a: int, b: int): int { if a < b then b else a }

  function Min(a: int, b: int): int { if b < a then b else a }

  /** `first || second || ""`: an absent or empty text falls through, an
      unparseable one does not. */
  function OrElse(first: Stamp, second: Stamp): Stamp {
    if first.Missing? then second else first
  }

  function FirstDispatch(order: TimedOrder): Stamp {
    OrElse(order.firstDispatchedAt, order.dispatchedAt)
  }

  /** The end of the span that can still be credited at `now`. */
  function CreditEnd(order: TimedOrder, now: int): int {
    var first := FirstDispatch(order);
    if first.At? then Min(now, first.ms) else now
  }

  // ----- what the total means ------------------------------------------------

  /** The pause holds at instant m: it has started, is not expired and not ended. */
  predicate Holds(pause: EditPause, m: int) {
    && pause.startedAt.At? && pause.startedAt.ms <= m
    && pause.expiresAt.At? && m < pause.expiresAt.ms
    && (pause.endedAt.Missing? || (pause.endedAt.At? && m < pause.endedAt.ms))
  }

  predicate Covered(pauses: seq<EditPause>, m: int) {
    exists pause :: pause in pauses && Holds(pause, m)
  }

  /** The credited milliseconds of [from, upto): a union, so order and repetition
      of the pauses cannot matter. */
  ghost function CreditedInstants(pauses: seq<EditPause>, from: int, upto: int): set<int> {
    set m: int | from <= m < upto && Covered(pauses, m)
  }

  /** The milliseconds at or after creation that count as waiting. */
  ghost function WaitingInstants(order: TimedOrder, now: int): set<int>
    requires order.createdAt.At?
  {
    set m: int | order.createdAt.ms <= m < now &&
                 !(Covered(order.pauses, m) && m < CreditEnd(order, now))
  }

  // ----- the code ----------------------------------------------------------

  function ClipPause(pause: EditPause, lower: int, upper: int): seq<Range> {
    if !pause.startedAt.At? || !pause.expiresAt.At? || pause.endedAt.Malformed? then []
    else
      var a := Max(lower, pause.startedAt.ms);
      var b := Min(Min(upper, pause.expiresAt.ms),
                   if pause.endedAt.At? then pause.endedAt.ms else upper);
      if b > a then [(a, b)] else []
  }

  function ClipPauses(pauses: seq<EditPause>, lower: int, upper: int): seq<Range> {
    if pauses == [] then []
    else ClipPause(pauses[0], lower, upper) + ClipPauses(pauses[1..], lower, upper)
  }

  function StartsNoLater(r: Range, s: Range): bool { r.0 <= s.0 }

  /** The sweep over sorted ranges from a cursor. */
  function Sweep(ranges: seq<Range>, cursor: int): int {
    if ranges == [] then 0
    else Max(0, ranges[0].1 - Max(cursor, ranges[0].0)) +
         Sweep(ranges[1..], Max(cursor, ranges[0].1))
  }

  function EditPauseTotal(order: TimedOrder, now: int): int {
    var upper := CreditEnd(order, now);
    if !order.createdAt.At? || upper <= order.createdAt.ms then 0
    else
      var lower := order.createdAt.ms;
      Sweep(Sort(ClipPauses(order.pauses, lower, upper), StartsNoLater), lower)
  }

  lemma {:induction false} SweepStep(ranges: seq<Range>, i: nat, cursor: int)
    requires i < |ranges|
    ensures Sweep(ranges[i..], cursor) ==
            Max(0, ranges[i].1 - Max(cursor, ranges[i].0)) +
            Sweep(ranges[i + 1..], Max(cursor, ranges[i].1))
  {
    assert ranges[i..][1..] == ranges[i + 1..];
  }

  method EditPauseMilliseconds(order: TimedOrder, now: int) returns (total: int)
    ensures total == EditPauseTotal(order, now)
    ensures order.createdAt.At? ==>
              total ==
              |set m: int | order.createdAt.ms <= m < now && BeforeDispatch(order, m) && Covered(order.pauses, m)|
    ensures !order.createdAt.At? ==> total == 0
  {
    TotalFromFields(order, now);
    var upper := CreditEnd(order, now);
    if !order.createdAt.At? || upper <= order.createdAt.ms {
      return 0;
    }
    var lower := order.createdAt.ms;
    var ranges := Sort(ClipPauses(order.pauses, lower, upper), StartsNoLater);
    total := 0;
    var cursor := lower;
    for i := 0 to |ranges|
      invariant total + Sweep(ranges[i..], cursor) == Sweep(ranges, lower)
    {
      SweepStep(ranges, i, cursor);
      var (a, b) := ranges[i];
      total := total + Max(0, b - Max(cursor, a));
      cursor := Max(cursor, b);
    }
  }

  function DispatchWaiting(order: TimedOrder, now: int): int {
    if order.createdAt.At? then
      Max(0, now - order.createdAt.ms - EditPauseTotal(order, now))
    else 0
  }

  predicate IsDispatchTimerPaused(order: TimedOrder, now: int) {
    && FirstDispatch(order).Missing?
    && exists pause :: pause in order.pauses && pause.endedAt.Missing? && Holds(pause, now)
  }

  // ----- the sweep measures the union ------------------------------------------

  predicate InRanges(ranges: seq<Range>, m: int) {
    exists r :: r in ranges && r.0 <= m < r.1
  }

  ghost function RangeInstants(ranges: seq<Range>, from: int, upto: int): set<int> {
    set m: int | from <= m < upto && InRanges(ranges, m)
  }

  predicate Within(m: int, from: int, upto: int) { from <= m < upto }

  ghost function Span(from: int, upto: int): set<int> {
    set m: int | from <= m < upto && Within(m, from, upto)
  }

  lemma {:induction false} SpanSize(from: int, upto: int)
    ensures |Span(from, upto)| == Max(0, upto - from)
    decreases upto - from
  {
    if from < upto {
      SpanSize(from, upto - 1);
      assert Span(from, upto) == Span(from, upto - 1) + {upto - 1};
    }
  }

  lemma InRangesHead(ranges: seq<Range>, m: int)
    requires ranges != []
    ensures InRanges(ranges, m) <==> ranges[0].0 <= m < ranges[0].1 || InRanges(ranges[1..], m)
  {
    assert ranges[0] in ranges;
    forall r | r in ranges ensures r == ranges[0] || r in ranges[1..] {}
    forall r | r in ranges[1..] ensures r in ranges {}
  }

  lemma LaterStarts(ranges: seq<Range>, m: int)
    requires Sorted(ranges, StartsNoLater) && ranges != [] && InRanges(ranges[1..], m)
    ensures ranges[0].0 <= m
  {
    var r :| r in ranges[1..] && r.0 <= m < r.1;
    var i :| 0 <= i < |ranges[1..]| && ranges[1..][i] == r;
    assert StartsNoLater(ranges[0], ranges[i + 1]);
  }

  lemma SweepHead(ranges: seq<Range>, cursor: int, upto: int, m: int)
    requires Sorted(ranges, StartsNoLater) && ranges != [] && ranges[0].1 <= upto
    ensures var ((a, b), rest) := (ranges[0], ranges[1..]);
      m in RangeInstants(ranges, cursor, upto) <==>
      m in Span(Max(cursor, a), b) || m in RangeInstants(rest, Max(cursor, b), upto)
  {
    InRangesHead(ranges, m);
    if InRanges(ranges[1..], m) { LaterStarts(ranges, m); }
  }

  /** Overlap, nesting and duplicates: the sweep adds each instant once. */
  lemma {:induction false} SweepMeasures(ranges: seq<Range>, cursor: int, upto: int)
    requires Sorted(ranges, StartsNoLater)
    requires forall r :: r in ranges ==> r.1 <= upto
    ensures Sweep(ranges, cursor) == |RangeInstants(ranges, cursor, upto)|
  {
    if ranges == [] {
      assert RangeInstants(ranges, cursor, upto) == {};
    } else {
      var (a, b) := ranges[0];
      var from, next := Max(cursor, a), Max(cursor, b);
      var rest := ranges[1..];
      SweepMeasures(rest, next, upto);
      SpanSize(from, b);
      forall m ensures m in RangeInstants(ranges, cursor, upto) <==>
                       m in Span(from, b) + RangeInstants(rest, next, upto)
      {
        SweepHead(ranges, cursor, upto, m);
      }
      assert RangeInstants(ranges, cursor, upto) == Span(from, b) + RangeInstants(rest, next, upto);
      assert Span(from, b) !! RangeInstants(rest, next, upto);
    }
  }

  lemma {:induction false} ClippedMembership(pauses: seq<EditPause>, lower: int, upper: int, m: int)
    ensures InRanges(ClipPauses(pauses, lower, upper), m) <==>
            lower <= m < upper && Covered(pauses, m)
  {
    if pauses != [] {
      ClippedMembership(pauses[1..], lower, upper, m);
      var head := ClipPause(pauses[0], lower, upper);
      var tail := ClipPauses(pauses[1..], lower, upper);
      assert InRanges(head, m) <==> lower <= m < upper && Holds(pauses[0], m) by {
        if head != [] { assert head[0] in head; }
      }
      assert InRanges(head + tail, m) <==> InRanges(head, m) || InRanges(tail, m);
      assert Covered(pauses, m) <==> Holds(pauses[0], m) || Covered(pauses[1..], m) by {
        assert pauses[0] in pauses;
        assert forall p :: p in pauses <==> p == pauses[0] || p in pauses[1..];
      }
    }
  }

  lemma {:induction false} ClippedBelow(pauses: seq<EditPause>, lower: int, upper: int)
    ensures forall r :: r in ClipPauses(pauses, lower, upper) ==> r.1 <= upper
  {
    if pauses != [] { ClippedBelow(pauses[1..], lower, upper); }
  }

  /** The sort-and-sweep total is the measure of the union of the pauses between
      creation and the earlier of now and first dispatch. */
  lemma TotalIsUnionMeasure(order: TimedOrder, now: int)
    requires order.createdAt.At?
    ensures EditPauseTotal(order, now) ==
            |CreditedInstants(order.pauses, order.createdAt.ms, CreditEnd(order, now))|
  {
    var lower, upper := order.createdAt.ms, CreditEnd(order, now);
    var credited := CreditedInstants(order.pauses, lower, upper);
    if upper <= lower {
      assert credited == {};
    } else {
      var ranges := ClipPauses(order.pauses, lower, upper);
      var sorted := Sort(ranges, StartsNoLater);
      SortSorts(ranges, StartsNoLater);
      SortPermutes(ranges, StartsNoLater);
      SameElements(sorted, ranges);
      ClippedBelow(order.pauses, lower, upper);
      SweepMeasures(sorted, lower, upper);
      forall m ensures m in RangeInstants(sorted, lower, upper) <==> m in credited {
        ClippedMembership(order.pauses, lower, upper, m);
        assert InRanges(sorted, m) <==> InRanges(ranges, m);
      }
      assert RangeInstants(sorted, lower, upper) == credited;
    }
  }

  /** The instant is before the first dispatch, as far as that is known: the first dispatch
      time counts if there is a text for it, readable or not, and else the dispatch time. */
  predicate BeforeDispatch(order: TimedOrder, m: int) {
    && (order.firstDispatchedAt.At? ==> m < order.firstDispatchedAt.ms)
    && (order.firstDispatchedAt.Missing? && order.dispatchedAt.At? ==> m < order.dispatchedAt.ms)
  }

  /** What is credited, from the order's own fields: the milliseconds from creation to now
      that are before the first dispatch and covered by a pause. */
  lemma TotalFromFields(order: TimedOrder, now: int)
    ensures order.createdAt.At? ==>
              EditPauseTotal(order, now) ==
              |set m: int | order.createdAt.ms <= m < now && BeforeDispatch(order, m) && Covered(order.pauses, m)|
    ensures !order.createdAt.At? ==> EditPauseTotal(order, now) == 0
  {
    if order.createdAt.At? {
      TotalIsUnionMeasure(order, now);
      var created := order.createdAt.ms;
      var credited := set m: int | created <= m < now && BeforeDispatch(order, m) && Covered(order.pauses, m);
      assert credited == CreditedInstants(order.pauses, created, CreditEnd(order, now));
    }
  }

  /** Reordering or repeating pauses changes nothing. */
  lemma TotalIgnoresOrderAndDuplicates(order: TimedOrder, other: TimedOrder, now: int)
    requires other == order.(pauses := other.pauses)
    requires forall pause :: pause in order.pauses <==> pause in other.pauses
    ensures EditPauseTotal(order, now) == EditPauseTotal(other, now)
  {
    if order.createdAt.At? {
      var lower, upper := order.createdAt.ms, CreditEnd(order, now);
      TotalIsUnionMeasure(order, now);
      TotalIsUnionMeasure(other, now);
      assert CreditedInstants(order.pauses, lower, upper) ==
             CreditedInstants(other.pauses, lower, upper);
    }
  }

  // ----- the waiting clock -------------------------------------------------------

  /** Conservation: from creation on, waiting plus paused time is elapsed time, and
      the waiting clock is the measure of the instants not credited. */
  lemma WaitingPlusPausedIsElapsed(order: TimedOrder, now: int)
    requires order.createdAt.At? && order.createdAt.ms <= now
    ensures DispatchWaiting(order, now) + EditPauseTotal(order, now) == now - order.createdAt.ms
    ensures DispatchWaiting(order, now) == |WaitingInstants(order, now)|
  {
    var lower, upper := order.createdAt.ms, CreditEnd(order, now);
    var credited := CreditedInstants(order.pauses, lower, upper);
    var waiting := WaitingInstants(order, now);
    TotalIsUnionMeasure(order, now);
    SpanSize(lower, now);
    assert credited !! waiting && credited + waiting == Span(lower, now);
  }

  lemma NotYetWaiting(order: TimedOrder, now: int)
    requires order.createdAt.At? ==> now < order.createdAt.ms
    ensures DispatchWaiting(order, now) == 0
  {
  }

  /** The instants waited between two readings of the clock. */
  ghost function WaitedBetween(order: TimedOrder, t1: int, t2: int): set<int>
    requires order.createdAt.At?
  {
    set m: int | Max(t1, order.createdAt.ms) <= m < t2 &&
                 !(Covered(order.pauses, m) && m < CreditEnd(order, t2))
  }

  /** The clock advances by exactly the instants that are neither paused nor
      before creation; it never runs back nor faster than real time. */
  lemma WaitingAdvance(order: TimedOrder, t1: int, t2: int)
    requires t1 <= t2
    ensures order.createdAt.At? ==>
              DispatchWaiting(order, t2) == DispatchWaiting(order, t1) + |WaitedBetween(order, t1, t2)|
    ensures 0 <= DispatchWaiting(order, t2) - DispatchWaiting(order, t1) <= t2 - t1
  {
    if order.createdAt.At? {
      var lower := order.createdAt.ms;
      var between := WaitedBetween(order, t1, t2);
      SubsetSize(between, Span(t1, t2));
      SpanSize(t1, t2);
      if t2 < lower {
        assert between == {};
      } else {
        WaitingPlusPausedIsElapsed(order, t2);
        var after := WaitingInstants(order, t2);
        if t1 < lower {
          NotYetWaiting(order, t1);
          assert after == between;
        } else {
          WaitingPlusPausedIsElapsed(order, t1);
          var before := WaitingInstants(order, t1);
          assert before !! between && before + between == after;
        }
      }
    }
  }

  /** The clock stands still across a span throughout which the timer shows paused. */
  lemma PausedClockIsFrozen(order: TimedOrder, t1: int, t2: int)
    requires t1 <= t2
    requires forall m :: t1 <= m < t2 ==> IsDispatchTimerPaused(order, m)
    ensures DispatchWaiting(order, t1) == DispatchWaiting(order, t2)
  {
    WaitingAdvance(order, t1, t2);
    if order.createdAt.At? && t1 < t2 {
      assert IsDispatchTimerPaused(order, t1);
      assert WaitedBetween(order, t1, t2) == {} by {
        forall m ensures m !in WaitedBetween(order, t1, t2) {
          if t1 <= m < t2 {
            assert IsDispatchTimerPaused(order, m);
            var pause :| pause in order.pauses && pause.endedAt.Missing? && Holds(pause, m);
            assert Covered(order.pauses, m);
          }
        }
      }
    }
  }

  /** Undispatched and with no pause that ends later, the timer shows paused exactly when the
      waiting clock is about to stand still; once there is a dispatch it never does. */
  lemma PausedMeansStandingStill(order: TimedOrder, now: int)
    requires order.createdAt.At? && order.createdAt.ms <= now
    requires forall pause :: pause in order.pauses && pause.endedAt.At? ==> pause.endedAt.ms <= now
    ensures order.firstDispatchedAt.Missing? && order.dispatchedAt.Missing? ==>
              (IsDispatchTimerPaused(order, now) <==> DispatchWaiting(order, now + 1) == DispatchWaiting(order, now))
    ensures !(order.firstDispatchedAt.Missing? && order.dispatchedAt.Missing?) ==> !IsDispatchTimerPaused(order, now)
  {
    WaitingAdvance(order, now, now + 1);
    var between := WaitedBetween(order, now, now + 1);
    if order.firstDispatchedAt.Missing? && order.dispatchedAt.Missing? {
      if IsDispatchTimerPaused(order, now) {
        PausedClockIsFrozen(order, now, now + 1);
      } else {
        assert !Covered(order.pauses, now);
        assert between == {now};
      }
    }
  }

  // ----- the five-minute warning ---------------------------------------------------

  const UNACCEPTED_ORDER_WARNING_MS: int := 5 * 60_000

  datatype AlarmTiming = AlarmTiming(waitingForAcceptance: bool, timing: TimedOrder)

  /** `createdAt ? Date.parse(createdAt) : NaN` is finite exactly for `At`. */
  predicate IsUnacceptedOrderLate(order: AlarmTiming, now: int) {
    && order.waitingForAcceptance
    && order.timing.createdAt.At?
    && DispatchWaiting(order.timing, now) >= UNACCEPTED_ORDER_WARNING_MS
  }

  lemma LateStaysLate(order: AlarmTiming, t1: int, t2: int)
    requires t1 <= t2 && IsUnacceptedOrderLate(order, t1)
    ensures IsUnacceptedOrderLate(order, t2)
  {
    WaitingAdvance(order.timing, t1, t2);
  }

  /** Late means waiting for acceptance with at least five minutes of unpaused time since
      creation. */
  lemma LateExactly(order: AlarmTiming, now: int)
    ensures IsUnacceptedOrderLate(order, now) <==>
      && order.waitingForAcceptance && order.timing.createdAt.At?
      && |set m: int | order.timing.createdAt.ms <= m < now &&
                       !(BeforeDispatch(order.timing, m) && Covered(order.timing.pauses, m))| >= 300_000
  {
    if order.timing.createdAt.At? {
      var created := order.timing.createdAt.ms;
      var waited := set m: int | created <= m < now &&
                                 !(BeforeDispatch(order.timing, m) && Covered(order.timing.pauses, m));
      if created <= now {
        WaitingPlusPausedIsElapsed(order.timing, now);
        assert waited == WaitingInstants(order.timing, now);
      } else {
        NotYetWaiting(order.timing, now);
        assert waited == {};
      }
    }
  }

  /** More pauses, anywhere in the list, can only delay lateness. */
  lemma MorePausesOnlyDelay(order: AlarmTiming, more: AlarmTiming, now: int)
    requires more == order.(timing := order.timing.(pauses := more.timing.pauses))
    requires forall pause :: pause in order.timing.pauses ==> pause in more.timing.pauses
    ensures DispatchWaiting(more.timing, now) <= DispatchWaiting(order.timing, now)
    ensures IsUnacceptedOrderLate(more, now) ==> IsUnacceptedOrderLate(order, now)
  {
    if order.timing.createdAt.At? {
      var lower, upper := order.timing.createdAt.ms, CreditEnd(order.timing, now);
      TotalIsUnionMeasure(order.timing, now);
      TotalIsUnionMeasure(more.timing, now);
      var few := CreditedInstants(order.timing.pauses, lower, upper);
      var many := CreditedInstants(more.timing.pauses, lower, upper);
      assert few <= many;
      SubsetSize(few, many);
    }
  }
}
