/** Wall-clock arithmetic of speedy-dispatcher/src/bndSchedule.ts. A clock is its
    UTC offset at every instant; dates are day numbers; instants are milliseconds. */
module TorontoClock {

  function DayStart(date: int): int { date * 86_400_000 }

  function DayOf(local: int): int { local / 86_400_000 }

  lemma DayOfBounds(local: int, date: int)
    ensures DayOf(local) == date <==> DayStart(date) <= local < DayStart(date + 1)
  {
  }

  datatype Clock = Clock(off: int -> int) {
    function Local(t: int): int { t + off(t) }

    function LocalDate(t: int): int { DayOf(Local(t)) }

    /** One round of the fixed-point iteration. */
    function Round(target: int, result: int): int { target - off(result) }
  }

  function Target(date: int, minute: int): int { DayStart(date) + minute * 60_000 }

  function LocalInstant(c: Clock, date: int, minute: int): int {
    var target := Target(date, minute);
    c.Round(target, c.Round(target, c.Round(target, target)))
  }

  function Rounds(c: Clock, target: int, n: nat): int {
    if n == 0 then target else c.Round(target, Rounds(c, target, n - 1))
  }

  method BndLocalInstant(c: Clock, date: int, minute: int) returns (result: int)
    ensures result == LocalInstant(c, date, minute)
  {
    var target := Target(date, minute);
    result := target;
    for i := 0 to 3
      invariant result == Rounds(c, target, i)
    {
      var offset := c.Local(result) - result;
      result := target - offset;
    }
    assert Rounds(c, target, 3) == c.Round(target, Rounds(c, target, 2));
    assert Rounds(c, target, 2) == c.Round(target, Rounds(c, target, 1));
  }

  /** The local date of an instant is the day its wall time falls in. */
  lemma LocalDateMeaning(c: Clock, t: int, date: int)
    ensures c.LocalDate(t) == date <==> date * 86_400_000 <= t + c.off(t) < (date + 1) * 86_400_000
  {
  }

  // ----- clocks with isolated transitions ----------------------------------------------

  /** An offset change: `before` up to the instant `at`, `after` from it on. */
  datatype Shift = Shift(at: int, before: int, after: int) {
    function Gap(): int { after - before }
  }

  predicate BehindUtc(offset: int) { -86_400_000 < offset < 0 }

  /** Between two instants the clock shows at most this one offset change. */
  ghost predicate Shifts(c: Clock, s: Shift, lo: int, hi: int) {
    && BehindUtc(s.before) && BehindUtc(s.after)
    && forall t :: lo <= t <= hi ==> c.off(t) == if t < s.at then s.before else s.after
  }

  /** The wall time occurs at no instant of the day that can show it. */
  ghost predicate Skipped(c: Clock, target: int) {
    forall t :: target <= t <= target + 86_400_000 ==> t + c.off(t) != target
  }

  /** With one offset change nearby, three rounds find the earliest instant that
      shows the wall time; a wall time that is skipped moves forward by the gap. */
  lemma {:induction false} LocalInstantInverts(c: Clock, s: Shift, date: int, minute: int)
    requires var target := date * 86_400_000 + minute * 60_000; Shifts(c, s, target, target + 86_400_000)
    ensures var target, r := date * 86_400_000 + minute * 60_000, LocalInstant(c, date, minute);
      && target < r < target + 86_400_000
      && (!Skipped(c, target) <==> r + c.off(r) == target)
      && (forall t :: target <= t <= target + 86_400_000 && t + c.off(t) == target ==> r <= t)
      && (Skipped(c, target) ==> s.at <= r && r + c.off(r) == target + (s.after - s.before) && s.before < s.after)
  {
    var target, r := Target(date, minute), LocalInstant(c, date, minute);
    var early, late := target - s.before, target - s.after;
    assert r == if early < s.at then early else if late >= s.at then late else early;
    forall t | target <= t <= target + 86_400_000 && c.Local(t) == target
      ensures t == early < s.at || t == late >= s.at
    {
    }
    if c.Local(r) == target { assert !Skipped(c, target); }
  }

  // ----- the clock assumed for a whole calendar --------------------------------------------

  /** The change, the wall times it skips or repeats, and any wall time moved
      forward over it, all lie inside one local day. */
  predicate InsideOneDay(s: Shift) {
    var date := DayOf(s.at + s.before);
    && DayStart(date) < s.at + s.before
    && DayStart(date) < s.at + s.after
    && s.at + s.after + s.Gap() <= DayStart(date + 1)
    && s.at + s.after < DayStart(date + 1)
  }

  ghost predicate ShiftsOnDay(c: Clock, s: Shift, date: int) {
    InsideOneDay(s) && Shifts(c, s, DayStart(date), DayStart(date + 2))
  }

  ghost predicate RegularDay(c: Clock, date: int) { exists s :: ShiftsOnDay(c, s, date) }

  /** West of Greenwich, never two offset changes in 48 hours, none touching midnight. */
  ghost predicate Regular(c: Clock) { forall date :: RegularDay(c, date) }

  /** A clock that changes its offset once, inside a day, is one of these. */
  lemma OneShiftIsRegular(c: Clock, s: Shift)
    requires BehindUtc(s.before) && BehindUtc(s.after) && InsideOneDay(s)
    requires forall t :: c.off(t) == if t < s.at then s.before else s.after
    ensures Regular(c)
  {
    forall date ensures RegularDay(c, date) {
      assert ShiftsOnDay(c, s, date);
    }
  }

  /** On a day of one change the three rounds settle on the reading before it if that reading
      is before it, else on the one after it if that is after it, else on the one before. */
  lemma RoundsChoose(c: Clock, s: Shift, date: int, minute: int)
    requires 0 <= minute <= 1440 && ShiftsOnDay(c, s, date)
    ensures var early, late := Target(date, minute) - s.before, Target(date, minute) - s.after;
      LocalInstant(c, date, minute) == if early < s.at then early else if late >= s.at then late else early
  {
    var target := Target(date, minute);
    assert DayStart(date) <= target <= DayStart(date + 1);
    assert c.Round(target, target) == target - c.off(target);
  }

  function Midnight(c: Clock, date: int): int { LocalInstant(c, date, 0) }

  lemma LocalDateStep(c: Clock, t: int)
    requires Regular(c)
    ensures c.LocalDate(t) <= c.LocalDate(t + 1)
  {
    var date := DayOf(t);
    assert RegularDay(c, date);
    var s :| ShiftsOnDay(c, s, date);
    if t + 1 == s.at {
      DayOfBounds(c.Local(t), DayOf(s.at + s.before));
      DayOfBounds(c.Local(t + 1), DayOf(s.at + s.before));
    }
  }

  lemma {:induction false} LocalDateMonotone(c: Clock, t: int, u: int)
    requires Regular(c) && t <= u
    ensures c.LocalDate(t) <= c.LocalDate(u)
    decreases u - t
  {
    if t < u {
      LocalDateMonotone(c, t, u - 1);
      LocalDateStep(c, u - 1);
    }
  }

  /** Every local midnight happens exactly once. */
  lemma MidnightShown(c: Clock, date: int)
    requires Regular(c)
    ensures c.LocalDate(Midnight(c, date)) == date
    ensures c.LocalDate(Midnight(c, date) - 1) == date - 1
  {
    assert RegularDay(c, date);
    var s :| ShiftsOnDay(c, s, date);
    var target, m := DayStart(date), Midnight(c, date);
    LocalInstantInverts(c, s, date, 0);
    var day := DayOf(s.at + s.before);
    assert day < date || date <= day;
    assert c.Local(m) == target;
    assert c.Local(m - 1) == target - 1;
    DayOfBounds(c.Local(m), date);
    DayOfBounds(c.Local(m - 1), date - 1);
  }

  /** The local date splits time at the local midnights. */
  lemma MidnightBoundary(c: Clock, date: int, t: int)
    requires Regular(c)
    ensures date <= c.LocalDate(t) <==> Midnight(c, date) <= t
  {
    MidnightShown(c, date);
    if Midnight(c, date) <= t {
      LocalDateMonotone(c, Midnight(c, date), t);
    } else {
      LocalDateMonotone(c, t, Midnight(c, date) - 1);
    }
  }

  /** A minute of a day maps to an instant of that local day, skipped or not. */
  lemma {:induction false} MinuteStaysInDay(c: Clock, date: int, minute: int)
    requires Regular(c) && 0 <= minute < 1440
    ensures c.LocalDate(LocalInstant(c, date, minute)) == date
  {
    assert RegularDay(c, date);
    var s :| ShiftsOnDay(c, s, date);
    LocalInstantInverts(c, s, date, minute);
    var r := LocalInstant(c, date, minute);
    var early, late := Target(date, minute) - s.before, Target(date, minute) - s.after;
    if Skipped(c, Target(date, minute)) {
      assert c.Local(early) != Target(date, minute) && c.Local(late) != Target(date, minute);
      assert late < s.at <= early;
      DayOfBounds(s.at + s.before, date);
    }
    DayOfBounds(c.Local(r), date);
  }

  /** Closing at 24:00 is the next local midnight. */
  lemma MinuteBeforeNextMidnight(c: Clock, date: int, minute: int)
    requires Regular(c) && 0 <= minute <= 1440
    ensures LocalInstant(c, date, minute) <= Midnight(c, date + 1)
  {
    if minute < 1440 {
      MinuteStaysInDay(c, date, minute);
      MidnightBoundary(c, date + 1, LocalInstant(c, date, minute));
    }
  }
}
