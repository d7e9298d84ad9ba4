/** B&D opening hours and the schedule read from them
    (speedy-dispatcher/src/bndSchedule.ts, mirrored in src/integrations/bnd/schedule.ts). */
module BndSchedule {
  import opened Collections
  import opened Options
  import opened TorontoClock

  datatype Source = Website | Cached | Fallback

  datatype DayHours = DayHours(day: int, startMinute: Option<int>, endMinute: Option<int>)

  datatype DayWindow = DayWindow(date: int, startAt: Option<int>, endAt: Option<int>)

  datatype Hours = Hours(
    weekly: seq<DayHours>,
    today: Option<DayWindow>,
    checkedAt: Option<int>,
    refreshAt: int,
    source: Source)

  // ----- untrusted input ----------------------------------------------------------------

  /** A field of a decoded response: null, an integer, or anything else. */
  datatype Field = NullField | Whole(n: int) | Unusable

  datatype RawDay = BadEntry | RawDay(day: Field, startMinute: Field, endMinute: Field)

  /** BadDate stands for a missing entry, a malformed date text, or one the runtime cannot
      read. NoSuchDay is a text like 2026-02-30, which some runtimes read as a later day. */
  datatype RawToday =
    | NoToday
    | BadDate
    | NoSuchDay(startAt: Field, endAt: Field)
    | RawToday(date: int, startAt: Field, endAt: Field)

  datatype RawHours = RawHours(
    weekly: seq<RawDay>,
    today: RawToday,
    checkedAt: Field,
    refreshAt: Field,
    source: Option<Source>)

  function Decode(f: Field): Option<int> { if f.Whole? then Some(f.n) else None }

  predicate GoodDay(rule: RawDay) {
    && rule.RawDay? && rule.day.Whole? && 0 <= rule.day.n <= 6
    && ((rule.startMinute.NullField? && rule.endMinute.NullField?) ||
        (rule.startMinute.Whole? && rule.endMinute.Whole? &&
         0 <= rule.startMinute.n < rule.endMinute.n <= 1440))
  }

  predicate GoodToday(c: Clock, today: RawToday) {
    match today
    case NoToday => true
    case BadDate => false
    case NoSuchDay(startAt, endAt) => startAt.NullField? && endAt.NullField?
    case RawToday(date, startAt, endAt) =>
      (startAt.NullField? && endAt.NullField?) ||
      (startAt.Whole? && endAt.Whole? && startAt.n < endAt.n &&
       c.LocalDate(startAt.n) == date && endAt.n <= LocalInstant(c, date + 1, 0))
  }

  /** What parseBndHours accepts, one rule for each day of the week among it. */
  predicate Acceptable(c: Clock, raw: RawHours) {
    && |raw.weekly| == 7 && raw.source.Some?
    && raw.refreshAt.Whole? && !raw.checkedAt.Unusable?
    && (forall i :: 0 <= i < 7 ==> GoodDay(raw.weekly[i]))
    && (forall i, j :: 0 <= i < j < 7 ==> raw.weekly[i].day != raw.weekly[j].day)
    && GoodToday(c, raw.today)
  }

  function DecodeDay(rule: RawDay): DayHours
    requires GoodDay(rule)
  {
    DayHours(rule.day.n, Decode(rule.startMinute), Decode(rule.endMinute))
  }

  /** An override for no such day is kept by the code but is never the override of a date,
      so it decodes as none. */
  function Decoded(c: Clock, raw: RawHours): Hours
    requires Acceptable(c, raw)
  {
    Hours(seq(7, i requires 0 <= i < 7 => DecodeDay(raw.weekly[i])),
          if raw.today.RawToday? then
            Some(DayWindow(raw.today.date, Decode(raw.today.startAt), Decode(raw.today.endAt)))
          else None,
          Decode(raw.checkedAt), raw.refreshAt.n, raw.source.value)
  }

  /** None stands for the thrown error. */
  method ParseBndHours(c: Clock, raw: RawHours) returns (r: Option<Hours>)
    ensures r == if Acceptable(c, raw) then Some(Decoded(c, raw)) else None
    ensures r.Some? ==> ValidHours(c, r.value)
  {
    if |raw.weekly| != 7 || raw.source.None? || !raw.refreshAt.Whole? || raw.checkedAt.Unusable? {
      return None;
    }
    var days: set<int> := {};
    for i := 0 to 7
      invariant forall k :: 0 <= k < i ==> GoodDay(raw.weekly[k]) && raw.weekly[k].day.n in days
      invariant forall d :: d in days ==> exists k :: 0 <= k < i && raw.weekly[k].day == Whole(d)
      invariant forall k, l :: 0 <= k < l < i ==> raw.weekly[k].day != raw.weekly[l].day
    {
      var rule := raw.weekly[i];
      if rule.BadEntry? || !rule.day.Whole? || rule.day.n < 0 || rule.day.n > 6 ||
         rule.day.n in days {
        return None;
      }
      days := days + {rule.day.n};
      if !(rule.startMinute.NullField? && rule.endMinute.NullField?) {
        if !rule.startMinute.Whole? || !rule.endMinute.Whole? || rule.startMinute.n < 0 ||
           rule.endMinute.n > 1440 || rule.startMinute.n >= rule.endMinute.n {
          return None;
        }
      }
    }
    if !GoodToday(c, raw.today) {
      return None;
    }
    DecodedIsValid(c, raw);
    r := Some(Decoded(c, raw));
  }

  // ----- accepted hours ----------------------------------------------------------------

  predicate ValidRule(rule: DayHours) {
    && 0 <= rule.day <= 6
    && ((rule.startMinute.None? && rule.endMinute.None?) ||
        (rule.startMinute.Some? && rule.endMinute.Some? &&
         0 <= rule.startMinute.value < rule.endMinute.value <= 1440))
  }

  predicate ValidToday(c: Clock, today: DayWindow) {
    (today.startAt.None? && today.endAt.None?) ||
    (today.startAt.Some? && today.endAt.Some? && today.startAt.value < today.endAt.value &&
     c.LocalDate(today.startAt.value) == today.date &&
     today.endAt.value <= Midnight(c, today.date + 1))
  }

  predicate HasRule(weekly: seq<DayHours>, day: int) {
    exists i :: 0 <= i < |weekly| && weekly[i].day == day
  }

  predicate ValidHours(c: Clock, h: Hours) {
    && (forall i, j :: 0 <= i < j < |h.weekly| ==> h.weekly[i].day != h.weekly[j].day)
    && (forall i :: 0 <= i < |h.weekly| ==> ValidRule(h.weekly[i]))
    && (forall day :: 0 <= day <= 6 ==> HasRule(h.weekly, day))
    && (h.today.Some? ==> ValidToday(c, h.today.value))
  }

  ghost function DaysOf(weekly: seq<DayHours>): set<int> {
    set i | 0 <= i < |weekly| :: weekly[i].day
  }

  lemma {:induction false} DistinctDaysCount(weekly: seq<DayHours>)
    requires forall i, j :: 0 <= i < j < |weekly| ==> weekly[i].day != weekly[j].day
    ensures |DaysOf(weekly)| == |weekly|
  {
    if weekly != [] {
      var last := |weekly| - 1;
      DistinctDaysCount(weekly[..last]);
      assert DaysOf(weekly) == DaysOf(weekly[..last]) + {weekly[last].day};
      assert weekly[last].day !in DaysOf(weekly[..last]);
    }
  }

  lemma WholeWeek(weekly: seq<DayHours>, day: int)
    requires |weekly| == 7 && 0 <= day <= 6
    requires forall i :: 0 <= i < 7 ==> 0 <= weekly[i].day <= 6
    requires forall i, j :: 0 <= i < j < 7 ==> weekly[i].day != weekly[j].day
    ensures HasRule(weekly, day)
  {
    DistinctDaysCount(weekly);
    var week := {0, 1, 2, 3, 4, 5, 6};
    assert DaysOf(weekly) <= week;
    SubsetSize(DaysOf(weekly), week);
    assert day in DaysOf(weekly);
  }

  /** Seven different days of the week are all of them, so the unchecked lookup
      by day in bndDayWindow always finds a rule. */
  lemma DecodedIsValid(c: Clock, raw: RawHours)
    requires Acceptable(c, raw)
    ensures ValidHours(c, Decoded(c, raw))
  {
    var weekly := Decoded(c, raw).weekly;
    forall i | 0 <= i < 7 ensures weekly[i] == DecodeDay(raw.weekly[i]) && ValidRule(weekly[i]) {
      assert GoodDay(raw.weekly[i]);
    }
    forall i, j | 0 <= i < j < 7 ensures weekly[i].day != weekly[j].day {
      assert raw.weekly[i].day != raw.weekly[j].day;
    }
    forall day | 0 <= day <= 6 ensures HasRule(weekly, day) {
      WholeWeek(weekly, day);
    }
  }

  function EncodeField(value: Option<int>): Field { if value.Some? then Whole(value.value) else NullField }

  /** The response that hours are decoded from; setBndHours checks it again. */
  function Encoded(h: Hours): RawHours {
    RawHours(seq(|h.weekly|, i requires 0 <= i < |h.weekly| =>
                   RawDay(Whole(h.weekly[i].day),
                          EncodeField(h.weekly[i].startMinute), EncodeField(h.weekly[i].endMinute))),
             if h.today.None? then NoToday
             else RawToday(h.today.value.date, EncodeField(h.today.value.startAt), EncodeField(h.today.value.endAt)),
             EncodeField(h.checkedAt), Whole(h.refreshAt), Some(h.source))
  }

  /** Every valid schedule is accepted and comes back unchanged: nothing more is refused. */
  lemma EncodedIsAccepted(c: Clock, h: Hours)
    requires ValidHours(c, h) && |h.weekly| == 7
    ensures Acceptable(c, Encoded(h)) && Decoded(c, Encoded(h)) == h
  {
    var raw := Encoded(h);
    forall i | 0 <= i < 7 ensures GoodDay(raw.weekly[i]) && DecodeDay(raw.weekly[i]) == h.weekly[i] {
      assert ValidRule(h.weekly[i]);
    }
    forall i, j | 0 <= i < j < 7 ensures raw.weekly[i].day != raw.weekly[j].day {
      assert h.weekly[i].day != h.weekly[j].day;
    }
    if h.today.Some? { assert ValidToday(c, h.today.value); }
  }

  /** And nothing else is: an accepted response says what its hours say, except that an
      override for no such day, with null times, is lost. */
  lemma AcceptedIsEncoded(c: Clock, raw: RawHours)
    requires Acceptable(c, raw)
    ensures Encoded(Decoded(c, raw)) == if raw.today.NoSuchDay? then raw.(today := NoToday) else raw
    ensures raw.today.NoSuchDay? ==> raw.today.startAt.NullField? && raw.today.endAt.NullField?
    ensures ValidHours(c, Decoded(c, raw)) && |Decoded(c, raw).weekly| == 7
  {
    DecodedIsValid(c, raw);
    var again := Encoded(Decoded(c, raw));
    forall i | 0 <= i < 7 ensures again.weekly[i] == raw.weekly[i] { assert GoodDay(raw.weekly[i]); }
    assert again.weekly == raw.weekly;
  }

  // ----- the window of a day ---------------------------------------------------------------

  /** 1 January 1970 was a Thursday. */
  function Weekday(date: int): int { (date + 4) % 7 }

  function FindRule(weekly: seq<DayHours>, day: int): (rule: DayHours)
    requires HasRule(weekly, day)
    ensures rule in weekly && rule.day == day
  {
    if weekly[0].day == day then weekly[0] else FindRule(weekly[1..], day)
  }

  function MinuteInstant(c: Clock, date: int, minute: Option<int>): Option<int> {
    if minute.None? then None else Some(LocalInstant(c, date, minute.value))
  }

  function BndDayWindow(c: Clock, h: Hours, date: int): DayWindow
    requires ValidHours(c, h)
  {
    if h.today.Some? && h.today.value.date == date then h.today.value
    else
      var rule := FindRule(h.weekly, Weekday(date));
      DayWindow(date, MinuteInstant(c, date, rule.startMinute), MinuteInstant(c, date, rule.endMinute))
  }

  /** What being open means: the instant is in the window of its own local date. */
  predicate IsOpen(c: Clock, h: Hours, t: int)
    requires ValidHours(c, h)
  {
    var w := BndDayWindow(c, h, c.LocalDate(t));
    w.startAt.Some? && w.endAt.Some? && w.startAt.value <= t < w.endAt.value
  }

  predicate OpensOn(c: Clock, h: Hours, date: int)
    requires ValidHours(c, h)
  {
    BndDayWindow(c, h, date).startAt.Some?
  }

  lemma WindowInsideDay(c: Clock, h: Hours, date: int)
    requires Regular(c) && ValidHours(c, h)
    ensures var w := BndDayWindow(c, h, date);
      && (w.startAt.Some? <==> w.endAt.Some?)
      && (w.startAt.Some? ==> c.LocalDate(w.startAt.value) == date)
      && (w.endAt.Some? ==> w.endAt.value <= Midnight(c, date + 1))
  {
    if !(h.today.Some? && h.today.value.date == date) {
      var rule := FindRule(h.weekly, Weekday(date));
      assert ValidRule(rule);
      if rule.startMinute.Some? {
        MinuteStaysInDay(c, date, rule.startMinute.value);
        MinuteBeforeNextMidnight(c, date, rule.endMinute.value);
      }
    }
  }

  // ----- the schedule --------------------------------------------------------------------------

  datatype Schedule = Schedule(open: bool, nextChangeAt: int)

  /** The first date from `date + n` to `date + 7` that has an opening time. */
  function NextOpening(c: Clock, h: Hours, date: int, n: nat): Option<int>
    requires ValidHours(c, h)
    decreases 8 - n
  {
    if n > 7 then None
    else if OpensOn(c, h, date + n) then BndDayWindow(c, h, date + n).startAt
    else NextOpening(c, h, date, n + 1)
  }

  lemma NextOpeningSkips(c: Clock, h: Hours, date: int, n: nat)
    requires ValidHours(c, h) && n <= 7
    ensures OpensOn(c, h, date + n) ==> NextOpening(c, h, date, n) == BndDayWindow(c, h, date + n).startAt
    ensures !OpensOn(c, h, date + n) ==> NextOpening(c, h, date, n) == NextOpening(c, h, date, n + 1)
  {
  }

  function ScheduleAt(c: Clock, h: Hours, now: int): Schedule
    requires ValidHours(c, h)
  {
    var date := c.LocalDate(now);
    var today := BndDayWindow(c, h, date);
    var both := today.startAt.Some? && today.endAt.Some?;
    if both && now < today.startAt.value then Schedule(false, today.startAt.value)
    else if both && now < today.endAt.value then Schedule(true, today.endAt.value)
    else
      var next := NextOpening(c, h, date, 1);
      Schedule(false, if next.Some? then next.value else Midnight(c, date + 1))
  }

  method GetBndSchedule(c: Clock, h: Hours, now: int) returns (r: Schedule)
    requires ValidHours(c, h)
    ensures r == ScheduleAt(c, h, now)
  {
    var date := c.LocalDate(now);
    var today := BndDayWindow(c, h, date);
    if today.startAt.Some? && today.endAt.Some? {
      if now < today.startAt.value { return Schedule(false, today.startAt.value); }
      if now < today.endAt.value { return Schedule(true, today.endAt.value); }
    }
    for n := 1 to 8
      invariant NextOpening(c, h, date, 1) == NextOpening(c, h, date, n)
    {
      var next := BndDayWindow(c, h, date + n);
      NextOpeningSkips(c, h, date, n);
      if next.startAt.Some? { return Schedule(false, next.startAt.value); }
    }
    var midnight := BndLocalInstant(c, date + 1, 0);
    r := Schedule(false, midnight);
  }

  /** No opening time on any date strictly between. */
  ghost predicate NoOpening(c: Clock, h: Hours, after: int, before: int)
    requires ValidHours(c, h)
  {
    forall day :: after < day < before ==> !OpensOn(c, h, day)
  }

  lemma NoOpeningNext(c: Clock, h: Hours, after: int, day: int)
    requires ValidHours(c, h) && NoOpening(c, h, after, day) && !OpensOn(c, h, day)
    ensures NoOpening(c, h, after, day + 1)
  {
    forall d | after < d < day + 1 ensures !OpensOn(c, h, d) {
      if d < day { assert !OpensOn(c, h, d); }
    }
  }

  /** The lookahead finds the first later date with an opening time, if it is within
      seven days. */
  lemma {:induction false} NextOpeningIsFirst(c: Clock, h: Hours, date: int, n: nat) returns (day: int)
    requires ValidHours(c, h) && 1 <= n <= 8 && NoOpening(c, h, date, date + n)
    ensures NextOpening(c, h, date, n).None? ==> NoOpening(c, h, date, date + 8)
    ensures NextOpening(c, h, date, n).Some? ==>
              date < day <= date + 7 && NoOpening(c, h, date, day) && OpensOn(c, h, day) &&
              BndDayWindow(c, h, day).startAt == NextOpening(c, h, date, n)
    decreases 8 - n
  {
    if n <= 7 { NextOpeningSkips(c, h, date, n); }
    if n <= 7 && !OpensOn(c, h, date + n) {
      NoOpeningNext(c, h, date, date + n);
      day := NextOpeningIsFirst(c, h, date, n + 1);
    } else {
      day := date + n;
    }
  }

  /** Today's window, if any, is over. */
  predicate DayDone(c: Clock, h: Hours, now: int)
    requires ValidHours(c, h)
  {
    var w := BndDayWindow(c, h, c.LocalDate(now));
    w.startAt.Some? && w.endAt.Some? ==> w.startAt.value <= now && w.endAt.value <= now
  }

  /** Once today is over, nothing is open until the first later opening time. */
  lemma ClosedUntilDay(c: Clock, h: Hours, now: int, until: int, t: int)
    requires Regular(c) && ValidHours(c, h) && DayDone(c, h, now) && now <= t < until
    requires NoOpening(c, h, c.LocalDate(now), c.LocalDate(until))
    requires c.LocalDate(now) < c.LocalDate(until)
    requires var w := BndDayWindow(c, h, c.LocalDate(until)); w.startAt.Some? ==> until <= w.startAt.value
    ensures !IsOpen(c, h, t)
  {
    LocalDateMonotone(c, now, t);
    LocalDateMonotone(c, t, until);
    assert c.LocalDate(now) < c.LocalDate(t) < c.LocalDate(until) ==> !OpensOn(c, h, c.LocalDate(t));
  }

  lemma DoneFormula(c: Clock, h: Hours, now: int)
    requires ValidHours(c, h) && DayDone(c, h, now)
    ensures var date := c.LocalDate(now);
            var next := NextOpening(c, h, date, 1);
      ScheduleAt(c, h, now) == Schedule(false, if next.Some? then next.value else Midnight(c, date + 1))
  {
  }

  /** Once today is over the schedule names the next opening, or the next midnight
      when the coming seven dates have none. */
  lemma {:induction false} DoneSchedule(c: Clock, h: Hours, now: int) returns (until: int, day: int)
    requires Regular(c) && ValidHours(c, h) && DayDone(c, h, now)
    ensures ScheduleAt(c, h, now) == Schedule(false, until)
    ensures c.LocalDate(now) < day == c.LocalDate(until) && NoOpening(c, h, c.LocalDate(now), day)
    ensures (OpensOn(c, h, day) && BndDayWindow(c, h, day).startAt == Some(until))
            || (until == Midnight(c, day) && day == c.LocalDate(now) + 1 &&
                NoOpening(c, h, c.LocalDate(now), c.LocalDate(now) + 8))
  {
    var date := c.LocalDate(now);
    DoneFormula(c, h, now);
    day := NextOpeningIsFirst(c, h, date, 1);
    if NextOpening(c, h, date, 1).Some? {
      until := NextOpening(c, h, date, 1).value;
      WindowInsideDay(c, h, day);
    } else {
      until, day := Midnight(c, date + 1), date + 1;
      MidnightShown(c, date + 1);
    }
  }

  lemma Later(c: Clock, t: int, u: int)
    requires Regular(c) && c.LocalDate(t) < c.LocalDate(u)
    ensures t < u
  {
    if u <= t { LocalDateMonotone(c, u, t); }
  }

  lemma HoldsWhenDone(c: Clock, h: Hours, now: int, t: int)
    requires Regular(c) && ValidHours(c, h) && DayDone(c, h, now)
    ensures var s := ScheduleAt(c, h, now);
      !s.open && now < s.nextChangeAt && (now <= t < s.nextChangeAt ==> !IsOpen(c, h, t))
  {
    var until, day := DoneSchedule(c, h, now);
    Later(c, now, until);
    MidnightNotAfterOpening(c, h, day);
    if now <= t < until { ClosedUntilDay(c, h, now, until, t); }
  }

  lemma HoldsOnTheDay(c: Clock, h: Hours, now: int, t: int)
    requires Regular(c) && ValidHours(c, h) && !DayDone(c, h, now)
    requires now <= t < ScheduleAt(c, h, now).nextChangeAt
    ensures c.LocalDate(t) == c.LocalDate(now)
  {
    var date := c.LocalDate(now);
    var today := BndDayWindow(c, h, date);
    WindowInsideDay(c, h, date);
    LocalDateMonotone(c, now, t);
    if now < today.startAt.value {
      LocalDateMonotone(c, t, today.startAt.value);
    } else {
      MidnightBoundary(c, date + 1, t);
    }
  }

  /** `open` is what it says, the next change is strictly later, and the answer holds
      at every instant until then, across dates, daily overrides and closed weeks. */
  lemma {:induction false} ScheduleHolds(c: Clock, h: Hours, now: int, t: int)
    requires Regular(c) && ValidHours(c, h)
    ensures var s := ScheduleAt(c, h, now);
      && s.open == IsOpen(c, h, now)
      && now < s.nextChangeAt
      && (now <= t < s.nextChangeAt ==> IsOpen(c, h, t) == s.open)
  {
    if DayDone(c, h, now) {
      HoldsWhenDone(c, h, now, t);
    } else if now <= t < ScheduleAt(c, h, now).nextChangeAt {
      HoldsOnTheDay(c, h, now, t);
    }
  }

  // ----- which rule decides a date ------------------------------------------------------------------

  /** Day 0 was a Thursday, day 4 of the week that starts on Sunday. */
  lemma WindowOfRule(c: Clock, h: Hours, rule: DayHours, k: int)
    requires ValidHours(c, h) && rule in h.weekly
    requires h.today.Some? ==> h.today.value.date != 7 * k + rule.day - 4
    ensures var date := 7 * k + rule.day - 4;
      BndDayWindow(c, h, date) ==
      DayWindow(date,
                if rule.startMinute.Some? then Some(LocalInstant(c, date, rule.startMinute.value)) else None,
                if rule.endMinute.Some? then Some(LocalInstant(c, date, rule.endMinute.value)) else None)
  {
    var i :| 0 <= i < |h.weekly| && h.weekly[i] == rule;
    assert ValidRule(h.weekly[i]);
    var date := 7 * k + rule.day - 4;
    assert Weekday(date) == rule.day;
    var found := FindRule(h.weekly, Weekday(date));
    var j :| 0 <= j < |h.weekly| && h.weekly[j] == found;
    assert i == j;
  }

  /** On a date that falls on a rule's weekday and has no override, it is open exactly from
      the rule's opening minute up to its closing minute, and the schedule says so. */
  lemma OpenByRule(c: Clock, h: Hours, rule: DayHours, k: int, t: int)
    requires ValidHours(c, h) && rule in h.weekly && c.LocalDate(t) == 7 * k + rule.day - 4
    requires h.today.Some? ==> h.today.value.date != 7 * k + rule.day - 4
    ensures var (date, s) := (7 * k + rule.day - 4, ScheduleAt(c, h, t));
      if rule.startMinute.None? then !s.open
      else
        rule.endMinute.Some? &&
        var (opens, closes) :=
          (LocalInstant(c, date, rule.startMinute.value), LocalInstant(c, date, rule.endMinute.value));
        && (s.open <==> opens <= t < closes)
        && (t < opens ==> s == Schedule(false, opens))
        && (opens <= t < closes ==> s == Schedule(true, closes))
  {
    WindowOfRule(c, h, rule, k);
    var i :| 0 <= i < |h.weekly| && h.weekly[i] == rule;
    assert ValidRule(h.weekly[i]);
  }

  /** On the date of an override its own instants decide. */
  lemma OpenByOverride(c: Clock, h: Hours, t: int)
    requires ValidHours(c, h) && h.today.Some? && c.LocalDate(t) == h.today.value.date
    ensures var (today, s) := (h.today.value, ScheduleAt(c, h, t));
      if today.startAt.None? then !s.open
      else
        today.endAt.Some? &&
        (s.open <==> today.startAt.value <= t < today.endAt.value) &&
        (t < today.startAt.value ==> s == Schedule(false, today.startAt.value)) &&
        (today.startAt.value <= t < today.endAt.value ==> s == Schedule(true, today.endAt.value))
  {
    assert ValidToday(c, h.today.value);
  }

  lemma MidnightNotAfterOpening(c: Clock, h: Hours, date: int)
    requires Regular(c) && ValidHours(c, h)
    ensures var w := BndDayWindow(c, h, date); w.startAt.Some? ==> Midnight(c, date) <= w.startAt.value
  {
    WindowInsideDay(c, h, date);
    var w := BndDayWindow(c, h, date);
    if w.startAt.Some? { MidnightBoundary(c, date, w.startAt.value); }
  }

  // ----- nextBndCheckAt ---------------------------------------------------------------------------

  function NextBndCheckAt(c: Clock, h: Hours, earliest: int): int
    requires ValidHours(c, h)
  {
    var s := ScheduleAt(c, h, earliest);
    if s.open then earliest else s.nextChangeAt
  }

  /** Never early, and no open instant is slept through. */
  lemma CheckSkipsNoOpenInstant(c: Clock, h: Hours, earliest: int, t: int)
    requires Regular(c) && ValidHours(c, h)
    ensures earliest <= NextBndCheckAt(c, h, earliest)
    ensures earliest <= t < NextBndCheckAt(c, h, earliest) ==> !IsOpen(c, h, t)
  {
    ScheduleHolds(c, h, earliest, t);
  }

  function RepeatCheck(c: Clock, h: Hours, from: int, n: nat): int
    requires ValidHours(c, h)
    decreases n
  {
    if n == 0 then from else RepeatCheck(c, h, NextBndCheckAt(c, h, from), n - 1)
  }

  /** `at` is the earliest open instant from `from` on. */
  ghost predicate EarliestOpen(c: Clock, h: Hours, from: int, at: int)
    requires ValidHours(c, h)
  {
    from <= at && IsOpen(c, h, at) && forall t :: from <= t < at ==> !IsOpen(c, h, t)
  }

  /** If the date opens, its opening instant is before its closing instant. */
  ghost predicate ForwardOn(c: Clock, h: Hours, date: int)
    requires ValidHours(c, h)
  {
    var w := BndDayWindow(c, h, date);
    w.startAt.Some? ==> w.endAt.Some? && w.startAt.value < w.endAt.value
  }

  /** False only when a clock change skips an opening time past its closing time. */
  ghost predicate WindowsForward(c: Clock, h: Hours)
    requires ValidHours(c, h)
  {
    forall date :: ForwardOn(c, h, date)
  }

  /** The weekly rule decides the date, and opens. */
  predicate RuleOpens(c: Clock, h: Hours, date: int)
    requires ValidHours(c, h)
  {
    !(h.today.Some? && h.today.value.date == date) && FindRule(h.weekly, Weekday(date)).startMinute.Some?
  }

  /** The clock change skips the opening time, and the closing time comes after the skipped
      span but no more than the gap after the opening time. */
  predicate SkipsPastClosing(s: Shift, opens: int, closes: int) {
    s.at + s.before <= opens < s.at + s.after <= closes <= opens + s.Gap()
  }

  lemma RuleForwardExactly(c: Clock, s: Shift, date: int, startMinute: int, endMinute: int)
    requires 0 <= startMinute < endMinute <= 1440 && ShiftsOnDay(c, s, date)
    ensures LocalInstant(c, date, startMinute) < LocalInstant(c, date, endMinute) <==>
            !SkipsPastClosing(s, Target(date, startMinute), Target(date, endMinute))
  {
    RoundsChoose(c, s, date, startMinute);
    RoundsChoose(c, s, date, endMinute);
  }

  function RuleOn(c: Clock, h: Hours, date: int): (rule: DayHours)
    requires ValidHours(c, h)
    ensures ValidRule(rule)
  {
    FindRule(h.weekly, Weekday(date))
  }

  /** No clock change skips the opening time of the date's weekly rule too close before its
      closing time. */
  ghost predicate NothingSkippedOn(c: Clock, h: Hours, date: int)
    requires ValidHours(c, h)
  {
    var rule := RuleOn(c, h, date);
    RuleOpens(c, h, date) ==>
      forall s :: ShiftsOnDay(c, s, date) ==>
        !SkipsPastClosing(s, Target(date, rule.startMinute.value), Target(date, rule.endMinute.value))
  }

  lemma ForwardOnExactly(c: Clock, h: Hours, date: int)
    requires Regular(c) && ValidHours(c, h)
    ensures ForwardOn(c, h, date) <==> NothingSkippedOn(c, h, date)
  {
    if RuleOpens(c, h, date) {
      var rule := RuleOn(c, h, date);
      assert RegularDay(c, date);
      forall s | ShiftsOnDay(c, s, date)
        ensures ForwardOn(c, h, date) <==>
                !SkipsPastClosing(s, Target(date, rule.startMinute.value), Target(date, rule.endMinute.value))
      {
        RuleForwardExactly(c, s, date, rule.startMinute.value, rule.endMinute.value);
      }
    }
  }

  /** The condition, on the hours and the clock changes alone: a daily override always runs
      forward, and a weekly rule unless a change skips its opening time past its closing. */
  lemma WindowsForwardExactly(c: Clock, h: Hours)
    requires Regular(c) && ValidHours(c, h)
    ensures WindowsForward(c, h) <==> forall date :: NothingSkippedOn(c, h, date)
  {
    forall date ensures ForwardOn(c, h, date) <==> NothingSkippedOn(c, h, date) {
      ForwardOnExactly(c, h, date);
    }
    if forall date :: NothingSkippedOn(c, h, date) {
      forall date ensures ForwardOn(c, h, date) { assert NothingSkippedOn(c, h, date); }
    } else {
      var date :| !NothingSkippedOn(c, h, date);
      assert !ForwardOn(c, h, date);
    }
  }

  /** Toronto's change of spring, moved to day 0: 02:00 becomes 03:00. */
  const SPRING: Shift := Shift(25_200_000, -18_000_000, -14_400_000)
  const SPRING_CLOCK: Clock := Clock(t => if t < SPRING.at then SPRING.before else SPRING.after)

  /** From 02:30 to 03:15 on every day of the week. */
  const NIGHT_HOURS: Hours := Hours(seq(7, i => DayHours(i, Some(150), Some(195))), None, None, 0, Website)

  lemma NightHoursAccepted()
    ensures ValidHours(SPRING_CLOCK, NIGHT_HOURS)
  {
    forall day | 0 <= day <= 6 ensures HasRule(NIGHT_HOURS.weekly, day) {
      assert NIGHT_HOURS.weekly[day].day == day;
    }
  }

  /** These accepted hours close before they open on the day of the change. */
  lemma SkippedOpeningClosesFirst()
    ensures Regular(SPRING_CLOCK) && ValidHours(SPRING_CLOCK, NIGHT_HOURS)
    ensures LocalInstant(SPRING_CLOCK, 0, 195) < LocalInstant(SPRING_CLOCK, 0, 150)
    ensures !ForwardOn(SPRING_CLOCK, NIGHT_HOURS, 0)
  {
    NightHoursAccepted();
    OneShiftIsRegular(SPRING_CLOCK, SPRING);
    assert ShiftsOnDay(SPRING_CLOCK, SPRING, 0);
    RoundsChoose(SPRING_CLOCK, SPRING, 0, 150);
    RoundsChoose(SPRING_CLOCK, SPRING, 0, 195);
  }

  ghost predicate OpensWeekly(h: Hours) {
    exists i :: 0 <= i < |h.weekly| && h.weekly[i].startMinute.Some?
  }

  /** Days still to walk, one midnight at a time, before an opening is in sight: only
      a daily override of the one open weekday can hide it, and only for a week. */
  function Walk(h: Hours, date: int): nat {
    if h.today.Some? && date < h.today.value.date <= date + 7 then h.today.value.date - date else 0
  }

  /** From any instant at most eight repetitions reach the earliest open instant, even
      if the daily override closes the only open day of the coming week. */
  lemma {:induction false} RepeatReachesEarliestOpen(c: Clock, h: Hours, from: int)
    requires Regular(c) && ValidHours(c, h) && WindowsForward(c, h) && OpensWeekly(h)
    ensures EarliestOpen(c, h, from, RepeatCheck(c, h, from, 8))
  {
    CheckReaches(c, h, from, 8);
  }

  lemma OpenStays(c: Clock, h: Hours, at: int, n: nat)
    requires Regular(c) && ValidHours(c, h) && IsOpen(c, h, at)
    ensures RepeatCheck(c, h, at, n) == at
  {
    ScheduleHolds(c, h, at, at);
    if n > 0 { OpenStays(c, h, at, n - 1); }
  }

  lemma WeekdayComes(date: int, weekday: int) returns (day: int)
    requires 0 <= weekday <= 6
    ensures date < day <= date + 7 && Weekday(day) == weekday
  {
    day := date + 1 + (weekday - Weekday(date + 1)) % 7;
  }

  lemma SomeWeekdayOpens(c: Clock, h: Hours, date: int)
    requires Regular(c) && ValidHours(c, h) && OpensWeekly(h)
    requires NoOpening(c, h, date, date + 8)
    ensures h.today.Some? && date < h.today.value.date <= date + 7
  {
    var i :| 0 <= i < |h.weekly| && h.weekly[i].startMinute.Some?;
    assert ValidRule(h.weekly[i]);
    var day := WeekdayComes(date, h.weekly[i].day);
    assert !OpensOn(c, h, day);
  }

  /** One check from a closed instant: it lands on an opening, or on a midnight with
      the hidden opening one day nearer. */
  lemma CheckAdvances(c: Clock, h: Hours, from: int)
    requires Regular(c) && ValidHours(c, h) && WindowsForward(c, h) && OpensWeekly(h)
    requires !IsOpen(c, h, from)
    ensures var next := NextBndCheckAt(c, h, from);
      IsOpen(c, h, next) || Walk(h, c.LocalDate(next)) < Walk(h, c.LocalDate(from))
  {
    ScheduleHolds(c, h, from, from);
    assert ForwardOn(c, h, c.LocalDate(from));
    if DayDone(c, h, from) {
      var until, day := DoneSchedule(c, h, from);
      assert ForwardOn(c, h, day);
      if !IsOpen(c, h, until) {
        SomeWeekdayOpens(c, h, c.LocalDate(from));
      }
    } else {
      WindowInsideDay(c, h, c.LocalDate(from));
    }
  }

  lemma OpenAtOnce(c: Clock, h: Hours, at: int, n: nat)
    requires Regular(c) && ValidHours(c, h) && IsOpen(c, h, at)
    ensures EarliestOpen(c, h, at, RepeatCheck(c, h, at, n))
  {
    OpenStays(c, h, at, n);
  }

  lemma CheckKeepsEarliest(c: Clock, h: Hours, from: int, n: nat)
    requires Regular(c) && ValidHours(c, h) && n > 0
    requires var next := NextBndCheckAt(c, h, from); EarliestOpen(c, h, next, RepeatCheck(c, h, next, n - 1))
    ensures EarliestOpen(c, h, from, RepeatCheck(c, h, from, n))
  {
    CheckSkipsNoOpenInstant(c, h, from, from);
    forall t | from <= t < RepeatCheck(c, h, from, n) ensures !IsOpen(c, h, t) {
      CheckSkipsNoOpenInstant(c, h, from, t);
    }
  }

  lemma {:induction false} CheckReaches(c: Clock, h: Hours, from: int, n: nat)
    requires Regular(c) && ValidHours(c, h) && WindowsForward(c, h) && OpensWeekly(h)
    requires IsOpen(c, h, from) || Walk(h, c.LocalDate(from)) < n
    ensures EarliestOpen(c, h, from, RepeatCheck(c, h, from, n))
    decreases n
  {
    if IsOpen(c, h, from) {
      OpenAtOnce(c, h, from, n);
    } else {
      CheckAdvances(c, h, from);
      CheckReaches(c, h, NextBndCheckAt(c, h, from), n - 1);
      CheckKeepsEarliest(c, h, from, n);
    }
  }
}
