/** The trigger calculation of `schedule_reminder` (main.py): the weekday
    lookup, the parse of the `"HH:MM"` class time, the range check that
    `datetime.replace` performs, and the subtraction of the lead time that
    yields the cron trigger's day, hour and minute. */
module Trigger {
  import opened Common
  import opened Text

  const MinutesPerHour := 60
  const MinutesPerDay := 1440
  const MinutesPerWeek := 10080

  /** A wall-clock time as the two integers parsed out of `"HH:MM"`;
      nothing forces them into range. */
  datatype Clock = Clock(hour: int, minute: int)

  /** The fields a `CronTrigger(day_of_week=..., hour=..., minute=...)` is
      built from; day 0 is Monday. */
  datatype CronSpec = CronSpec(dayOfWeek: int, hour: int, minute: int)

  /** Why `schedule_reminder` logs an error and returns without a job. */
  datatype SkipReason = InvalidDay | InvalidTimeFormat

  /** What one call of `schedule_reminder` does: install a job with this
      trigger, log and return with no job, or let the `ValueError` of
      `datetime.replace` escape. */
  datatype Plan = Install(spec: CronSpec) | Skip(reason: SkipReason) | Raise

  /** The names of `day_mapping`, indexed by their values. */
  function DayName(i: int): string
    requires 0 <= i < 7
  {
    if i == 0 then "Monday"
    else if i == 1 then "Tuesday"
    else if i == 2 then "Wednesday"
    else if i == 3 then "Thursday"
    else if i == 4 then "Friday"
    else if i == 5 then "Saturday"
    else "Sunday"
  }

  /** The lookup `day_mapping[day]`, case-sensitive; `None` when the name is
      not one of the seven keys. */
  function DayIndex(day: string): (r: Option<int>)
    ensures r.Some? ==> 0 <= r.value < 7 && DayName(r.value) == day
  {
    if day == "Monday" then Some(0)
    else if day == "Tuesday" then Some(1)
    else if day == "Wednesday" then Some(2)
    else if day == "Thursday" then Some(3)
    else if day == "Friday" then Some(4)
    else if day == "Saturday" then Some(5)
    else if day == "Sunday" then Some(6)
    else None
  }

  /** The mapping is a bijection between the seven names and 0..6. */
  lemma DayIndexOfName(i: int)
    requires 0 <= i < 7
    ensures DayIndex(DayName(i)) == Some(i)
  {
  }

  /** `hour, minute = map(int, t.split(":"))`, with `None` for every
      `ValueError` the bare `except` swallows: not exactly two fields, or a
      field that is not an integer literal. */
  function ParseClassTime(t: string): (r: Option<Clock>)
    ensures r.Some? ==> Occurrences(t, ':') == 1
    ensures r.Some? <==> |Split(t, ':')| == 2
                         && ParseInt(Split(t, ':')[0]).Some?
                         && ParseInt(Split(t, ':')[1]).Some?
    ensures r.Some? ==> ParseInt(Split(t, ':')[0]) == Some(r.value.hour)
                        && ParseInt(Split(t, ':')[1]) == Some(r.value.minute)
  {
    SplitFieldCount(t, ':');
    var fields := Split(t, ':');
    if |fields| != 2 then None
    else
      match (ParseInt(fields[0]), ParseInt(fields[1]))
      case (Some(h), Some(m)) => Some(Clock(h, m))
      case _ => None
  }

  /** What `datetime.replace(hour=h, minute=m)` accepts without raising. */
  predicate ValidClock(c: Clock)
    ensures ValidClock(c) ==> 0 <= c.hour * MinutesPerHour + c.minute < MinutesPerDay
  {
    0 <= c.hour < 24 && 0 <= c.minute < 60
  }

  /** `"%02d" % n`, the zero-padded two-digit field of `strftime("%H:%M")`. */
  function TwoDigits(n: int): (s: string)
    requires 0 <= n < 100
    ensures |s| == 2 && AllDigits(s)
  {
    [DigitChar(n / 10), DigitChar(n % 10)]
  }

  /** `time.strftime("%H:%M")`, the form in which class times are sent. */
  function FormatClock(c: Clock): string
    requires ValidClock(c)
  {
    TwoDigits(c.hour) + ":" + TwoDigits(c.minute)
  }

  lemma TwoDigitsValue(n: int)
    requires 0 <= n < 100
    ensures ParseInt(TwoDigits(n)) == Some(n)
  {
    var s := TwoDigits(n);
    assert s[0] == DigitChar(n / 10) && s[1] == DigitChar(n % 10);
    assert s[..1] == [s[0]] && [s[0]][..0] == [];
    assert DigitsValue(s[..1]) == DigitValue(s[0]) == n / 10;
    assert DigitsValue(s) == DigitsValue(s[..1]) * 10 + DigitValue(s[1]);
    assert DigitsValue(s) == n;
    assert s[0] != '-' && s[0] != '+';
  }

  /** Every time written as `"%H:%M"` parses back to its hour and minute. */
  lemma ParseFormattedClock(c: Clock)
    requires ValidClock(c)
    ensures ParseClassTime(FormatClock(c)) == Some(c)
  {
    var fields := [TwoDigits(c.hour), TwoDigits(c.minute)];
    assert Join(fields, ':') == FormatClock(c) by {
      assert fields[1..] == [TwoDigits(c.minute)];
    }
    forall k | 0 <= k < 2 ensures ':' !in fields[k] {
      assert AllDigits(fields[k]);
    }
    SplitJoin(fields, ':');
    TwoDigitsValue(c.hour);
    TwoDigitsValue(c.minute);
  }

  /** The trigger `schedule_reminder` builds for weekday index `d`: the time
      of day `lead` minutes before the class time, computed on the clock
      alone, while the weekday stays `d`. */
  function SameDayFireSpec(d: int, c: Clock, lead: int): (spec: CronSpec)
    ensures spec.dayOfWeek == d && 0 <= spec.hour < 24 && 0 <= spec.minute < MinutesPerHour
    ensures (spec.hour * MinutesPerHour + spec.minute + lead) % MinutesPerDay
            == (c.hour * MinutesPerHour + c.minute) % MinutesPerDay
  {
    var x := c.hour * MinutesPerHour + c.minute - lead;
    var r := x % MinutesPerDay;
    MinuteOfDaySplit(x);
    DayShiftMod(x + lead, -(x / MinutesPerDay));
    CronSpec(d, r / MinutesPerHour, r % MinutesPerHour)
  }

  /** Whole days do not change a time taken modulo a day. */
  lemma DayShiftMod(y: int, k: int)
    ensures (y + k * MinutesPerDay) % MinutesPerDay == y % MinutesPerDay
  {
  }

  /** `schedule_reminder`'s decision for a class with these three fields.
      The checks come in `schedule_reminder`'s order: weekday, then time format, then
      the range check of `datetime.replace`. */
  function PlanReminder(day: string, time: string, lead: int): (p: Plan)
    ensures p.Install? ==> 0 <= p.spec.dayOfWeek < 7 && 0 <= p.spec.hour < 24 && 0 <= p.spec.minute < 60
  {
    match DayIndex(day)
    case None => Skip(InvalidDay)
    case Some(d) =>
      match ParseClassTime(time)
      case None => Skip(InvalidTimeFormat)
      case Some(c) => if ValidClock(c) then Install(SameDayFireSpec(d, c, lead)) else Raise
  }

  /** The three outcomes, each exactly characterised. */
  lemma PlanOutcomes(day: string, time: string, lead: int)
    ensures PlanReminder(day, time, lead) == Skip(InvalidDay) <==> DayIndex(day).None?
    ensures PlanReminder(day, time, lead) == Skip(InvalidTimeFormat)
            <==> DayIndex(day).Some? && ParseClassTime(time).None?
    ensures PlanReminder(day, time, lead) == Raise
            <==> DayIndex(day).Some? && ParseClassTime(time).Some? && !ValidClock(ParseClassTime(time).value)
    ensures PlanReminder(day, time, lead).Install?
            <==> DayIndex(day).Some? && ParseClassTime(time).Some? && ValidClock(ParseClassTime(time).value)
  {
  }

  /** A minute of the day `x` written back as hours and minutes. */
  lemma MinuteOfDaySplit(x: int)
    ensures 0 <= x % MinutesPerDay < MinutesPerDay
    ensures (x % MinutesPerDay) / MinutesPerHour * MinutesPerHour + (x % MinutesPerDay) % MinutesPerHour
            == x % MinutesPerDay
    ensures 0 <= (x % MinutesPerDay) / MinutesPerHour < 24
  {
  }

  /** The installed trigger: its weekday is the class's own `day_mapping`
      value, its minute of the day is `(hour * 60 + minute - lead) mod 1440`,
      and adding the lead back on the clock gives the class time. This holds
      also when the lead reaches back past midnight: the weekday does not move. */
  lemma FireSpecOfPlan(day: string, time: string, lead: int)
    requires PlanReminder(day, time, lead).Install?
    ensures var spec := PlanReminder(day, time, lead).spec;
            var c := ParseClassTime(time).value;
            && spec.dayOfWeek == DayIndex(day).value
            && spec.hour * MinutesPerHour + spec.minute
               == (c.hour * MinutesPerHour + c.minute - lead) % MinutesPerDay
            && (spec.hour * MinutesPerHour + spec.minute + lead) % MinutesPerDay
               == c.hour * MinutesPerHour + c.minute
  {
    var c := ParseClassTime(time).value;
    var x := c.hour * MinutesPerHour + c.minute - lead;
    MinuteOfDaySplit(x);
    ModShift(x, lead, c.hour * MinutesPerHour + c.minute);
  }

  /** `(x mod 1440 + lead) mod 1440 == x + lead` when the latter is a minute of the day. */
  lemma ModShift(x: int, lead: int, t: int)
    requires x + lead == t && 0 <= t < MinutesPerDay
    ensures (x % MinutesPerDay + lead) % MinutesPerDay == t
  {
    var q := x / MinutesPerDay;
    assert x % MinutesPerDay + lead == t - q * MinutesPerDay;
    DayShift(t, -q);
  }

  /** Adding whole days does not change the minute of the day. */
  lemma DayShift(t: int, k: int)
    requires 0 <= t < MinutesPerDay
    ensures (t + k * MinutesPerDay) % MinutesPerDay == t
  {
  }

  /** Adding whole weeks does not change the minute of the week. */
  lemma WeekShift(t: int, k: int)
    requires 0 <= t < MinutesPerWeek
    ensures (t + k * MinutesPerWeek) % MinutesPerWeek == t
  {
  }

  /** The trigger a weekly-minute computation would give: subtract the lead
      from the minute of the week and wrap modulo one week, so that the fire
      day moves back across midnight (and from Monday back to Sunday). */
  function WeeklyFireSpec(d: int, c: Clock, lead: int): CronSpec {
    var w := (d * MinutesPerDay + c.hour * MinutesPerHour + c.minute - lead) % MinutesPerWeek;
    CronSpec(w / MinutesPerDay, (w % MinutesPerDay) / MinutesPerHour, w % MinutesPerHour)
  }

  /** Adding the lead back to the weekly trigger, modulo a week, gives the
      class's own minute of the week. */
  lemma WeeklyRoundTrip(d: int, c: Clock, lead: int)
    requires 0 <= d < 7 && ValidClock(c)
    ensures var spec := WeeklyFireSpec(d, c, lead);
            (spec.dayOfWeek * MinutesPerDay + spec.hour * MinutesPerHour + spec.minute + lead) % MinutesPerWeek
            == d * MinutesPerDay + c.hour * MinutesPerHour + c.minute
  {
    var t := d * MinutesPerDay + c.hour * MinutesPerHour + c.minute;
    var x := t - lead;
    var w := x % MinutesPerWeek;
    var spec := WeeklyFireSpec(d, c, lead);
    assert spec.dayOfWeek * MinutesPerDay + spec.hour * MinutesPerHour + spec.minute == w;
    var q := x / MinutesPerWeek;
    assert w + lead == t - q * MinutesPerWeek;
    WeekShift(t, -q);
  }

  /** `a * 1440 + r` taken modulo a week, for a minute of the day `r`. */
  lemma WeekWrap(a: int, r: int)
    requires 0 <= r < MinutesPerDay
    ensures (a * MinutesPerDay + r) % MinutesPerWeek == (a % 7) * MinutesPerDay + r
  {
    var k := a / 7;
    assert a == k * 7 + a % 7;
    assert a * MinutesPerDay + r == ((a % 7) * MinutesPerDay + r) + k * MinutesPerWeek;
    WeekShift((a % 7) * MinutesPerDay + r, k);
  }

  /** Where `schedule_reminder`'s same-day trigger and the weekly trigger
      part, for a lead from zero up to six days past midnight: they agree on
      the hour and minute, and they agree on the weekday exactly when the
      lead is no longer than the minutes elapsed since midnight. When the lead
      reaches back into the previous day, the weekly trigger fires on that day. */
  lemma SameDayVersusWeekly(d: int, c: Clock, lead: int)
    requires 0 <= d < 7 && ValidClock(c)
    requires 0 <= lead <= c.hour * MinutesPerHour + c.minute + 6 * MinutesPerDay
    ensures var src := SameDayFireSpec(d, c, lead);
            var wk := WeeklyFireSpec(d, c, lead);
            && wk.hour == src.hour && wk.minute == src.minute
            && (wk.dayOfWeek == src.dayOfWeek <==> lead <= c.hour * MinutesPerHour + c.minute)
            && (c.hour * MinutesPerHour + c.minute < lead <= c.hour * MinutesPerHour + c.minute + MinutesPerDay
                ==> wk.dayOfWeek == (d + 6) % 7)
  {
    var t := c.hour * MinutesPerHour + c.minute;
    var x := t - lead;
    var q := x / MinutesPerDay;
    WeeklyDecomposed(d, c, lead);
    assert -6 <= q <= 0;
    assert q == 0 <==> lead <= t;
    DayBack(d, q);
    if t < lead <= t + MinutesPerDay {
      assert q == -1;
    }
  }

  /** The weekly trigger written with the days and the minute of the day of
      `h * 60 + m - lead`: the weekday moves back by the days the lead
      reaches across, and the time of day is the same-day one. */
  lemma WeeklyDecomposed(d: int, c: Clock, lead: int)
    requires 0 <= d < 7
    ensures var x := c.hour * MinutesPerHour + c.minute - lead;
            WeeklyFireSpec(d, c, lead)
            == CronSpec((d + x / MinutesPerDay) % 7, (x % MinutesPerDay) / MinutesPerHour, (x % MinutesPerDay) % MinutesPerHour)
  {
    var x := c.hour * MinutesPerHour + c.minute - lead;
    var q, r := x / MinutesPerDay, x % MinutesPerDay;
    assert x == q * MinutesPerDay + r;
    WeekWrap(d + q, r);
    assert d * MinutesPerDay + x == (d + q) * MinutesPerDay + r;
    var a := (d + q) % 7;
    var w := (d * MinutesPerDay + x) % MinutesPerWeek;
    assert w == a * MinutesPerDay + r;
    DayAndMinute(a, r);
    assert w % MinutesPerHour == r % MinutesPerHour by {
      assert w == (a * 24) * MinutesPerHour + r;
    }
  }

  /** A minute of the week read back as its weekday and minute of the day. */
  lemma DayAndMinute(a: int, r: int)
    requires 0 <= a < 7 && 0 <= r < MinutesPerDay
    ensures (a * MinutesPerDay + r) / MinutesPerDay == a
    ensures (a * MinutesPerDay + r) % MinutesPerDay == r
  {
  }

  /** Going back `-q` days, for less than a week, lands on the same weekday
      only when `q` is zero. */
  lemma DayBack(d: int, q: int)
    requires 0 <= d < 7 && -6 <= q <= 0
    ensures (d + q) % 7 == d <==> q == 0
  {
    if d + q >= 0 {
      assert (d + q) % 7 == d + q;
    } else {
      assert (d + q) % 7 == d + q + 7;
    }
  }

  /** A cron trigger with these fields fires at the start of exactly the
      matching minute of every week. */
  predicate Fires(spec: CronSpec, dayOfWeek: int, hour: int, minute: int) {
    spec.dayOfWeek == dayOfWeek && spec.hour == hour && spec.minute == minute
  }

  /** A class on Monday at 00:10 with a 30-minute lead: `schedule_reminder` installs
      Monday 23:40, the weekly computation would give Sunday 23:40. */
  lemma MondayPastMidnight()
    ensures PlanReminder("Monday", "00:10", 30) == Install(CronSpec(0, 23, 40))
    ensures WeeklyFireSpec(0, Clock(0, 10), 30) == CronSpec(6, 23, 40)
  {
    assert "00:10" == FormatClock(Clock(0, 10));
    ParseFormattedClock(Clock(0, 10));
  }

  /** Two colon-free integer literals joined by a colon parse to their values. */
  lemma ParseTwoFields(f: string, g: string)
    requires ':' !in f && ':' !in g
    requires ParseInt(f).Some? && ParseInt(g).Some?
    ensures ParseClassTime(f + [':'] + g) == Some(Clock(ParseInt(f).value, ParseInt(g).value))
  {
    SplitAfterField(f, g, ':');
    SplitWithoutSeparator(g, ':');
  }

  /** A signed hour is read with its sign: `"-05:30"` has hour -5, so
      `datetime.replace` raises. */
  lemma NegativeHourRaises()
    ensures PlanReminder("Monday", "-05:30", 0) == Raise
  {
    DigitsLeadingZero("5");
    assert "05" == "0" + "5";
    ParseIntSigned('-', "05");
    ParseIntDigits("30");
    assert "-05" == ['-'] + "05";
    ParseTwoFields("-05", "30");
    assert "-05:30" == "-05" + [':'] + "30";
  }

  /** `"+9:30"` is 9:30, so a 30-minute lead installs Monday 09:00. */
  lemma PlusSignedHour()
    ensures PlanReminder("Monday", "+9:30", 30) == Install(CronSpec(0, 9, 0))
  {
    ParseIntSigned('+', "9");
    ParseIntDigits("30");
    assert "+9" == ['+'] + "9";
    ParseTwoFields("+9", "30");
    assert "+9:30" == "+9" + [':'] + "30";
  }

  /** No midnight crossing: Wednesday 16:00 with a 30-minute lead fires on
      Wednesday at 15:30. */
  lemma WednesdayAfternoon()
    ensures PlanReminder("Wednesday", "16:00", 30) == Install(CronSpec(2, 15, 30))
  {
    assert "16:00" == FormatClock(Clock(16, 0));
    ParseFormattedClock(Clock(16, 0));
  }
}
