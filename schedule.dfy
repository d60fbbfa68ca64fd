/**
 * The daily schedule: `isWorkDay` (main.js:207-211), `parseTime` (main.js:196-201),
 * `getRandomDelay` (main.js:203-205) and the targets `getTodayTargets` keeps (main.js:188-194, 213-235).
 * Clock readings are inputs: the weekday, a key naming the calendar day, the instant the day began
 * and the current instant, all as integers. Each `Math.random()` draw is an input in [0, 1).
 */
module Schedule {
  import opened Values
  import opened Text
  import opened Numbers

  /** A Date's time value in milliseconds; an Invalid Date holds NaN. */
  datatype Instant = Invalid | At(ms: int)

  /** The largest time value a Date can hold, in either direction (TimeClip). */
  const MaxTimeMs: int := 8_640_000_000_000_000

  /** TimeClip: a time value beyond the Date range is NaN. */
  function TimeClip(t: int): Instant {
    if -MaxTimeMs <= t <= MaxTimeMs then At(t) else Invalid
  }

  /** `now >= date`: false whenever the date is invalid, as every comparison with NaN is. */
  function Reached(now: int, t: Instant): (b: bool)
    ensures t.Invalid? ==> !b
    ensures t.At? ==> (b <==> t.ms <= now)
  {
    t.At? && now >= t.ms
  }

  /** Once a target is reached it stays reached as the clock moves on. */
  lemma ReachedLater(now: int, later: int, t: Instant)
    requires Reached(now, t) && now <= later
    ensures Reached(later, t)
  {
  }

  // ---------------------------------------------------------------- isWorkDay

  /** `config.workday_week || ''`. */
  function WorkdaySetting(cfg: map<string, string>): string {
    if "workday_week" in cfg then cfg["workday_week"] else ""
  }

  /** `isWorkDay`: some comma-separated item of the setting converts with `Number` to today's weekday. */
  function IsWorkDay(cfg: map<string, string>, weekday: nat): (r: bool)
    ensures WorkdaySetting(cfg) == "" ==> (r <==> weekday == 0)
  {
    var items := Split(WorkdaySetting(cfg), ',');
    exists i :: 0 <= i < |items| && Equals(StringToNumber(items[i]), weekday)
  }

  /** The character of a decimal digit. */
  function DigitChar(n: nat): (c: char)
    requires n <= 9
    ensures IsDigit(c, 10) && DigitValue(c) == n
  {
    ('0' as int + n) as char
  }

  /** The items of a digit list are the digits themselves. */
  function DayItems(days: seq<nat>): (items: seq<string>)
    requires forall i :: 0 <= i < |days| ==> days[i] <= 9
    ensures |items| == |days|
    ensures forall i :: 0 <= i < |days| ==> items[i] == [DigitChar(days[i])]
  {
    seq(|days|, i requires 0 <= i < |days| => [DigitChar(days[i])])
  }

  /** A workday list written as single digits, e.g. `1,2,3,4,5`. */
  function DayList(days: seq<nat>): string
    requires forall i :: 0 <= i < |days| ==> days[i] <= 9
  {
    Join(DayItems(days), ',')
  }

  /** The value of a single digit. */
  lemma OneDigit(c: char)
    requires IsDigit(c, 10)
    ensures DigitsValue([c], 10) == DigitValue(c)
  {
    assert [c][..0] == [];
  }

  /** `Number` reads a one-digit item as that digit. */
  lemma DigitItem(n: nat)
    requires n <= 9
    ensures StringToNumber([DigitChar(n)]) == Finite(false, n, 0)
  {
    var c := DigitChar(n);
    DigitsNumber([c]);
    OneDigit(c);
  }

  /** Splitting a digit list at its commas gives back one item per weekday. */
  lemma SplitDayList(days: seq<nat>)
    requires |days| >= 1 && forall i :: 0 <= i < |days| ==> days[i] <= 9
    ensures Split(DayList(days), ',') == DayItems(days)
  {
    var items := DayItems(days);
    forall i | 0 <= i < |items| ensures ',' !in items[i] {
      assert items[i] == [DigitChar(days[i])];
    }
    SplitJoin(items, ',');
  }

  /** With the setting written as a list of weekday digits, today is a workday exactly when it is listed. */
  lemma WorkdayListed(cfg: map<string, string>, days: seq<nat>, weekday: nat)
    requires |days| >= 1 && forall i :: 0 <= i < |days| ==> days[i] <= 9
    requires "workday_week" in cfg && cfg["workday_week"] == DayList(days)
    ensures IsWorkDay(cfg, weekday) <==> weekday in days
  {
    var items := DayItems(days);
    SplitDayList(days);
    assert Split(WorkdaySetting(cfg), ',') == items;
    forall i | 0 <= i < |days|
      ensures Equals(StringToNumber(items[i]), weekday) <==> days[i] == weekday
    {
      DigitItem(days[i]);
    }
    if weekday in days {
      var i :| 0 <= i < |days| && days[i] == weekday;
      assert Equals(StringToNumber(items[i]), weekday);
    }
  }

  /** A setting written in words, such as `mon,tue`, makes no day a workday. */
  lemma WordsAreNoWorkdays(cfg: map<string, string>, weekday: nat)
    requires forall item :: item in Split(WorkdaySetting(cfg), ',') ==> Trim(item) != [] && 'a' <= Trim(item)[0] <= 'z'
    ensures !IsWorkDay(cfg, weekday)
  {
    WordsMatchNothing(Split(WorkdaySetting(cfg), ','), weekday);
  }

  /** No item starting with a letter converts to a number, so none matches a weekday. */
  lemma WordsMatchNothing(items: seq<string>, weekday: nat)
    requires forall item :: item in items ==> Trim(item) != [] && 'a' <= Trim(item)[0] <= 'z'
    ensures forall i :: 0 <= i < |items| ==> !Equals(StringToNumber(items[i]), weekday)
  {
    forall i | 0 <= i < |items| ensures !Equals(StringToNumber(items[i]), weekday) {
      assert items[i] in items;
      NotNumeric(items[i]);
    }
  }

  // ---------------------------------------------------------------- parseTime

  /** The i-th piece of the split time; `undefined` (None) past the end. */
  function Piece(parts: seq<string>, i: nat): Option<string> {
    if i < |parts| then Some(parts[i]) else None
  }

  /** An hour or minute piece as `new Date` reads it: `undefined`, NaN and the infinities give an invalid Date (None). */
  function Whole(piece: Option<string>): Option<int> {
    if piece.None? then None else Truncate(StringToNumber(piece.value))
  }

  /** The seconds `s || 0`: absent, NaN and zero give 0; an infinity gives an invalid Date (None). */
  function SecondsOf(piece: Option<string>): Option<int> {
    if piece.None? then Some(0)
    else
      var n := StringToNumber(piece.value);
      if n.NaN? || (n.Finite? && n.mantissa == 0) then Some(0) else Truncate(n)
  }

  /** MakeTime: milliseconds after midnight, None when a component is not finite. */
  function Clock(h: Option<int>, m: Option<int>, s: Option<int>): Option<int> {
    if h.None? || m.None? || s.None? then None
    else Some(ClockMs(h.value, m.value, s.value))
  }

  /** Hours, minutes and seconds in milliseconds. */
  function ClockMs(h: int, m: int, s: int): int {
    h * 3_600_000 + m * 60_000 + s * 1000
  }

  /**
   * `[h, m, s] = timeStr.split(':').map(Number)` turned into milliseconds after midnight as
   * `new Date(y, mo, d, h, m, s || 0)` would; None when that Date is invalid (a part is NaN or
   * infinite, or the minutes are missing).
   */
  function TimeOfDay(timeStr: string): Option<int> {
    var parts := Split(timeStr, ':');
    Clock(Whole(Piece(parts, 0)), Whole(Piece(parts, 1)), SecondsOf(Piece(parts, 2)))
  }

  /** `parseTime(timeStr)`: that clock time on the current day, which began at `dayStart`. */
  function ParseTime(dayStart: int, timeStr: string): (r: Instant)
    ensures r.At? ==> -MaxTimeMs <= r.ms <= MaxTimeMs && TimeOfDay(timeStr).Some?
  {
    match TimeOfDay(timeStr)
    case None => Invalid
    case Some(t) => TimeClip(dayStart + t)
  }

  lemma TruncateWhole(v: nat)
    ensures Truncate(Finite(false, v, 0)) == Some(v)
  {
    assert Pow10(0) == 1;
  }

  lemma DigitsTruncate(ds: string)
    requires ds != [] && AllDigits(ds, 10)
    ensures Truncate(StringToNumber(ds)) == Some(DigitsValue(ds, 10))
  {
    DigitsNumber(ds);
    TruncateWhole(DigitsValue(ds, 10));
  }

  lemma SplitTwo(a: string, b: string, sep: char)
    requires sep !in a && sep !in b
    ensures Split(a + [sep] + b, sep) == [a, b]
  {
    assert Join([a, b], sep) == a + [sep] + b;
    SplitJoin([a, b], sep);
  }

  lemma SplitThree(a: string, b: string, c: string, sep: char)
    requires sep !in a && sep !in b && sep !in c
    ensures Split(a + [sep] + b + [sep] + c, sep) == [a, b, c]
  {
    assert Join([a, b, c][1..], sep) == b + [sep] + c;
    assert Join([a, b, c], sep) == a + [sep] + b + [sep] + c;
    SplitJoin([a, b, c], sep);
  }

  /** The pieces of `h:m` in decimal digits are read as that many hours and minutes after midnight. */
  lemma TimeOfDayTwo(timeStr: string, h: string, m: string)
    requires h != [] && AllDigits(h, 10) && m != [] && AllDigits(m, 10)
    requires Split(timeStr, ':') == [h, m]
    ensures TimeOfDay(timeStr) == Some(ClockMs(DigitsValue(h, 10), DigitsValue(m, 10), 0))
  {
    DigitsTruncate(h);
    DigitsTruncate(m);
  }

  /** The pieces of `h:m:s` in decimal digits. */
  lemma TimeOfDayThree(timeStr: string, h: string, m: string, s: string)
    requires h != [] && AllDigits(h, 10) && m != [] && AllDigits(m, 10) && s != [] && AllDigits(s, 10)
    requires Split(timeStr, ':') == [h, m, s]
    ensures TimeOfDay(timeStr) == Some(ClockMs(DigitsValue(h, 10), DigitsValue(m, 10), DigitsValue(s, 10)))
  {
    DigitsTruncate(h);
    DigitsTruncate(m);
    SecondsDigits(s);
  }

  /** `HH:MM` is that many hours and minutes after midnight, the seconds defaulting to 0. */
  lemma TimeOfDayHoursMinutes(h: string, m: string)
    requires h != [] && AllDigits(h, 10) && m != [] && AllDigits(m, 10)
    ensures TimeOfDay(h + ":" + m) == Some(ClockMs(DigitsValue(h, 10), DigitsValue(m, 10), 0))
  {
    var timeStr := h + ":" + m;
    assert Split(timeStr, ':') == [h, m] by {
      DigitsAreNot(h, ':');
      DigitsAreNot(m, ':');
      SplitTwo(h, m, ':');
      assert timeStr == h + [':'] + m;
    }
    TimeOfDayTwo(timeStr, h, m);
  }

  /** `HH:MM:SS` adds the seconds. */
  lemma TimeOfDayWithSeconds(h: string, m: string, s: string)
    requires h != [] && AllDigits(h, 10) && m != [] && AllDigits(m, 10) && s != [] && AllDigits(s, 10)
    ensures TimeOfDay(h + ":" + m + ":" + s) == Some(ClockMs(DigitsValue(h, 10), DigitsValue(m, 10), DigitsValue(s, 10)))
  {
    var timeStr := h + ":" + m + ":" + s;
    assert Split(timeStr, ':') == [h, m, s] by {
      DigitsAreNot(h, ':');
      DigitsAreNot(m, ':');
      DigitsAreNot(s, ':');
      SplitThree(h, m, s, ':');
      assert timeStr == h + [':'] + m + [':'] + s;
    }
    TimeOfDayThree(timeStr, h, m, s);
  }

  /** The value of a run of decimal digits, as `Number` reads it. */
  function Decimal(ds: string): nat
    requires AllDigits(ds, 10)
  {
    DigitsValue(ds, 10)
  }

  /** `parseTime("HH:MM")` is that clock time on the current day, the seconds defaulting to 0. */
  lemma ParseTimeHoursMinutes(dayStart: int, h: string, m: string)
    requires h != [] && AllDigits(h, 10) && m != [] && AllDigits(m, 10)
    ensures ParseTime(dayStart, h + ":" + m) == TimeClip(dayStart + ClockMs(Decimal(h), Decimal(m), 0))
  {
    TimeOfDayHoursMinutes(h, m);
    OnDay(dayStart, h + ":" + m, ClockMs(Decimal(h), Decimal(m), 0));
  }

  /** `parseTime("HH:MM:SS")` is that clock time on the current day. */
  lemma ParseTimeWithSeconds(dayStart: int, h: string, m: string, s: string)
    requires h != [] && AllDigits(h, 10) && m != [] && AllDigits(m, 10) && s != [] && AllDigits(s, 10)
    ensures ParseTime(dayStart, h + ":" + m + ":" + s) == TimeClip(dayStart + ClockMs(Decimal(h), Decimal(m), Decimal(s)))
  {
    TimeOfDayWithSeconds(h, m, s);
    OnDay(dayStart, h + ":" + m + ":" + s, ClockMs(Decimal(h), Decimal(m), Decimal(s)));
  }

  /** A readable time of day moves the day's start by that much. */
  lemma OnDay(dayStart: int, timeStr: string, c: int)
    requires TimeOfDay(timeStr) == Some(c)
    ensures ParseTime(dayStart, timeStr) == TimeClip(dayStart + c)
  {
  }

  lemma SecondsDigits(s: string)
    requires s != [] && AllDigits(s, 10)
    ensures SecondsOf(Some(s)) == Some(DigitsValue(s, 10))
  {
    DigitsNumber(s);
    TruncateWhole(DigitsValue(s, 10));
  }

  /** A time without a `:` has no minutes, so the Date is invalid and is never reached. */
  lemma ParseTimeWithoutColon(dayStart: int, timeStr: string)
    requires ':' !in timeStr
    ensures ParseTime(dayStart, timeStr) == Invalid
  {
    SplitNoSeparator(timeStr, ':');
  }

  lemma DigitsAreNot(ds: string, c: char)
    requires AllDigits(ds, 10) && !IsDigit(c, 10)
    ensures c !in ds
  {
  }

  // ---------------------------------------------------------------- random offsets

  /** `parseInt(config[key] || 0)`: a missing or empty setting reads as `parseInt(0)`, which is 0. */
  function RangeMinutes(cfg: map<string, string>, key: string): Option<int> {
    ParseInt(if key in cfg && cfg[key] != "" then cfg[key] else "0")
  }

  /** A missing or empty range setting means no random offset: `parseInt(0)` is 0. */
  lemma MissingRangeIsZero(cfg: map<string, string>, key: string)
    requires key !in cfg || cfg[key] == ""
    ensures RangeMinutes(cfg, key) == Some(0)
  {
    var zero := ['0'];
    ParseIntDigits(zero);
    OneDigit('0');
  }

  /** The span of a random range, in milliseconds. */
  function SpanMs(minutes: int): int {
    minutes * 60_000
  }

  /**
   * `getRandomDelay(minutes)`: `Math.floor(draw * minutes * 60 * 1000)` for a draw in [0, 1);
   * NaN minutes give NaN (None).
   */
  function RandomDelay(minutes: Option<int>, draw: real): (r: Option<int>)
    requires 0.0 <= draw < 1.0
    ensures r.Some? <==> minutes.Some?
    ensures minutes == Some(0) ==> r == Some(0)
    ensures minutes.Some? && minutes.value > 0 ==> 0 <= r.value < SpanMs(minutes.value)
    ensures minutes.Some? && minutes.value < 0 ==> SpanMs(minutes.value) <= r.value <= 0
  {
    if minutes.None? then None else Some(Scaled(draw, SpanMs(minutes.value)))
  }

  /** `Math.floor(draw * span)`: a whole offset between 0 and the span, never the span itself. */
  function Scaled(draw: real, span: int): (r: int)
    requires 0.0 <= draw < 1.0
    ensures span > 0 ==> 0 <= r < span
    ensures span < 0 ==> span <= r <= 0
    ensures span == 0 ==> r == 0
  {
    var x := Fraction(draw, span as real);
    FloorBounds(x, span);
    x.Floor
  }

  /**
   * `draw * span`: the part of the span a draw picks, between 0 and the span and never the span
   * itself. A negative span is the negated part of the positive one.
   */
  function Fraction(draw: real, span: real): (x: real)
    requires 0.0 <= draw < 1.0
    ensures span > 0.0 ==> 0.0 <= x < span
    ensures span < 0.0 ==> span < x <= 0.0
    ensures span == 0.0 ==> x == 0.0
  {
    if span > 0.0 then Portion(draw, span)
    else if span < 0.0 then -Portion(draw, -span)
    else 0.0
  }

  /** A fraction in [0, 1) of a positive span lies in [0, span). */
  function Portion(draw: real, s: real): (x: real)
    requires 0.0 <= draw < 1.0 && s > 0.0
    ensures 0.0 <= x < s
  {
    assert s - draw * s == (1.0 - draw) * s;
    draw * s
  }

  /** Rounding down keeps a real from [0, span) in [0, span) and one from (span, 0] in [span, 0]. */
  lemma FloorBounds(x: real, span: int)
    requires span > 0 ==> 0.0 <= x < span as real
    requires span < 0 ==> span as real < x <= 0.0
    requires span == 0 ==> x == 0.0
    ensures span > 0 ==> 0 <= x.Floor < span
    ensures span < 0 ==> span <= x.Floor <= 0
    ensures span == 0 ==> x.Floor == 0
  {
  }

  /** `offset / span` for an offset in [0, span) is a draw in [0, 1) that scales back to the offset. */
  lemma Quotient(o: real, s: real)
    requires 0.0 <= o < s
    ensures 0.0 <= o / s < 1.0 && (o / s) * s == o
  {
  }

  /** The draw `offset / span` lands exactly on `offset`. */
  lemma FractionScales(offset: int, span: int)
    requires 0 <= offset < span
    ensures var draw := offset as real / span as real;
      0.0 <= draw < 1.0 && Scaled(draw, span) == offset
  {
    Quotient(offset as real, span as real);
    assert Fraction(offset as real / span as real, span as real) == offset as real;
  }

  /** Every offset in [0, range) is the delay of some draw: the range is covered, not just bounded. */
  lemma DelayReachable(minutes: int, offset: int)
    requires minutes > 0 && 0 <= offset < SpanMs(minutes)
    ensures exists draw: real :: 0.0 <= draw < 1.0 && RandomDelay(Some(minutes), draw) == Some(offset)
  {
    FractionScales(offset, SpanMs(minutes));
    var draw := offset as real / SpanMs(minutes) as real;
    assert RandomDelay(Some(minutes), draw) == Some(offset);
  }

  /** The heartbeat's jitter `Math.round(Math.random() * 3)`: a whole number of seconds from 0 to 3. */
  function Jitter(draw: real): (j: int)
    requires 0.0 <= draw < 1.0
    ensures 0 <= j <= 3
  {
    (draw * 3.0 + 0.5).Floor
  }

  /** Each jitter from 0 to 3 seconds can occur. */
  lemma JitterReachable(j: int)
    requires 0 <= j <= 3
    ensures exists draw: real :: 0.0 <= draw < 1.0 && Jitter(draw) == j
  {
    var draw := if j == 3 then 0.9 else j as real / 3.0;
    assert Jitter(draw) == j;
  }

  // ---------------------------------------------------------------- daily targets

  /** `dailyTargets`: the day they were drawn for, the two target instants and the two done flags. */
  datatype Targets = Targets(dateKey: string, checkIn: Instant, checkOut: Instant, checkedIn: bool, checkedOut: bool)

  /** The state before the first tick: no day, no targets (`null`), nothing done. */
  const Initial: Targets := Targets("", Invalid, Invalid, false, false)

  /** `new Date(base.getTime() + delay)`. */
  function Target(base: Instant, delay: Option<int>): Instant {
    if base.Invalid? || delay.None? then Invalid else TimeClip(base.ms + delay.value)
  }

  /** A target drawn with a non-negative range lies in [base, base + range), and is the base itself for range 0. */
  lemma TargetWithinRange(base: int, minutes: int, draw: real)
    requires 0.0 <= draw < 1.0 && minutes >= 0
    requires -MaxTimeMs <= base && base + SpanMs(minutes) <= MaxTimeMs
    ensures var t := Target(At(base), RandomDelay(Some(minutes), draw));
      && t.At? && base <= t.ms
      && (minutes == 0 ==> t.ms == base)
      && (minutes > 0 ==> t.ms < base + SpanMs(minutes))
  {
  }

  /**
   * `getTodayTargets`: the current targets on the same day; on a new day, fresh targets drawn from
   * the settings with both flags cleared. None when a time setting is missing: `parseTime` then
   * throws and the targets stay as they were.
   */
  function Today(current: Targets, cfg: map<string, string>, dayKey: string, dayStart: int, inDraw: real, outDraw: real): (r: Option<Targets>)
    requires 0.0 <= inDraw < 1.0 && 0.0 <= outDraw < 1.0
    ensures current.dateKey == dayKey ==> r == Some(current)
    ensures current.dateKey != dayKey ==> (r.Some? <==> "checkin_time" in cfg && "checkout_time" in cfg)
    ensures r.Some? ==> r.value.dateKey == dayKey
    ensures current.dateKey != dayKey && r.Some? ==> !r.value.checkedIn && !r.value.checkedOut
  {
    if current.dateKey == dayKey then Some(current)
    else if "checkin_time" !in cfg || "checkout_time" !in cfg then None
    else Some(Targets(dayKey, DrawTarget(cfg, "checkin_time", "checkin_random_range_minutes", dayStart, inDraw),
                      DrawTarget(cfg, "checkout_time", "checkout_random_range_minutes", dayStart, outDraw), false, false))
  }

  /** One target of a new day: the time setting `timeKey` on that day, moved by a delay drawn in the range `rangeKey`. */
  function DrawTarget(cfg: map<string, string>, timeKey: string, rangeKey: string, dayStart: int, draw: real): Instant
    requires timeKey in cfg && 0.0 <= draw < 1.0
  {
    Target(ParseTime(dayStart, cfg[timeKey]), RandomDelay(RangeMinutes(cfg, rangeKey), draw))
  }

  /** Asking again on the same day, whatever the draws, changes nothing: targets are drawn once per day. */
  lemma TodayIdempotent(current: Targets, cfg: map<string, string>, dayKey: string, dayStart: int, inDraw: real, outDraw: real, dayStart': int, inDraw': real, outDraw': real)
    requires 0.0 <= inDraw < 1.0 && 0.0 <= outDraw < 1.0 && 0.0 <= inDraw' < 1.0 && 0.0 <= outDraw' < 1.0
    requires Today(current, cfg, dayKey, dayStart, inDraw, outDraw).Some?
    ensures var t := Today(current, cfg, dayKey, dayStart, inDraw, outDraw).value;
      Today(t, cfg, dayKey, dayStart', inDraw', outDraw') == Some(t)
  {
  }
}
