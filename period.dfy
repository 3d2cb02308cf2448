/**
  `parse_period` of the time-series API (18-timescaledb-terraform/app/api.py)
  and the query windows its endpoints derive from it.

  Durations and instants are whole seconds. `parse_period` never raises: any
  failure inside it (a prefix `int()` rejects, a duration outside the range of
  Python's `timedelta`) falls back to one day.
*/
module Period {
  import opened Wrappers
  import Decimal

  const Hour := 3600
  const Day := 86400
  const Week := 7 * Day

  /**
    `timedelta` holds durations from -999999999 days up to 999999999 days
    plus one day less a microsecond; in whole seconds that is
    -999999999 * 86400 ..= 999999999 * 86400 + 86399.
  */
  const MinDelta := -86_399_999_913_600
  const MaxDelta := 86_399_999_999_999

  predicate InTimedeltaRange(seconds: int) {
    MinDelta <= seconds <= MaxDelta
  }

  // ---------------------------------------------------------------------
  // Python's int() on a string, base 10

  /** The characters `str.isspace()` accepts, which `int()` strips. */
  predicate IsSpace(c: char) {
    || '\t' <= c <= '\r'
    || '\U{1C}' <= c <= '\U{1F}'
    || c == ' ' || c == '\U{85}' || c == '\U{A0}' || c == '\U{1680}'
    || '\U{2000}' <= c <= '\U{200A}'
    || c == '\U{2028}' || c == '\U{2029}' || c == '\U{202F}' || c == '\U{205F}' || c == '\U{3000}'
  }

  function StripLeft(s: string): (t: string)
    ensures |t| <= |s|
    ensures t != "" ==> !IsSpace(t[0])
  {
    if s != "" && IsSpace(s[0]) then StripLeft(s[1..]) else s
  }

  function StripRight(s: string): (t: string)
    ensures |t| <= |s|
    ensures t != "" ==> !IsSpace(t[|t| - 1])
  {
    if s != "" && IsSpace(s[|s| - 1]) then StripRight(s[..|s| - 1]) else s
  }

  /** Digits, with single underscores allowed between two digits: `1_000`. */
  predicate DigitGroups(s: string) {
    && s != ""
    && Decimal.IsDigit(s[0])
    && Decimal.IsDigit(s[|s| - 1])
    && (forall i | 0 <= i < |s| :: Decimal.IsDigit(s[i]) || s[i] == '_')
    && (forall i | 0 <= i < |s| - 1 :: !(s[i] == '_' && s[i + 1] == '_'))
  }

  function DropUnderscores(s: string): (d: string)
    requires forall i | 0 <= i < |s| :: Decimal.IsDigit(s[i]) || s[i] == '_'
    ensures Decimal.AllDigits(d)
  {
    if s == "" then ""
    else (if s[0] == '_' then "" else [s[0]]) + DropUnderscores(s[1..])
  }

  /** `int(s)`: `None` where Python raises `ValueError`. */
  function ParseInt(s: string): Option<int> {
    ParseSigned(StripRight(StripLeft(s)))
  }

  /** An optional sign followed by digit groups; no space may follow the sign. */
  function ParseSigned(t: string): Option<int> {
    if t != "" && (t[0] == '-' || t[0] == '+') then
      match ParseDigits(t[1..])
      case None => None
      case Some(m) => var v: int := m; Some(if t[0] == '-' then -v else v)
    else
      match ParseDigits(t)
      case None => None
      case Some(m) => Some(m)
  }

  function ParseDigits(d: string): Option<nat> {
    if DigitGroups(d) then Some(Decimal.ToNat(DropUnderscores(d))) else None
  }

  lemma {:induction false} DropUnderscoresOfDigits(s: string)
    requires Decimal.AllDigits(s)
    ensures DropUnderscores(s) == s
  {
    if s != "" {
      DropUnderscoresOfDigits(s[1..]);
    }
  }

  lemma ParseDigitsOfNumeral(n: nat)
    ensures ParseDigits(Decimal.FromNat(n)) == Some(n)
  {
    var d := Decimal.FromNat(n);
    assert DigitGroups(d);
    DropUnderscoresOfDigits(d);
    Decimal.ToNatFromNat(n);
  }

  lemma NumeralNeedsNoStrip(s: string)
    requires s != "" && !IsSpace(s[0]) && !IsSpace(s[|s| - 1])
    ensures StripRight(StripLeft(s)) == s
  {
  }

  lemma NegativeSigned(t: string, n: nat)
    requires t != "" && t[0] == '-' && ParseDigits(t[1..]) == Some(n)
    ensures ParseSigned(t) == Some(-(n as int))
  {
  }

  /** `int(str(n)) == n`. */
  lemma ParseIntOfNumeral(n: nat)
    ensures ParseInt(Decimal.FromNat(n)) == Some(n)
  {
    var d := Decimal.FromNat(n);
    ParseDigitsOfNumeral(n);
    NumeralNeedsNoStrip(d);
    assert ParseSigned(d) == Some(n);
  }

  /** `int("-" + str(n)) == -n`. */
  lemma ParseIntOfNegativeNumeral(n: nat)
    ensures ParseInt("-" + Decimal.FromNat(n)) == Some(-(n as int))
  {
    var d := Decimal.FromNat(n);
    ParseDigitsOfNumeral(n);
    var m := "-" + d;
    assert m[0] == '-' && m[1..] == d;
    NumeralNeedsNoStrip(m);
    NegativeSigned(m, n);
  }

  // ---------------------------------------------------------------------
  // parse_period (lines 34-67)

  const DefaultPeriod := Day

  /** `unit.lower()` for the letters `parse_period` tests; other characters never match. */
  function Lower(c: char): char {
    if 'A' <= c <= 'Z' then (c as int + 32) as char else c
  }

  /** The length of one unit: 'h' hours, 'd' days, 'w' weeks, 'm' 30 days, 'y' 365 days. */
  function UnitSeconds(unit: char): (r: Option<int>)
    ensures r.Some? <==> unit in "hdwmy"
  {
    if unit == 'h' then Some(Hour)
    else if unit == 'd' then Some(Day)
    else if unit == 'w' then Some(Week)
    else if unit == 'm' then Some(30 * Day)
    else if unit == 'y' then Some(365 * Day)
    else None
  }

  function ParsePeriod(p: string): (seconds: int)
    ensures InTimedeltaRange(seconds)
    ensures |p| <= 1 ==> seconds == DefaultPeriod
    ensures seconds != DefaultPeriod ==>
      && |p| >= 2
      && UnitSeconds(Lower(p[|p| - 1])).Some?
      && ParseInt(p[..|p| - 1]).Some?
  {
    if p == "" then DefaultPeriod
    else
      match ParseInt(p[..|p| - 1])
      case None => DefaultPeriod
      case Some(n) =>
        match UnitSeconds(Lower(p[|p| - 1]))
        case None => DefaultPeriod
        case Some(unit) =>
          // timedelta raises OverflowError beyond its range, which the bare except turns into one day
          if InTimedeltaRange(n * unit) then n * unit else DefaultPeriod
  }

  /** A prefix `int()` accepts and a known unit give that many units, when `timedelta` can hold them. */
  lemma ParsePeriodOf(prefix: string, unit: char, n: int, u: int)
    requires ParseInt(prefix) == Some(n) && UnitSeconds(Lower(unit)) == Some(u)
    ensures ParsePeriod(prefix + [unit]) == if InTimedeltaRange(n * u) then n * u else DefaultPeriod
  {
    var p := prefix + [unit];
    assert p[..|p| - 1] == prefix && p[|p| - 1] == unit;
  }

  lemma UnitPositive(unit: char, u: int)
    requires UnitSeconds(Lower(unit)) == Some(u)
    ensures Hour <= u <= 365 * Day
  {
  }

  lemma ProductBounds(n: nat, u: int)
    requires u >= 0
    ensures n * u >= 0
  {
  }

  lemma NegatedProduct(n: nat, u: int)
    requires u >= 0
    ensures -(n as int) * u == -(n * u) && n * u >= 0
  {
  }

  lemma ProductMonotone(n: nat, bound: nat, u: nat)
    requires n <= bound
    ensures n * u <= bound * u
  {
  }

  /** `<n><unit>` means n units, for every n that `timedelta` can hold, and one day beyond. */
  lemma ParsePeriodOfNumeral(n: nat, unit: char, u: int)
    requires UnitSeconds(Lower(unit)) == Some(u)
    ensures ParsePeriod(Decimal.FromNat(n) + [unit]) == if n * u <= MaxDelta then n * u else DefaultPeriod
  {
    ParseIntOfNumeral(n);
    UnitPositive(unit, u);
    ProductBounds(n, u);
    ParsePeriodOf(Decimal.FromNat(n), unit, n, u);
  }

  /** `-<n><unit>` means minus n units, down to the least duration `timedelta` holds, and one day beyond. */
  lemma ParsePeriodOfNegativeNumeral(n: nat, unit: char, u: int)
    requires UnitSeconds(Lower(unit)) == Some(u)
    ensures ParsePeriod("-" + Decimal.FromNat(n) + [unit]) == if n * u <= -MinDelta then -(n as int) * u else DefaultPeriod
  {
    ParseIntOfNegativeNumeral(n);
    UnitPositive(unit, u);
    NegatedProduct(n, u);
    ParsePeriodOf("-" + Decimal.FromNat(n), unit, -(n as int), u);
  }

  /** "m" is months of 30 days, never minutes; "y" is 365 days. */
  lemma MonthsAndYears(n: nat)
    requires n <= 1000
    ensures ParsePeriod(Decimal.FromNat(n) + "m") == n * (30 * Day)
    ensures ParsePeriod(Decimal.FromNat(n) + "M") == n * (30 * Day)
    ensures ParsePeriod(Decimal.FromNat(n) + "y") == n * (365 * Day)
  {
    ProductMonotone(n, 1000, 30 * Day);
    ProductMonotone(n, 1000, 365 * Day);
    ParsePeriodOfNumeral(n, 'm', 30 * Day);
    ParsePeriodOfNumeral(n, 'M', 30 * Day);
    ParsePeriodOfNumeral(n, 'y', 365 * Day);
  }

  /** The unit letter is case-insensitive. */
  lemma UnitCaseInsensitive(prefix: string, unit: char)
    ensures ParsePeriod(prefix + [unit]) == ParsePeriod(prefix + [Lower(unit)])
  {
    var p, q := prefix + [unit], prefix + [Lower(unit)];
    assert p[..|p| - 1] == prefix == q[..|q| - 1];
  }

  /** Anything but h, d, w, m, y (in either case) as the last character gives one day. */
  lemma UnknownUnitIsOneDay(prefix: string, unit: char)
    requires Lower(unit) !in "hdwmy"
    ensures ParsePeriod(prefix + [unit]) == DefaultPeriod
  {
  }

  /** A prefix that `int()` rejects (`"1.5"`, `"abc"`, `""`) gives one day, whatever the unit. */
  lemma NonIntegerPrefixIsOneDay(prefix: string, unit: char)
    requires ParseInt(prefix).None?
    ensures ParsePeriod(prefix + [unit]) == DefaultPeriod
  {
    var p := prefix + [unit];
    assert p[..|p| - 1] == prefix;
  }

  /** A lone unit letter has an empty prefix, which `int()` rejects. */
  lemma LoneLetterIsOneDay(unit: char)
    ensures ParsePeriod([unit]) == DefaultPeriod
  {
  }

  // ---------------------------------------------------------------------
  // The query window of each endpoint (lines 154-157, 199-202, 252-255, 305-308)

  /** Python's `datetime` covers 0001-01-01 to 9999-12-31; instants count seconds from its start. */
  const MaxInstant := 315_537_897_599  // 3652059 days less one second
  type Instant = t: int | 0 <= t <= MaxInstant

  datatype Endpoint = Raw | Hourly | Daily | Monthly

  /** `request.args.get('period', default)` for each endpoint. */
  function DefaultPeriodText(e: Endpoint): string {
    match e
    case Raw => "1d"
    case Hourly => "1w"
    case Daily => "1m"
    case Monthly => "1y"
  }

  /** How far back each endpoint looks by default. */
  function DefaultSpan(e: Endpoint): int {
    match e
    case Raw => Day
    case Hourly => Week
    case Daily => 30 * Day
    case Monthly => 365 * Day
  }

  /** `int("1")` is 1, so "1<unit>" is one unit. */
  lemma OneUnit(unit: char, u: int)
    requires UnitSeconds(Lower(unit)) == Some(u)
    ensures ParsePeriod(['1', unit]) == u
  {
    ParseIntOfNumeral(1);
    assert Decimal.FromNat(1) == "1";
    UnitPositive(unit, u);
    ParsePeriodOf("1", unit, 1, u);
    assert "1" + [unit] == ['1', unit];
  }

  /** The default strings 1d, 1w, 1m and 1y mean one day, one week, 30 days and 365 days. */
  lemma DefaultPeriods(e: Endpoint)
    ensures ParsePeriod(DefaultPeriodText(e)) == DefaultSpan(e)
  {
    match e
    case Raw => OneUnit('d', Day);
    case Hourly => OneUnit('w', Week);
    case Daily => OneUnit('m', 30 * Day);
    case Monthly => OneUnit('y', 365 * Day);
  }

  /**
    `start_time = datetime.now() - parse_period(period_str)`. The subtraction
    sits outside the `try`, so a start before year 1 or after year 9999 is an
    uncaught `OverflowError` (`None` here, a 500 from Flask).
  */
  function WindowStart(e: Endpoint, period: Option<string>, now: Instant): (start: Option<Instant>)
    ensures
      var text := if period.Some? then period.value else DefaultPeriodText(e);
      var p := ParsePeriod(text);
      && (start.Some? <==> 0 <= now - p <= MaxInstant)
      && (start.Some? ==> start.value == now - p)
  {
    var text := if period.Some? then period.value else DefaultPeriodText(e);
    var p := ParsePeriod(text);
    if 0 <= now - p <= MaxInstant then Some(now - p) else None
  }

  /** Without a `period` parameter the windows reach back one day, one week, 30 days and 365 days. */
  lemma DefaultWindows(e: Endpoint, now: Instant)
    requires now >= 365 * Day
    ensures WindowStart(e, None, now) == Some(now - DefaultSpan(e))
  {
    DefaultPeriods(e);
  }
}
