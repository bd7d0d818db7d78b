/**
 * The textual date and time formats the list pipeline reads and writes,
 * standing in for the Go time package: the "2006-01-02" layout used for
 * command-line dates, and the RFC 3339 timestamps of the calendar API.
 */
module TimeText {
  import opened Results

  /** A civil date as the Go layout parser returns it. */
  datatype Date = Date(year: nat, month: nat, day: nat)

  /** The offset written at the end of an RFC 3339 timestamp. */
  datatype Zone = Utc | Offset(sign: char, hours: nat, minutes: nat)

  /**
   * A parsed RFC 3339 timestamp. `fraction` keeps the fractional-second
   * text (separator included, "" when absent), which the wall clock ignores.
   */
  datatype Timestamp = Timestamp(
    date: Date, hour: nat, minute: nat, second: nat, fraction: string, zone: Zone)

  /** What follows the `T` of a timestamp, once parsed. */
  datatype Clock = Clock(hour: nat, minute: nat, second: nat, fraction: string, zone: Zone)

  // ----- digits -----

  predicate IsDigit(c: char) { '0' <= c <= '9' }

  function Val(c: char): (n: nat)
    requires IsDigit(c)
    ensures n < 10
  {
    c as int - '0' as int
  }

  function Digit(n: nat): (c: char)
    requires n < 10
    ensures IsDigit(c) && Val(c) == n
  {
    ('0' as int + n) as char
  }

  /** The value of the two decimal digits at `s[i]`, `s[i+1]`. */
  function Num2(s: string, i: nat): nat
    requires i + 2 <= |s| && IsDigit(s[i]) && IsDigit(s[i + 1])
  {
    10 * Val(s[i]) + Val(s[i + 1])
  }

  /** The value of the four decimal digits starting at `s[i]`. */
  function Num4(s: string, i: nat): nat
    requires i + 4 <= |s| && IsDigit(s[i]) && IsDigit(s[i + 1]) && IsDigit(s[i + 2]) && IsDigit(s[i + 3])
  {
    100 * Num2(s, i) + Num2(s, i + 2)
  }

  /** `n` written with exactly two digits, zero-padded. */
  function Pad2(n: nat): string
    requires n < 100
  {
    [Digit(n / 10), Digit(n % 10)]
  }

  /** `n` written with exactly four digits, zero-padded. */
  function Pad4(n: nat): string
    requires n < 10000
  {
    Pad2(n / 100) + Pad2(n % 100)
  }

  lemma Num2Pad2(n: nat)
    requires n < 100
    ensures |Pad2(n)| == 2 && IsDigit(Pad2(n)[0]) && IsDigit(Pad2(n)[1]) && Num2(Pad2(n), 0) == n
  {
  }

  lemma Pad2Num2(s: string, i: nat)
    requires i + 2 <= |s| && IsDigit(s[i]) && IsDigit(s[i + 1])
    ensures Num2(s, i) < 100 && Pad2(Num2(s, i)) == s[i..i + 2]
  {
    var a, b := Val(s[i]), Val(s[i + 1]);
    assert (10 * a + b) / 10 == a && (10 * a + b) % 10 == b;
    assert Digit(a) == s[i] && Digit(b) == s[i + 1];
  }

  lemma Pad4Num4(s: string, i: nat)
    requires i + 4 <= |s| && IsDigit(s[i]) && IsDigit(s[i + 1]) && IsDigit(s[i + 2]) && IsDigit(s[i + 3])
    ensures Num4(s, i) < 10000 && Pad4(Num4(s, i)) == s[i..i + 4]
  {
    Pad2Num2(s, i);
    Pad2Num2(s, i + 2);
    var hi, lo := Num2(s, i), Num2(s, i + 2);
    assert (100 * hi + lo) / 100 == hi && (100 * hi + lo) % 100 == lo;
    assert s[i..i + 4] == s[i..i + 2] + s[i + 2..i + 4];
  }

  // ----- calendar arithmetic -----

  /** Gregorian leap years, as Go's time package counts them. */
  predicate IsLeap(year: nat) {
    year % 4 == 0 && (year % 100 != 0 || year % 400 == 0)
  }

  function DaysIn(month: nat, year: nat): (n: nat)
    requires 1 <= month <= 12
    ensures 28 <= n <= 31
  {
    if month == 2 then (if IsLeap(year) then 29 else 28)
    else if month == 4 || month == 6 || month == 9 || month == 11 then 30
    else 31
  }

  /** A date the four-digit layout can write and the parser accepts. */
  predicate ValidDate(d: Date) {
    d.year < 10000 && 1 <= d.month <= 12 && 1 <= d.day <= DaysIn(d.month, d.year)
  }

  // ----- the "2006-01-02" layout -----

  /** `YYYY-MM-DD`, zero-padded. */
  function FormatDate(d: Date): (s: string)
    requires ValidDate(d)
    ensures |s| == 10
  {
    Pad4(d.year) + "-" + Pad2(d.month) + "-" + Pad2(d.day)
  }

  /** Four digits, a dash, two digits, a dash, two digits at the front of `s`. */
  predicate DateShape(s: string) {
    |s| >= 10
    && IsDigit(s[0]) && IsDigit(s[1]) && IsDigit(s[2]) && IsDigit(s[3]) && s[4] == '-'
    && IsDigit(s[5]) && IsDigit(s[6]) && s[7] == '-' && IsDigit(s[8]) && IsDigit(s[9])
  }

  function DateFields(s: string): Date
    requires DateShape(s)
  {
    Date(Num4(s, 0), Num2(s, 5), Num2(s, 8))
  }

  lemma DateFieldsText(s: string)
    requires DateShape(s) && ValidDate(DateFields(s))
    ensures FormatDate(DateFields(s)) == s[..10]
  {
    Pad4Num4(s, 0);
    Pad2Num2(s, 5);
    Pad2Num2(s, 8);
    assert s[..10] == s[0..4] + [s[4]] + s[5..7] + [s[7]] + s[8..10];
  }

  lemma FormatDateShape(d: Date)
    requires ValidDate(d)
    ensures DateShape(FormatDate(d)) && DateFields(FormatDate(d)) == d
  {
    var s := FormatDate(d);
    Num2Pad2(d.year / 100);
    Num2Pad2(d.year % 100);
    Num2Pad2(d.month);
    Num2Pad2(d.day);
    assert s[0..2] == Pad2(d.year / 100) && s[2..4] == Pad2(d.year % 100);
    assert s[5..7] == Pad2(d.month) && s[8..10] == Pad2(d.day);
    assert Num2(s, 0) == d.year / 100 && Num2(s, 2) == d.year % 100;
    assert Num2(s, 5) == d.month && Num2(s, 8) == d.day;
  }

  /**
   * time.ParseInLocation("2006-01-02", s, loc): exactly ten characters,
   * four-digit year, two-digit month 1..12, two-digit day within the month.
   * A date it accepts is written back as the very same text.
   */
  function ParseDate(s: string): (r: Option<Date>)
    ensures r.Some? ==> ValidDate(r.value) && FormatDate(r.value) == s
  {
    if |s| == 10 && DateShape(s) && ValidDate(DateFields(s)) then
      DateFieldsText(s);
      assert s[..10] == s;
      Some(DateFields(s))
    else
      None
  }

  /** Every valid date's `YYYY-MM-DD` text parses back to that date. */
  lemma ParseFormatDate(d: Date)
    requires ValidDate(d)
    ensures ParseDate(FormatDate(d)) == Some(d)
  {
    FormatDateShape(d);
  }

  /** The layout accepts exactly the texts of valid dates. */
  lemma ParseDateExactly(s: string)
    ensures ParseDate(s).Some? <==> exists d :: ValidDate(d) && FormatDate(d) == s
  {
    if ParseDate(s).Some? {
      assert ValidDate(ParseDate(s).value) && FormatDate(ParseDate(s).value) == s;
    }
    if d :| ValidDate(d) && FormatDate(d) == s {
      ParseFormatDate(d);
    }
  }

  // ----- RFC 3339 -----

  /** Go's layout parser reads the hour of "15" with one or two digits. */
  function HourLength(t: string): nat
    requires |t| >= 1
  {
    if |t| >= 2 && IsDigit(t[1]) then 2 else 1
  }

  /** Number of leading digits of `t`. */
  function DigitRun(t: string): (n: nat)
    ensures n <= |t|
    ensures forall i :: 0 <= i < n ==> IsDigit(t[i])
    ensures n < |t| ==> !IsDigit(t[n])
  {
    if |t| > 0 && IsDigit(t[0]) then 1 + DigitRun(t[1..]) else 0
  }

  predicate IsFractionSeparator(c: char) { c == '.' || c == ',' }

  /**
   * Length of a fractional second at the front of `v`: a '.' or ',' followed
   * by at least one digit, all digits taken; 0 when there is none.
   */
  function FractionLength(v: string): (n: nat)
    ensures n <= |v|
    ensures ValidFraction(v[..n])
  {
    if |v| >= 2 && IsFractionSeparator(v[0]) && IsDigit(v[1]) then 1 + DigitRun(v[1..]) else 0
  }

  /** The "Z07:00" element with nothing after it: `Z`, or a sign, hh, ':', mm. */
  function ParseZone(z: string): (r: Option<Zone>)
    ensures r.Some? ==> ValidZone(r.value) && ZoneText(r.value) == z
  {
    if z == "Z" then Some(Utc)
    else if |z| == 6 && (z[0] == '+' || z[0] == '-') && IsDigit(z[1]) && IsDigit(z[2])
      && z[3] == ':' && IsDigit(z[4]) && IsDigit(z[5]) && Num2(z, 1) <= 24 && Num2(z, 4) <= 60
    then
      Pad2Num2(z, 1);
      Pad2Num2(z, 4);
      assert z == [z[0]] + z[1..3] + [z[3]] + z[4..6];
      Some(Offset(z[0], Num2(z, 1), Num2(z, 4)))
    else None
  }

  /** Go accepts offsets up to 24 hours and 60 minutes. */
  predicate ValidZone(z: Zone) {
    z.Utc? || ((z.sign == '+' || z.sign == '-') && z.hours <= 24 && z.minutes <= 60)
  }

  function ZoneText(z: Zone): string
    requires ValidZone(z)
  {
    match z
    case Utc => "Z"
    case Offset(sign, h, m) => [sign] + Pad2(h) + ":" + Pad2(m)
  }

  predicate ValidFraction(f: string) {
    f == [] || (|f| >= 2 && IsFractionSeparator(f[0]) && forall i :: 1 <= i < |f| ==> IsDigit(f[i]))
  }

  predicate ValidTimestamp(ts: Timestamp) {
    ValidDate(ts.date) && ts.hour < 24 && ts.minute < 60 && ts.second < 60
    && ValidFraction(ts.fraction) && ValidZone(ts.zone)
  }

  /** The hour at the front of the text after `T`, in one or two digits. */
  function LeadingHour(t: string): nat
    requires |t| >= 1 && IsDigit(t[0])
  {
    if HourLength(t) == 2 then Num2(t, 0) else Val(t[0])
  }

  /** An hour written with two digits (`wide`), or with one when it is below 10. */
  function HourText(hour: nat, wide: bool): string
    requires hour < 100 && (!wide ==> hour < 10)
  {
    if wide then Pad2(hour) else [Digit(hour)]
  }

  lemma LeadingHourText(t: string)
    requires |t| >= 1 && IsDigit(t[0])
    ensures LeadingHour(t) < 100 && (HourLength(t) == 1 ==> LeadingHour(t) < 10)
    ensures HourText(LeadingHour(t), HourLength(t) == 2) == t[..HourLength(t)]
  {
    if HourLength(t) == 2 {
      Pad2Num2(t, 0);
    } else {
      assert Digit(Val(t[0])) == t[0];
    }
  }

  /** What follows the hour: ':', minute, ':', second, fraction, zone. */
  function AfterHourText(minute: nat, second: nat, fraction: string, zone: Zone): string
    requires minute < 100 && second < 100 && ValidZone(zone)
  {
    ":" + Pad2(minute) + ":" + Pad2(second) + fraction + ZoneText(zone)
  }

  lemma AfterHourParts(u: string, f: nat, z: Zone)
    requires |u| >= 6 && u[0] == ':' && IsDigit(u[1]) && IsDigit(u[2])
    requires u[3] == ':' && IsDigit(u[4]) && IsDigit(u[5])
    requires f <= |u| - 6 && ValidZone(z) && ZoneText(z) == u[6 + f..]
    ensures Num2(u, 1) < 100 && Num2(u, 4) < 100
    ensures u == AfterHourText(Num2(u, 1), Num2(u, 4), u[6..6 + f], z)
  {
    Pad2Num2(u, 1);
    Pad2Num2(u, 4);
    assert u == [u[0]] + u[1..3] + [u[3]] + u[4..6] + u[6..6 + f] + u[6 + f..];
  }

  /**
   * `t` is the text of `c`: the hour in as many digits as `t` starts with,
   * then minute, second, fraction and offset.
   */
  predicate IsClockText(t: string, c: Clock) {
    |t| >= 1 && c.hour < 100 && c.minute < 100 && c.second < 100
    && (HourLength(t) == 1 ==> c.hour < 10)
    && ValidFraction(c.fraction) && ValidZone(c.zone)
    && t == HourText(c.hour, HourLength(t) == 2) + AfterHourText(c.minute, c.second, c.fraction, c.zone)
  }

  lemma ClockParts(t: string, u: string, f: nat, z: Zone)
    requires |t| >= 1 && IsDigit(t[0]) && u == t[HourLength(t)..]
    requires |u| >= 6 && u[0] == ':' && IsDigit(u[1]) && IsDigit(u[2])
    requires u[3] == ':' && IsDigit(u[4]) && IsDigit(u[5])
    requires f <= |u| - 6 && ValidFraction(u[6..][..f]) && ValidZone(z) && ZoneText(z) == u[6..][f..]
    ensures IsClockText(t, Clock(LeadingHour(t), Num2(u, 1), Num2(u, 4), u[6..][..f], z))
  {
    LeadingHourText(t);
    assert u[6..][..f] == u[6..6 + f] && u[6..][f..] == u[6 + f..];
    AfterHourParts(u, f, z);
    assert t == t[..HourLength(t)] + u;
  }

  /**
   * The part after `T`: hour, ':', minute, ':', second, fraction, zone. What
   * it accepts is exactly the text of its result, written with as many hour
   * digits as the input had.
   */
  function ParseClock(t: string): Option<Clock>
  {
    if |t| == 0 || !IsDigit(t[0]) then None
    else
      var n := HourLength(t);
      var u := t[n..];
      if |u| < 6 || u[0] != ':' || !IsDigit(u[1]) || !IsDigit(u[2])
        || u[3] != ':' || !IsDigit(u[4]) || !IsDigit(u[5])
      then None
      else
        var v := u[6..];
        var f := FractionLength(v);
        match ParseZone(v[f..])
        case None => None
        case Some(z) => Some(Clock(LeadingHour(t), Num2(u, 1), Num2(u, 4), v[..f], z))
  }

  /** What the clock parser accepts is exactly the text of its result. */
  lemma ParseClockIsText(t: string)
    requires ParseClock(t).Some?
    ensures IsClockText(t, ParseClock(t).value)
  {
    var u := t[HourLength(t)..];
    var f := FractionLength(u[6..]);
    ClockParts(t, u, f, ParseZone(u[6..][f..]).value);
  }

  /**
   * time.Parse(time.RFC3339, s) as Go's layout parser accepts it: the date
   * layout, 'T', a one- or two-digit hour below 24, two-digit minute and
   * second below 60, an optional fractional second, then `Z` or an offset,
   * and nothing more. The offset is kept, not converted to local time. An
   * accepted text is the text of the timestamp it parses to.
   */
  function ParseRfc3339(s: string): (r: Option<Timestamp>)
    ensures r.Some? ==> ValidTimestamp(r.value)
    ensures r.Some? ==>
      (s == TimestampText(r.value, true) || (r.value.hour < 10 && s == TimestampText(r.value, false)))
  {
    if |s| < 11 || !DateShape(s) || s[10] != 'T' then None
    else
      match ParseClock(s[11..])
      case None => None
      case Some(c) =>
        var ts := Timestamp(DateFields(s), c.hour, c.minute, c.second, c.fraction, c.zone);
        if ValidTimestamp(ts) then
          ParseClockIsText(s[11..]);
          TimestampOfParts(s, ts, HourLength(s[11..]) == 2);
          Some(ts)
        else None
  }

  lemma TimestampOfParts(s: string, ts: Timestamp, wide: bool)
    requires |s| >= 11 && DateShape(s) && s[10] == 'T' && ts.date == DateFields(s)
    requires ValidTimestamp(ts) && (!wide ==> ts.hour < 10)
    requires s[11..] == HourText(ts.hour, wide) + AfterHourText(ts.minute, ts.second, ts.fraction, ts.zone)
    ensures s == TimestampText(ts, wide)
  {
    DateFieldsText(s);
    assert s == s[..10] + "T" + s[11..];
    SeqAssoc(s[..10] + "T", HourText(ts.hour, wide), AfterHourText(ts.minute, ts.second, ts.fraction, ts.zone));
  }

  lemma SeqAssoc(x: string, y: string, z: string)
    ensures x + (y + z) == x + y + z
  {
  }

  /** A timestamp's text with a two-digit hour (`wide`) or a one-digit one. */
  function TimestampText(ts: Timestamp, wide: bool): string
    requires ValidTimestamp(ts) && (!wide ==> ts.hour < 10)
  {
    FormatDate(ts.date) + "T" + HourText(ts.hour, wide) + AfterHourText(ts.minute, ts.second, ts.fraction, ts.zone)
  }

  /** Format(time.RFC3339): the canonical text of a timestamp, with the two-digit hour. */
  function Rfc3339Text(ts: Timestamp): string
    requires ValidTimestamp(ts)
  {
    TimestampText(ts, true)
  }

  /** Format("15:04"): the wall-clock hour and minute in the timestamp's own offset. */
  function WallClock(ts: Timestamp): (r: string)
    requires ValidTimestamp(ts)
    ensures |r| == 5 && r[2] == ':' && IsDigit(r[0]) && IsDigit(r[1]) && IsDigit(r[3]) && IsDigit(r[4])
    ensures Num2(r, 0) == ts.hour && Num2(r, 3) == ts.minute
  {
    Num2Pad2(ts.hour);
    Num2Pad2(ts.minute);
    Pad2(ts.hour) + ":" + Pad2(ts.minute)
  }

  lemma {:induction false} DigitRunOf(d: string, rest: string)
    requires forall i :: 0 <= i < |d| ==> IsDigit(d[i])
    requires rest == [] || !IsDigit(rest[0])
    ensures DigitRun(d + rest) == |d|
    decreases |d|
  {
    if |d| > 0 {
      assert (d + rest)[1..] == d[1..] + rest;
      DigitRunOf(d[1..], rest);
    } else {
      assert d + rest == rest;
    }
  }

  lemma FractionLengthOf(f: string, rest: string)
    requires ValidFraction(f)
    requires |rest| > 0 && !IsDigit(rest[0]) && !IsFractionSeparator(rest[0])
    ensures FractionLength(f + rest) == |f|
  {
    if f != [] {
      assert (f + rest)[1..] == f[1..] + rest;
      DigitRunOf(f[1..], rest);
    } else {
      assert f + rest == rest;
    }
  }

  lemma ParseZoneText(z: Zone)
    requires ValidZone(z)
    ensures ParseZone(ZoneText(z)) == Some(z)
  {
    if z.Offset? {
      Num2Pad2(z.hours);
      Num2Pad2(z.minutes);
      var t := ZoneText(z);
      assert t[1..3] == Pad2(z.hours) && t[4..6] == Pad2(z.minutes);
      assert Num2(t, 1) == z.hours && Num2(t, 4) == z.minutes;
    }
  }

  lemma ParseClockText(ts: Timestamp, wide: bool)
    requires ValidTimestamp(ts) && (!wide ==> ts.hour < 10)
    ensures ParseClock(HourText(ts.hour, wide) + AfterHourText(ts.minute, ts.second, ts.fraction, ts.zone))
      == Some(Clock(ts.hour, ts.minute, ts.second, ts.fraction, ts.zone))
  {
    var h := HourText(ts.hour, wide);
    var u := AfterHourText(ts.minute, ts.second, ts.fraction, ts.zone);
    var t := h + u;
    Num2Pad2(ts.hour);
    assert t[..|h|] == h && t[|h|..] == u;
    assert HourLength(t) == |h| && LeadingHour(t) == ts.hour;
    ParseAfterHour(ts);
  }

  lemma ParseAfterHour(ts: Timestamp)
    requires ValidTimestamp(ts)
    ensures var u := AfterHourText(ts.minute, ts.second, ts.fraction, ts.zone);
      |u| >= 6 && u[0] == ':' && IsDigit(u[1]) && IsDigit(u[2]) && u[3] == ':' && IsDigit(u[4]) && IsDigit(u[5])
      && Num2(u, 1) == ts.minute && Num2(u, 4) == ts.second
      && FractionLength(u[6..]) == |ts.fraction|
      && u[6..][..|ts.fraction|] == ts.fraction && ParseZone(u[6..][|ts.fraction|..]) == Some(ts.zone)
  {
    var u := AfterHourText(ts.minute, ts.second, ts.fraction, ts.zone);
    var q := ":" + Pad2(ts.minute) + ":" + Pad2(ts.second);
    var v := ts.fraction + ZoneText(ts.zone);
    SeqAssoc(q, ts.fraction, ZoneText(ts.zone));
    assert u == q + v && |q| == 6;
    assert u[..6] == q && u[6..] == v;
    Num2Pad2(ts.minute);
    Num2Pad2(ts.second);
    assert q[1..3] == Pad2(ts.minute) && q[4..6] == Pad2(ts.second);
    ParseFractionZone(ts.fraction, ts.zone, v);
  }

  lemma ParseFractionZone(fraction: string, zone: Zone, v: string)
    requires ValidFraction(fraction) && ValidZone(zone) && v == fraction + ZoneText(zone)
    ensures FractionLength(v) == |fraction|
    ensures v[..|fraction|] == fraction && ParseZone(v[|fraction|..]) == Some(zone)
  {
    FractionLengthOf(fraction, ZoneText(zone));
    assert v[..|fraction|] == fraction && v[|fraction|..] == ZoneText(zone);
    ParseZoneText(zone);
  }

  /** Every valid timestamp's text, with either hour width, parses back to it. */
  lemma ParseTimestampText(ts: Timestamp, wide: bool)
    requires ValidTimestamp(ts) && (!wide ==> ts.hour < 10)
    ensures ParseRfc3339(TimestampText(ts, wide)) == Some(ts)
  {
    var s := TimestampText(ts, wide);
    var p := FormatDate(ts.date) + "T";
    var h, a := HourText(ts.hour, wide), AfterHourText(ts.minute, ts.second, ts.fraction, ts.zone);
    SeqAssoc(p, h, a);
    FormatDateShape(ts.date);
    assert s[..10] == FormatDate(ts.date) && s[10] == 'T' && s[11..] == h + a;
    assert DateShape(s) && DateFields(s) == DateFields(FormatDate(ts.date));
    ParseClockText(ts, wide);
  }

  /** Every valid timestamp's canonical text parses back to that timestamp. */
  lemma ParseRfc3339Text(ts: Timestamp)
    requires ValidTimestamp(ts)
    ensures ParseRfc3339(Rfc3339Text(ts)) == Some(ts)
  {
    ParseTimestampText(ts, true);
  }

  /** Where the hour and minute sit in a timestamp's text, for either hour width. */
  lemma TimestampTextHourMinute(ts: Timestamp, wide: bool)
    requires ValidTimestamp(ts) && (!wide ==> ts.hour < 10)
    ensures var s := TimestampText(ts, wide);
      |s| >= 16 && (IsDigit(s[12]) <==> wide)
      && (wide ==> s[11..16] == Pad2(ts.hour) + ":" + Pad2(ts.minute))
      && (!wide ==> s[11..15] == [Digit(ts.hour)] + ":" + Pad2(ts.minute))
  {
    var h := HourText(ts.hour, wide);
    var a := AfterHourText(ts.minute, ts.second, ts.fraction, ts.zone);
    var p := FormatDate(ts.date) + "T";
    var s := TimestampText(ts, wide);
    assert s == p + h + a && |p| == 11;
    assert a[..3] == ":" + Pad2(ts.minute);
    assert s[11..11 + |h|] == h;
    assert s[11 + |h|..14 + |h|] == a[..3];
    assert s[11..14 + |h|] == h + a[..3];
  }

  /** A parsed timestamp's hour and minute, as its text writes them. */
  lemma WrittenClock(s: string, ts: Timestamp)
    requires ValidTimestamp(ts)
    requires s == TimestampText(ts, true) || (ts.hour < 10 && s == TimestampText(ts, false))
    ensures |s| >= 16
    ensures IsDigit(s[12]) ==> s[11..16] == Pad2(ts.hour) + ":" + Pad2(ts.minute)
    ensures !IsDigit(s[12]) ==> "0" + s[11..15] == Pad2(ts.hour) + ":" + Pad2(ts.minute)
  {
    if s == TimestampText(ts, true) {
      TimestampTextHourMinute(ts, true);
    } else {
      TimestampTextHourMinute(ts, false);
      assert Pad2(ts.hour) == "0" + [Digit(ts.hour)];
    }
  }

  /** The parser accepts exactly the texts of valid timestamps, with either hour width. */
  lemma ParseRfc3339Exactly(s: string)
    ensures ParseRfc3339(s).Some? <==>
      exists ts: Timestamp, wide: bool :: ValidTimestamp(ts) && (!wide ==> ts.hour < 10) && TimestampText(ts, wide) == s
  {
    if ParseRfc3339(s).Some? {
      var ts := ParseRfc3339(s).value;
      if s == TimestampText(ts, true) {
        assert ValidTimestamp(ts) && TimestampText(ts, true) == s;
      } else {
        assert ValidTimestamp(ts) && ts.hour < 10 && TimestampText(ts, false) == s;
      }
    }
    if ts: Timestamp, wide: bool :| ValidTimestamp(ts) && (!wide ==> ts.hour < 10) && TimestampText(ts, wide) == s {
      ParseTimestampText(ts, wide);
    }
  }
}
