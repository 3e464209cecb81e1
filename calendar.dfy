/**
 * Calendar dates and local timestamps, and the two fixed formats the feed
 * code reads and writes: `[year]-[month]-[day]` (the date filter argument)
 * and `[year]-[month]-[day] [hour]:[minute]:[second]` (a link's `date`).
 * These follow the `time` crate's rules for those format items: zero-padded
 * fields of fixed width, an optional sign before the four-digit year, the
 * whole input consumed, and calendar validity checked.
 */
module Calendar {
  import opened Wrappers

  datatype Date = Date(year: int, month: int, day: int)

  /** Gregorian leap years (divisibility, so the sign convention of `%` does not matter). */
  predicate IsLeapYear(y: int) {
    y % 4 == 0 && (y % 100 != 0 || y % 400 == 0)
  }

  function DaysInMonth(y: int, m: int): (n: int)
    requires 1 <= m <= 12
    ensures 28 <= n <= 31
    ensures m == 2 ==> (n == 29 <==> IsLeapYear(y))
  {
    if m == 2 then (if IsLeapYear(y) then 29 else 28)
    else if m == 4 || m == 6 || m == 9 || m == 11 then 30
    else 31
  }

  /** A date the `time` crate represents (years -9999..=9999, the default range). */
  predicate ValidDate(d: Date) {
    -9999 <= d.year <= 9999 && 1 <= d.month <= 12 && 1 <= d.day <= DaysInMonth(d.year, d.month)
  }

  datatype DateTime = DateTime(date: Date, hour: int, minute: int, second: int)

  predicate ValidDateTime(t: DateTime) {
    ValidDate(t.date) && 0 <= t.hour < 24 && 0 <= t.minute < 60 && 0 <= t.second < 60
  }

  /** A local wall-clock reading, always a real date and time. */
  type Timestamp = t: DateTime | ValidDateTime(t) witness DateTime(Date(1970, 1, 1), 0, 0, 0)

  // ---- decimal digits ----

  predicate IsDigit(c: char) {
    '0' <= c <= '9'
  }

  predicate AllDigits(s: string) {
    forall i :: 0 <= i < |s| ==> IsDigit(s[i])
  }

  function DigitChar(n: nat): (c: char)
    requires n < 10
    ensures IsDigit(c) && c as int - '0' as int == n
  {
    ('0' as int + n) as char
  }

  function Pow10(n: nat): (p: nat)
    ensures p >= 1
  {
    if n == 0 then 1 else 10 * Pow10(n - 1)
  }

  /** The number a string of decimal digits spells, most significant first. */
  function Value(s: string): (n: nat)
    requires AllDigits(s)
    ensures n < Pow10(|s|)
  {
    if s == [] then 0 else Value(s[..|s| - 1]) * 10 + (s[|s| - 1] as int - '0' as int)
  }

  /** `n` in decimal, zero-padded (or cut) to exactly `width` digits. */
  function Padded(n: nat, width: nat): (s: string)
    ensures |s| == width && AllDigits(s)
  {
    if width == 0 then "" else Padded(n / 10, width - 1) + [DigitChar(n % 10)]
  }

  /** Reading back a padded number gives the number when it fits the width. */
  lemma {:induction false} ValueOfPadded(n: nat, width: nat)
    requires n < Pow10(width)
    ensures Value(Padded(n, width)) == n
  {
    if width > 0 {
      var s := Padded(n, width);
      ValueOfPadded(n / 10, width - 1);
      assert s[..|s| - 1] == Padded(n / 10, width - 1);
    }
  }

  lemma DivModTen(q: nat, d: nat)
    requires d < 10
    ensures (q * 10 + d) / 10 == q && (q * 10 + d) % 10 == d
  {
  }

  /** Padding the value of a digit string to its own length gives the string back. */
  lemma {:induction false} PaddedOfValue(s: string)
    requires AllDigits(s)
    ensures Padded(Value(s), |s|) == s
  {
    if s != [] {
      var init := s[..|s| - 1];
      var d := s[|s| - 1] as int - '0' as int;
      PaddedOfValue(init);
      DivModTen(Value(init), d);
      assert s == init + [s[|s| - 1]];
    }
  }

  // ---- formatting ----

  function Magnitude(y: int): nat {
    if y < 0 then -y else y
  }

  /** `[year]`'s sign: `-` before a negative year, nothing otherwise. */
  function SignText(y: int): string {
    if y < 0 then "-" else ""
  }

  /** `DDDD-DD-DD`: the date without its sign. */
  function DateBody(d: Date): (b: string)
    requires ValidDate(d)
  {
    Padded(Magnitude(d.year), 4) + "-" + Padded(d.month, 2) + "-" + Padded(d.day, 2)
  }

  /** `[year]-[month]-[day]`. */
  function DateText(d: Date): string
    requires ValidDate(d)
  {
    SignText(d.year) + DateBody(d)
  }

  /** ` [hour]:[minute]:[second]`. */
  function TimeText(t: Timestamp): string {
    " " + Padded(t.hour, 2) + ":" + Padded(t.minute, 2) + ":" + Padded(t.second, 2)
  }

  /** `[year]-[month]-[day] [hour]:[minute]:[second]`, the format of a link's `date`. */
  function TimestampText(t: Timestamp): string {
    DateText(t.date) + TimeText(t)
  }

  // ---- parsing ----

  /** The optional sign the `[year]` item accepts: whether it is `-`, and the rest. */
  function SignSplit(s: string): (bool, string) {
    if s != [] && (s[0] == '+' || s[0] == '-') then (s[0] == '-', s[1..]) else (false, s)
  }

  /** `DDDD-DD-DD` at the start of `b`. */
  predicate DateShaped(b: string) {
    |b| >= 10 && AllDigits(b[..4]) && b[4] == '-' && AllDigits(b[5..7]) && b[7] == '-' && AllDigits(b[8..10])
  }

  /** The date `b` starts with, the year negated when a `-` preceded it. */
  function DateFields(negative: bool, b: string): Date
    requires DateShaped(b)
  {
    var y: int := Value(b[..4]);
    Date(if negative then -y else y, Value(b[5..7]), Value(b[8..10]))
  }

  /** `Date::parse(t, "[year]-[month]-[day]")`: the whole of `t`, a real calendar date. */
  function ParseDateText(t: string): (r: Option<Date>)
    ensures r.Some? ==> ValidDate(r.value)
  {
    var (negative, b) := SignSplit(t);
    if |b| == 10 && DateShaped(b) && ValidDate(DateFields(negative, b)) then Some(DateFields(negative, b))
    else None
  }

  /** ` DD:DD:DD` after the date in `b`, and nothing more. */
  predicate TimeShaped(b: string) {
    |b| == 19 && b[10] == ' ' && AllDigits(b[11..13]) && b[13] == ':' && AllDigits(b[14..16])
    && b[16] == ':' && AllDigits(b[17..19])
  }

  /** `PrimitiveDateTime::parse(t, "[year]-[month]-[day] [hour]:[minute]:[second]")`. */
  function ParseTimestamp(t: string): (r: Option<DateTime>)
    ensures r.Some? ==> ValidDateTime(r.value)
  {
    var (negative, b) := SignSplit(t);
    ReadTimestamp(negative, b)
  }

  /** The timestamp an unsigned `b` spells, if it is laid out right and names a real moment. */
  function ReadTimestamp(negative: bool, b: string): (r: Option<DateTime>)
    ensures r.Some? ==> ValidDateTime(r.value)
  {
    if DateShaped(b) && TimeShaped(b) then
      var dt := DateTime(DateFields(negative, b), Value(b[11..13]), Value(b[14..16]), Value(b[17..19]));
      if ValidDateTime(dt) then Some(dt) else None
    else None
  }

  /** The spellings `[year]-[month]-[day]` accepts for `d`: its text, `+` before a non-negative year, `-` before year zero. */
  predicate SpellsDate(t: string, d: Date)
    requires ValidDate(d)
  {
    t == DateText(d) || (d.year >= 0 && t == "+" + DateText(d)) || (d.year == 0 && t == "-" + DateText(d))
  }

  /** The body of a valid date is date-shaped and reads back as the date, whatever follows it. */
  lemma DateFieldsOfBody(d: Date, rest: string)
    requires ValidDate(d)
    ensures DateShaped(DateBody(d) + rest)
    ensures DateFields(d.year < 0, DateBody(d) + rest) == d
  {
    var b := DateBody(d) + rest;
    ValueOfPadded(Magnitude(d.year), 4);
    ValueOfPadded(d.month, 2);
    ValueOfPadded(d.day, 2);
    assert b[..4] == Padded(Magnitude(d.year), 4);
    assert b[5..7] == Padded(d.month, 2);
    assert b[8..10] == Padded(d.day, 2);
  }

  /** A date-shaped string starts with the body of the date it reads as. */
  lemma BodyOfDateFields(negative: bool, b: string)
    requires DateShaped(b) && ValidDate(DateFields(negative, b))
    ensures DateBody(DateFields(negative, b)) == b[..10]
  {
    PaddedOfValue(b[..4]);
    PaddedOfValue(b[5..7]);
    PaddedOfValue(b[8..10]);
    assert b[..10] == b[..4] + "-" + b[5..7] + "-" + b[8..10];
  }

  lemma ParseDateTextSound(t: string, d: Date)
    requires ParseDateText(t) == Some(d)
    ensures ValidDate(d) && SpellsDate(t, d)
  {
    var (negative, b) := SignSplit(t);
    BodyOfDateFields(negative, b);
    assert b[..10] == b;
    if negative {
      assert t == "-" + b;
    } else if t != [] && t[0] == '+' {
      assert t == "+" + b;
    }
  }

  lemma ParseDateTextComplete(t: string, d: Date)
    requires ValidDate(d) && SpellsDate(t, d)
    ensures ParseDateText(t) == Some(d)
  {
    DateFieldsOfBody(d, "");
    assert DateBody(d) + "" == DateBody(d);
    var (negative, b) := SignSplit(t);
    assert b == DateBody(d);
  }

  /**
   * The date format accepts exactly the spellings of valid dates: `t` parses
   * to `d` if and only if `d` is a real date and `t` spells it.
   */
  lemma ParseDateTextIff(t: string, d: Date)
    ensures ParseDateText(t) == Some(d) <==> ValidDate(d) && SpellsDate(t, d)
  {
    if ParseDateText(t) == Some(d) {
      ParseDateTextSound(t, d);
    }
    if ValidDate(d) && SpellsDate(t, d) {
      ParseDateTextComplete(t, d);
    }
  }

  /** The unsigned text of a timestamp has the timestamp layout and reads back as it. */
  lemma ReadTimestampOfBody(t: Timestamp)
    ensures ReadTimestamp(t.date.year < 0, DateBody(t.date) + TimeText(t)) == Some(t)
    ensures IsDigit((DateBody(t.date) + TimeText(t))[0])
  {
    var b := DateBody(t.date) + TimeText(t);
    DateFieldsOfBody(t.date, TimeText(t));
    ValueOfPadded(t.hour, 2);
    ValueOfPadded(t.minute, 2);
    ValueOfPadded(t.second, 2);
    assert b[0] == Padded(Magnitude(t.date.year), 4)[0];
    assert b[11..13] == Padded(t.hour, 2) && b[14..16] == Padded(t.minute, 2) && b[17..19] == Padded(t.second, 2);
  }

  /** A sign written by the formatter is the sign the parser splits off. */
  lemma SignSplitOfSignText(y: int, b: string)
    requires b != [] && IsDigit(b[0])
    ensures SignSplit(SignText(y) + b) == (y < 0, b)
  {
    var text := SignText(y) + b;
    if y < 0 {
      assert text[0] == '-' && text[1..] == b;
    } else {
      assert text == b;
    }
  }

  /** Round trip: a formatted timestamp parses back to the same date and time. */
  lemma ParseTimestampOfText(t: Timestamp)
    ensures ParseTimestamp(TimestampText(t)) == Some(t)
  {
    var b := DateBody(t.date) + TimeText(t);
    ReadTimestampOfBody(t);
    SignSplitOfSignText(t.date.year, b);
    TimestampTextSplit(t);
  }

  /** The spellings the timestamp format accepts for `t`: its text, `+` before a non-negative year, `-` before year zero. */
  predicate SpellsTimestamp(s: string, t: DateTime)
    requires ValidDateTime(t)
  {
    s == TimestampText(t) || (t.date.year >= 0 && s == "+" + TimestampText(t))
    || (t.date.year == 0 && s == "-" + TimestampText(t))
  }

  /** A layout the timestamp reader accepts is the unsigned text of what it reads. */
  lemma BodyOfReadTimestamp(negative: bool, b: string, t: DateTime)
    requires ReadTimestamp(negative, b) == Some(t)
    ensures ValidDateTime(t) && b == DateBody(t.date) + TimeText(t)
  {
    BodyOfDateFields(negative, b);
    PaddedOfValue(b[11..13]);
    PaddedOfValue(b[14..16]);
    PaddedOfValue(b[17..19]);
    assert b == b[..10] + [b[10]] + b[11..13] + [b[13]] + b[14..16] + [b[16]] + b[17..19];
  }

  /** The formatter writes the sign, then the unsigned text. */
  lemma TimestampTextSplit(t: Timestamp)
    ensures TimestampText(t) == SignText(t.date.year) + (DateBody(t.date) + TimeText(t))
  {
  }

  /** A reading without a `-` has a non-negative year; one with a `-` has a year of at most zero. */
  lemma SignOfReadTimestamp(negative: bool, b: string, t: DateTime)
    requires ReadTimestamp(negative, b) == Some(t)
    ensures negative ==> t.date.year <= 0
    ensures !negative ==> t.date.year >= 0
  {
  }

  /** Whatever the timestamp parser accepts spells the timestamp it yields: nothing else gets through. */
  lemma ParseTimestampSound(s: string, t: DateTime)
    requires ParseTimestamp(s) == Some(t)
    ensures ValidDateTime(t) && SpellsTimestamp(s, t)
  {
    var split := SignSplit(s);
    var negative, b := split.0, split.1;
    assert ReadTimestamp(negative, b) == Some(t);
    BodyOfReadTimestamp(negative, b, t);
    SignOfReadTimestamp(negative, b, t);
    TimestampTextSplit(t);
    if s != [] && (s[0] == '+' || s[0] == '-') {
      assert s == [s[0]] + b;
    } else {
      assert s == b;
    }
  }

  /** Every spelling of a timestamp parses back to it. */
  lemma ParseTimestampComplete(s: string, t: DateTime)
    requires ValidDateTime(t) && SpellsTimestamp(s, t)
    ensures ParseTimestamp(s) == Some(t)
  {
    var b := DateBody(t.date) + TimeText(t);
    ReadTimestampOfBody(t);
    if s == TimestampText(t) {
      ParseTimestampOfText(t);
    } else {
      assert TimestampText(t) == b;
      assert SignSplit(s) == (s[0] == '-', b);
      if s[0] == '-' {
        assert DateFields(true, b) == DateFields(false, b);
      }
    }
  }

  /** The timestamp format accepts exactly the spellings of real timestamps, in both directions. */
  lemma ParseTimestampIff(s: string, t: DateTime)
    ensures ParseTimestamp(s) == Some(t) <==> ValidDateTime(t) && SpellsTimestamp(s, t)
  {
    if ParseTimestamp(s) == Some(t) {
      ParseTimestampSound(s, t);
    }
    if ValidDateTime(t) && SpellsTimestamp(s, t) {
      ParseTimestampComplete(s, t);
    }
  }
}
