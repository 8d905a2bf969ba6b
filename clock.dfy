/** The "HH:MM" to "h:mm AM/PM" formatter that BookingModal, BookingSuccess
    and TimeSlotGrid each define with the same text: split on ':', parseInt
    both fields, set them on a `new Date()` and format with 'h:mm a'.
    Also the decimal rendering and zero padding used to build "HH:MM". */
module Clock {
  import opened Calendar

  // ---------------------------------------------------------------------
  // Decimal digits

  predicate IsDigit(c: char) {
    '0' <= c <= '9'
  }

  predicate AllDigits(s: string) {
    forall i :: 0 <= i < |s| ==> IsDigit(s[i])
  }

  function DigitChar(d: nat): (c: char)
    requires d < 10
    ensures IsDigit(c) && c as int - '0' as int == d
  {
    ('0' as int + d) as char
  }

  /** The number a string of decimal digits denotes, most significant digit first. */
  function DigitsValue(s: string): nat
    requires AllDigits(s)
  {
    if s == [] then 0 else DigitsValue(s[..|s| - 1]) * 10 + (s[|s| - 1] as int - '0' as int)
  }

  /** `n.toString()` for a non-negative integer. */
  function DecimalString(n: nat): (s: string)
    ensures 1 <= |s| && AllDigits(s)
    ensures s[0] == '0' <==> n == 0
    ensures |s| == 1 <==> n < 10
    decreases n
  {
    if n < 10 then [DigitChar(n)] else DecimalString(n / 10) + [DigitChar(n % 10)]
  }

  /** `n.toString().padStart(2, '0')`. */
  function PadStart2(n: nat): string {
    var s := DecimalString(n);
    if |s| < 2 then "0" + s else s
  }

  /** Reading back a decimal rendering gives the number rendered. */
  lemma {:induction false} DecimalStringValue(n: nat)
    ensures DigitsValue(DecimalString(n)) == n
  {
    if n >= 10 {
      var s := DecimalString(n);
      assert s[..|s| - 1] == DecimalString(n / 10);
      DecimalStringValue(n / 10);
    }
  }

  /** Below 100 the padded rendering is exactly two digits that denote `n`. */
  lemma PadStart2TwoDigits(n: nat)
    requires n < 100
    ensures |PadStart2(n)| == 2 && AllDigits(PadStart2(n))
    ensures DigitsValue(PadStart2(n)) == n
  {
    var p := PadStart2(n);
    if n < 10 {
      assert p == ['0', DigitChar(n)];
      assert p[..1] == ['0'] && p[..1][..0] == [];
      assert DigitsValue(p[..1]) == 0;
    } else {
      DecimalStringValue(n);
      assert DecimalString(n / 10) == [DigitChar(n / 10)];
    }
  }

  // ---------------------------------------------------------------------
  // `split(':')` and `parseInt(·, 10)`

  /** Index of the first `c` in `s`, or `|s|` when there is none. */
  function IndexOf(s: string, c: char): (i: nat)
    ensures i <= |s|
    ensures i < |s| ==> s[i] == c
    ensures forall j :: 0 <= j < i ==> s[j] != c
  {
    if s == [] then 0 else if s[0] == c then 0 else 1 + IndexOf(s[1..], c)
  }

  /** The first two fields of `s.split(':')`; the second is absent when `s` holds no ':'. */
  function SplitTime(s: string): (r: (string, Option<string>))
    ensures r.1.None? <==> ':' !in s
    ensures r.0 <= s && ':' !in r.0
    ensures r.1.None? ==> r.0 == s
    ensures r.1.Some? ==>
      var k := |r.0| + 1 + |r.1.value|;
      k <= |s| && s[..k] == r.0 + ":" + r.1.value && ':' !in r.1.value && (k == |s| || s[k] == ':')
  {
    var i := IndexOf(s, ':');
    if i == |s| then (s, None)
    else
      var rest := s[i + 1..];
      (s[..i], Some(rest[..IndexOf(rest, ':')]))
  }

  /** The longest prefix of `s` made of decimal digits. */
  function LeadingDigits(s: string): (p: string)
    ensures AllDigits(p) && p <= s
    ensures |p| < |s| ==> !IsDigit(s[|p|])
  {
    if s != [] && IsDigit(s[0]) then [s[0]] + LeadingDigits(s[1..]) else []
  }

  /** `parseInt(s, 10)`: an optional sign, then the leading decimal digits;
      `None` stands for NaN (no digit where one is expected). */
  function ParseInt(s: string): (r: Option<int>)
    ensures r.Some? <==> (|s| > 0 && IsDigit(s[0])) || (|s| > 1 && (s[0] == '+' || s[0] == '-') && IsDigit(s[1]))
    ensures r.Some? && r.value < 0 ==> s[0] == '-'
  {
    var signed := s != [] && (s[0] == '+' || s[0] == '-');
    var digits := LeadingDigits(if signed then s[1..] else s);
    if digits == [] then None
    else if signed && s[0] == '-' then Some(-(DigitsValue(digits) as int))
    else Some(DigitsValue(digits))
  }

  lemma {:induction false} LeadingDigitsOfDigits(s: string, rest: string)
    requires AllDigits(s)
    requires rest == [] || !IsDigit(rest[0])
    ensures LeadingDigits(s + rest) == s
  {
    if s != [] {
      assert (s + rest)[1..] == s[1..] + rest;
      LeadingDigitsOfDigits(s[1..], rest);
    } else {
      assert s + rest == rest;
    }
  }

  /** parseInt reads back what toString wrote, even with text after the number. */
  lemma ParseIntDecimal(n: nat, rest: string)
    requires rest == [] || !IsDigit(rest[0])
    ensures ParseInt(DecimalString(n) + rest) == Some(n)
  {
    var d := DecimalString(n);
    assert (d + rest)[0] == d[0];
    LeadingDigitsOfDigits(d, rest);
    DecimalStringValue(n);
  }

  /** parseInt of text starting with '-': the negated value of the digits after it. */
  lemma ParseIntMinus(s: string)
    requires s != [] && s[0] == '-' && LeadingDigits(s[1..]) != []
    ensures ParseInt(s) == Some(-(DigitsValue(LeadingDigits(s[1..])) as int))
  {
  }

  lemma MinusThen(s: string, d: string, rest: string)
    requires s == "-" + d + rest
    ensures s != [] && s[0] == '-' && s[1..] == d + rest
  {
  }

  /** parseInt of '-' followed by digits and a non-digit tail: the negated digits. */
  lemma ParseIntMinusDigits(s: string, d: string, rest: string)
    requires d != [] && AllDigits(d) && s == "-" + d + rest
    requires rest == [] || !IsDigit(rest[0])
    ensures ParseInt(s) == Some(-(DigitsValue(d) as int))
  {
    MinusThen(s, d, rest);
    LeadingDigitsOfDigits(d, rest);
    ParseIntMinus(s);
  }

  /** The same with a minus sign in front. */
  lemma ParseIntNegativeDecimal(n: nat, rest: string)
    requires rest == [] || !IsDigit(rest[0])
    ensures ParseInt("-" + DecimalString(n) + rest) == Some(-(n as int))
  {
    DecimalStringValue(n);
    ParseIntMinusDigits("-" + DecimalString(n) + rest, DecimalString(n), rest);
  }

  /** Both fields of "HH:MM" as parseInt reads them, or `None` when either is NaN. */
  function ParseTime(s: string): Option<(int, int)> {
    var (hours, minutes) := SplitTime(s);
    match (ParseInt(hours), if minutes.Some? then ParseInt(minutes.value) else None)
    case (Some(h), Some(m)) => Some((h, m))
    case _ => None
  }

  /** A zero-padded "HH:MM" string parses back to its hour and minute. */
  lemma ParseTimePadded(h: nat, m: nat)
    requires h < 100 && m < 100
    ensures ParseTime(PadStart2(h) + ":" + PadStart2(m)) == Some((h, m))
  {
    var hh, mm := PadStart2(h), PadStart2(m);
    PadStart2TwoDigits(h);
    PadStart2TwoDigits(m);
    var s := hh + ":" + mm;
    assert IndexOf(s, ':') == 2 by {
      assert s[2] == ':' && !(s[0] == ':') && !(s[1] == ':');
    }
    assert s[..2] == hh && s[3..] == mm;
    assert IndexOf(mm, ':') == 2 by {
      assert IsDigit(mm[0]) && IsDigit(mm[1]);
    }
    assert mm[..2] == mm;
    assert hh + [] == hh && mm + [] == mm;
    LeadingDigitsOfDigits(hh, []);
    LeadingDigitsOfDigits(mm, []);
  }

  // ---------------------------------------------------------------------
  // The local wall clock of a `Date`

  const MinutesPerDay: int := 24 * 60

  /** The local time of day of a `Date`, in minutes after midnight. */
  type MinuteOfDay = t: int | 0 <= t < 24 * 60

  /** Adding whole days does not change the time of day. */
  lemma ShiftDay(x: int, q: int)
    ensures (x + MinutesPerDay * q) % MinutesPerDay == x % MinutesPerDay
  {
    var r := x % MinutesPerDay;
    assert x + MinutesPerDay * q == r + MinutesPerDay * (x / MinutesPerDay + q);
  }

  /** Hour `h` and minute `r` land at hour `h` modulo 24 and minute `r`. */
  lemma HourArith(h: int, r: int)
    requires 0 <= r < 60
    ensures (h * 60 + r) % MinutesPerDay / 60 == h % 24 && (h * 60 + r) % MinutesPerDay % 60 == r
  {
    var a := h % 24;
    assert h * 60 + r == (60 * a + r) + MinutesPerDay * (h / 24);
    ShiftDay(60 * a + r, h / 24);
  }

  /** Within an hour `b` of the day, minute `m` keeps its value modulo 60,
      and an in-range minute keeps the hour. */
  lemma MinuteArith(b: int, m: int)
    requires 0 <= b < 24
    ensures (b * 60 + m) % MinutesPerDay % 60 == m % 60
    ensures 0 <= m < 60 ==> (b * 60 + m) % MinutesPerDay / 60 == b && (b * 60 + m) % MinutesPerDay % 60 == m
  {
    var x := b * 60 + m;
    var k := x / MinutesPerDay;
    assert x == x % MinutesPerDay + MinutesPerDay * k;
    assert x % MinutesPerDay == b * 60 + m - 1440 * k;
    assert (b * 60 + m - 1440 * k) % 60 == m % 60 by {
      assert b * 60 + m - 1440 * k == m + 60 * (b - 24 * k);
    }
  }

  /** The time of day `h * 60 + m` minutes after a midnight. */
  function DayMinute(h: int, m: int): MinuteOfDay {
    (h * 60 + m) % MinutesPerDay
  }

  /** `date.setHours(h)`: the hour becomes `h`, rolling over into other days
      when `h` lies outside 0..23; the minutes are kept. */
  function SetHours(t: MinuteOfDay, h: int): (u: MinuteOfDay)
    ensures u / 60 == h % 24 && u % 60 == t % 60
  {
    HourArith(h, t % 60);
    (h * 60 + t % 60) % MinutesPerDay
  }

  /** `date.setMinutes(m)`: the minutes become `m`, rolling over into other hours. */
  function SetMinutes(t: MinuteOfDay, m: int): (u: MinuteOfDay)
    ensures u % 60 == m % 60
    ensures 0 <= m < 60 ==> u / 60 == t / 60 && u % 60 == m
  {
    MinuteArith(t / 60, m);
    (t / 60 * 60 + m) % MinutesPerDay
  }

  /** date-fns `format(date, 'h:mm a')`. */
  function FormatHmmA(t: MinuteOfDay): (s: string)
    ensures s == ClockLabel(t / 60, t % 60)
  {
    var h, m := t / 60, t % 60;
    TwelveText();
    assert DecimalString(if h % 12 == 0 then 12 else h % 12) == HourText(h);
    DecimalString(if h % 12 == 0 then 12 else h % 12) + ":" + PadStart2(m) + " " + (if h < 12 then "AM" else "PM")
  }

  /** formatTime / formatTimeDisplay: `now` is the time of `new Date()`;
      `None` is the RangeError that format throws on the Invalid Date a NaN
      from parseInt leaves behind. The text depends only on `h * 60 + m`
      modulo a day, never on `now`. */
  function FormatTime(now: MinuteOfDay, timeString: string): (r: Option<string>)
    ensures r.Some? <==> ParseTime(timeString).Some?
    ensures r.Some? ==> r.value == FormatHmmA(DayMinute(ParseTime(timeString).value.0, ParseTime(timeString).value.1))
  {
    var p := ParseTime(timeString);
    if p.None? then None
    else
      SetHoursThenMinutes(now, p.value.0, p.value.1);
      Some(FormatHmmA(SetMinutes(SetHours(now, p.value.0), p.value.1)))
  }

  /** Setting the hour and then the minute gives `h:m` modulo a day,
      whatever time of day the `Date` held before. */
  lemma SetHoursThenMinutes(t: MinuteOfDay, h: int, m: int)
    ensures SetMinutes(SetHours(t, h), m) == DayMinute(h, m)
  {
    var a := h % 24;
    assert SetHours(t, h) / 60 == a;
    assert h * 60 + m == (a * 60 + m) + MinutesPerDay * (h / 24);
    ShiftDay(a * 60 + m, h / 24);
  }

  /** The clock reading of `new Date()` never shows in the formatted text. */
  lemma FormatTimeIgnoresNow(now1: MinuteOfDay, now2: MinuteOfDay, timeString: string)
    ensures FormatTime(now1, timeString) == FormatTime(now2, timeString)
  {
  }

  // ---------------------------------------------------------------------
  // The 12-hour reading, stated case by case

  /** The hour of the 12-hour reading: "12" at midnight and noon, the hour
      itself in the morning, the hour less twelve in the afternoon. */
  function HourText(h: int): string
    requires 0 <= h < 24
  {
    if h == 0 || h == 12 then "12" else if h < 12 then DecimalString(h) else DecimalString(h - 12)
  }

  /** "AM" before noon, "PM" from noon on. */
  function Meridiem(h: int): string {
    if h < 12 then "AM" else "PM"
  }

  /** The intended 12-hour rendering of hour `h` and minute `m`. */
  function ClockLabel(h: int, m: int): string
    requires 0 <= h < 24 && 0 <= m < 60
  {
    HourText(h) + ":" + PadStart2(m) + " " + Meridiem(h)
  }

  lemma TwelveText()
    ensures DecimalString(12) == "12"
  {
    assert DecimalString(1) == "1" && DecimalString(2) == "2";
  }

  /** The hour text is one or two digits, without a leading zero, denoting 1..12. */
  lemma HourTextShape(h: int)
    requires 0 <= h < 24
    ensures var ht := HourText(h);
      1 <= |ht| <= 2 && AllDigits(ht) && ht[0] != '0' && DigitsValue(ht) == (h + 11) % 12 + 1
  {
    if h == 0 || h == 12 {
      TwelveText();
      DecimalStringValue(12);
      assert (h + 11) % 12 + 1 == 12;
    } else if h < 12 {
      DecimalStringValue(h);
      assert (h + 11) % 12 + 1 == h;
    } else {
      DecimalStringValue(h - 12);
      assert (h + 11) % 12 + 1 == h - 12;
    }
  }

  /** The modular 'h:mm a' rendering agrees with the case-by-case reading. */
  lemma FormatHmmAIsClockLabel(t: MinuteOfDay, h: nat, m: nat)
    requires h < 24 && m < 60 && t == h * 60 + m
    ensures FormatHmmA(t) == ClockLabel(h, m)
  {
    assert t / 60 == h && t % 60 == m;
    TwelveText();
    assert DecimalString(if h % 12 == 0 then 12 else h % 12) == HourText(h);
  }

  /** Within range, setting the hour and then the minute gives exactly h:m. */
  lemma SettersInRange(now: MinuteOfDay, h: nat, m: nat)
    requires h < 24 && m < 60
    ensures SetMinutes(SetHours(now, h), m) == h * 60 + m
  {
    SetHoursThenMinutes(now, h, m);
  }

  /** Whatever string parses to a valid hour and minute is formatted as the
      case-by-case 12-hour reading of them. */
  lemma FormatTimeOfParsed(now: MinuteOfDay, timeString: string, h: nat, m: nat)
    requires h < 24 && m < 60 && ParseTime(timeString) == Some((h, m))
    ensures FormatTime(now, timeString) == Some(ClockLabel(h, m))
  {
    SettersInRange(now, h, m);
    FormatHmmAIsClockLabel(SetMinutes(SetHours(now, h), m), h, m);
  }

  /** Every valid "HH:MM" is formatted as the case-by-case 12-hour reading. */
  lemma FormatTimeOfValid(now: MinuteOfDay, h: nat, m: nat)
    requires h < 24 && m < 60
    ensures FormatTime(now, PadStart2(h) + ":" + PadStart2(m)) == Some(ClockLabel(h, m))
  {
    ParseTimePadded(h, m);
    FormatTimeOfParsed(now, PadStart2(h) + ":" + PadStart2(m), h, m);
  }

  /** Where the parts of "<hour>:<mm> <meridiem>" sit in the joined text. */
  lemma LabelParts(ht: string, mm: string, mer: string)
    requires |mm| == 2
    ensures var s, k := ht + ":" + mm + " " + mer, |ht|;
      |s| == k + 4 + |mer| && s[..k] == ht && s[k] == ':'
      && s[k + 1..k + 3] == mm && s[k + 3] == ' ' && s[k + 4..] == mer
  {
    var s, k := ht + ":" + mm + " " + mer, |ht|;
    assert s[..k] == ht;
    assert s[k + 1..k + 3] == mm by {
      forall i | 0 <= i < 2
        ensures s[k + 1..k + 3][i] == mm[i]
      {
      }
    }
    assert s[k + 4..] == mer by {
      forall i | 0 <= i < |mer|
        ensures s[k + 4..][i] == mer[i]
      {
      }
    }
  }

  /** The shape of the 12-hour reading: an hour without a leading zero that
      denotes 1..12, a colon, two minute digits denoting `m`, and " AM"
      exactly when `h` is before noon, otherwise " PM". */
  lemma ClockLabelShape(h: int, m: int)
    requires 0 <= h < 24 && 0 <= m < 60
    ensures var s := ClockLabel(h, m);
      var k := |s| - 6;
      (k == 1 || k == 2) && s[k] == ':'
      && AllDigits(s[..k]) && s[0] != '0' && DigitsValue(s[..k]) == (h + 11) % 12 + 1
      && AllDigits(s[k + 1..k + 3]) && DigitsValue(s[k + 1..k + 3]) == m
      && s[k + 3] == ' '
      && (s[k + 4..] == "AM" <==> h < 12)
      && (s[k + 4..] == "PM" <==> h >= 12)
  {
    HourTextShape(h);
    PadStart2TwoDigits(m);
    LabelParts(HourText(h), PadStart2(m), Meridiem(h));
  }
}
