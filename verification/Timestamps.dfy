/** Time stamps: date-time of section 5.6 of RFC 3339, in UTC. */
module Timestamps {
  import opened InfluxTypes
  import opened Decimal
  import opened Calendar
  import LP = LineProtocol

  // ---------------------------------------------------------------- printing

  function DateText(d: Date): string
    requires 0 <= d.year && 0 <= d.month && 0 <= d.day
  {
    Fixed(d.year, 4) + ("-" + (Fixed(d.month, 2) + ("-" + Fixed(d.day, 2))))
  }

  function ClockText(second: nat): string {
    Fixed(second / 3600, 2) + (":" + (Fixed(second / 60 % 60, 2) + (":" + Fixed(second % 60, 2))))
  }

  /** The calendar date and the clock time, down to the second. */
  function SecondText(seconds: nat): (s: string)
    ensures |s| == 19
  {
    CivilRoundTrip(seconds / 86400);
    DateText(CivilFromDays(seconds / 86400)) + ("T" + ClockText(seconds % 86400))
  }

  function Rfc3339(nanos: nat): string {
    SecondText(nanos / 1_000_000_000) + ("." + (Fixed(nanos % 1_000_000_000, 9) + "Z"))
  }

  method FormatRfc3339FromNanoseconds(epochNanoseconds: int) returns (s: string)
    ensures s == Rfc3339(Max(0, epochNanoseconds))
  {
    var n := epochNanoseconds;
    if n < 0 { n := 0; }
    var seconds, remainder := n / 1_000_000_000, n % 1_000_000_000;
    if remainder < 0 { remainder := remainder + 1_000_000_000; }
    s := SecondText(seconds) + ("." + (Fixed(remainder, 9) + "Z"));
  }

  // ---------------------------------------------------------------- reading

  datatype Tm = Tm(date: Date, hour: int, minute: int, second: int)

  /** A field of two digits; None where std::get_time fails. */
  function ReadTwo(s: string, from: nat, low: int, high: int): Option<int> {
    if from + 2 <= |s| && IsDigit(s[from]) && IsDigit(s[from + 1]) &&
       low <= 10 * DigitValue(s[from]) + DigitValue(s[from + 1]) <= high
    then Some(10 * DigitValue(s[from]) + DigitValue(s[from + 1])) else None
  }

  predicate HasAt(s: string, i: nat, c: char) { i < |s| && s[i] == c }

  /** std::get_time with "%Y-%m-%dT%H:%M:%S". */
  function GetTime(s: string): (r: Option<Tm>)
    ensures r.Some? ==> 1 <= r.value.date.month <= 12
  {
    var century, year := ReadTwo(s, 0, 0, 99), ReadTwo(s, 2, 0, 99);
    var month := ReadTwo(s, 5, 1, 12);
    var day := ReadTwo(s, 8, 1, 31);
    var hour := ReadTwo(s, 11, 0, 23);
    var minute := ReadTwo(s, 14, 0, 59);
    var second := ReadTwo(s, 17, 0, 60);
    if century.Some? && year.Some? && HasAt(s, 4, '-') && month.Some? && HasAt(s, 7, '-') && day.Some? &&
       HasAt(s, 10, 'T') &&
       hour.Some? && HasAt(s, 13, ':') && minute.Some? && HasAt(s, 16, ':') && second.Some?
    then
      var date := Date(100 * century.value + year.value, month.value, day.value);
      Some(Tm(date, hour.value, minute.value, second.value))
    else None
  }

  function Timegm(tm: Tm): int
    requires 1 <= tm.date.month <= 12
  {
    DaysFromCivil(tm.date) * 86400 + tm.hour * 3600 + tm.minute * 60 + tm.second
  }

  /** std::string::find; |s| stands for npos. */
  function FindChar(s: string, c: char): (i: nat)
    ensures i <= |s|
  {
    if s == "" || s[0] == c then 0 else 1 + FindChar(s[1..], c)
  }

  function LeadingDigits(s: string): (d: string)
    ensures AllDigits(d)
  {
    if s != "" && IsDigit(s[0]) then [s[0]] + LeadingDigits(s[1..]) else ""
  }

  /** std::stoll; None where it throws because there is no number. */
  function Stoll(s: string): Option<int> {
    var t := LP.TrimLeft(s, true);
    var signed := t != "" && (t[0] == '-' || t[0] == '+');
    var digits := LeadingDigits(if signed then t[1..] else t);
    if digits == "" then None
    else Some(if signed && t[0] == '-' then -(NatValue(digits) as int) else NatValue(digits))
  }

  function Zeros(n: nat): (z: string)
    ensures |z| == n && AllDigits(z)
  {
    if n == 0 then "" else "0" + Zeros(n - 1)
  }

  /** The fraction cut or padded to nine characters. */
  function NineChars(fraction: string): (s: string)
    ensures |s| == 9
  {
    if |fraction| > 9 then fraction[..9] else fraction + Zeros(9 - |fraction|)
  }

  /** What stands between the first '.' and the first 'Z', if anything does. */
  function Fraction(s: string): string {
    var dot, z := FindChar(s, '.'), FindChar(s, 'Z');
    if dot < |s| && z < |s| && z > dot + 1 then s[dot + 1..z] else ""
  }

  /** Nanoseconds of a time stamp; None where the conversion of the fraction throws. */
  function Parse(s: string): Option<int> {
    var tm := GetTime(s[..Min(19, |s|)]);
    if tm.None? then Some(0)
    else
      var fraction := Fraction(s);
      var nanos := if fraction == "" then Some(0) else Stoll(NineChars(fraction));
      if nanos.None? then None
      else if Timegm(tm.value) < 0 then Some(0)
      else Some(Timegm(tm.value) * 1_000_000_000 + nanos.value)
  }

  method CutOrPad(text: string) returns (fraction: string)
    ensures fraction == NineChars(text)
  {
    fraction := text;
    if |fraction| > 9 { fraction := fraction[..9]; }
    while |fraction| < 9
      invariant |fraction| <= 9
      invariant fraction + Zeros(9 - |fraction|) == NineChars(text)
    {
      assert (fraction + "0") + Zeros(8 - |fraction|) == fraction + ("0" + Zeros(8 - |fraction|));
      fraction := fraction + "0";
    }
    assert fraction + Zeros(0) == fraction;
  }

  method ParseTimestampToNanoseconds(timestamp: string) returns (r: Option<int>)
    ensures r == Parse(timestamp)
  {
    hide GetTime, Stoll, FindChar, Timegm, NineChars;
    var tm := GetTime(timestamp[..Min(19, |timestamp|)]);
    if tm.None? { return Some(0); }
    var fractional := 0;
    var dotPos, zPos := FindChar(timestamp, '.'), FindChar(timestamp, 'Z');
    if dotPos != |timestamp| && zPos != |timestamp| && zPos > dotPos + 1 {
      var fraction := CutOrPad(timestamp[dotPos + 1..zPos]);
      var number := Stoll(fraction);
      if number.None? { return None; }
      fractional := number.value;
    }
    var seconds := Timegm(tm.value);
    if seconds < 0 { return Some(0); }
    r := Some(seconds * 1_000_000_000 + fractional);
  }

  // ---------------------------------------------------------------- round trip

  lemma FixedTwo(n: nat)
    requires n < 100
    ensures var f := Fixed(n, 2); IsDigit(f[0]) && IsDigit(f[1]) && 10 * DigitValue(f[0]) + DigitValue(f[1]) == n
  {
    assert Fixed(n, 2) == Fixed(n / 10, 1) + [DigitChar(n % 10)];
    assert Fixed(n / 10, 1) == Fixed(n / 100, 0) + [DigitChar(n / 10 % 10)];
  }

  lemma FixedStep(n: nat, w: nat, q: nat, r: nat)
    requires n == 10 * q + r && r < 10
    ensures Fixed(n, w + 1) == Fixed(q, w) + [DigitChar(r)]
  {
  }

  lemma FixedFour(a: nat, b: nat)
    requires a < 100 && b < 100
    ensures Fixed(100 * a + b, 4) == Fixed(a, 2) + Fixed(b, 2)
  {
    hide Fixed;
    var t, u := b / 10, b % 10;
    FixedStep(100 * a + b, 3, 10 * a + t, u);
    FixedStep(10 * a + t, 2, a, t);
    FixedStep(b, 1, t, u);
    FixedStep(t, 0, 0, t);
    assert |Fixed(t, 0)| == 0 == |Fixed(0, 0)|;
  }

  lemma ClockParts(second: nat)
    requires second < 86400
    ensures second / 3600 < 24 && second / 60 % 60 < 60 && second % 60 < 60
    ensures second / 3600 * 3600 + second / 60 % 60 * 60 + second % 60 == second
  {
    var minutes := second / 60;
    assert second == 60 * minutes + second % 60;
    assert minutes == 60 * (minutes / 60) + minutes % 60;
    assert second / 3600 == minutes / 60;
  }

  lemma ReadDate(d: Date, rest: string)
    requires 0 <= d.year <= 9999 && 1 <= d.month <= 12 && 1 <= d.day <= 31
    ensures var s := DateText(d) + rest;
      && ReadTwo(s, 0, 0, 99) == Some(d.year / 100) && ReadTwo(s, 2, 0, 99) == Some(d.year % 100)
      && HasAt(s, 4, '-') && ReadTwo(s, 5, 1, 12) == Some(d.month)
      && HasAt(s, 7, '-') && ReadTwo(s, 8, 1, 31) == Some(d.day)
  {
    hide Fixed;
    FixedFour(d.year / 100, d.year % 100);
    FixedTwo(d.year / 100);
    FixedTwo(d.year % 100);
    FixedTwo(d.month);
    FixedTwo(d.day);
  }

  lemma ReadClock(before: string, clock: nat)
    requires |before| == 11 && clock < 86400
    ensures var s := before + ClockText(clock);
      && ReadTwo(s, 11, 0, 23) == Some(clock / 3600) && HasAt(s, 13, ':')
      && ReadTwo(s, 14, 0, 59) == Some(clock / 60 % 60) && HasAt(s, 16, ':')
      && ReadTwo(s, 17, 0, 60) == Some(clock % 60)
  {
    ClockParts(clock);
    FixedTwo(clock / 3600);
    FixedTwo(clock / 60 % 60);
    FixedTwo(clock % 60);
  }

  lemma DateTextLength(d: Date)
    requires 0 <= d.year && 0 <= d.month && 0 <= d.day
    ensures |DateText(d)| == 10
  {
  }

  lemma GetTimeOfText(d: Date, clock: nat)
    requires 0 <= d.year <= 9999 && 1 <= d.month <= 12 && 1 <= d.day <= 31 && clock < 86400
    ensures GetTime(DateText(d) + ("T" + ClockText(clock))) ==
            Some(Tm(d, clock / 3600, clock / 60 % 60, clock % 60))
  {
    hide ReadTwo, DateText, ClockText;
    assert |DateText(d)| == 10 by { DateTextLength(d); }
    ReadDate(d, "T" + ClockText(clock));
    ReadClock(DateText(d) + "T", clock);
    assert (DateText(d) + "T") + ClockText(clock) == DateText(d) + ("T" + ClockText(clock));
  }

  /** A text of 19 characters that stands for a second and holds no character delimiting a fraction. */
  ghost predicate Head(head: string, seconds: nat) {
    && |head| == 19
    && GetTime(head).Some?
    && 1 <= GetTime(head).value.date.month <= 12
    && Timegm(GetTime(head).value) == seconds
    && forall i :: 0 <= i < 19 ==> head[i] != '.' && head[i] != 'Z'
  }

  lemma TextPlain(d: Date, clock: nat)
    requires 0 <= d.year && 0 <= d.month && 0 <= d.day
    ensures var s := DateText(d) + ("T" + ClockText(clock));
      |s| == 19 && forall i :: 0 <= i < 19 ==> s[i] != '.' && s[i] != 'Z'
  {
    hide Fixed;
    var a, b := DateText(d), ClockText(clock);
    FixedDigits(d.year, 4);
    FixedDigits(d.month, 2);
    FixedDigits(d.day, 2);
    FixedDigits(clock / 3600, 2);
    FixedDigits(clock / 60 % 60, 2);
    FixedDigits(clock % 60, 2);
    assert forall i :: 0 <= i < |a| ==> IsDigit(a[i]) || a[i] == '-';
    assert forall i :: 0 <= i < |b| ==> IsDigit(b[i]) || b[i] == ':';
  }

  /** Reading a printed date and clock time gives the seconds back. */
  lemma SecondTextRoundTrip(seconds: nat)
    requires CivilFromDays(seconds / 86400).year <= 9999
    ensures Head(SecondText(seconds), seconds)
  {
    var days, clock := seconds / 86400, seconds % 86400;
    CivilRoundTrip(days);
    var d := CivilFromDays(days);
    GetTimeOfText(d, clock);
    TextPlain(d, clock);
    ClockParts(clock);
  }

  lemma {:induction false} FindAt(s: string, c: char, i: nat)
    requires i < |s| && s[i] == c && forall j :: 0 <= j < i ==> s[j] != c
    ensures FindChar(s, c) == i
  {
    if i > 0 {
      assert s[0] != c;
      FindAt(s[1..], c, i - 1);
    }
  }

  lemma FractionOf(head: string, fraction: string)
    requires forall i :: 0 <= i < |head| ==> head[i] != '.' && head[i] != 'Z'
    requires AllDigits(fraction)
    ensures Fraction(head + ("." + (fraction + "Z"))) == fraction
  {
    var s := head + ("." + (fraction + "Z"));
    var n := |head|;
    FindAt(s, '.', n);
    assert forall j :: n < j < n + 1 + |fraction| ==> s[j] == fraction[j - n - 1];
    FindAt(s, 'Z', n + 1 + |fraction|);
    assert s[n + 1..n + 1 + |fraction|] == fraction;
  }

  lemma {:induction false} LeadingDigitsAll(s: string)
    requires AllDigits(s)
    ensures LeadingDigits(s) == s
  {
    if s != "" {
      LeadingDigitsAll(s[1..]);
      assert [s[0]] + s[1..] == s;
    }
  }

  lemma StollDigits(s: string)
    requires AllDigits(s) && s != ""
    ensures Stoll(s) == Some(NatValue(s))
  {
    assert IsDigit(s[0]);
    LeadingDigitsAll(s);
  }

  lemma ParseParts(s: string, tm: Tm, nanos: int)
    requires |s| >= 19 && GetTime(s[..19]) == Some(tm) && 1 <= tm.date.month <= 12 && 0 <= Timegm(tm)
    requires if Fraction(s) == "" then nanos == 0 else Stoll(NineChars(Fraction(s))) == Some(nanos)
    ensures Parse(s) == Some(Timegm(tm) * 1_000_000_000 + nanos)
  {
    hide GetTime, Timegm, Stoll, Fraction, NineChars;
  }

  lemma NineDigits(fraction: string)
    requires AllDigits(fraction)
    ensures AllDigits(NineChars(fraction)) && Stoll(NineChars(fraction)) == Some(NatValue(NineChars(fraction)))
    ensures fraction == "" ==> NatValue(NineChars(fraction)) == 0
  {
    StollDigits(NineChars(fraction));
    if fraction == "" {
      ZerosAreZero(9);
      assert NineChars(fraction) == Zeros(9);
    }
  }

  /** A time stamp with any number of fraction digits: nine of them count. */
  lemma ParseWithFraction(head: string, seconds: nat, fraction: string)
    requires Head(head, seconds) && AllDigits(fraction)
    ensures AllDigits(NineChars(fraction))
    ensures Parse(head + ("." + (fraction + "Z"))) == Some(seconds * 1_000_000_000 + NatValue(NineChars(fraction)))
  {
    hide Parse, GetTime, Timegm, Stoll, Fraction, FindChar, NatValue, NineChars;
    var s := head + ("." + (fraction + "Z"));
    assert s[..19] == head;
    FractionOf(head, fraction);
    NineDigits(fraction);
    ParseParts(s, GetTime(head).value, NatValue(NineChars(fraction)));
  }

  lemma {:induction false} FindNone(s: string, c: char)
    requires c !in s
    ensures FindChar(s, c) == |s|
  {
    if s != "" {
      assert s[0] in s;
      FindNone(s[1..], c);
    }
  }

  /** Without a '.', or without a 'Z', the time is a whole second, whatever follows the clock time. */
  lemma ParseWithoutFraction(head: string, seconds: nat, rest: string)
    requires Head(head, seconds) && ('.' !in rest || 'Z' !in rest)
    ensures Parse(head + rest) == Some(seconds * 1_000_000_000)
  {
    hide Parse, GetTime, Timegm, Stoll, FindChar, NatValue, NineChars;
    var s := head + rest;
    assert s[..19] == head;
    if '.' !in rest { FindNone(s, '.'); } else { FindNone(s, 'Z'); }
    ParseParts(s, GetTime(head).value, 0);
  }

  /** The form of a whole second, which means the same as with any number of zeros in the fraction. */
  lemma WholeSecond(head: string, seconds: nat, zeros: nat)
    requires Head(head, seconds)
    ensures Parse(head + "Z") == Some(seconds * 1_000_000_000) == Parse(head + ("." + (Zeros(zeros) + "Z")))
  {
    hide Parse, Head;
    ParseWithoutFraction(head, seconds, "Z");
    DropTrailingZeros(head, seconds, "", zeros);
    assert "" + Zeros(zeros) == Zeros(zeros);
    ParseWithFraction(head, seconds, "");
    NineDigits("");
  }

  /** A field of digits whose value is in its range. */
  ghost predicate Field(s: string, from: nat, width: nat, low: nat, high: nat) {
    from + width <= |s| && AllDigits(s[from..from + width]) && low <= NatValue(s[from..from + width]) <= high
  }

  /** A date and a clock time, with any day up to 31 and seconds up to 60. */
  ghost predicate IsDateTime(s: string) {
    && Field(s, 0, 4, 0, 9999) && HasAt(s, 4, '-') && Field(s, 5, 2, 1, 12) && HasAt(s, 7, '-') && Field(s, 8, 2, 1, 31)
    && HasAt(s, 10, 'T')
    && Field(s, 11, 2, 0, 23) && HasAt(s, 13, ':') && Field(s, 14, 2, 0, 59) && HasAt(s, 16, ':')
    && Field(s, 17, 2, 0, 60)
  }

  lemma ReadTwoIsField(s: string, from: nat, low: nat, high: nat)
    ensures ReadTwo(s, from, low, high).Some? <==> Field(s, from, 2, low, high)
    ensures Field(s, from, 2, low, high) ==> ReadTwo(s, from, low, high) == Some(NatValue(s[from..from + 2]))
  {
    if from + 2 <= |s| {
      var f := s[from..from + 2];
      assert f[0] == s[from] && f[1] == s[from + 1];
      if IsDigit(f[0]) && IsDigit(f[1]) {
        assert f[..1] == [f[0]] && f[..1][..0] == "";
        assert NatValue(f[..1]) == DigitValue(f[0]);
        assert NatValue(f) == 10 * DigitValue(f[0]) + DigitValue(f[1]);
      }
    }
  }

  lemma YearIsField(s: string)
    ensures ReadTwo(s, 0, 0, 99).Some? && ReadTwo(s, 2, 0, 99).Some? <==> Field(s, 0, 4, 0, 9999)
    ensures Field(s, 0, 4, 0, 9999) ==>
              100 * ReadTwo(s, 0, 0, 99).value + ReadTwo(s, 2, 0, 99).value == NatValue(s[0..4])
  {
    hide ReadTwo, NatValue;
    ReadTwoIsField(s, 0, 0, 99);
    ReadTwoIsField(s, 2, 0, 99);
    if |s| >= 4 {
      var a, b := s[0..2], s[2..4];
      assert s[0..4] == a + b;
      if AllDigits(a + b) {
        assert forall i :: 0 <= i < 2 ==> (a + b)[i] == a[i] && (a + b)[i + 2] == b[i];
      }
      if AllDigits(a) && AllDigits(b) {
        NatValueConcat(a, b);
        TwoDigits(a);
        TwoDigits(b);
        assert Pow10(2) == 100;
      }
    }
  }

  lemma TwoDigits(f: string)
    requires |f| == 2 && AllDigits(f)
    ensures NatValue(f) <= 99
  {
    assert f[..1][..0] == "" && NatValue(f[..1]) == DigitValue(f[0]);
  }

  /** The second that a date and a clock time stand for, counted from the epoch. */
  ghost function SecondOf(s: string): int
    requires IsDateTime(s)
  {
    DaysFromCivil(Date(NatValue(s[0..4]), NatValue(s[5..7]), NatValue(s[8..10]))) * 86400 +
    NatValue(s[11..13]) * 3600 + NatValue(s[14..16]) * 60 + NatValue(s[17..19])
  }

  lemma GetTimeReads(s: string)
    ensures GetTime(s).Some? <==> IsDateTime(s)
    ensures IsDateTime(s) ==> Timegm(GetTime(s).value) == SecondOf(s)
  {
    hide ReadTwo, Field, NatValue, DaysFromCivil;
    YearIsField(s);
    ReadTwoIsField(s, 5, 1, 12);
    ReadTwoIsField(s, 8, 1, 31);
    ReadTwoIsField(s, 11, 0, 23);
    ReadTwoIsField(s, 14, 0, 59);
    ReadTwoIsField(s, 17, 0, 60);
  }

  lemma DateTimeIsPlain(head: string)
    requires |head| == 19 && IsDateTime(head)
    ensures forall i :: 0 <= i < 19 ==> head[i] != '.' && head[i] != 'Z'
  {
    assert forall i :: 0 <= i < 4 ==> head[i] == head[0..4][i];
    assert forall i :: 0 <= i < 2 ==> head[5 + i] == head[5..7][i] && head[8 + i] == head[8..10][i];
    assert forall i :: 0 <= i < 2 ==> head[11 + i] == head[11..13][i] && head[14 + i] == head[14..16][i];
    assert forall i :: 0 <= i < 2 ==> head[17 + i] == head[17..19][i];
  }

  /** Which texts are heads: the results on fractions hold for every date and clock time from the epoch on. */
  lemma HeadIff(head: string, seconds: nat)
    ensures Head(head, seconds) <==> |head| == 19 && IsDateTime(head) && SecondOf(head) == seconds
  {
    hide GetTime, Timegm, IsDateTime;
    GetTimeReads(head);
    if |head| == 19 && IsDateTime(head) { DateTimeIsPlain(head); }
  }

  /** What does not start with a date and a clock time is read as the epoch, and so is what lies before it. */
  lemma ParseIsEpoch(s: string)
    ensures var head := s[..Min(19, |s|)];
      && (!IsDateTime(head) ==> Parse(s) == Some(0))
      && (IsDateTime(head) && SecondOf(head) < 0 && Parse(s).Some? ==> Parse(s) == Some(0))
  {
    hide GetTime, Timegm, IsDateTime, Stoll, Fraction;
    GetTimeReads(s[..Min(19, |s|)]);
  }

  // The fraction is a number only as far as its digits go, and none without one to start with.
  lemma {:induction false} LeadingDigitsStop(digits: string, rest: string)
    requires AllDigits(digits) && (rest == "" || !IsDigit(rest[0]))
    ensures LeadingDigits(digits + rest) == digits
  {
    if digits == "" {
      assert digits + rest == rest;
    } else {
      assert IsDigit(digits[0]);
      LeadingDigitsStop(digits[1..], rest);
      assert (digits + rest)[1..] == digits[1..] + rest && [digits[0]] + digits[1..] == digits;
    }
  }

  lemma {:induction false} BlanksAreSkipped(blanks: string, rest: string)
    requires forall i :: 0 <= i < |blanks| ==> LP.IsSpace(blanks[i], true)
    requires rest == "" || !LP.IsSpace(rest[0], true)
    ensures LP.TrimLeft(blanks + rest, true) == rest
  {
    if blanks == "" {
      assert blanks + rest == rest;
    } else {
      assert (blanks + rest)[1..] == blanks[1..] + rest;
      BlanksAreSkipped(blanks[1..], rest);
    }
  }

  /** Blanks, a sign and digits; what follows is ignored, and without a digit there is no number. */
  lemma StollReads(blanks: string, sign: string, digits: string, rest: string)
    requires forall i :: 0 <= i < |blanks| ==> LP.IsSpace(blanks[i], true)
    requires sign in {"", "+", "-"} && AllDigits(digits) && (rest == "" || !IsDigit(rest[0]))
    requires sign == "" && digits == "" && rest != "" ==> rest[0] !in {'+', '-'} && !LP.IsSpace(rest[0], true)
    ensures Stoll(blanks + (sign + (digits + rest))) ==
            if digits == "" then None
            else Some(if sign == "-" then -(NatValue(digits) as int) else NatValue(digits))
  {
    var tail, t := digits + rest, sign + (digits + rest);
    if digits != "" { assert IsDigit(digits[0]) && tail[0] == digits[0]; } else { assert tail == rest; }
    if sign == "" { assert t == tail; } else { assert t[0] == sign[0] && t[1..] == tail; }
    BlanksAreSkipped(blanks, t);
    LeadingDigitsStop(digits, rest);
  }

  lemma ParseNine(head: string, seconds: nat, fraction: string)
    requires Head(head, seconds) && AllDigits(fraction) && |fraction| == 9
    ensures Parse(head + ("." + (fraction + "Z"))) == Some(seconds * 1_000_000_000 + NatValue(fraction))
  {
    hide *;
    NineUnchanged(fraction);
    ParseWithFraction(head, seconds, fraction);
  }

  lemma NineUnchanged(fraction: string)
    requires |fraction| == 9
    ensures NineChars(fraction) == fraction
  {
    assert fraction + "" == fraction;
  }

  lemma {:induction false} ZerosAreZero(n: nat)
    ensures NatValue(Zeros(n)) == 0
  {
    if n > 0 {
      ZerosAreZero(n - 1);
      NatValueConcat("0", Zeros(n - 1));
      assert NatValue("0") == 0;
    }
  }

  /** Printing and reading back is exact, and nothing overflows, for every int64 from 0 on. */
  lemma RoundTrip(n: nat)
    requires n <= 0x7FFF_FFFF_FFFF_FFFF
    ensures Parse(Rfc3339(n)) == Some(n)
  {
    hide Parse, SecondText, Head, CivilFromDays;
    var seconds, nanos := n / 1_000_000_000, n % 1_000_000_000;
    YearBound(seconds / 86400);
    SecondTextRoundTrip(seconds);
    NanosDigits(nanos);
    ParseNine(SecondText(seconds), seconds, Fixed(nanos, 9));
  }

  lemma NanosDigits(nanos: nat)
    requires nanos < 1_000_000_000
    ensures AllDigits(Fixed(nanos, 9)) && NatValue(Fixed(nanos, 9)) == nanos
  {
    assert Pow10(9) == 1_000_000_000;
    NatValueFixed(nanos, 9);
  }

  /** Trailing zeros of the fraction do not matter; without any digit the fraction is zero. */
  lemma DropTrailingZeros(head: string, seconds: nat, fraction: string, zeros: nat)
    requires Head(head, seconds) && AllDigits(fraction)
    ensures Parse(head + ("." + ((fraction + Zeros(zeros)) + "Z"))) == Parse(head + ("." + (fraction + "Z")))
  {
    hide Parse, Head;
    ParseWithFraction(head, seconds, fraction);
    ParseWithFraction(head, seconds, fraction + Zeros(zeros));
    NineCharsOfZeros(fraction, zeros);
  }

  lemma {:induction false} ZerosSplit(a: nat, b: nat)
    ensures Zeros(a + b) == Zeros(a) + Zeros(b)
  {
    if a > 0 { ZerosSplit(a - 1, b); }
  }

  lemma NineCharsOfZeros(fraction: string, zeros: nat)
    ensures NineChars(fraction + Zeros(zeros)) == NineChars(fraction)
  {
    var k := |fraction|;
    if k > 9 {
      LongFraction(fraction, zeros);
    } else if k + zeros > 9 {
      CutFraction(fraction, 9 - k, k + zeros - 9);
    } else {
      PaddedFraction(fraction, zeros, 9 - k - zeros);
    }
  }

  lemma LongFraction(fraction: string, zeros: nat)
    requires |fraction| > 9
    ensures NineChars(fraction + Zeros(zeros)) == NineChars(fraction)
  {
    hide Zeros;
    assert (fraction + Zeros(zeros))[..9] == fraction[..9];
  }

  lemma CutFraction(fraction: string, kept: nat, cut: nat)
    requires |fraction| + kept == 9 && cut > 0
    ensures NineChars(fraction + Zeros(kept + cut)) == NineChars(fraction)
  {
    hide Zeros;
    ZerosSplit(kept, cut);
    var z := Zeros(kept);
    assert (fraction + (z + Zeros(cut)))[..9] == fraction + z;
  }

  lemma PaddedFraction(fraction: string, zeros: nat, more: nat)
    requires |fraction| + zeros + more == 9
    ensures NineChars(fraction + Zeros(zeros)) == NineChars(fraction)
  {
    hide Zeros;
    ZerosSplit(zeros, more);
    assert (fraction + Zeros(zeros)) + Zeros(more) == fraction + (Zeros(zeros) + Zeros(more));
  }

  // ---------------------------------------------------------------- order

  /** The order of std::string. */
  predicate LexLess(a: string, b: string) {
    b != "" && (a == "" || a[0] < b[0] || (a[0] == b[0] && LexLess(a[1..], b[1..])))
  }

  lemma {:induction false} LexConcat(a: string, b: string, c: string, d: string)
    requires |a| == |b|
    ensures LexLess(a + c, b + d) <==> LexLess(a, b) || (a == b && LexLess(c, d))
  {
    if a == "" {
      assert a + c == c && b + d == d;
    } else {
      LexConcat(a[1..], b[1..], c, d);
      assert (a + c)[1..] == a[1..] + c && (b + d)[1..] == b[1..] + d;
      assert a == [a[0]] + a[1..] && b == [b[0]] + b[1..];
    }
  }

  lemma {:induction false} FixedMonotone(m: nat, n: nat, w: nat)
    requires m < n < Pow10(w)
    ensures LexLess(Fixed(m, w), Fixed(n, w))
  {
    LexConcat(Fixed(m / 10, w - 1), Fixed(n / 10, w - 1), [DigitChar(m % 10)], [DigitChar(n % 10)]);
    if m / 10 < n / 10 { FixedMonotone(m / 10, n / 10, w - 1); }
  }

  /** A field of fixed width decides the order, or leaves it to the rest. */
  lemma FieldOrder(m: nat, n: nat, w: nat, c: string, d: string)
    requires m < Pow10(w) && n < Pow10(w)
    requires m < n || (m == n && LexLess(c, d))
    ensures LexLess(Fixed(m, w) + c, Fixed(n, w) + d)
  {
    LexConcat(Fixed(m, w), Fixed(n, w), c, d);
    if m < n { FixedMonotone(m, n, w); }
  }

  lemma SeparatorOrder(sep: string, c: string, d: string)
    ensures LexLess(sep + c, sep + d) <==> LexLess(c, d) || LexLess(sep, sep)
    ensures LexLess(c, d) ==> LexLess(sep + c, sep + d)
  {
    LexConcat(sep, sep, c, d);
  }

  lemma DateOrder(a: Date, b: Date)
    requires ValidDate(a) && ValidDate(b) && 0 <= a.year <= 9999 && 0 <= b.year <= 9999 && Before(a, b)
    ensures LexLess(DateText(a), DateText(b))
  {
    assert Pow10(2) == 100 && Pow10(4) == 10000;
    var da, db := Fixed(a.day, 2), Fixed(b.day, 2);
    var ma, mb := Fixed(a.month, 2) + ("-" + da), Fixed(b.month, 2) + ("-" + db);
    if a.year == b.year {
      if a.month == b.month {
        FixedMonotone(a.day, b.day, 2);
        SeparatorOrder("-", da, db);
      }
      FieldOrder(a.month, b.month, 2, "-" + da, "-" + db);
      SeparatorOrder("-", ma, mb);
    }
    FieldOrder(a.year, b.year, 4, "-" + ma, "-" + mb);
  }

  lemma ClockOrder(m: nat, n: nat)
    requires m < n < 86400
    ensures LexLess(ClockText(m), ClockText(n))
  {
    assert Pow10(2) == 100;
    ClockParts(m);
    ClockParts(n);
    var sm, sn := Fixed(m % 60, 2), Fixed(n % 60, 2);
    var mm, mn := Fixed(m / 60 % 60, 2) + (":" + sm), Fixed(n / 60 % 60, 2) + (":" + sn);
    if m / 3600 == n / 3600 {
      if m / 60 % 60 == n / 60 % 60 {
        FixedMonotone(m % 60, n % 60, 2);
        SeparatorOrder(":", sm, sn);
      }
      FieldOrder(m / 60 % 60, n / 60 % 60, 2, ":" + sm, ":" + sn);
      SeparatorOrder(":", mm, mn);
    }
    FieldOrder(m / 3600, n / 3600, 2, ":" + mm, ":" + mn);
  }

  lemma TextOrder(d: Date, m: nat, e: Date, n: nat)
    requires ValidDate(d) && ValidDate(e) && 0 <= d.year <= 9999 && 0 <= e.year <= 9999
    requires Before(d, e) || (d == e && m < n < 86400)
    ensures LexLess(DateText(d) + ("T" + ClockText(m)), DateText(e) + ("T" + ClockText(n)))
  {
    LexConcat(DateText(d), DateText(e), "T" + ClockText(m), "T" + ClockText(n));
    if Before(d, e) {
      DateOrder(d, e);
    } else {
      ClockOrder(m, n);
      SeparatorOrder("T", ClockText(m), ClockText(n));
    }
  }

  lemma DayOrder(m: nat, n: nat)
    requires m < n
    ensures m / 86400 < n / 86400 || (m / 86400 == n / 86400 && m % 86400 < n % 86400 < 86400)
  {
  }

  lemma SecondOrder(m: nat, n: nat)
    requires m < n && CivilFromDays(n / 86400).year <= 9999
    ensures LexLess(SecondText(m), SecondText(n))
  {
    var a, b := m / 86400, n / 86400;
    DayOrder(m, n);
    CivilRoundTrip(a);
    CivilRoundTrip(b);
    if a < b { CivilMonotone(a, b); }
    TextOrder(CivilFromDays(a), m % 86400, CivilFromDays(b), n % 86400);
  }

  /** Later instants print as lexicographically greater strings, over the whole range of int64. */
  lemma PrintingIsMonotone(m: nat, n: nat)
    requires m < n <= 0x7FFF_FFFF_FFFF_FFFF
    ensures LexLess(Rfc3339(m), Rfc3339(n))
  {
    hide SecondText, CivilFromDays, Fixed, LexLess;
    YearBound(n / 1_000_000_000 / 86400);
    var fm, fn := Fixed(m % 1_000_000_000, 9) + "Z", Fixed(n % 1_000_000_000, 9) + "Z";
    LexConcat(SecondText(m / 1_000_000_000), SecondText(n / 1_000_000_000), "." + fm, "." + fn);
    if m / 1_000_000_000 < n / 1_000_000_000 {
      SecondOrder(m / 1_000_000_000, n / 1_000_000_000);
    } else {
      assert Pow10(9) == 1_000_000_000;
      FieldOrder(m % 1_000_000_000, n % 1_000_000_000, 9, "Z", "Z");
      SeparatorOrder(".", fm, fn);
    }
  }
}
