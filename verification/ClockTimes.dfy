/** Clock times as text: the reading the scheduler applies to schedule times,
    and the texts the schedule schema admits. */
module ClockTimes {
  import opened Wrappers
  import opened Texts

  const MINUTES_PER_DAY := 1440

  /** The day of an instant in microseconds. */
  function DayOf(t: int): int {
    t / 86_400_000_000
  }

  datatype ClockTime = ClockTime(hour: int, minute: int)

  // ---------------------------------------------------------------- digits and spaces

  datatype Zeros = NoMore | Zero(at: int, next: Zeros)

  /** The zeros of the decimal digits of Unicode 14 beyond ASCII; nine more digits
      follow each of them. */
  function WideZeros(): Zeros {
    Zero(0x0660, Zero(0x06F0, Zero(0x07C0, Zero(0x0966, Zero(0x09E6, Zero(0x0A66, Zero(0x0AE6,
    Zero(0x0B66, Zero(0x0BE6, Zero(0x0C66, Zero(0x0CE6, Zero(0x0D66, Zero(0x0DE6, Zero(0x0E50,
    Zero(0x0ED0, Zero(0x0F20, Zero(0x1040, Zero(0x1090, Zero(0x17E0, Zero(0x1810, Zero(0x1946,
    Zero(0x19D0, Zero(0x1A80, Zero(0x1A90, Zero(0x1B50, Zero(0x1BB0, Zero(0x1C40, Zero(0x1C50,
    Zero(0xA620, Zero(0xA8D0, Zero(0xA900, Zero(0xA9D0, Zero(0xA9F0, Zero(0xAA50, Zero(0xABF0,
    Zero(0xFF10, Zero(0x104A0, Zero(0x10D30, Zero(0x11066, Zero(0x110F0, Zero(0x11136, Zero(0x111D0,
    Zero(0x112F0, Zero(0x11450, Zero(0x114D0, Zero(0x11650, Zero(0x116C0, Zero(0x11730, Zero(0x118E0,
    Zero(0x11950, Zero(0x11C50, Zero(0x11D50, Zero(0x11DA0, Zero(0x16A60, Zero(0x16AC0, Zero(0x16B50,
    Zero(0x1D7CE, Zero(0x1D7D8, Zero(0x1D7E2, Zero(0x1D7EC, Zero(0x1D7F6, Zero(0x1E140, Zero(0x1E2F0,
    Zero(0x1E950, Zero(0x1FBF0, NoMore
    )))))))))))))))))))))))))))))))))))))))))))))))))))))))))))))))))
  }

  function OffsetFrom(zeros: Zeros, c: int): (d: Option<nat>)
    ensures d.Some? ==> d.value <= 9
  {
    match zeros
    case NoMore => None
    case Zero(z, next) => if z <= c < z + 10 then Some(c - z) else OffsetFrom(next, c)
  }

  /** The value of a decimal digit of any script. */
  function DigitOf(c: char): (d: Option<nat>)
    ensures d.Some? ==> d.value <= 9
    ensures d.Some? ==> !IsBlank(c)
    ensures '0' <= c <= '9' ==> d == Some(c as int - '0' as int)
    ensures c as int < 0x80 && d.Some? ==> '0' <= c <= '9'
  {
    if IsBlank(c) then None
    else if c as int >= 0x80 then OffsetFrom(WideZeros(), c as int)
    else if '0' <= c <= '9' then Some(c as int - '0' as int)
    else None
  }

  predicate IsDigit(c: char) { DigitOf(c).Some? }

  /** The integer conversion ignores white space at both ends. */
  function StripLeft(s: string): (r: string)
    ensures r != "" ==> !IsBlank(r[0])
  {
    if s != "" && IsBlank(s[0]) then StripLeft(s[1..]) else s
  }

  function StripRight(s: string): (r: string)
    ensures r != "" ==> !IsBlank(r[|r| - 1])
  {
    if s != "" && IsBlank(s[|s| - 1]) then StripRight(s[..|s| - 1]) else s
  }

  // ---------------------------------------------------------------- numbers

  /** Digits, single underscores between them. */
  predicate IsNumeral(s: string) {
    && s != "" && IsDigit(s[0]) && IsDigit(s[|s| - 1])
    && (forall k :: 0 <= k < |s| ==> IsDigit(s[k]) || s[k] == '_')
    && forall k :: 0 < k < |s| ==> IsDigit(s[k - 1]) || IsDigit(s[k])
  }

  function NumberValue(s: string): nat
    requires forall k :: 0 <= k < |s| ==> IsDigit(s[k]) || s[k] == '_'
  {
    if s == "" then 0
    else
      var before := NumberValue(s[..|s| - 1]);
      if IsDigit(s[|s| - 1]) then 10 * before + DigitOf(s[|s| - 1]).value else before
  }

  /** The integer conversion of a text; `None` stands for ValueError. */
  function IntLiteral(s: string): Option<int> {
    LiteralOf(StripRight(StripLeft(s)))
  }

  /** A sign, or none, and a numeral. */
  function LiteralOf(t: string): Option<int> {
    var signed := t != "" && (t[0] == '-' || t[0] == '+');
    var digits := if signed then t[1..] else t;
    if !IsNumeral(digits) then None
    else
      var n: int := NumberValue(digits);
      Some(if t[0] == '-' then -n else n)
  }

  function OfHalves(h: Option<int>, m: Option<int>): Option<ClockTime> {
    if h.Some? && m.Some? then Some(ClockTime(h.value, m.value)) else None
  }

  /** Two numbers around exactly one colon; anything else is skipped by the scheduler. */
  function ParseTime(s: string): Option<ClockTime> {
    var halves := Halves(s);
    if halves.None? then None else OfHalves(IntLiteral(halves.value.0), IntLiteral(halves.value.1))
  }

  /** What stands before the only colon and behind it. */
  function Halves(s: string): Option<(string, string)> {
    var i := IndexOf(s, ':');
    if i == |s| || ':' in s[i + 1..] then None else Some((s[..i], s[i + 1..]))
  }

  // ---------------------------------------------------------------- times of a day

  predicate OfADay(t: ClockTime) { 0 <= t.hour < 24 && 0 <= t.minute < 60 }

  /** The scheduler reads it as a time of the day. */
  predicate IsTimeOfDay(s: string) { ParseTime(s).Some? && OfADay(ParseTime(s).value) }

  function MinuteOfDay(s: string): (m: nat)
    requires IsTimeOfDay(s)
    ensures m < MINUTES_PER_DAY
  {
    60 * ParseTime(s).value.hour + ParseTime(s).value.minute
  }

  /** The scheduler's reading of every time; `None` is passed over. */
  function Readings(times: seq<string>): (r: seq<Option<ClockTime>>)
    ensures |r| == |times| && forall k :: 0 <= k < |r| ==> r[k] == ParseTime(times[k])
  {
    seq(|times|, k requires 0 <= k < |times| => ParseTime(times[k]))
  }

  predicate AllOfADay(readings: seq<Option<ClockTime>>) {
    forall k :: 0 <= k < |readings| && readings[k].Some? ==> OfADay(readings[k].value)
  }

  function MinuteOf(t: ClockTime): int { 60 * t.hour + t.minute }

  /** What the pattern of the schedule schema accepts: HH:MM, where the digits it
      does not name may be of any script, and a line feed may follow. */
  predicate IsValidated(s: string) {
    && (|s| == 5 || (|s| == 6 && s[5] == '\n'))
    && (((s[0] == '0' || s[0] == '1') && IsDigit(s[1])) || (s[0] == '2' && '0' <= s[1] <= '3'))
    && s[2] == ':' && '0' <= s[3] <= '5' && IsDigit(s[4])
  }

  /** The two digits from `k` on, as a number. */
  function TwoDigits(s: string, k: nat): nat
    requires k + 1 < |s| && IsDigit(s[k]) && IsDigit(s[k + 1])
  {
    10 * DigitOf(s[k]).value + DigitOf(s[k + 1]).value
  }

  lemma {:induction false} NumberOfTwoDigits(s: string)
    requires |s| == 2 && IsDigit(s[0]) && IsDigit(s[1])
    ensures IsNumeral(s) && NumberValue(s) == TwoDigits(s, 0)
  {
    assert s[..1][..0] == "";
    assert NumberValue(s[..1]) == DigitOf(s[0]).value;
  }

  /** A number between two digits' ends needs no stripping. */
  lemma {:induction false} NothingToStrip(s: string)
    requires s != "" && IsDigit(s[0]) && IsDigit(s[|s| - 1])
    ensures StripRight(StripLeft(s)) == s
  {
  }

  lemma {:induction false} TwoDigitLiteral(s: string)
    requires |s| == 2 && IsDigit(s[0]) && IsDigit(s[1])
    ensures IntLiteral(s) == Some(TwoDigits(s, 0))
    ensures IntLiteral(s + "\n") == Some(TwoDigits(s, 0))
  {
    NumberOfTwoDigits(s);
    NothingToStrip(s);
    var t := s + "\n";
    assert t[..2] == s && StripLeft(t) == t && IsBlank(t[2]);
  }

  /** Around the one colon, both halves are converted by themselves. */
  lemma {:induction false} ParseOfHalves(h: string, m: string)
    requires ':' !in h && ':' !in m
    ensures ParseTime(h + ":" + m)
         == if IntLiteral(h).Some? && IntLiteral(m).Some? then Some(ClockTime(IntLiteral(h).value, IntLiteral(m).value))
            else None
  {
    HalvesAre(h + ":" + m, h, m);
  }

  lemma {:induction false} HalvesAre(s: string, h: string, m: string)
    ensures Halves(s) == Some((h, m)) <==> s == h + ":" + m && ':' !in h && ':' !in m
  {
    var i := IndexOf(s, ':');
    if Halves(s).Some? { assert s == s[..i] + ":" + s[i + 1..]; }
    if s == h + ":" + m && ':' !in h && ':' !in m {
      assert s[|h|] == ':' && forall k :: 0 <= k < |h| ==> s[k] == h[k];
      assert i == |h| && s[..i] == h && s[i + 1..] == m;
    }
  }

  /** A text is read as a time exactly if it has one colon, with a number on either
      side: the hour before it, the minute behind. */
  lemma {:induction false} ReadAsTime(s: string, t: ClockTime)
    ensures ParseTime(s) == Some(t)
       <==> exists h, m :: && s == h + ":" + m && ':' !in h && ':' !in m
                           && IntLiteral(h) == Some(t.hour) && IntLiteral(m) == Some(t.minute)
  {
    if ParseTime(s) == Some(t) {
      var halves := Halves(s).value;
      HalvesAre(s, halves.0, halves.1);
    }
    if h, m :| && s == h + ":" + m && ':' !in h && ':' !in m
               && IntLiteral(h) == Some(t.hour) && IntLiteral(m) == Some(t.minute) {
      HalvesAre(s, h, m);
    }
  }

  ghost predicate AllBlank(s: string) { forall k :: 0 <= k < |s| ==> IsBlank(s[k]) }

  /** A number, maybe signed, maybe with white space around. */
  ghost predicate IsLiteral(s: string, before: string, sign: string, digits: string, after: string) {
    && s == before + ((sign + digits) + after) && AllBlank(before) && AllBlank(after)
    && sign in {"", "+", "-"} && IsNumeral(digits)
  }

  lemma {:induction false} StripLeftOff(before: string, rest: string)
    requires AllBlank(before) && (rest == "" || !IsBlank(rest[0]))
    ensures StripLeft(before + rest) == rest
  {
    if before == "" {
      assert before + rest == rest;
    } else {
      assert (before + rest)[1..] == before[1..] + rest;
      StripLeftOff(before[1..], rest);
    }
  }

  lemma {:induction false} StripRightOff(rest: string, after: string)
    requires AllBlank(after) && (rest == "" || !IsBlank(rest[|rest| - 1]))
    ensures StripRight(rest + after) == rest
  {
    if after == "" {
      assert rest + after == rest;
    } else {
      var n := |after| - 1;
      assert (rest + after)[..|rest + after| - 1] == rest + after[..n];
      StripRightOff(rest, after[..n]);
    }
  }

  lemma {:induction false} StripLeftSplits(s: string) returns (before: string)
    ensures s == before + StripLeft(s) && AllBlank(before)
  {
    before := "";
    if s != "" && IsBlank(s[0]) {
      var more := StripLeftSplits(s[1..]);
      before := [s[0]] + more;
      assert s == [s[0]] + s[1..];
    }
  }

  lemma {:induction false} StripRightSplits(s: string) returns (after: string)
    ensures s == StripRight(s) + after && AllBlank(after)
  {
    after := "";
    if s != "" && IsBlank(s[|s| - 1]) {
      var more := StripRightSplits(s[..|s| - 1]);
      after := more + [s[|s| - 1]];
      assert s == s[..|s| - 1] + [s[|s| - 1]];
    }
  }

  lemma {:induction false} LiteralIsRead(s: string, before: string, sign: string, digits: string, after: string)
    requires IsLiteral(s, before, sign, digits, after)
    ensures IntLiteral(s) == Some(Signed(sign, NumberValue(digits)))
  {
    SignedEnds(sign, digits);
    StrippedIs(before, sign + digits, after);
    SignedIsRead(sign, digits);
  }

  lemma {:induction false} SignedIsRead(sign: string, digits: string)
    requires sign in {"", "+", "-"} && IsNumeral(digits)
    ensures LiteralOf(sign + digits) == Some(Signed(sign, NumberValue(digits)))
  {
    SignedEnds(sign, digits);
  }

  lemma {:induction false} StrippedIs(before: string, t: string, after: string)
    requires AllBlank(before) && AllBlank(after) && t != "" && !IsBlank(t[0]) && !IsBlank(t[|t| - 1])
    ensures StripRight(StripLeft(before + (t + after))) == t
  {
    assert (t + after)[0] == t[0];
    StripLeftOff(before, t + after);
    StripRightOff(t, after);
  }

  lemma {:induction false} SignedEnds(sign: string, digits: string)
    requires sign in {"", "+", "-"} && IsNumeral(digits)
    ensures
      var t := sign + digits;
      && !IsBlank(t[0]) && !IsBlank(t[|t| - 1])
      && (t[0] == '-' <==> sign == "-") && (t[0] == '+' <==> sign == "+")
      && digits == if t[0] == '-' || t[0] == '+' then t[1..] else t
  {
    var t := sign + digits;
    assert t[|t| - 1] == digits[|digits| - 1];
    assert sign == "" ==> t == digits;
  }

  /** The value with the sign. */
  ghost function Signed(sign: string, value: int): int { if sign == "-" then -value else value }

  /** The integer conversion reads a text exactly if it is such a number; the sign
      counts. */
  lemma {:induction false} ReadIsLiteral(s: string)
    returns (before: string, sign: string, digits: string, after: string)
    requires IntLiteral(s).Some?
    ensures IsLiteral(s, before, sign, digits, after)
    ensures IntLiteral(s) == Some(Signed(sign, NumberValue(digits)))
  {
    var t;
    before, t, after := Stripped(s);
    sign, digits := ReadIsSigned(t);
  }

  lemma {:induction false} Stripped(s: string) returns (before: string, t: string, after: string)
    ensures t == StripRight(StripLeft(s))
    ensures s == before + (t + after) && AllBlank(before) && AllBlank(after)
  {
    before := StripLeftSplits(s);
    after := StripRightSplits(StripLeft(s));
    t := StripRight(StripLeft(s));
  }

  lemma {:induction false} ReadIsSigned(t: string) returns (sign: string, digits: string)
    requires LiteralOf(t).Some?
    ensures sign in {"", "+", "-"} && t == sign + digits && IsNumeral(digits)
    ensures LiteralOf(t) == Some(Signed(sign, NumberValue(digits)))
  {
    sign, digits := SignSplits(t);
  }

  lemma {:induction false} SignSplits(t: string) returns (sign: string, digits: string)
    ensures sign in {"", "+", "-"} && t == sign + digits
    ensures sign == "" <==> t == "" || (t[0] != '-' && t[0] != '+')
    ensures sign != "" ==> sign == t[..1] && digits == t[1..]
    ensures sign == "" ==> digits == t
  {
    var signed := t != "" && (t[0] == '-' || t[0] == '+');
    sign, digits := if signed then t[..1] else "", if signed then t[1..] else t;
    assert signed ==> t[..1] == [t[0]];
  }

  lemma {:induction false} DigitIsNoColon(c: char)
    requires IsDigit(c)
    ensures c != ':'
  {}

  /** A validated text is two digits, a colon, two digits, and maybe a line feed. */
  lemma {:induction false} HalvesOfValidated(s: string)
    requires IsValidated(s)
    ensures IsDigit(s[0]) && IsDigit(s[1]) && IsDigit(s[3]) && IsDigit(s[4])
    ensures TwoDigits(s, 0) < 24 && TwoDigits(s, 3) < 60
    ensures s == s[..2] + ":" + s[3..5] || s == s[..2] + ":" + (s[3..5] + "\n")
    ensures ':' !in s[..2] && ':' !in s[3..5]
  {
    DigitIsNoColon(s[0]);
    DigitIsNoColon(s[1]);
    DigitIsNoColon(s[3]);
    DigitIsNoColon(s[4]);
  }

  /** On validated text the scheduler's reading is the minute of the day its four
      digits name. */
  lemma {:induction false} ParseOfValidated(s: string)
    requires IsValidated(s)
    ensures IsDigit(s[0]) && IsDigit(s[1]) && IsDigit(s[3]) && IsDigit(s[4])
    ensures ParseTime(s) == Some(ClockTime(TwoDigits(s, 0), TwoDigits(s, 3)))
    ensures TwoDigits(s, 0) < 24 && TwoDigits(s, 3) < 60
  {
    HalvesOfValidated(s);
    TwoDigitsOfSlice(s, 0, s[..2]);
    TwoDigitsOfSlice(s, 3, s[3..5]);
    ParseOfSplit(s, s[..2], s[3..5]);
  }

  lemma {:induction false} TwoDigitsOfSlice(s: string, k: nat, t: string)
    requires k + 1 < |s| && t == s[k..k + 2] && IsDigit(s[k]) && IsDigit(s[k + 1])
    ensures |t| == 2 && IsDigit(t[0]) && IsDigit(t[1]) && TwoDigits(t, 0) == TwoDigits(s, k)
  {}

  lemma {:induction false} ParseOfSplit(s: string, h: string, m: string)
    requires |h| == 2 && |m| == 2 && IsDigit(h[0]) && IsDigit(h[1]) && IsDigit(m[0]) && IsDigit(m[1])
    requires ':' !in h && ':' !in m
    requires s == h + ":" + m || s == h + ":" + (m + "\n")
    ensures ParseTime(s) == Some(ClockTime(TwoDigits(h, 0), TwoDigits(m, 0)))
  {
    ParseOfDigits(h, m);
  }

  lemma {:induction false} ParseOfDigits(h: string, m: string)
    requires |h| == 2 && |m| == 2 && IsDigit(h[0]) && IsDigit(h[1]) && IsDigit(m[0]) && IsDigit(m[1])
    requires ':' !in h && ':' !in m
    ensures ParseTime(h + ":" + m) == Some(ClockTime(TwoDigits(h, 0), TwoDigits(m, 0)))
    ensures ParseTime(h + ":" + (m + "\n")) == Some(ClockTime(TwoDigits(h, 0), TwoDigits(m, 0)))
  {
    TwoDigitLiteral(h);
    TwoDigitLiteral(m);
    ParseOfHalves(h, m);
    ParseOfHalves(h, m + "\n");
  }

  lemma {:induction false} ValidatedIsTimeOfDay(s: string)
    requires IsValidated(s)
    ensures IsTimeOfDay(s) && IsDigit(s[0]) && IsDigit(s[1]) && IsDigit(s[3]) && IsDigit(s[4])
    ensures MinuteOfDay(s) == 60 * TwoDigits(s, 0) + TwoDigits(s, 3)
  {
    ParseOfValidated(s);
  }

  lemma {:induction false} DigitsDetermined(a: nat, b: nat, c: nat, d: nat, e: nat, f: nat, g: nat, h: nat)
    requires b <= 9 && c <= 5 && d <= 9 && f <= 9 && g <= 5 && h <= 9
    ensures 60 * (10 * a + b) + (10 * c + d) == 60 * (10 * e + f) + (10 * g + h)
          <==> a == e && b == f && c == g && d == h
  {}

  lemma {:induction false} MinuteByDigits(s: string) returns (w: nat, x: nat, y: nat, z: nat)
    requires IsValidated(s)
    ensures DigitOf(s[0]) == Some(w) && DigitOf(s[1]) == Some(x) && DigitOf(s[3]) == Some(y) && DigitOf(s[4]) == Some(z)
    ensures x <= 9 && y <= 5 && z <= 9
    ensures IsTimeOfDay(s) && MinuteOfDay(s) == 60 * (10 * w + x) + (10 * y + z)
  {
    ValidatedIsTimeOfDay(s);
    w, x, y, z := DigitOf(s[0]).value, DigitOf(s[1]).value, DigitOf(s[3]).value, DigitOf(s[4]).value;
  }

  /** Two validated texts name one minute exactly when their digits have the same
      values, whatever script they are in and whether a line feed follows. */
  lemma {:induction false} SameMinuteIffSameDigits(a: string, b: string)
    requires IsValidated(a) && IsValidated(b)
    ensures IsTimeOfDay(a) && IsTimeOfDay(b)
    ensures MinuteOfDay(a) == MinuteOfDay(b)
       <==> DigitOf(a[0]) == DigitOf(b[0]) && DigitOf(a[1]) == DigitOf(b[1])
            && DigitOf(a[3]) == DigitOf(b[3]) && DigitOf(a[4]) == DigitOf(b[4])
  {
    var w, x, y, z := MinuteByDigits(a);
    var e, f, g, h := MinuteByDigits(b);
    DigitsDetermined(w, x, y, z, e, f, g, h);
  }

  lemma {:induction false} EightOClock(s: string)
    requires IsValidated(s) && DigitOf(s[0]) == Some(0) && DigitOf(s[1]) == Some(8) && DigitOf(s[3]) == Some(0) &&
             DigitOf(s[4]) == Some(0)
    ensures ParseTime(s) == Some(ClockTime(8, 0))
  {
    ParseOfValidated(s);
  }

  /** So the validation admits different texts for one minute. */
  lemma {:induction false} ValidatedTextsShareAMinute()
    ensures IsValidated("08:00") && IsValidated("08:00\n") && IsValidated("0\U{668}:00")
    ensures ParseTime("08:00") == ParseTime("08:00\n") == ParseTime("0\U{668}:00") == Some(ClockTime(8, 0))
  {
    assert DigitOf('\U{668}') == Some(8);
    EightOClock("08:00");
    EightOClock("08:00\n");
    EightOClock("0\U{668}:00");
  }

  // ---------------------------------------------------------------- what a readable time is made of

  lemma {:induction false} NumeralHasNoBar(s: string)
    requires IntLiteral(s).Some?
    ensures '|' !in s
  {
    var before, sign, digits, after := ReadIsLiteral(s);
    assert '|' !in before && '|' !in after && '|' !in sign && '|' !in digits;
  }

  lemma {:induction false} HalvesOfReadable(s: string) returns (h: string, m: string)
    requires ParseTime(s).Some?
    ensures s == h + ":" + m && IntLiteral(h).Some? && IntLiteral(m).Some?
  {
    h, m := Halves(s).value.0, Halves(s).value.1;
    HalvesAre(s, h, m);
  }

  /** A time the scheduler can read contains no bar. */
  lemma {:induction false} ReadableHasNoBar(s: string)
    requires ParseTime(s).Some?
    ensures '|' !in s
  {
    var h, m := HalvesOfReadable(s);
    NumeralHasNoBar(h);
    NumeralHasNoBar(m);
  }
}
