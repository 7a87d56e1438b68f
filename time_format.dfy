/**
 * The `formatTime` helper of the time-tracking widget: a whole number of
 * seconds is split into hours, minutes and seconds, and each field is
 * written in decimal and left-padded with '0' to at least two characters,
 * giving "HH:MM:SS" with an unbounded hour field.
 *
 * Besides the formatter itself the module defines the reading of such a
 * text back into seconds, and proves that reading undoes formatting.
 */
module TimeFormat {

  /** A duration split into clock fields. */
  datatype Clock = Clock(hours: nat, minutes: nat, seconds: nat)

  /** The total number of seconds a clock reading stands for. */
  function ClockSeconds(c: Clock): nat {
    c.hours * 3600 + c.minutes * 60 + c.seconds
  }

  /** A reading whose minute and second fields are below sixty. */
  predicate Normal(c: Clock) {
    c.minutes < 60 && c.seconds < 60
  }

  /**
   * Hours are floor(t / 3600), minutes floor((t % 3600) / 60) and
   * seconds t % 60; for t >= 0 flooring division is Dafny's division.
   */
  function SplitSeconds(t: nat): (c: Clock)
    ensures Normal(c)
    ensures ClockSeconds(c) == t
  {
    Clock(t / 3600, (t % 3600) / 60, t % 60)
  }

  /** A normal reading is determined by the seconds it stands for. */
  lemma SplitUnique(c: Clock)
    requires Normal(c)
    ensures SplitSeconds(ClockSeconds(c)) == c
  {
    var t := ClockSeconds(c);
    var below := c.minutes * 60 + c.seconds;
    assert 0 <= below < 3600;
    assert t == c.hours * 3600 + below;
    DivModUnique(t, 3600, c.hours, below);
    DivModUnique(below, 60, c.minutes, c.seconds);
  }

  /** Quotient and remainder by a positive divisor are unique. */
  lemma DivModUnique(n: nat, d: nat, q: nat, r: nat)
    requires 0 < d && r < d && n == q * d + r
    ensures n / d == q && n % d == r
  {
    var q', r' := n / d, n % d;
    assert n == q' * d + r';
    if q' < q {
      assert (q - q') * d == r' - r;
      assert (q - q') * d >= d by { MulAtLeast(q - q', d); }
    } else if q < q' {
      assert (q' - q) * d == r - r';
      assert (q' - q) * d >= d by { MulAtLeast(q' - q, d); }
    }
  }

  /** A positive multiple of d is at least d. */
  lemma MulAtLeast(k: nat, d: nat)
    requires 1 <= k
    ensures k * d >= d
  {
  }

  /** The character of a decimal digit. */
  function DigitChar(n: nat): (ch: char)
    requires n < 10
    ensures '0' <= ch <= '9'
    ensures ch as int - '0' as int == n
  {
    ('0' as int + n) as char
  }

  predicate IsDigit(ch: char) {
    '0' <= ch <= '9'
  }

  predicate AllDigits(s: string) {
    forall i :: 0 <= i < |s| ==> IsDigit(s[i])
  }

  /**
   * The decimal text of a non-negative integer, as `Number.prototype.toString`
   * writes it: at least one digit, and no leading zero unless the number is 0.
   */
  function DecimalDigits(n: nat): (s: string)
    ensures 1 <= |s| && AllDigits(s)
    ensures s[0] == '0' ==> n == 0 && s == "0"
    ensures n < 10 <==> |s| == 1
    ensures n < 100 <==> |s| <= 2
  {
    if n < 10 then [DigitChar(n)] else DecimalDigits(n / 10) + [DigitChar(n % 10)]
  }

  /** The number a string of decimal digits denotes (most significant first). */
  function DigitsValue(s: string): nat
    requires AllDigits(s)
  {
    if s == [] then 0
    else DigitsValue(s[..|s| - 1]) * 10 + (s[|s| - 1] as int - '0' as int)
  }

  /** Reading the decimal text of n gives back n. */
  lemma {:induction false} DigitsRoundTrip(n: nat)
    ensures DigitsValue(DecimalDigits(n)) == n
  {
    var s := DecimalDigits(n);
    if n >= 10 {
      assert s[..|s| - 1] == DecimalDigits(n / 10);
      DigitsRoundTrip(n / 10);
    }
  }

  /** A leading zero does not change the value of a digit string. */
  lemma {:induction false} LeadingZero(s: string)
    requires AllDigits(s)
    ensures AllDigits("0" + s) && DigitsValue("0" + s) == DigitsValue(s)
  {
    var z := "0" + s;
    if s != [] {
      assert z[..|z| - 1] == "0" + s[..|s| - 1];
      LeadingZero(s[..|s| - 1]);
    }
  }

  /**
   * `String.prototype.padStart(width, pad)` with a one-character pad:
   * copies of `pad` are put in front of `s` until it is `width` long;
   * a string that is already long enough is returned unchanged.
   */
  function PadStart(s: string, width: nat, pad: char): (r: string)
    ensures |r| == if |s| >= width then |s| else width
    ensures r[|r| - |s|..] == s
    ensures forall i :: 0 <= i < |r| - |s| ==> r[i] == pad
    decreases width - |s|
  {
    if |s| >= width then s
    else
      var r := PadStart([pad] + s, width, pad);
      assert r[|r| - |s|..] == r[|r| - |s| - 1..][1..];
      r
  }

  /** Zero-padding a digit string keeps it a digit string with the same value. */
  lemma {:induction false} PadKeepsValue(s: string, width: nat)
    requires AllDigits(s)
    ensures AllDigits(PadStart(s, width, '0'))
    ensures DigitsValue(PadStart(s, width, '0')) == DigitsValue(s)
    decreases width - |s|
  {
    if |s| < width {
      LeadingZero(s);
      PadKeepsValue("0" + s, width);
    }
  }

  /** One field of the clock text: decimal, padded to two places. */
  function Field(n: nat): string {
    PadStart(DecimalDigits(n), 2, '0')
  }

  /** A one-digit number gets a single leading zero. */
  lemma FieldOneDigit(n: nat)
    requires n < 10
    ensures Field(n) == ['0', DigitChar(n)]
  {
    assert DecimalDigits(n) == [DigitChar(n)];
  }

  /** The shape of a formatted time: digits, ':', two digits, ':', two digits. */
  predicate IsClockText(r: string) {
    && |r| >= 8
    && r[|r| - 6] == ':' && r[|r| - 3] == ':'
    && AllDigits(r[..|r| - 6])
    && AllDigits(r[|r| - 5..|r| - 3])
    && AllDigits(r[|r| - 2..])
  }

  /**
   * A field is a digit string of at least two places, exactly two below 100;
   * it starts with '0' only when the padding put one there, below 10.
   */
  lemma FieldShape(n: nat)
    ensures AllDigits(Field(n)) && DigitsValue(Field(n)) == n
    ensures |Field(n)| >= 2 && (|Field(n)| == 2 <==> n < 100)
    ensures Field(n)[0] == '0' ==> n < 10
  {
    PadKeepsValue(DecimalDigits(n), 2);
    DigitsRoundTrip(n);
  }

  /** Joining three digit fields with ':' gives a clock text whose parts are the fields. */
  lemma JoinShape(h: string, m: string, s: string)
    requires AllDigits(h) && AllDigits(m) && AllDigits(s)
    requires |h| >= 2 && |m| == 2 && |s| == 2
    ensures var r := h + ":" + m + ":" + s;
      IsClockText(r) && r[..|r| - 6] == h && r[|r| - 5..|r| - 3] == m && r[|r| - 2..] == s
  {
    var r := h + ":" + m + ":" + s;
    assert r[..|r| - 6] == h;
    assert r[|r| - 5..|r| - 3] == m;
    assert r[|r| - 2..] == s;
  }

  /** A duration is under one hundred hours iff its hour count is below 100. */
  lemma HoursBelow(t: nat)
    ensures SplitSeconds(t).hours < 100 <==> t < 100 * 3600
  {
  }

  /** Reads the three fields of a clock text. */
  function ReadClock(r: string): Clock
    requires IsClockText(r)
  {
    Clock(DigitsValue(r[..|r| - 6]), DigitsValue(r[|r| - 5..|r| - 3]), DigitsValue(r[|r| - 2..]))
  }

  /** Reads a clock text back into a number of seconds. */
  function ParseTime(r: string): nat
    requires IsClockText(r)
  {
    ClockSeconds(ReadClock(r))
  }

  /** Three digit fields joined by ':' read back as those fields. */
  lemma ReadJoin(h: string, m: string, s: string)
    requires AllDigits(h) && AllDigits(m) && AllDigits(s)
    requires |h| >= 2 && |m| == 2 && |s| == 2
    ensures IsClockText(h + ":" + m + ":" + s)
    ensures ReadClock(h + ":" + m + ":" + s) == Clock(DigitsValue(h), DigitsValue(m), DigitsValue(s))
  {
    JoinShape(h, m, s);
  }

  /** The fields of a normal reading, joined by ':', read back as that reading. */
  lemma ReadFields(c: Clock)
    requires Normal(c)
    ensures IsClockText(Field(c.hours) + ":" + Field(c.minutes) + ":" + Field(c.seconds))
    ensures ReadClock(Field(c.hours) + ":" + Field(c.minutes) + ":" + Field(c.seconds)) == c
    ensures |Field(c.hours) + ":" + Field(c.minutes) + ":" + Field(c.seconds)| == 8 <==> c.hours < 100
  {
    FieldShape(c.hours);
    FieldShape(c.minutes);
    FieldShape(c.seconds);
    ReadJoin(Field(c.hours), Field(c.minutes), Field(c.seconds));
  }

  /** The joined fields start with '0' only when the hours are a single digit. */
  lemma LeadingHourZero(c: Clock)
    ensures (Field(c.hours) + ":" + Field(c.minutes) + ":" + Field(c.seconds))[0] == '0' ==> c.hours < 10
  {
    FieldShape(c.hours);
    assert (Field(c.hours) + ":" + Field(c.minutes) + ":" + Field(c.seconds))[0] == Field(c.hours)[0];
  }

  /**
   * The widget's `formatTime`: hours, minutes and seconds of `totalSeconds`,
   * each at least two digits wide, separated by ':'. Its fields read as
   * the hours, the minutes (below 60) and the seconds (below 60) of the
   * duration, and nothing else: see `FormatRoundTrip`. The hour field is two
   * digits wide exactly when the duration is under one hundred hours, and a
   * wider hour field has no leading zero.
   */
  function FormatTime(totalSeconds: nat): (r: string)
    ensures IsClockText(r)
    ensures ReadClock(r) == SplitSeconds(totalSeconds)
    ensures |r| == 8 <==> totalSeconds < 100 * 3600
    ensures r[0] == '0' ==> |r| == 8
  {
    var c := SplitSeconds(totalSeconds);
    ReadFields(c);
    LeadingHourZero(c);
    HoursBelow(totalSeconds);
    Field(c.hours) + ":" + Field(c.minutes) + ":" + Field(c.seconds)
  }

  /** Formatting loses nothing: the text reads back as the same duration. */
  lemma FormatRoundTrip(t: nat)
    ensures ParseTime(FormatTime(t)) == t
  {
  }

  /** Two minutes and five seconds are shown as "00:02:05". */
  lemma FormatSample()
    ensures FormatTime(125) == "00:02:05"
  {
    assert SplitSeconds(125) == Clock(0, 2, 5);
    FieldOneDigit(0);
    FieldOneDigit(2);
    FieldOneDigit(5);
    assert FormatTime(125) == Field(0) + ":" + Field(2) + ":" + Field(5);
  }

  /** One hundred hours are shown as "100:00:00", with no padding on the hours. */
  lemma FormatHundredHours()
    ensures FormatTime(100 * 3600) == "100:00:00"
  {
    assert SplitSeconds(100 * 3600) == Clock(100, 0, 0);
    assert DecimalDigits(100) == "100" by {
      assert DecimalDigits(1) == "1";
      assert DecimalDigits(10) == "10";
    }
    FieldOneDigit(0);
    assert FormatTime(100 * 3600) == Field(100) + ":" + Field(0) + ":" + Field(0);
  }

  /** Distinct durations are displayed as distinct texts. */
  lemma FormatInjective(t1: nat, t2: nat)
    ensures t1 != t2 ==> FormatTime(t1) != FormatTime(t2)
  {
    FormatRoundTrip(t1);
    FormatRoundTrip(t2);
  }
}
