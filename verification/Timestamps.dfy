/** Millisecond timestamps of cut lists: reading with checked 64-bit arithmetic, and printing. */
module Timestamps {
  import opened Prelude
  import opened Numerals
  import opened Text

  const MAX_INT64: int := 0x7FFF_FFFF_FFFF_FFFF

  /** strconv.ParseUint(value, 10, 63): digits only, and no value above the signed maximum. */
  function ParseUnsigned(s: string): Option<int> {
    if s == "" || !AllDigits(s) || Value(s) > MAX_INT64 then None else Some(Value(s))
  }

  function CheckedMul(a: int, b: int): Option<int>
    requires b > 0
  {
    if a < 0 || b < 0 || a > MAX_INT64 / b then None else Some(a * b)
  }

  function CheckedAdd(a: int, b: int): Option<int> {
    if a < 0 || b < 0 || a > MAX_INT64 - b then None else Some(a + b)
  }

  function Scaled(fraction: int, digits: nat): int {
    if digits == 1 then fraction * 100 else if digits == 2 then fraction * 10 else fraction
  }

  function SecondsSum(seconds: int, fraction: int): Option<int> {
    var result := CheckedMul(seconds, 1000);
    if result.None? then None else CheckedAdd(result.value, fraction)
  }

  function ClockSum(h: int, m: int, millis: int): Option<int> {
    var hours, minutes := CheckedMul(h, 3600000), CheckedMul(m, 60000);
    if hours.None? || minutes.None? then None
    else
      var base := CheckedAdd(hours.value, minutes.value);
      if base.None? then None else CheckedAdd(base.value, millis)
  }

  function FractionMillis(s: string): Option<int> {
    if |s| > 3 || s == "" || ParseUnsigned(s).None? then None else Some(Scaled(ParseUnsigned(s).value, |s|))
  }

  function ParseSecondsMillis(s: string): Option<int> {
    var parts := Split(s, '.');
    if |parts| > 2 || parts[0] == "" then None
    else
      var seconds := ParseUnsigned(parts[0]);
      var fraction := if |parts| == 2 then FractionMillis(parts[1]) else Some(0);
      if seconds.None? || fraction.None? then None else SecondsSum(seconds.value, fraction.value)
  }

  function ParseTimestamp(s: string): Option<int> {
    var value := TrimSpace(s);
    if value == "" || '/' in value || '\\' in value then None
    else
      var parts := Split(value, ':');
      if |parts| == 1 then ParseSecondsMillis(parts[0])
      else if |parts| != 2 && |parts| != 3 then None
      else
        var h := if |parts| == 3 then ParseUnsigned(parts[0]) else Some(0);
        var m := ParseUnsigned(parts[|parts| - 2]);
        if h.None? || m.None? || m.value >= 60 then None
        else
          var sec := ParseSecondsMillis(parts[|parts| - 1]);
          if sec.None? || sec.value >= 60000 then None
          else ClockSum(h.value, m.value, sec.value)
  }

  function Hours(ms: nat): nat { ms / 3600000 }
  function Minutes(ms: nat): nat { ms % 3600000 / 60000 }
  function Seconds(ms: nat): nat { ms % 60000 / 1000 }
  function Fraction(ms: nat): nat { ms % 1000 }

  function FormatTimestamp(ms: nat): string {
    Padded(Hours(ms), 2) + ":" + Padded(Minutes(ms), 2) + ":" + Padded(Seconds(ms), 2) + "." + Padded(Fraction(ms), 3)
  }

  // ------------------------------------------------------------- what a timestamp means

  /** The written form [[hours:]minutes:]seconds[.fraction]. */
  datatype Clock = Clock(hours: Option<string>, minutes: Option<string>, seconds: string, fraction: Option<string>)

  predicate Numeral(s: string) {
    s != "" && AllDigits(s)
  }

  predicate SecondsForm(seconds: string, fraction: Option<string>) {
    Numeral(seconds) && (fraction.Some? ==> Numeral(fraction.value) && |fraction.value| <= 3)
  }

  /** Once minutes are written, minutes and seconds stay below sixty. */
  predicate WellFormed(c: Clock) {
    && SecondsForm(c.seconds, c.fraction)
    && (c.hours.Some? ==> c.minutes.Some? && Numeral(c.hours.value))
    && (c.minutes.Some? ==> Numeral(c.minutes.value) && Value(c.minutes.value) < 60 && Value(c.seconds) < 60)
  }

  function SecondsText(seconds: string, fraction: Option<string>): string {
    seconds + match fraction case None => "" case Some(f) => "." + f
  }

  function Written(c: Clock): string {
    var s := SecondsText(c.seconds, c.fraction);
    var ms := match c.minutes case None => s case Some(m) => m + ":" + s;
    match c.hours case None => ms case Some(h) => h + ":" + ms
  }

  function DigitAt(f: string, i: nat): nat
    requires AllDigits(f)
  {
    if i < |f| then f[i] as int - '0' as int else 0
  }

  /** The tenths, hundredths and thousandths of a second that a decimal fraction writes, in milliseconds. */
  function FractionValue(f: string): nat
    requires AllDigits(f)
  {
    100 * DigitAt(f, 0) + 10 * DigitAt(f, 1) + DigitAt(f, 2)
  }

  /** Of up to three digits nothing is lost: the milliseconds are the digits over the power of ten of their count. */
  lemma FractionIsExact(f: string)
    requires Numeral(f) && |f| <= 3
    ensures FractionValue(f) * Power10(|f|) == Value(f) * 1000
    ensures Scaled(Value(f), |f|) == FractionValue(f)
  {
    assert Power10(1) == 10 && Power10(2) == 100 && Power10(3) == 1000;
    var n := |f| - 1;
    assert Value(f) == 10 * Value(f[..n]) + DigitAt(f, n);
    if n > 0 {
      assert f[..n][..n - 1] == f[..n - 1];
      assert Value(f[..n]) == 10 * Value(f[..n - 1]) + DigitAt(f, n - 1);
      if n > 1 {
        assert f[..1][..0] == "";
        assert Value(f[..1]) == DigitAt(f, 0);
      } else {
        assert f[..0] == "";
      }
    } else {
      assert f[..0] == "";
    }
  }

  function SecondsValue(seconds: string, fraction: Option<string>): int
    requires SecondsForm(seconds, fraction)
  {
    Value(seconds) * 1000 + match fraction case None => 0 case Some(f) => FractionValue(f)
  }

  /** The exact number of milliseconds, with no bound on its size. */
  function Millis(c: Clock): int
    requires WellFormed(c)
  {
    (match c.hours case None => 0 case Some(h) => Value(h) * 3600000)
    + (match c.minutes case None => 0 case Some(m) => Value(m) * 60000)
    + SecondsValue(c.seconds, c.fraction)
  }

  lemma {:induction false} ValueBound(s: string)
    requires AllDigits(s)
    ensures Value(s) < Power10(|s|)
  {
    if s != "" {
      ValueBound(s[..|s| - 1]);
    }
  }

  lemma ScaledBound(f: string)
    requires Numeral(f) && |f| <= 3
    ensures 0 <= Value(f) < 1000 && 0 <= Scaled(Value(f), |f|) < 1000
  {
    ValueBound(f);
    assert Power10(1) == 10 && Power10(2) == 100 && Power10(3) == 1000;
  }

  function Fits(v: int): Option<int> {
    if v <= MAX_INT64 then Some(v) else None
  }

  /** The checked product is exact, or absent just when the true result does not fit. */
  lemma CheckedMulExact(a: int, b: int)
    requires b > 0 && a >= 0
    ensures CheckedMul(a, b) == Fits(a * b)
  {
    var q, r := MAX_INT64 / b, MAX_INT64 % b;
    assert MAX_INT64 == b * q + r && 0 <= r < b;
    if a <= q {
      MulLessEq(a, q, b);
    } else {
      MulLessEq(q + 1, a, b);
    }
  }

  lemma SecondsSumExact(seconds: int, fraction: int)
    requires seconds >= 0 && 0 <= fraction
    ensures SecondsSum(seconds, fraction) == Fits(seconds * 1000 + fraction)
  {
    CheckedMulExact(seconds, 1000);
    hide CheckedMul;
  }

  lemma ClockSumExact(h: int, m: int, millis: int)
    requires h >= 0 && m >= 0 && millis >= 0
    ensures var total := h * 3600000 + m * 60000 + millis;
      ClockSum(h, m, millis) == Fits(total)
  {
    CheckedMulExact(h, 3600000);
    CheckedMulExact(m, 60000);
    hide CheckedMul;
  }

  lemma FractionRead(f: string)
    requires Numeral(f) && |f| <= 3
    ensures FractionMillis(f) == Some(Scaled(Value(f), |f|)) && 0 <= Scaled(Value(f), |f|) < 1000
  {
    ScaledBound(f);
  }

  lemma FractionSplit(seconds: string, f: string)
    requires Numeral(seconds) && Numeral(f)
    ensures Split(seconds + "." + f, '.') == [seconds, f]
  {
    DigitsExclude(seconds, '.');
    DigitsExclude(f, '.');
    hide Split, AllDigits;
    assert seconds + "." + f == seconds + ['.'] + f;
    SplitAtFirst(seconds, '.', f);
    SplitWhole(f, '.');
  }

  lemma WholeAccepted(text: string)
    requires Numeral(text) && Split(text, '.') == [text]
    ensures ParseSecondsMillis(text) == Fits(Value(text) * 1000)
  {
    SecondsSumExact(Value(text), 0);
    hide Split, SecondsSum, Value, AllDigits;
  }

  lemma FractionAccepted(text: string, seconds: string, f: string)
    requires SecondsForm(seconds, Some(f)) && Split(text, '.') == [seconds, f]
    ensures var v := Value(seconds) * 1000 + FractionValue(f);
      ParseSecondsMillis(text) == Fits(v)
  {
    hide Split, SecondsSum, Value, AllDigits, Scaled, FractionMillis, FractionValue;
    FractionRead(f);
    FractionIsExact(f);
    SecondsSumExact(Value(seconds), FractionValue(f));
  }

  lemma SecondsAccepted(seconds: string, fraction: Option<string>)
    requires SecondsForm(seconds, fraction)
    ensures var v := SecondsValue(seconds, fraction);
      ParseSecondsMillis(SecondsText(seconds, fraction)) == Fits(v)
  {
    hide ParseSecondsMillis, FractionValue, Value, AllDigits;
    match fraction
    case None =>
      DigitsExclude(seconds, '.');
      SplitWhole(seconds, '.');
      WholeAccepted(seconds);
      assert SecondsText(seconds, fraction) == seconds + "" == seconds;
    case Some(f) =>
      FractionSplit(seconds, f);
      assert seconds + ("." + f) == seconds + "." + f;
      FractionAccepted(seconds + "." + f, seconds, f);
  }

  lemma SecondsWithin(seconds: string, fraction: Option<string>)
    requires SecondsForm(seconds, fraction)
    ensures Value(seconds) * 1000 <= SecondsValue(seconds, fraction) < Value(seconds) * 1000 + 1000
  {
    if fraction.Some? {
      ScaledBound(fraction.value);
      FractionIsExact(fraction.value);
    }
    hide Value, Scaled, FractionValue;
  }

  lemma SecondsRead(s: string) returns (seconds: string, fraction: Option<string>)
    requires ParseSecondsMillis(s).Some?
    ensures SecondsForm(seconds, fraction) && SecondsText(seconds, fraction) == s
    ensures ParseSecondsMillis(s).value == SecondsValue(seconds, fraction)
  {
    var parts := Split(s, '.');
    SplitJoined(s, '.');
    seconds := parts[0];
    fraction := if |parts| == 2 then Some(parts[1]) else None;
    assert |parts| == 2 ==> s == parts[0] + "." + Joined(parts[1..], '.') && Joined(parts[1..], '.') == parts[1];
    SecondsAccepted(seconds, fraction);
  }

  lemma SecondsPlain(seconds: string, fraction: Option<string>)
    requires SecondsForm(seconds, fraction)
    ensures var s := SecondsText(seconds, fraction); s != "" && IsDigit(s[0]) && Plain(s)
  {
    assert Plain(seconds);
    if fraction.Some? {
      assert Plain(fraction.value) && Plain(".");
    }
  }

  /** Digits and dots. */
  predicate Plain(s: string) {
    forall i :: 0 <= i < |s| ==> IsDigit(s[i]) || s[i] == '.'
  }

  lemma MinutesSplit(m: string, s: string)
    requires Numeral(m) && Plain(s)
    ensures Split(m + ":" + s, ':') == [m, s]
  {
    DigitsExclude(m, ':');
    hide AllDigits, Split;
    assert m + ":" + s == m + [':'] + s;
    SplitAtFirst(m, ':', s);
    SplitWhole(s, ':');
  }

  lemma HoursSplit(h: string, m: string, s: string)
    requires Numeral(h) && Numeral(m) && Plain(s)
    ensures Split(h + ":" + (m + ":" + s), ':') == [h, m, s]
  {
    MinutesSplit(m, s);
    DigitsExclude(h, ':');
    hide AllDigits, Split;
    var rest := m + ":" + s;
    assert h + ":" + rest == h + [':'] + rest;
    SplitAtFirst(h, ':', rest);
  }

  lemma WrittenSplits(c: Clock)
    requires WellFormed(c)
    ensures Split(Written(c), ':') ==
      (match c.hours case None => [] case Some(h) => [h]) + (match c.minutes case None => [] case Some(m) => [m]) + [SecondsText(c.seconds, c.fraction)]
  {
    var s := SecondsText(c.seconds, c.fraction);
    SecondsPlain(c.seconds, c.fraction);
    if c.minutes.None? {
      SplitWhole(s, ':');
    } else if c.hours.None? {
      MinutesSplit(c.minutes.value, s);
    } else {
      HoursSplit(c.hours.value, c.minutes.value, s);
    }
  }

  /** A written clock has only digits, colons and dots. */
  lemma WrittenPlain(c: Clock)
    requires WellFormed(c)
    ensures Written(c) != "" && NoSpace(Written(c)) && '/' !in Written(c) && '\\' !in Written(c)
  {
    SecondsPlain(c.seconds, c.fraction);
    var w := Written(c);
    assert forall i :: 0 <= i < |w| ==> IsDigit(w[i]) || w[i] == '.' || w[i] == ':';
  }

  lemma NumeralRead(s: string)
    requires Numeral(s)
    ensures ParseUnsigned(s) == Fits(Value(s))
  {}

  lemma OnlySeconds(w: string, s: string)
    requires w != "" && '/' !in w && '\\' !in w && TrimSpace(w) == w && Split(w, ':') == [s]
    ensures ParseTimestamp(w) == ParseSecondsMillis(s)
  {
    hide Split, TrimSpace, ParseSecondsMillis;
  }

  /** The tail of the parser once the colon-separated parts are known. */
  lemma MinutesAccepted(s: string, h: int, hours: Option<int>, m: string, seconds: string, v: int)
    requires h >= 0 && hours == Fits(h) && Numeral(m) && Value(m) < 60 && 0 <= v < 60000
    requires ParseSecondsMillis(seconds) == Some(v)
    requires var w := TrimSpace(s); w != "" && '/' !in w && '\\' !in w
    requires var parts := Split(TrimSpace(s), ':');
      (parts == [m, seconds] && hours == Some(0)) || (|parts| == 3 && parts[1..] == [m, seconds] && ParseUnsigned(parts[0]) == hours)
    ensures var total := h * 3600000 + Value(m) * 60000 + v;
      ParseTimestamp(s) == Fits(total)
  {
    NumeralRead(m);
    ClockSumExact(h, Value(m), v);
    hide ClockSum, Split, TrimSpace, Value, AllDigits, ParseUnsigned, ParseSecondsMillis;
    var parts := Split(TrimSpace(s), ':');
    assert |parts| == 3 ==> parts[1] == parts[1..][0] && parts[2] == parts[1..][1];
  }

  lemma Accepted(c: Clock)
    requires WellFormed(c)
    ensures ParseTimestamp(Written(c)) == Fits(Millis(c))
  {
    hide Written, Split, AllDigits, Value, SecondsText, ParseSecondsMillis, SecondsValue, TrimSpace, SecondsForm, NoSpace, ParseTimestamp;
    var s, w, v := SecondsText(c.seconds, c.fraction), Written(c), SecondsValue(c.seconds, c.fraction);
    WrittenSplits(c);
    WrittenPlain(c);
    TrimSpaceKeeps(w);
    SecondsAccepted(c.seconds, c.fraction);
    SecondsWithin(c.seconds, c.fraction);
    if c.minutes.None? {
      OnlySeconds(w, s);
    } else if c.hours.None? {
      assert Split(w, ':') == [c.minutes.value, s];
      MinutesAccepted(w, 0, Some(0), c.minutes.value, s, v);
    } else {
      assert Split(w, ':') == [c.hours.value, c.minutes.value, s];
      NumeralRead(c.hours.value);
      MinutesAccepted(w, Value(c.hours.value), ParseUnsigned(c.hours.value), c.minutes.value, s, v);
    }
  }

  lemma Read(s: string) returns (c: Clock)
    requires ParseTimestamp(s).Some?
    ensures WellFormed(c) && Written(c) == TrimSpace(s) && Millis(c) == ParseTimestamp(s).value
  {
    var value := TrimSpace(s);
    var parts := Split(value, ':');
    SplitJoined(value, ':');
    var n := |parts|;
    var seconds, fraction := SecondsRead(parts[n - 1]);
    SecondsWithin(seconds, fraction);
    c := Clock(if n == 3 then Some(parts[0]) else None, if n >= 2 then Some(parts[n - 2]) else None, seconds, fraction);
    if n == 2 {
      assert parts[1..] == [parts[1]];
      assert value == parts[0] + ":" + parts[1];
    } else if n == 3 {
      assert parts[1..][1..] == [parts[2]] && Joined(parts[1..], ':') == parts[1] + ":" + parts[2];
      assert value == parts[0] + ":" + (parts[1] + ":" + parts[2]);
    }
  }

  ghost predicate Denotes(s: string, n: int) {
    exists c :: WellFormed(c) && Written(c) == TrimSpace(s) && Millis(c) == n
  }

  lemma ParseTrims(s: string)
    ensures ParseTimestamp(TrimSpace(s)) == ParseTimestamp(s)
  {
    TrimSpaceTrims(s);
    TrimSpaceKeeps(TrimSpace(s));
  }

  /** Reading is exact: a text is accepted with value n just when, trimmed, it is a well-formed clock that denotes n
      and n fits in a signed 64-bit integer.  No input wraps around. */
  lemma ParseTimestampExact(s: string, n: int)
    ensures ParseTimestamp(s) == Some(n) <==> n <= MAX_INT64 && Denotes(s, n)
  {
    hide ParseTimestamp, WellFormed, Written, Millis, TrimSpace;
    ParseTrims(s);
    if ParseTimestamp(s) == Some(n) {
      var c := Read(s);
      Accepted(c);
    }
    if n <= MAX_INT64 && Denotes(s, n) {
      var c :| WellFormed(c) && Written(c) == TrimSpace(s) && Millis(c) == n;
      Accepted(c);
    }
  }

  function Formatted(ms: nat): Clock {
    Clock(Some(Padded(Hours(ms), 2)), Some(Padded(Minutes(ms), 2)), Padded(Seconds(ms), 2), Some(Padded(Fraction(ms), 3)))
  }

  lemma TimeParts(ms: nat)
    ensures Minutes(ms) < 60 && Seconds(ms) < 60 && Fraction(ms) < 1000
    ensures ms == Hours(ms) * 3600000 + Minutes(ms) * 60000 + Seconds(ms) * 1000 + Fraction(ms)
  {
    var hour, minute := ms % 3600000, ms % 60000;
    ModOfMultiple(ms, 60, 60000, 3600000);
    ModOfMultiple(ms, 60, 1000, 60000);
    assert ms == 3600000 * Hours(ms) + hour && hour == 60000 * Minutes(ms) + minute && minute == 1000 * Seconds(ms) + Fraction(ms);
  }

  lemma FormattedMeans(ms: nat)
    ensures WellFormed(Formatted(ms)) && Written(Formatted(ms)) == FormatTimestamp(ms) && Millis(Formatted(ms)) == ms
  {
    TimeParts(ms);
    ValueOfPadded(Hours(ms), 2);
    ValueOfPadded(Minutes(ms), 2);
    ValueOfPadded(Seconds(ms), 2);
    ValueOfPadded(Fraction(ms), 3);
    ThreeDigits(Fraction(ms));
    hide Padded, AllDigits, Value, Power10, FractionValue, Hours, Minutes, Seconds, Fraction;
    var h, m, s, f := Padded(Hours(ms), 2), Padded(Minutes(ms), 2), Padded(Seconds(ms), 2), Padded(Fraction(ms), 3);
    assert h + ":" + (m + ":" + (s + ("." + f))) == h + ":" + m + ":" + s + "." + f;
  }

  lemma ThreeDigits(f: nat)
    requires f < 1000
    ensures |Padded(f, 3)| == 3 && AllDigits(Padded(f, 3)) && FractionValue(Padded(f, 3)) == f
  {
    ValueOfPadded(f, 3);
    assert Power10(1) == 10 && Power10(2) == 100 && Power10(3) == 1000;
    DecimalWidth(f, 3, 1000);
    FractionIsExact(Padded(f, 3));
  }

  /** The written form: two digits each for minutes and seconds, three for the fraction, and for the hours two or, from a
      hundred on, as many as they have. */
  lemma FormatShape(ms: nat)
    ensures var s := FormatTimestamp(ms); var h := |s| - 10;
      && h == (if Hours(ms) < 100 then 2 else |Decimal(Hours(ms))|) && h >= 2
      && s[h] == ':' && s[h + 3] == ':' && s[h + 6] == '.'
      && AllDigits(s[..h]) && AllDigits(s[h + 1..h + 3]) && AllDigits(s[h + 4..h + 6]) && AllDigits(s[h + 7..])
  {
    TimeParts(ms);
    ValueOfPadded(Hours(ms), 2);
    TwoDigits(Minutes(ms));
    TwoDigits(Seconds(ms));
    ThreeDigits(Fraction(ms));
    ValueOfPadded(Fraction(ms), 3);
    HoursWidth(Hours(ms));
    hide Hours, Minutes, Seconds, Fraction, Padded, Value, Decimal;
    var s, a, b, c, d := FormatTimestamp(ms), Padded(Hours(ms), 2), Padded(Minutes(ms), 2), Padded(Seconds(ms), 2), Padded(Fraction(ms), 3);
    assert s == a + ":" + b + ":" + c + "." + d;
    var h := |a|;
    assert s[..h] == a && s[h + 1..h + 3] == b && s[h + 4..h + 6] == c && s[h + 7..] == d;
  }

  lemma TwoDigits(n: nat)
    requires n < 60
    ensures |Padded(n, 2)| == 2 && AllDigits(Padded(n, 2))
  {
    assert Power10(1) == 10 && Power10(2) == 100;
    DecimalWidth(n, 2, 100);
    ValueOfPadded(n, 2);
  }

  lemma HoursWidth(n: nat)
    ensures |Padded(n, 2)| == if n < 100 then 2 else |Decimal(n)|
    ensures n >= 100 ==> |Decimal(n)| >= 3
  {
    assert Power10(1) == 10 && Power10(2) == 100;
    if n < 100 {
      DecimalWidth(n, 2, 100);
    } else {
      DecimalLong(n);
    }
  }

  lemma DecimalLong(n: nat)
    requires n >= 100
    ensures |Decimal(n)| >= 3
  {
    assert |Decimal(n / 10)| >= 2;
  }

  /** Every non-negative 64-bit time survives printing and reading. */
  lemma TimestampRoundTrip(ms: nat)
    requires ms <= MAX_INT64
    ensures ParseTimestamp(FormatTimestamp(ms)) == Some(ms)
  {
    FormattedMeans(ms);
    Accepted(Formatted(ms));
  }
}
