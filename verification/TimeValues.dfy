/** TIME values: printing a span of microseconds and reading it back with saturating arithmetic. */
module TimeValues {
  import opened Bytes

  const I64_MAX: int := 0x7FFF_FFFF_FFFF_FFFF
  const I64_MIN: int := -0x8000_0000_0000_0000
  const U32_MAX: int := 0xFFFF_FFFF
  const MICROS: int := 1_000_000
  /** The largest magnitude a span can have. */
  const MAX_MICROS: int := I64_MAX / 1000

  // ---------------------------------------------------------------- decimal digits

  predicate IsDigit(c: char) { '0' <= c <= '9' }

  function DigitValue(c: char): nat
    requires IsDigit(c)
  {
    c as int - '0' as int
  }

  function DigitChar(d: nat): (c: char)
    requires d < 10
    ensures IsDigit(c) && DigitValue(c) == d
  {
    (d + '0' as int) as char
  }

  predicate AllDigits(s: string) { forall i :: 0 <= i < |s| ==> IsDigit(s[i]) }

  function Decimal(n: nat): (s: string)
    ensures AllDigits(s) && s != []
  {
    if n < 10 then [DigitChar(n)] else Decimal(n / 10) + [DigitChar(n % 10)]
  }

  function DecimalValue(s: string): nat
    requires AllDigits(s)
  {
    if s == [] then 0 else 10 * DecimalValue(s[..|s| - 1]) + DigitValue(s[|s| - 1])
  }

  lemma {:induction false} DecimalRoundTrip(n: nat)
    ensures DecimalValue(Decimal(n)) == n
  {
    if n >= 10 {
      DecimalRoundTrip(n / 10);
      assert Decimal(n)[..|Decimal(n)| - 1] == Decimal(n / 10);
    } else {
      assert Decimal(n)[..0] == [];
    }
  }

  /** Zero-padded to at least `width` digits. */
  function Padded(n: nat, width: nat): (s: string)
    ensures AllDigits(s) && s != []
  {
    Zeros(if |Decimal(n)| < width then width - |Decimal(n)| else 0) + Decimal(n)
  }

  function Zeros(k: nat): (s: string)
    ensures |s| == k && AllDigits(s)
  {
    if k == 0 then [] else ['0'] + Zeros(k - 1)
  }

  lemma {:induction false} LeadingZeros(k: nat, s: string)
    requires AllDigits(s)
    ensures AllDigits(Zeros(k) + s) && DecimalValue(Zeros(k) + s) == DecimalValue(s)
    decreases k, |s|
  {
    if s != [] {
      LeadingZeros(k, s[..|s| - 1]);
      assert (Zeros(k) + s)[..k + |s| - 1] == Zeros(k) + s[..|s| - 1];
    } else if k > 0 {
      LeadingZeros(k - 1, ['0']);
      ZerosSnoc(k - 1);
      assert Zeros(k) + s == Zeros(k - 1) + ['0'];
      assert ['0'][..0] == [];
    } else {
      assert Zeros(k) + s == s;
    }
  }

  lemma {:induction false} ZerosSnoc(k: nat)
    ensures Zeros(k) + ['0'] == Zeros(k + 1)
  {
    if k > 0 {
      ZerosSnoc(k - 1);
    }
  }

  lemma PaddedRoundTrip(n: nat, width: nat)
    ensures DecimalValue(Padded(n, width)) == n
  {
    DecimalRoundTrip(n);
    LeadingZeros(if |Decimal(n)| < width then width - |Decimal(n)| else 0, Decimal(n));
  }

  lemma {:induction false} DecimalWidth(n: nat, k: nat)
    requires k > 0 && n < Pow10(k)
    ensures |Decimal(n)| <= k
  {
    if n >= 10 {
      assert k > 1;
      DecimalWidth(n / 10, k - 1);
    }
  }

  function Pow10(k: nat): (p: nat)
    ensures p >= 1
  {
    if k == 0 then 1 else 10 * Pow10(k - 1)
  }

  // ---------------------------------------------------------------- printing

  /** Whole seconds and the remaining microseconds, both rounded toward zero. */
  function NumSeconds(m: int): int { if m >= 0 then m / MICROS else -((-m) / MICROS) }
  function SubsecMicros(m: int): int { if m >= 0 then m % MICROS else -((-m) % MICROS) }

  function Abs(x: int): nat { if x < 0 then -x else x }

  function Clock(total: nat): string {
    Padded(total / 3600, 2) + [':'] + (Padded(total % 3600 / 60, 2) + [':'] + Padded(total % 60, 2))
  }

  function FormatTimedelta(m: int): string {
    var neg := NumSeconds(m) < 0 || (NumSeconds(m) == 0 && SubsecMicros(m) < 0);
    var micros := Abs(SubsecMicros(m));
    var body := if micros > 0 then Clock(Abs(NumSeconds(m))) + ['.'] + Padded(micros, 6) else Clock(Abs(NumSeconds(m)));
    if neg then ['-'] + body else body
  }

  // ---------------------------------------------------------------- 64-bit arithmetic

  function Clamp(x: int, lo: int, hi: int): int
    requires lo <= hi
  {
    if x < lo then lo else if x > hi then hi else x
  }

  predicate IsI64(x: int) { I64_MIN <= x <= I64_MAX }

  function SatAdd(x: int, y: int): (r: int)
    ensures IsI64(r) && (IsI64(x + y) ==> r == x + y)
  {
    Clamp(x + y, I64_MIN, I64_MAX)
  }

  function SatMul(x: int, y: int): (r: int)
    ensures IsI64(r) && (IsI64(x * y) ==> r == x * y)
  {
    Clamp(x * y, I64_MIN, I64_MAX)
  }

  function Pow60(i: nat): (p: nat)
    ensures p >= 1
  {
    if i == 0 then 1 else 60 * Pow60(i - 1)
  }

  /** The weight of the i-th part from the right: a power of 60, or the maximum once that overflows. */
  function Multiplier(i: nat): (r: int)
    ensures IsI64(r)
  {
    var p := Pow60(i % 0x1_0000_0000);
    if p <= I64_MAX then p else I64_MAX
  }

  // ---------------------------------------------------------------- reading

  /** A signed 64-bit integer: an optional sign and at least one digit, in range. */
  function ParseI64(s: string): (r: Option<int>)
    ensures r.Some? ==> IsI64(r.value)
  {
    var signed := s != [] && (s[0] == '+' || s[0] == '-');
    var digits := if signed then s[1..] else s;
    if digits == [] || !AllDigits(digits) then None
    else
      var v: int := if signed && s[0] == '-' then -(DecimalValue(digits) as int) else DecimalValue(digits);
      if IsI64(v) then Some(v) else None
  }

  /** An unsigned 32-bit integer: an optional plus sign and at least one digit, in range. */
  function ParseU32(s: string): (r: Option<nat>)
    ensures r.Some? ==> r.value <= U32_MAX
  {
    var digits := if s != [] && s[0] == '+' then s[1..] else s;
    if digits == [] || !AllDigits(digits) || DecimalValue(digits) > U32_MAX then None else Some(DecimalValue(digits))
  }

  function Split(s: string, c: char): (parts: seq<string>)
    ensures |parts| >= 1
  {
    if s == [] then [[]]
    else if s[0] == c then [[]] + Split(s[1..], c)
    else var later := Split(s[1..], c); [[s[0]] + later[0]] + later[1..]
  }

  /** Cut at the first `c`; the second part is absent if there is none. */
  function CutAt(s: string, c: char): (string, Option<string>) {
    if s == [] then ([], None)
    else if s[0] == c then ([], Some(s[1..]))
    else var (a, b) := CutAt(s[1..], c); ([s[0]] + a, b)
  }

  function TrimDashes(s: string): string {
    if s != [] && s[0] == '-' then TrimDashes(s[1..]) else s
  }

  function PartValue(p: string): (v: int)
    ensures IsI64(v)
  {
    match ParseI64(p)
    case Some(v) => v
    case None => 0
  }

  /** The running total after the part with the i-th weight. */
  function Accumulated(secs: int, part: string, i: nat): (r: int)
    ensures IsI64(r)
  {
    SatAdd(secs, SatMul(PartValue(part), Multiplier(i)))
  }

  /** Seconds from the parts, rightmost first, starting with the i-th weight. */
  function Seconds(parts: seq<string>, i: nat, secs: int): int
    decreases |parts|
  {
    if parts == [] then secs
    else Seconds(parts[..|parts| - 1], i + 1, Accumulated(secs, parts[|parts| - 1], i))
  }

  lemma SecondsStep(parts: seq<string>, i: nat, secs: int)
    requires i < |parts|
    ensures Seconds(parts[..|parts| - i], i, secs)
            == Seconds(parts[..|parts| - (i + 1)], i + 1, Accumulated(secs, parts[|parts| - 1 - i], i))
  {
    var left := parts[..|parts| - i];
    assert left[..|left| - 1] == parts[..|parts| - (i + 1)];
  }

  datatype TimeValue = Span(micros: int) | Text(text: string)

  /** The fraction in microseconds: at most six characters count, scaled by the digits that are missing. */
  function Fraction(frac: string): Option<int> {
    var digits := if |frac| > 6 then frac[..6] else frac;
    match ParseU32(digits)
    case None => None
    case Some(v) => Some(SatMul(v, Pow10(6 - |digits|)))
  }

  function Total(secs: int, micros: int): (t: int)
    ensures -MAX_MICROS <= t <= MAX_MICROS
  {
    Clamp(SatAdd(SatMul(secs, MICROS), micros), -MAX_MICROS, MAX_MICROS)
  }

  /** Microseconds from the text without its sign, if its fraction can be read. */
  function Micros(t: string): Option<int> {
    var (time, frac) := CutAt(t, '.');
    match (if frac.Some? then Fraction(frac.value) else Some(0))
    case None => None
    case Some(micros) => Some(Total(Seconds(Split(time, ':'), 0, 0), micros))
  }

  function ConvertTimedelta(s: string): TimeValue {
    match Micros(TrimDashes(s))
    case None => Text(TrimDashes(s))
    case Some(total) => Span(if s != [] && s[0] == '-' then -total else total)
  }

  /** The accumulating loop over the parts, rightmost first; the sum never leaves the 64-bit range. */
  method AccumulateSeconds(parts: seq<string>) returns (secs: int)
    ensures secs == Seconds(parts, 0, 0) && IsI64(secs)
  {
    secs := 0;
    assert parts[..|parts|] == parts;
    for i := 0 to |parts|
      invariant IsI64(secs)
      invariant Seconds(parts[..|parts| - i], i, secs) == Seconds(parts, 0, 0)
    {
      SecondsStep(parts, i, secs);
      secs := Accumulated(secs, parts[|parts| - 1 - i], i);
    }
  }

  /** For every input text, a span result is within the range the type can hold. */
  method ConvertTimedeltaLoop(s: string) returns (r: TimeValue)
    ensures r == ConvertTimedelta(s)
    ensures r.Span? ==> -MAX_MICROS <= r.micros <= MAX_MICROS
  {
    var neg := s != [] && s[0] == '-';
    var t := TrimDashes(s);
    var (time, frac) := CutAt(t, '.');
    var secs := AccumulateSeconds(Split(time, ':'));
    var micros := 0;
    if frac.Some? {
      var f := Fraction(frac.value);
      if f.None? {
        return Text(t);
      }
      micros := f.value;
    }
    var total := Total(secs, micros);
    r := Span(if neg then -total else total);
  }

  // ---------------------------------------------------------------- round trip

  lemma {:induction false} SplitAtFirst(a: string, c: char, b: string)
    requires c !in a
    ensures Split(a + [c] + b, c) == [a] + Split(b, c)
  {
    var s := a + [c] + b;
    if a == [] {
      assert s[1..] == b;
    } else {
      SplitAtFirst(a[1..], c, b);
      assert s[1..] == a[1..] + [c] + b;
      assert [a[0]] + a[1..] == a;
    }
  }

  lemma {:induction false} SplitNowhere(a: string, c: char)
    requires c !in a
    ensures Split(a, c) == [a]
  {
    if a != [] {
      SplitNowhere(a[1..], c);
      assert [a[0]] + a[1..] == a;
    }
  }

  lemma {:induction false} CutAtFirst(a: string, c: char, b: string)
    requires c !in a
    ensures CutAt(a + [c] + b, c) == (a, Some(b))
  {
    var s := a + [c] + b;
    if a == [] {
      assert s[1..] == b;
    } else {
      CutAtFirst(a[1..], c, b);
      assert s[1..] == a[1..] + [c] + b;
      assert [a[0]] + a[1..] == a;
    }
  }

  lemma {:induction false} CutNowhere(a: string, c: char)
    requires c !in a
    ensures CutAt(a, c) == (a, None)
  {
    if a != [] {
      CutNowhere(a[1..], c);
      assert [a[0]] + a[1..] == a;
    }
  }

  lemma PaddedPart(n: nat, width: nat)
    requires n <= I64_MAX
    ensures PartValue(Padded(n, width)) == n
  {
    PaddedRoundTrip(n, width);
    var s := Padded(n, width);
    assert IsDigit(s[0]);
  }

  lemma Weights()
    ensures Multiplier(0) == 1 && Multiplier(1) == 60 && Multiplier(2) == 3600
  {
    assert Pow60(1) == 60 * Pow60(0);
    assert Pow60(2) == 60 * Pow60(1);
  }

  lemma ThreeParts(a: string, b: string, c: string)
    ensures Seconds([a, b, c], 0, 0) ==
            SatAdd(SatAdd(SatAdd(0, SatMul(PartValue(c), 1)), SatMul(PartValue(b), 60)), SatMul(PartValue(a), 3600))
  {
    Weights();
    var s1 := SatAdd(0, SatMul(PartValue(c), 1));
    var s2 := SatAdd(s1, SatMul(PartValue(b), 60));
    assert [a, b, c][..2] == [a, b] && [a, b][..1] == [a] && [a][..0] == [];
    assert Seconds([a], 2, s2) == Seconds([], 3, SatAdd(s2, SatMul(PartValue(a), 3600)));
    assert Seconds([a, b], 1, s1) == Seconds([a], 2, s2);
  }

  lemma DigitsAvoid(s: string, c: char)
    requires AllDigits(s) && !IsDigit(c)
    ensures c !in s
  {
  }

  /** The printed clock splits into its three numbers. */
  lemma ClockSplits(hs: string, ms: string, ss: string)
    requires AllDigits(hs) && AllDigits(ms) && AllDigits(ss)
    ensures Split(hs + [':'] + (ms + [':'] + ss), ':') == [hs, ms, ss]
  {
    DigitsAvoid(hs, ':');
    DigitsAvoid(ms, ':');
    DigitsAvoid(ss, ':');
    SplitAtFirst(hs, ':', ms + [':'] + ss);
    SplitAtFirst(ms, ':', ss);
    SplitNowhere(ss, ':');
    assert [hs] + ([ms] + [ss]) == [hs, ms, ss];
  }

  lemma ClockShape(total: nat)
    ensures '.' !in Clock(total) && Clock(total) != [] && IsDigit(Clock(total)[0])
  {
    var hs, ms, ss := Padded(total / 3600, 2), Padded(total % 3600 / 60, 2), Padded(total % 60, 2);
    DigitsAvoid(hs, '.');
    DigitsAvoid(ms, '.');
    DigitsAvoid(ss, '.');
    assert Clock(total)[0] == hs[0];
  }

  lemma BaseSixty(total: nat)
    ensures total == 3600 * (total / 3600) + 60 * (total % 3600 / 60) + total % 60
    ensures total / 3600 <= total && total % 3600 / 60 < 60 && total % 60 < 60
  {
    assert total % 3600 % 60 == total % 60;
  }

  /** The clock part reads back as the same number of seconds. */
  lemma ClockRoundTrip(total: nat)
    requires total <= MAX_MICROS
    ensures Seconds(Split(Clock(total), ':'), 0, 0) == total
  {
    var h, m, s := total / 3600, total % 3600 / 60, total % 60;
    BaseSixty(total);
    ClockSplits(Padded(h, 2), Padded(m, 2), Padded(s, 2));
    ThreeParts(Padded(h, 2), Padded(m, 2), Padded(s, 2));
    PaddedPart(h, 2);
    PaddedPart(m, 2);
    PaddedPart(s, 2);
  }

  lemma SixDigits(n: nat)
    requires n < MICROS
    ensures |Padded(n, 6)| == 6 && Fraction(Padded(n, 6)) == Some(n)
  {
    PowersOfTen();
    DecimalWidth(n, 6);
    PaddedRoundTrip(n, 6);
    var s := Padded(n, 6);
    assert IsDigit(s[0]);
  }

  lemma PowersOfTen()
    ensures Pow10(6) == MICROS && Pow10(0) == 1
  {
    assert Pow10(2) == 100 && Pow10(4) == 100 * Pow10(2) && Pow10(6) == 100 * Pow10(4);
  }

  /** The unsigned body reads back as the seconds and microseconds it was printed from. */
  lemma BodyRoundTrip(secs: nat, micros: nat)
    requires secs <= MAX_MICROS && micros < MICROS
    ensures var body := if micros > 0 then Clock(secs) + ['.'] + Padded(micros, 6) else Clock(secs);
            && body != [] && IsDigit(body[0])
            && CutAt(body, '.').0 == Clock(secs)
            && (match CutAt(body, '.').1 case Some(f) => Fraction(f) case None => Some(0)) == Some(micros)
  {
    ClockShape(secs);
    if micros > 0 {
      CutAtFirst(Clock(secs), '.', Padded(micros, 6));
      SixDigits(micros);
    } else {
      CutNowhere(Clock(secs), '.');
    }
  }

  lemma SecondsAndMicros(m: int)
    requires -MAX_MICROS <= m <= MAX_MICROS
    ensures var secs, micros := Abs(NumSeconds(m)), Abs(SubsecMicros(m));
            && secs <= MAX_MICROS && micros < MICROS && Total(secs, micros) == Abs(m)
            && (NumSeconds(m) < 0 || (NumSeconds(m) == 0 && SubsecMicros(m) < 0)) == (m < 0)
  {
    var secs, micros := Abs(NumSeconds(m)), Abs(SubsecMicros(m));
    assert Abs(m) == secs * MICROS + micros;
  }

  /** A sign in front of a body only changes the sign of the span. */
  lemma ConvertSigned(body: string, neg: bool, total: int)
    requires body != [] && IsDigit(body[0]) && Micros(body) == Some(total)
    ensures ConvertTimedelta(if neg then ['-'] + body else body) == Span(if neg then -total else total)
  {
    SignedBody(body, neg);
  }

  /** Printing and reading is the identity on every span of microseconds the type can hold. */
  lemma TimeRoundTrip(m: int)
    requires -MAX_MICROS <= m <= MAX_MICROS
    ensures ConvertTimedelta(FormatTimedelta(m)) == Span(m)
  {
    var secs, micros := Abs(NumSeconds(m)), Abs(SubsecMicros(m));
    var body := if micros > 0 then Clock(secs) + ['.'] + Padded(micros, 6) else Clock(secs);
    SecondsAndMicros(m);
    PrintedReadsBack(body, secs, micros, m < 0);
  }

  lemma PrintedReadsBack(body: string, secs: nat, micros: nat, neg: bool)
    requires secs <= MAX_MICROS && micros < MICROS
    requires body == if micros > 0 then Clock(secs) + ['.'] + Padded(micros, 6) else Clock(secs)
    ensures ConvertTimedelta(if neg then ['-'] + body else body) ==
            Span(if neg then -Total(secs, micros) else Total(secs, micros))
  {
    BodyRoundTrip(secs, micros);
    ClockRoundTrip(secs);
    ConvertSigned(body, neg, Total(secs, micros));
  }

  lemma SignedBody(body: string, neg: bool)
    requires body != [] && IsDigit(body[0])
    ensures var s := if neg then ['-'] + body else body;
            TrimDashes(s) == body && (s != [] && s[0] == '-') == neg
  {
    assert TrimDashes(body) == body;
    assert (['-'] + body)[1..] == body;
  }

  /** Trimming removes exactly the leading dashes. */
  lemma {:induction false} Trimmed(s: string) returns (n: nat)
    ensures n <= |s| && TrimDashes(s) == s[n..] && forall i :: 0 <= i < n ==> s[i] == '-'
    ensures n == 0 <==> s == [] || s[0] != '-'
  {
    if s != [] && s[0] == '-' {
      var m := Trimmed(s[1..]);
      n := m + 1;
      assert s[1..][m..] == s[n..];
      assert forall i :: 1 <= i < n ==> s[i] == s[1..][i - 1];
    } else {
      n := 0;
    }
  }

  /** At most six characters of a fraction count. */
  function FirstSix(f: string): string { if |f| > 6 then f[..6] else f }

  /** An optional plus sign and at least one digit. */
  predicate IsUnsigned(f: string) {
    var digits := if f != [] && f[0] == '+' then f[1..] else f;
    digits != [] && AllDigits(digits)
  }

  predicate FirstDot(s: string, i: nat) { i < |s| && s[i] == '.' && '.' !in s[..i] }

  /** There is a dot, and the characters after the first one are not a number. */
  ghost predicate Unreadable(s: string) {
    exists i :: FirstDot(s, i) && !IsUnsigned(FirstSix(s[i + 1..]))
  }

  lemma {:induction false} DigitsBound(s: string)
    requires AllDigits(s)
    ensures DecimalValue(s) < Pow10(|s|)
  {
    if s != [] {
      DigitsBound(s[..|s| - 1]);
    }
  }

  lemma {:induction false} Pow10Grows(a: nat, b: nat)
    requires a <= b
    ensures Pow10(a) <= Pow10(b)
    decreases b
  {
    if a < b {
      Pow10Grows(a, b - 1);
    }
  }

  /** Six characters always stay within 32 bits, so only their form matters. */
  lemma FractionExactly(f: string)
    ensures Fraction(f).Some? <==> IsUnsigned(FirstSix(f))
  {
    var d := FirstSix(f);
    var digits := if d != [] && d[0] == '+' then d[1..] else d;
    if AllDigits(digits) {
      DigitsBound(digits);
      Pow10Grows(|digits|, 6);
      PowersOfTen();
    }
  }

  lemma {:induction false} HasFirstDot(s: string) returns (i: nat)
    requires '.' in s
    ensures FirstDot(s, i)
  {
    if s[0] == '.' {
      i := 0;
    } else {
      var j := HasFirstDot(s[1..]);
      i := j + 1;
      assert s[..i] == [s[0]] + s[1..][..j];
    }
  }

  lemma OneFirstDot(s: string, i: nat, j: nat)
    requires FirstDot(s, i) && FirstDot(s, j)
    ensures i == j
  {
  }

  lemma CutTrimmed(s: string, n: nat, i: nat)
    requires n <= |s| && FirstDot(s, i) && forall j :: 0 <= j < n ==> s[j] == '-'
    ensures CutAt(s[n..], '.').1 == Some(s[i + 1..])
  {
    var a := s[n..i];
    assert forall j :: 0 <= j < |a| ==> a[j] == s[..i][n + j];
    assert s[n..] == a + ['.'] + s[i + 1..];
    CutAtFirst(a, '.', s[i + 1..]);
  }

  /**
    * Exactly which texts cannot be converted, and what becomes of them: such a text comes back as it was if and only if
    * it has no leading dash.
    */
  lemma UnconvertibleText(s: string)
    ensures ConvertTimedelta(s).Text? <==> Unreadable(s)
    ensures Unreadable(s) ==> (ConvertTimedelta(s) == Text(s) <==> s[0] != '-')
  {
    var n := Trimmed(s);
    if '.' in s {
      var i := HasFirstDot(s);
      CutTrimmed(s, n, i);
      FractionExactly(s[i + 1..]);
      forall j | FirstDot(s, j) ensures j == i {
        OneFirstDot(s, i, j);
      }
    } else {
      CutNowhere(s[n..], '.');
    }
  }

  /** A text that cannot be converted comes back without its leading dashes. */
  lemma UnconvertibleLosesSign()
    ensures ConvertTimedelta("-1.") == Text("1.")
  {
    var t := "-1.";
    assert TrimDashes(t) == TrimDashes("1.") by { assert t[1..] == "1."; }
    assert "1." == ['1'] + ['.'] + [];
    CutAtFirst(['1'], '.', []);
  }
}
