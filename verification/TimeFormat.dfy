/** What TIME texts say: the digits that are printed, and the span that a text stands for. */
module TimeFormat {
  import opened Bytes
  import opened TimeValues

  // ---------------------------------------------------------------- numbers

  /** The digits are the characters 0 to 9, in this order. */
  lemma DigitCharacters(d: nat)
    requires d < 10
    ensures DigitChar(d) == "0123456789"[d] && DigitValue("0123456789"[d]) == d
  {
  }

  /** Reading goes from left to right: what is in front counts ten times for every digit behind it. */
  lemma {:induction false} DecimalAppend(a: string, b: string)
    requires AllDigits(a) && AllDigits(b)
    ensures AllDigits(a + b) && DecimalValue(a + b) == DecimalValue(a) * Pow10(|b|) + DecimalValue(b)
    decreases |b|
  {
    if b == [] {
      assert a + b == a;
    } else {
      var front, last := b[..|b| - 1], b[|b| - 1];
      DecimalAppend(a, front);
      assert (a + b)[..|a + b| - 1] == a + front;
      TimesTen(DecimalValue(a), Pow10(|b| - 1), DecimalValue(front), DigitValue(last));
    }
  }

  lemma TimesTen(x: nat, p: nat, y: nat, d: nat)
    ensures 10 * (x * p + y) + d == x * (10 * p) + (10 * y + d)
  {
  }

  /** One digit is read as its value, and a digit behind others adds its value to ten times theirs. */
  lemma DecimalDigit(a: string, c: char)
    requires AllDigits(a) && IsDigit(c)
    ensures DecimalValue([c]) == DigitValue(c) && DecimalValue(a + [c]) == 10 * DecimalValue(a) + DigitValue(c)
  {
    assert [c][..0] == [];
    assert DecimalValue([]) == 0 && Pow10(0) == 1 && Pow10(1) == 10;
    DecimalAppend(a, [c]);
  }

  // ---------------------------------------------------------------- parts

  /** A part of the clock: digits, with an optional sign, within 64 bits. */
  lemma SignedPart(d: string)
    requires d != [] && AllDigits(d)
    ensures PartValue(d) == if DecimalValue(d) <= 0x7FFF_FFFF_FFFF_FFFF then DecimalValue(d) else 0
    ensures PartValue("+" + d) == PartValue(d)
    ensures PartValue("-" + d) == if DecimalValue(d) <= 0x8000_0000_0000_0000 then 0 - DecimalValue(d) else 0
  {
    assert IsDigit(d[0]);
    assert ("+" + d)[1..] == d && ("-" + d)[1..] == d;
  }

  /** Anything else counts as zero. */
  lemma OtherPart(s: string)
    requires var d := if s != [] && (s[0] == '+' || s[0] == '-') then s[1..] else s; d == [] || !AllDigits(d)
    ensures PartValue(s) == 0
  {
  }

  /** The parts in base sixty, from left to right. */
  function PartsValue(parts: seq<string>): int {
    if parts == [] then 0 else 60 * PartsValue(parts[..|parts| - 1]) + PartValue(parts[|parts| - 1])
  }

  predicate NonNegative(parts: seq<string>) { forall i :: 0 <= i < |parts| ==> PartValue(parts[i]) >= 0 }

  lemma {:induction false} PartsArePositive(parts: seq<string>)
    requires NonNegative(parts)
    ensures PartsValue(parts) >= 0
  {
    if parts != [] {
      PartsArePositive(parts[..|parts| - 1]);
    }
  }

  /** Accumulating from the right, with weights, is reading from the left, as long as the result fits in 64 bits. */
  lemma {:induction false} SecondsAreBaseSixty(parts: seq<string>, i: nat, secs: nat)
    requires NonNegative(parts) && i + |parts| <= 0x1_0000_0000
    requires secs + Pow60(i) * PartsValue(parts) <= I64_MAX
    ensures Seconds(parts, i, secs) == secs + Pow60(i) * PartsValue(parts)
    decreases |parts|
  {
    if parts == [] {
      assert Pow60(i) * 0 == 0;
    } else {
      var front, v := parts[..|parts| - 1], PartValue(parts[|parts| - 1]);
      PartsArePositive(front);
      Distribute(Pow60(i), PartsValue(front), v);
      WeightedPart(i, v, secs);
      SecondsAreBaseSixty(front, i + 1, secs + Pow60(i) * v);
    }
  }

  lemma Distribute(p: nat, x: nat, v: nat)
    ensures p * (60 * x + v) == (60 * p) * x + p * v
    ensures (60 * p) * x >= 0 && p * v >= 0
  {
  }

  lemma MultiplierIs(i: nat)
    requires i < 0x1_0000_0000
    ensures Multiplier(i) == if Pow60(i) <= I64_MAX then Pow60(i) else I64_MAX
  {
    assert i % 0x1_0000_0000 == i;
  }

  /** The weight is computed from 32 bits of the part's number. */
  lemma WeightsWrap(i: nat)
    ensures Multiplier(i + 0x1_0000_0000) == Multiplier(i)
  {
    assert (i + 0x1_0000_0000) % 0x1_0000_0000 == i % 0x1_0000_0000;
  }

  lemma WeightedPart(i: nat, v: nat, secs: nat)
    requires i < 0x1_0000_0000 && secs + Pow60(i) * v <= I64_MAX
    ensures SatAdd(secs, SatMul(v, Multiplier(i))) == secs + Pow60(i) * v
  {
    MultiplierIs(i);
    if v == 0 {
      WeightlessPart(Pow60(i), Multiplier(i), secs);
    } else {
      AtLeast(Pow60(i), v);
      ExactPart(Pow60(i), v, secs);
    }
  }

  lemma WeightlessPart(p: nat, w: int, secs: nat)
    requires IsI64(w) && secs + p * 0 <= I64_MAX
    ensures SatAdd(secs, SatMul(0, w)) == secs + p * 0
  {
    assert 0 * w == 0;
  }

  lemma ExactPart(p: nat, v: nat, secs: nat)
    requires secs + p * v <= I64_MAX
    ensures SatAdd(secs, SatMul(v, p)) == secs + p * v
  {
    Commute(p, v);
  }

  lemma Commute(p: nat, v: nat)
    ensures v * p == p * v && p * v >= 0
  {
  }

  lemma AtLeast(p: nat, v: nat)
    requires v >= 1
    ensures p <= p * v
  {
  }

  // ---------------------------------------------------------------- fractions and totals

  lemma FractionIs(f: string)
    requires f != [] && AllDigits(f)
    ensures var d := FirstSix(f);
            AllDigits(d) && DecimalValue(d) < 1_000_000 && Fraction(f) == Some(DecimalValue(d) * Pow10(6 - |d|))
  {
    var d := FirstSix(f);
    DigitsBound(d);
    Pow10Grows(|d|, 6);
    Pow10Grows(6 - |d|, 6);
    PowersOfTen();
    assert IsDigit(d[0]);
    ScaleFits(DecimalValue(d), Pow10(6 - |d|));
  }

  lemma ZerosAreNothing(k: nat)
    ensures DecimalValue(Zeros(k)) == 0
  {
    LeadingZeros(k, []);
    assert Zeros(k) + [] == Zeros(k);
  }

  /** The microseconds of a fraction: filled up with zeros to six digits. */
  function FractionMicros(f: string): nat
    requires AllDigits(f) && |f| <= 6
  {
    DecimalValue(f + Zeros(6 - |f|))
  }

  /** A fraction of at most six digits is read as if it were filled with zeros to six. */
  lemma FractionReads(f: string)
    requires 1 <= |f| <= 6 && AllDigits(f)
    ensures Fraction(f) == Some(FractionMicros(f)) && FractionMicros(f) < 1_000_000
  {
    FractionIs(f);
    FilledUp(f, 6 - |f|);
    FractionSmall(f);
  }

  /** More digits are dropped. */
  lemma LongFractionReads(f: string)
    requires |f| > 6 && AllDigits(f)
    ensures Fraction(f) == Some(DecimalValue(f[..6])) && Fraction(f) == Fraction(f[..6])
  {
    FractionIs(f);
    FractionIs(f[..6]);
    TimesOne(DecimalValue(f[..6]));
  }

  lemma FilledUp(f: string, k: nat)
    requires AllDigits(f)
    ensures AllDigits(f + Zeros(k)) && DecimalValue(f + Zeros(k)) == DecimalValue(f) * Pow10(k)
  {
    DecimalAppend(f, Zeros(k));
    ZerosAreNothing(k);
  }

  lemma TimesOne(v: nat)
    ensures v * Pow10(0) == v
  {
  }

  lemma ScaleFits(v: nat, p: nat)
    requires v < 1_000_000 && 1 <= p <= 1_000_000
    ensures SatMul(v, p) == v * p
  {
    Product(v, p);
  }

  lemma Product(v: nat, p: nat)
    requires v < 1_000_000 && p <= 1_000_000
    ensures v * p <= 1_000_000_000_000
  {
    assert v * p <= 1_000_000 * p;
  }

  /** Limited to the largest span in either direction. */
  function Limited(exact: int): int {
    var most := 0x7FFF_FFFF_FFFF_FFFF / 1000;
    if exact > most then most else if exact < -most then -most else exact
  }

  /** Seconds and microseconds make a span. */
  lemma TotalExactly(secs: int, micros: nat)
    requires IsI64(secs) && micros < 1_000_000
    ensures Total(secs, micros) == Limited(secs * 1_000_000 + micros)
  {
  }

  /** The sign: any number of dashes makes the span negative, and is otherwise ignored. */
  lemma {:induction false} DashesNegate(n: nat, t: string)
    requires t == [] || t[0] != '-'
    ensures var s := seq(n, i => '-') + t;
            match Micros(t)
            case None => ConvertTimedelta(s) == Text(t)
            case Some(total) => ConvertTimedelta(s) == Span(if n > 0 then -total else total)
  {
    TrimAll(n, t);
    assert n > 0 ==> (seq(n, i => '-') + t)[0] == '-';
    assert seq(0, i => '-') + t == t;
  }

  lemma {:induction false} TrimAll(n: nat, t: string)
    requires t == [] || t[0] != '-'
    ensures TrimDashes(seq(n, i => '-') + t) == t
  {
    var s := seq(n, i => '-') + t;
    if n == 0 {
      assert s == t;
    } else {
      assert s[1..] == seq(n - 1, i => '-') + t;
      TrimAll(n - 1, t);
    }
  }

  function ClockSeconds(h: string, m: string, s: string): nat
    requires AllDigits(h) && AllDigits(m) && AllDigits(s)
  {
    DecimalValue(h) * 3600 + DecimalValue(m) * 60 + DecimalValue(s)
  }

  /** Everything together, for a text of hours, minutes, seconds and a fraction. */
  lemma ClockWithFraction(h: string, m: string, s: string, f: string)
    requires h != [] && m != [] && s != [] && AllDigits(h) && AllDigits(m) && AllDigits(s)
    requires ClockSeconds(h, m, s) <= I64_MAX && 1 <= |f| <= 6 && AllDigits(f)
    ensures ConvertTimedelta(h + ":" + m + ":" + s + "." + f) ==
            Span(Limited(ClockSeconds(h, m, s) * 1_000_000 + FractionMicros(f)))
  {
    FractionReads(f);
    Regrouped(h, m, s, f);
    ClockOf(h, m, s, f, ClockSeconds(h, m, s), FractionMicros(f));
  }

  lemma ClockOf(h: string, m: string, s: string, f: string, secs: nat, micros: nat)
    requires h != [] && m != [] && s != [] && AllDigits(h) && AllDigits(m) && AllDigits(s)
    requires ClockSeconds(h, m, s) == secs <= I64_MAX && Fraction(f) == Some(micros) && micros < 1_000_000
    ensures ConvertTimedelta((h + [':'] + (m + [':'] + s)) + ['.'] + f) == Span(Limited(secs * 1_000_000 + micros))
  {
    ClockSplits(h, m, s);
    ClockReads(h, m, s);
    NoDot(h, m, s);
    StartsWithDigit(h, [':'] + (m + [':'] + s));
    Regrouped(h, m, s, f);
    Assembled(h + [':'] + (m + [':'] + s), f, secs, micros);
  }

  lemma StartsWithDigit(h: string, rest: string)
    requires h != [] && AllDigits(h)
    ensures h + rest != [] && IsDigit((h + rest)[0])
  {
    assert IsDigit(h[0]);
  }

  lemma Regrouped(h: string, m: string, s: string, f: string)
    ensures h + ":" + m + ":" + s + "." + f == (h + [':'] + (m + [':'] + s)) + ['.'] + f
    ensures h + [':'] + (m + [':'] + s) == h + ([':'] + (m + [':'] + s))
  {
  }

  lemma Assembled(clock: string, f: string, secs: nat, micros: nat)
    requires clock != [] && IsDigit(clock[0]) && '.' !in clock && Fraction(f) == Some(micros) && micros < 1_000_000
    requires Seconds(Split(clock, ':'), 0, 0) == secs <= I64_MAX
    ensures ConvertTimedelta(clock + ['.'] + f) == Span(Limited(secs * 1_000_000 + micros))
  {
    var body := clock + ['.'] + f;
    CutAtFirst(clock, '.', f);
    MicrosAre(body, clock, f, secs, micros);
    TotalExactly(secs, micros);
    assert body[0] == clock[0];
    ConvertSigned(body, false, Total(secs, micros));
  }

  lemma MicrosAre(body: string, clock: string, f: string, secs: nat, micros: nat)
    requires CutAt(body, '.') == (clock, Some(f)) && Fraction(f) == Some(micros)
    requires Seconds(Split(clock, ':'), 0, 0) == secs
    ensures Micros(body) == Some(Total(secs, micros))
  {
  }

  lemma FractionSmall(f: string)
    requires AllDigits(f) && |f| <= 6
    ensures AllDigits(f + Zeros(6 - |f|)) && DecimalValue(f + Zeros(6 - |f|)) < 1_000_000
  {
    DigitsBound(f + Zeros(6 - |f|));
    PowersOfTen();
  }

  lemma NoDot(h: string, m: string, s: string)
    requires AllDigits(h) && AllDigits(m) && AllDigits(s)
    ensures '.' !in h + [':'] + (m + [':'] + s)
  {
    DigitsAvoid(h, '.');
    DigitsAvoid(m, '.');
    DigitsAvoid(s, '.');
  }

  lemma ClockReads(h: string, m: string, s: string)
    requires h != [] && m != [] && s != [] && AllDigits(h) && AllDigits(m) && AllDigits(s)
    requires ClockSeconds(h, m, s) <= I64_MAX
    ensures Seconds([h, m, s], 0, 0) == ClockSeconds(h, m, s)
  {
    SignedPart(h);
    SignedPart(m);
    SignedPart(s);
    ThreeParts(h, m, s);
  }

  // ---------------------------------------------------------------- printing

  function TwoDigits(n: nat): string
    requires n < 100
  {
    ["0123456789"[n / 10], "0123456789"[n % 10]]
  }

  function ManyDigits(n: nat, k: nat): string {
    if k == 0 then [] else ManyDigits(n / 10, k - 1) + ["0123456789"[n % 10]]
  }

  /** Padding fills up with zeros on the left. */
  lemma {:induction false} PaddedDigits(n: nat, k: nat)
    requires k > 0 && n < Pow10(k)
    ensures Padded(n, k) == ManyDigits(n, k)
    decreases k
  {
    DigitCharacters(n % 10);
    if k == 1 {
      assert Padded(n, 1) == [] + [DigitChar(n)];
      assert ManyDigits(n / 10, 0) == [];
    } else {
      PaddedDigits(n / 10, k - 1);
      PaddedStep(n, k);
    }
  }

  lemma PaddedStep(n: nat, k: nat)
    requires k > 1 && n < Pow10(k)
    ensures Padded(n, k) == Padded(n / 10, k - 1) + [DigitChar(n % 10)]
  {
    DecimalWidth(n, k);
    if n >= 10 {
      assert Decimal(n) == Decimal(n / 10) + [DigitChar(n % 10)];
    } else {
      assert Decimal(n) == [DigitChar(n)] && Decimal(n / 10) == ['0'];
      ZerosSnoc(k - 2);
    }
  }

  lemma FormatIs(m: int)
    ensures var a := if m < 0 then -m else m;
            var clock, micros := Clock(a / 1_000_000), a % 1_000_000;
            var body := if micros == 0 then clock else clock + ['.'] + Padded(micros, 6);
            FormatTimedelta(m) == if m < 0 then ['-'] + body else body
  {
    var a := if m < 0 then -m else m;
    assert Abs(NumSeconds(m)) == a / 1_000_000 && Abs(SubsecMicros(m)) == a % 1_000_000;
  }

  function Printed(neg: bool, clock: string, micros: nat): string {
    (if neg then "-" else "") + clock + (if micros == 0 then "" else "." + ManyDigits(micros, 6))
  }

  /** A span of less than 100 hours is printed as two digits each of hours, minutes and seconds, and six of fraction. */
  lemma PrintedForm(m: int)
    requires -360_000_000_000 < m < 360_000_000_000
    ensures var a := if m < 0 then -m else m;
            var secs := a / 1_000_000;
            FormatTimedelta(m) ==
            Printed(m < 0, TwoDigits(secs / 3600) + ":" + TwoDigits(secs / 60 % 60) + ":" + TwoDigits(secs % 60),
                    a % 1_000_000)
  {
    var a := if m < 0 then -m else m;
    var secs, micros := a / 1_000_000, a % 1_000_000;
    FormatIs(m);
    ClockDigits(secs);
    PowersOfTen();
    PaddedDigits(micros, 6);
    PrintedParts(m < 0, Clock(secs), micros);
  }

  lemma PrintedParts(neg: bool, clock: string, micros: nat)
    ensures var body := if micros == 0 then clock else clock + ['.'] + ManyDigits(micros, 6);
            Printed(neg, clock, micros) == if neg then ['-'] + body else body
  {
    var more := if micros == 0 then "" else "." + ManyDigits(micros, 6);
    assert "" + clock == clock;
    Associative("-", clock, more);
    Associative(clock, ".", ManyDigits(micros, 6));
    assert clock + "" == clock;
  }

  lemma MinutesOf(secs: nat)
    ensures secs % 3600 / 60 == secs / 60 % 60
  {
  }

  lemma ClockDigits(secs: nat)
    requires secs < 360_000
    ensures Clock(secs) == TwoDigits(secs / 3600) + ":" + TwoDigits(secs / 60 % 60) + ":" + TwoDigits(secs % 60)
  {
    MinutesOf(secs);
    PaddedPair(secs / 3600);
    PaddedPair(secs / 60 % 60);
    PaddedPair(secs % 60);
  }

  lemma PaddedPair(n: nat)
    requires n < 100
    ensures Padded(n, 2) == TwoDigits(n)
  {
    assert Pow10(2) == 100;
    PaddedDigits(n, 2);
    assert ManyDigits(n / 10, 1) == ManyDigits(n / 100, 0) + ["0123456789"[n / 10 % 10]];
  }
}
