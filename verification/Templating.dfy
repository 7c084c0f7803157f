/** Query templates: `%s` placeholders and `%%`. */
module Templating {
  import opened Bytes

  /** The text between the placeholders, with `%%` read as one percent sign; always at least one segment. */
  function Segments(q: string): (segs: seq<string>)
    ensures |segs| >= 1
  {
    if q == [] then [[]]
    else if |q| >= 2 && q[0] == '%' && q[1] == 's' then [[]] + Segments(q[2..])
    else if |q| >= 2 && q[0] == '%' && q[1] == '%' then WithChar('%', Segments(q[2..]))
    else WithChar(q[0], Segments(q[1..]))
  }

  /** Put a character in front of the first segment. */
  function WithChar(c: char, segs: seq<string>): (r: seq<string>)
    requires |segs| >= 1
    ensures |r| == |segs|
  {
    [[c] + segs[0]] + segs[1..]
  }

  /** Left-to-right number of placeholders. */
  function Placeholders(q: string): nat { |Segments(q)| - 1 }

  /** Segments and arguments alternating; arguments are copied, never looked into. */
  function Interleave(segs: seq<string>, args: seq<string>): string
    requires |segs| == |args| + 1
  {
    if args == [] then segs[0] else segs[0] + args[0] + Interleave(segs[1..], args[1..])
  }

  // ---------------------------------------------------------------- the loop

  /** The literals of all arguments, or the first error. */
  function Literals<V>(args: seq<V>, literal: V -> Result<string>): Result<seq<string>> {
    if args == [] then Ok([])
    else match literal(args[0])
      case Err(e) => Err(e)
      case Ok(l) =>
        match Literals(args[1..], literal)
        case Err(e) => Err(e)
        case Ok(ls) => Ok([l] + ls)
  }

  const WRONG_COUNT := ProgrammingError(CR_INVALID_PARAMETER_NO)

  /** The outcome of substituting the literals `args` into what is left of the query. */
  function Substituted(result: string, q: string, args: seq<string>): Result<string> {
    if Placeholders(q) == |args| then Ok(result + Interleave(Segments(q), args)) else Err(WRONG_COUNT)
  }

  lemma SubstitutedChar(result: string, q: string, skip: nat, c: char, args: seq<string>)
    requires skip <= |q| && Segments(q) == WithChar(c, Segments(q[skip..]))
    ensures Substituted(result, q, args) == Substituted(result + [c], q[skip..], args)
  {
    var segs := Segments(q[skip..]);
    if |segs| == |args| + 1 {
      InterleaveChar(c, segs, args);
      Associative(result, [c], Interleave(segs, args));
    }
  }

  lemma InterleaveChar(c: char, segs: seq<string>, args: seq<string>)
    requires |segs| == |args| + 1
    ensures Interleave(WithChar(c, segs), args) == [c] + Interleave(segs, args)
  {
    if args != [] {
      assert WithChar(c, segs)[1..] == segs[1..];
      var rest := Interleave(segs[1..], args[1..]);
      assert [c] + segs[0] + args[0] + rest == [c] + (segs[0] + args[0] + rest);
    }
  }

  lemma SubstitutedHole(result: string, q: string, args: seq<string>)
    requires |q| >= 2 && q[0] == '%' && q[1] == 's'
    ensures args == [] ==> Substituted(result, q, args) == Err(WRONG_COUNT)
    ensures args != [] ==> Substituted(result, q, args) == Substituted(result + args[0], q[2..], args[1..])
  {
    assert Segments(q)[1..] == Segments(q[2..]);
    if args != [] && Placeholders(q) == |args| {
      var rest := Interleave(Segments(q[2..]), args[1..]);
      assert [] + args[0] + rest == args[0] + rest;
      Associative(result, args[0], rest);
    }
  }

  /** The query with its arguments; without arguments it is left alone. */
  function Mogrified<V>(query: string, args: Option<seq<V>>, literal: V -> Result<string>): Result<string> {
    if args.None? then Ok(query)
    else match Literals(args.value, literal)
      case Err(e) => Err(e)
      case Ok(ls) =>
        if Placeholders(query) == |ls| then Ok(Interleave(Segments(query), ls)) else Err(WRONG_COUNT)
  }

  method Mogrify<V>(query: string, args: Option<seq<V>>, literal: V -> Result<string>) returns (r: Result<string>)
    ensures r == Mogrified(query, args, literal)
  {
    if args.None? {
      return Ok(query);
    }
    var escaped := Literals(args.value, literal);
    if escaped.Err? {
      return Err(escaped.error);
    }
    var result: string := [];
    var i, next := 0, 0;
    var ls := escaped.value;
    assert query[0..] == query && ls[0..] == ls;
    assert Substituted([], query, ls) == Substituted(result, query[i..], ls[next..]);
    while i < |query|
      invariant 0 <= i <= |query| && 0 <= next <= |ls|
      invariant Substituted([], query, ls) == Substituted(result, query[i..], ls[next..])
    {
      var c := query[i];
      ghost var q := query[i..];
      assert q[1..] == query[i + 1..];
      if c == '%' && i + 1 < |query| && query[i + 1] == 's' {
        assert q[2..] == query[i + 2..];
        SubstitutedHole(result, q, ls[next..]);
        i := i + 2;
        if next == |ls| {
          Empty(query, ls);
          return Err(WRONG_COUNT);
        }
        assert ls[next..][1..] == ls[next + 1..];
        result := result + ls[next];
        next := next + 1;
      } else if c == '%' && i + 1 < |query| && query[i + 1] == '%' {
        assert q[2..] == query[i + 2..];
        SubstitutedChar(result, q, 2, '%', ls[next..]);
        i := i + 2;
        result := result + ['%'];
      } else {
        SubstitutedChar(result, q, 1, c, ls[next..]);
        i := i + 1;
        result := result + [c];
      }
    }
    Empty(query, ls);
    assert result + [] == result;
    if next < |ls| {
      return Err(WRONG_COUNT);
    }
    r := Ok(result);
  }

  lemma Empty(query: string, ls: seq<string>)
    ensures Substituted([], query, ls) ==
            if Placeholders(query) == |ls| then Ok(Interleave(Segments(query), ls)) else Err(WRONG_COUNT)
  {
    if Placeholders(query) == |ls| {
      assert [] + Interleave(Segments(query), ls) == Interleave(Segments(query), ls);
    }
  }

  // ---------------------------------------------------------------- templates from segments

  function DoublePercent(s: string): string {
    if s == [] then [] else (if s[0] == '%' then ['%', '%'] else [s[0]]) + DoublePercent(s[1..])
  }

  /** The template with exactly these segments. */
  function Template(segs: seq<string>): string
    requires |segs| >= 1
  {
    if |segs| == 1 then DoublePercent(segs[0]) else DoublePercent(segs[0]) + ['%', 's'] + Template(segs[1..])
  }

  lemma {:induction false} DoubledSegment(s: string, rest: string)
    requires rest == [] || (|rest| >= 2 && rest[0] == '%' && rest[1] == 's')
    ensures Segments(DoublePercent(s) + rest) == [s + Segments(rest)[0]] + Segments(rest)[1..]
  {
    if s == [] {
      assert DoublePercent(s) + rest == rest && s + Segments(rest)[0] == Segments(rest)[0];
      assert Segments(rest) == [Segments(rest)[0]] + Segments(rest)[1..];
    } else {
      DoubledSegment(s[1..], rest);
      SegmentsOfDoubled(s[0], DoublePercent(s[1..]) + rest);
      Associative(if s[0] == '%' then ['%', '%'] else [s[0]], DoublePercent(s[1..]), rest);
      assert [s[0]] + (s[1..] + Segments(rest)[0]) == s + Segments(rest)[0];
    }
  }

  lemma SegmentsOfDoubled(c: char, later: string)
    ensures Segments((if c == '%' then ['%', '%'] else [c]) + later) == WithChar(c, Segments(later))
  {
    var code := if c == '%' then ['%', '%'] else [c];
    assert (code + later)[|code|..] == later;
  }

  /** Doubling every percent sign in the text and joining with `%s` is undone by reading the template. */
  lemma {:induction false} TemplateRoundTrip(segs: seq<string>)
    requires |segs| >= 1
    ensures Segments(Template(segs)) == segs
  {
    if |segs| == 1 {
      DoubledSegment(segs[0], []);
      assert DoublePercent(segs[0]) + [] == DoublePercent(segs[0]);
      assert segs[0] + [] == segs[0];
    } else {
      TemplateRoundTrip(segs[1..]);
      var rest := ['%', 's'] + Template(segs[1..]);
      Associative(DoublePercent(segs[0]), ['%', 's'], Template(segs[1..]));
      DoubledSegment(segs[0], rest);
      assert rest[2..] == Template(segs[1..]);
      assert segs[0] + [] == segs[0];
    }
  }

  /** Doubling every percent sign and substituting nothing gives the text back. */
  lemma DoublingIsIdentity(s: string)
    ensures Placeholders(DoublePercent(s)) == 0 && Interleave(Segments(DoublePercent(s)), []) == s
  {
    TemplateRoundTrip([s]);
    assert Template([s]) == DoublePercent(s);
  }

  // ---------------------------------------------------------------- what the result says

  /** There is one literal for each argument, in the order of the arguments. */
  lemma {:induction false} LiteralsInOrder<V>(args: seq<V>, literal: V -> Result<string>)
    requires forall i :: 0 <= i < |args| ==> literal(args[i]).Ok?
    ensures var ls := Literals(args, literal);
            ls.Ok? && |ls.value| == |args| && forall i :: 0 <= i < |args| ==> ls.value[i] == literal(args[i]).value
  {
    if args != [] {
      LiteralsInOrder(args[1..], literal);
    }
  }

  /** The error is that of the first argument that has none. */
  lemma {:induction false} FirstFailure<V>(args: seq<V>, literal: V -> Result<string>, i: nat)
    requires i < |args| && literal(args[i]).Err? && forall j :: 0 <= j < i ==> literal(args[j]).Ok?
    ensures Literals(args, literal) == Err(literal(args[i]).error)
  {
    if i > 0 {
      FirstFailure(args[1..], literal, i - 1);
    }
  }

  /** Where the k-th segment starts: after the k segments and arguments before it. */
  function Offset(segs: seq<string>, ls: seq<string>, k: nat): nat
    requires k <= |ls| && k <= |segs|
  {
    if k == 0 then 0 else Offset(segs, ls, k - 1) + |segs[k - 1]| + |ls[k - 1]|
  }

  lemma {:induction false} OffsetShift(segs: seq<string>, ls: seq<string>, k: nat)
    requires 1 <= k <= |ls| && |segs| == |ls| + 1
    ensures Offset(segs, ls, k) == |segs[0]| + |ls[0]| + Offset(segs[1..], ls[1..], k - 1)
  {
    if k > 1 {
      OffsetShift(segs, ls, k - 1);
    }
  }

  /** `piece` stands at position `i` of `text`. */
  predicate StandsAt(text: string, i: nat, piece: string) { i + |piece| <= |text| && text[i..i + |piece|] == piece }

  /** The text is the segments with the arguments between them: each at its place, and nothing else. */
  ghost predicate Alternates(text: string, segs: seq<string>, ls: seq<string>)
    requires |segs| == |ls| + 1
  {
    && |text| == Offset(segs, ls, |ls|) + |segs[|ls|]|
    && (forall k :: 0 <= k <= |ls| ==> StandsAt(text, Offset(segs, ls, k), segs[k]))
    && (forall k :: 0 <= k < |ls| ==> StandsAt(text, Offset(segs, ls, k) + |segs[k]|, ls[k]))
  }

  lemma StandsAfter(front: string, text: string, i: nat, piece: string)
    requires StandsAt(text, i, piece)
    ensures StandsAt(front + text, |front| + i, piece)
  {
    assert (front + text)[|front| + i..|front| + i + |piece|] == text[i..i + |piece|];
  }

  lemma InterleaveFront(segs: seq<string>, ls: seq<string>)
    requires |segs| == |ls| + 1 && ls != []
    ensures Interleave(segs, ls) == (segs[0] + ls[0]) + Interleave(segs[1..], ls[1..])
  {
  }

  lemma {:induction false} InterleaveLength(segs: seq<string>, ls: seq<string>)
    requires |segs| == |ls| + 1
    ensures |Interleave(segs, ls)| == Offset(segs, ls, |ls|) + |segs[|ls|]|
    decreases |ls|
  {
    if ls != [] {
      InterleaveLength(segs[1..], ls[1..]);
      OffsetShift(segs, ls, |ls|);
    }
  }

  lemma {:induction false} SegmentStands(segs: seq<string>, ls: seq<string>, k: nat)
    requires |segs| == |ls| + 1 && k <= |ls|
    ensures StandsAt(Interleave(segs, ls), Offset(segs, ls, k), segs[k])
    decreases k
  {
    if k > 0 {
      InterleaveFront(segs, ls);
      OffsetShift(segs, ls, k);
      SegmentStands(segs[1..], ls[1..], k - 1);
      StandsAfter(segs[0] + ls[0], Interleave(segs[1..], ls[1..]), Offset(segs[1..], ls[1..], k - 1), segs[k]);
    } else {
      AtFront(segs, ls);
    }
  }

  lemma AtFront(segs: seq<string>, ls: seq<string>)
    requires |segs| == |ls| + 1
    ensures StandsAt(Interleave(segs, ls), 0, segs[0])
    ensures ls != [] ==> StandsAt(Interleave(segs, ls), |segs[0]|, ls[0])
  {
    if ls != [] {
      var rest := Interleave(segs[1..], ls[1..]);
      assert Interleave(segs, ls) == segs[0] + (ls[0] + rest);
    }
  }

  lemma {:induction false} LiteralStands(segs: seq<string>, ls: seq<string>, k: nat)
    requires |segs| == |ls| + 1 && k < |ls|
    ensures StandsAt(Interleave(segs, ls), Offset(segs, ls, k) + |segs[k]|, ls[k])
    decreases k
  {
    if k > 0 {
      InterleaveFront(segs, ls);
      OffsetShift(segs, ls, k);
      LiteralStands(segs[1..], ls[1..], k - 1);
      StandsAfter(segs[0] + ls[0], Interleave(segs[1..], ls[1..]), Offset(segs[1..], ls[1..], k - 1) + |segs[k]|,
                  ls[k]);
    } else {
      AtFront(segs, ls);
    }
  }

  lemma InterleaveAlternates(segs: seq<string>, ls: seq<string>)
    requires |segs| == |ls| + 1
    ensures Alternates(Interleave(segs, ls), segs, ls)
  {
    InterleaveLength(segs, ls);
    forall k | 0 <= k <= |ls| ensures StandsAt(Interleave(segs, ls), Offset(segs, ls, k), segs[k]) {
      SegmentStands(segs, ls, k);
    }
    forall k | 0 <= k < |ls| ensures StandsAt(Interleave(segs, ls), Offset(segs, ls, k) + |segs[k]|, ls[k]) {
      LiteralStands(segs, ls, k);
    }
  }

  /** The literals of the arguments, in their order. */
  function Texts<V>(args: seq<V>, literal: V -> Result<string>): seq<string>
    requires forall i :: 0 <= i < |args| ==> literal(args[i]).Ok?
  {
    seq(|args|, i requires 0 <= i < |args| => literal(args[i]).value)
  }

  /**
    * Substituting into a template of any segments: with as many arguments as there are places, the k-th argument's
    * literal stands between the k-th and the next segment, and the literals are not looked into; with another number
    * of arguments it is an error.
    */
  lemma SubstitutionExactly<V>(segs: seq<string>, args: seq<V>, literal: V -> Result<string>)
    requires |segs| >= 1 && forall i :: 0 <= i < |args| ==> literal(args[i]).Ok?
    ensures var r := Mogrified(Template(segs), Some(args), literal);
            if |segs| == |args| + 1 then r.Ok? && Alternates(r.value, segs, Texts(args, literal))
            else r == Err(ProgrammingError(2034))
  {
    LiteralsInOrder(args, literal);
    assert Literals(args, literal).value == Texts(args, literal);
    TemplateRoundTrip(segs);
    if |segs| == |args| + 1 {
      InterleaveAlternates(segs, Texts(args, literal));
    }
  }

  /**
    * Without arguments nothing is substituted; the error of the first argument without a literal comes before all
    * else.
    */
  lemma OtherOutcomes<V>(query: string, args: seq<V>, literal: V -> Result<string>, i: nat)
    ensures Mogrified(query, None, literal) == Ok(query)
    ensures i < |args| && literal(args[i]).Err? && (forall j :: 0 <= j < i ==> literal(args[j]).Ok?) ==>
              Mogrified(query, Some(args), literal) == Err(literal(args[i]).error)
  {
    if i < |args| && literal(args[i]).Err? && (forall j :: 0 <= j < i ==> literal(args[j]).Ok?) {
      FirstFailure(args, literal, i);
    }
  }

  /** No percent sign in it is followed by `s` or another percent sign. */
  predicate IsPlain(t: string) {
    forall i :: 0 <= i && i + 1 < |t| && t[i] == '%' ==> t[i + 1] != 's' && t[i + 1] != '%'
  }

  /** Other percent signs stay as they are, also at the end of the query. */
  lemma {:induction false} PlainText(t: string)
    requires IsPlain(t)
    ensures Segments(t) == [t]
  {
    if t != [] {
      assert forall i :: 0 <= i && i + 1 < |t[1..]| && t[1..][i] == '%' ==>
          t[i + 1] == '%' && t[1..][i + 1] == t[i + 2];
      PlainText(t[1..]);
      assert t == [t[0]] + t[1..];
    }
  }

  /** Plain text in front of anything it does not run into. */
  lemma {:induction false} PlainPrefix(t: string, rest: string)
    requires IsPlain(t) && (t == [] || t[|t| - 1] != '%')
    ensures Segments(t + rest) == [t + Segments(rest)[0]] + Segments(rest)[1..]
  {
    if t == [] {
      assert t + rest == rest && [] + Segments(rest)[0] == Segments(rest)[0];
      assert Segments(rest) == [Segments(rest)[0]] + Segments(rest)[1..];
    } else {
      assert forall i :: 0 <= i && i + 1 < |t[1..]| && t[1..][i] == '%' ==>
          t[i + 1] == '%' && t[1..][i + 1] == t[i + 2];
      PlainPrefix(t[1..], rest);
      assert (t + rest)[1..] == t[1..] + rest;
      assert [t[0]] + (t[1..] + Segments(rest)[0]) == t + Segments(rest)[0];
    }
  }
}
