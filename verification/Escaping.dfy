/** String escaping, and the server's string-literal lexer it is meant for. */
module Escaping {
  import opened Bytes

  const QUOTE: char := '\''
  const BACKSLASH: char := '\\'
  const NUL: char := '\0'
  const CTRL_Z: char := '\U{1A}'

  /** Replace every occurrence of the character `c` by `t`. */
  function Replace(s: string, c: char, t: string): string {
    if s == [] then [] else (if s[0] == c then t else [s[0]]) + Replace(s[1..], c, t)
  }

  /** The seven replacements, one after another. */
  function EscapeString(s: string): string {
    Replace(Replace(Replace(Replace(Replace(Replace(Replace(s,
      BACKSLASH, [BACKSLASH, BACKSLASH]),
      QUOTE, [BACKSLASH, QUOTE]),
      '\n', [BACKSLASH, 'n']),
      '\r', [BACKSLASH, 'r']),
      NUL, [BACKSLASH, '0']),
      CTRL_Z, [BACKSLASH, 'Z']),
      '"', [BACKSLASH, '"'])
  }

  /** What one character becomes. */
  function EscapeChar(c: char): string {
    if c == BACKSLASH then [BACKSLASH, BACKSLASH]
    else if c == QUOTE then [BACKSLASH, QUOTE]
    else if c == '\n' then [BACKSLASH, 'n']
    else if c == '\r' then [BACKSLASH, 'r']
    else if c == NUL then [BACKSLASH, '0']
    else if c == CTRL_Z then [BACKSLASH, 'Z']
    else if c == '"' then [BACKSLASH, '"']
    else [c]
  }

  function CharMap(f: char -> string, s: string): string {
    if s == [] then [] else f(s[0]) + CharMap(f, s[1..])
  }

  /** The connection's escaping: with NO_BACKSLASH_ESCAPES only quotes are doubled. */
  function Escape(s: string, noBackslash: bool): string {
    if noBackslash then Replace(s, QUOTE, [QUOTE, QUOTE]) else EscapeString(s)
  }

  function EscapeCharIn(noBackslash: bool): char -> string {
    (c: char) => if noBackslash then (if c == QUOTE then [QUOTE, QUOTE] else [c]) else EscapeChar(c)
  }

  // ---------------------------------------------------------------- one pass instead of seven

  lemma {:induction false} ReplaceAppend(s: string, u: string, c: char, t: string)
    ensures Replace(s + u, c, t) == Replace(s, c, t) + Replace(u, c, t)
  {
    if s == [] {
      assert s + u == u;
    } else {
      ReplaceAppend(s[1..], u, c, t);
      assert (s + u)[1..] == s[1..] + u;
      Associative(if s[0] == c then t else [s[0]], Replace(s[1..], c, t), Replace(u, c, t));
    }
  }

  lemma ReplaceOne(x: char, c: char, t: string)
    ensures Replace([x], c, t) == if x == c then t else [x]
  {
    assert Replace([x], c, t) == (if x == c then t else [x]) + Replace([], c, t);
  }

  lemma ReplaceTwo(x: char, y: char, c: char, t: string)
    ensures x != c && y != c ==> Replace([x, y], c, t) == [x, y]
  {
    assert [x, y] == [x] + [y];
    ReplaceAppend([x], [y], c, t);
    ReplaceOne(x, c, t);
    ReplaceOne(y, c, t);
  }

  lemma EscapeStringAppend(s: string, u: string)
    ensures EscapeString(s + u) == EscapeString(s) + EscapeString(u)
  {
    var s1, u1 := Replace(s, BACKSLASH, [BACKSLASH, BACKSLASH]), Replace(u, BACKSLASH, [BACKSLASH, BACKSLASH]);
    ReplaceAppend(s, u, BACKSLASH, [BACKSLASH, BACKSLASH]);
    var s2, u2 := Replace(s1, QUOTE, [BACKSLASH, QUOTE]), Replace(u1, QUOTE, [BACKSLASH, QUOTE]);
    ReplaceAppend(s1, u1, QUOTE, [BACKSLASH, QUOTE]);
    var s3, u3 := Replace(s2, '\n', [BACKSLASH, 'n']), Replace(u2, '\n', [BACKSLASH, 'n']);
    ReplaceAppend(s2, u2, '\n', [BACKSLASH, 'n']);
    var s4, u4 := Replace(s3, '\r', [BACKSLASH, 'r']), Replace(u3, '\r', [BACKSLASH, 'r']);
    ReplaceAppend(s3, u3, '\r', [BACKSLASH, 'r']);
    var s5, u5 := Replace(s4, NUL, [BACKSLASH, '0']), Replace(u4, NUL, [BACKSLASH, '0']);
    ReplaceAppend(s4, u4, NUL, [BACKSLASH, '0']);
    var s6, u6 := Replace(s5, CTRL_Z, [BACKSLASH, 'Z']), Replace(u5, CTRL_Z, [BACKSLASH, 'Z']);
    ReplaceAppend(s5, u5, CTRL_Z, [BACKSLASH, 'Z']);
    ReplaceAppend(s6, u6, '"', [BACKSLASH, '"']);
  }

  /** Later passes do not touch what an earlier pass produced for a single character. */
  lemma EscapeStringOne(c: char)
    ensures EscapeString([c]) == EscapeChar(c)
  {
    var s1 := if c == BACKSLASH then [BACKSLASH, BACKSLASH] else [c];
    ReplaceOne(c, BACKSLASH, [BACKSLASH, BACKSLASH]);
    var s2 := if c == QUOTE then [BACKSLASH, QUOTE] else s1;
    Pass(c, s1, QUOTE, QUOTE, s2);
    var s3 := if c == '\n' then [BACKSLASH, 'n'] else s2;
    Pass(c, s2, '\n', 'n', s3);
    var s4 := if c == '\r' then [BACKSLASH, 'r'] else s3;
    Pass(c, s3, '\r', 'r', s4);
    var s5 := if c == NUL then [BACKSLASH, '0'] else s4;
    Pass(c, s4, NUL, '0', s5);
    var s6 := if c == CTRL_Z then [BACKSLASH, 'Z'] else s5;
    Pass(c, s5, CTRL_Z, 'Z', s6);
    var s7 := if c == '"' then [BACKSLASH, '"'] else s6;
    Pass(c, s6, '"', '"', s7);
  }

  lemma Pass(c: char, s: string, from: char, to: char, r: string)
    requires from != BACKSLASH && r == if c == from then [BACKSLASH, to] else s
    requires s == [c] || (|s| == 2 && s[0] == BACKSLASH && s[1] != from && c != from)
    ensures Replace(s, from, [BACKSLASH, to]) == r
  {
    if s == [c] {
      ReplaceOne(c, from, [BACKSLASH, to]);
    } else {
      assert s == [s[0], s[1]];
      ReplaceTwo(s[0], s[1], from, [BACKSLASH, to]);
    }
  }

  /** The seven sequential replacements are one character-wise map. */
  lemma {:induction false} SevenPassesAreOne(s: string)
    ensures EscapeString(s) == CharMap(EscapeChar, s)
  {
    if s != [] {
      assert s == [s[0]] + s[1..];
      EscapeStringAppend([s[0]], s[1..]);
      EscapeStringOne(s[0]);
      SevenPassesAreOne(s[1..]);
    }
  }

  lemma {:induction false} EscapeIsCharMap(s: string, noBackslash: bool)
    ensures Escape(s, noBackslash) == CharMap(EscapeCharIn(noBackslash), s)
  {
    if s != [] {
      EscapeIsCharMap(s[1..], noBackslash);
      if !noBackslash {
        SevenPassesAreOne(s);
        SevenPassesAreOne(s[1..]);
      }
    }
  }

  // ---------------------------------------------------------------- the server's lexer

  /** What a backslash and `c` stand for (section 11.1.1 of the MySQL 8.4 Reference Manual). */
  /** The seven characters that are escaped, and what they become; every other one stays. */
  lemma EscapeTable(c: char)
    ensures EscapeString("\\") == "\\\\" && EscapeString("'") == "\\'" && EscapeString("\n") == "\\n"
    ensures EscapeString("\r") == "\\r" && EscapeString("\0") == "\\0" && EscapeString("\U{1A}") == "\\Z"
    ensures EscapeString("\"") == "\\\""
    ensures c !in "\\'\n\r\0\U{1A}\"" ==> EscapeString([c]) == [c]
    ensures Escape([c], true) == if c == '\'' then "''" else [c]
  {
    EscapeStringOne('\\');
    EscapeStringOne('\'');
    EscapeStringOne('\n');
    EscapeStringOne('\r');
    EscapeStringOne('\0');
    EscapeStringOne('\U{1A}');
    EscapeStringOne('"');
    EscapeStringOne(c);
    ReplaceOne(c, QUOTE, [QUOTE, QUOTE]);
  }

  function Unescape(c: char): string {
    if c == '0' then [NUL]
    else if c == 'b' then ['\U{08}']
    else if c == 'n' then ['\n']
    else if c == 'r' then ['\r']
    else if c == 't' then ['\t']
    else if c == 'Z' then [CTRL_Z]
    else if c == '%' || c == '_' then [BACKSLASH, c]
    else [c]
  }

  datatype Lexed = Unterminated | Literal(value: string, rest: string)

  function Cons(v: string, l: Lexed): Lexed {
    match l
    case Unterminated => Unterminated
    case Literal(value, rest) => Literal(v + value, rest)
  }

  /** Reads a single-quoted literal, after its opening quote. */
  function LexBody(t: string, noBackslash: bool): Lexed {
    if t == [] then Unterminated
    else if t[0] == QUOTE then
      if |t| > 1 && t[1] == QUOTE then Cons([QUOTE], LexBody(t[2..], noBackslash)) else Literal([], t[1..])
    else if t[0] == BACKSLASH && !noBackslash then
      if |t| < 2 then Unterminated else Cons(Unescape(t[1]), LexBody(t[2..], noBackslash))
    else Cons([t[0]], LexBody(t[1..], noBackslash))
  }

  predicate StartsWithQuote(t: string) { t != [] && t[0] == QUOTE }

  lemma LexPlain(c: char, t: string, noBackslash: bool)
    requires c != QUOTE && (c != BACKSLASH || noBackslash)
    ensures LexBody([c] + t, noBackslash) == Cons([c], LexBody(t, noBackslash))
  {
    assert ([c] + t)[1..] == t;
  }

  lemma LexPair(x: char, y: char, t: string, noBackslash: bool)
    requires if x == QUOTE then y == QUOTE else x == BACKSLASH && !noBackslash
    ensures LexBody([x, y] + t, noBackslash)
            == Cons(if x == QUOTE then [QUOTE] else Unescape(y), LexBody(t, noBackslash))
  {
    assert ([x, y] + t)[2..] == t;
  }

  /** An escaped character has one character, or two that the lexer reads back. */
  lemma EscapeShape(c: char, noBackslash: bool)
    ensures var e := EscapeCharIn(noBackslash)(c);
            || (e == [c] && c != QUOTE && (c != BACKSLASH || noBackslash))
            || (e == [QUOTE, QUOTE] && c == QUOTE)
            || (|e| == 2 && e[0] == BACKSLASH && !noBackslash && Unescape(e[1]) == [c])
  {
  }

  lemma LexEscapedChar(c: char, t: string, noBackslash: bool)
    ensures LexBody(EscapeCharIn(noBackslash)(c) + t, noBackslash) == Cons([c], LexBody(t, noBackslash))
  {
    EscapeShape(c, noBackslash);
    LexShape(c, EscapeCharIn(noBackslash)(c), t, noBackslash);
  }

  lemma LexShape(c: char, e: string, t: string, noBackslash: bool)
    requires || (e == [c] && c != QUOTE && (c != BACKSLASH || noBackslash))
             || (e == [QUOTE, QUOTE] && c == QUOTE)
             || (|e| == 2 && e[0] == BACKSLASH && !noBackslash && Unescape(e[1]) == [c])
    ensures LexBody(e + t, noBackslash) == Cons([c], LexBody(t, noBackslash))
  {
    if |e| == 1 {
      LexPlain(c, t, noBackslash);
    } else {
      LexPair(e[0], e[1], t, noBackslash);
      assert e == [e[0], e[1]];
    }
  }

  lemma {:induction false} LexEscaped(s: string, t: string, noBackslash: bool)
    ensures LexBody(CharMap(EscapeCharIn(noBackslash), s) + t, noBackslash) == Cons(s, LexBody(t, noBackslash))
  {
    var f := EscapeCharIn(noBackslash);
    if s == [] {
      assert CharMap(f, s) + t == t;
      ConsNothing(LexBody(t, noBackslash));
    } else {
      Associative(f(s[0]), CharMap(f, s[1..]), t);
      LexEscapedChar(s[0], CharMap(f, s[1..]) + t, noBackslash);
      LexEscaped(s[1..], t, noBackslash);
      ConsCons(s, LexBody(t, noBackslash));
    }
  }

  lemma ConsNothing(l: Lexed)
    ensures Cons([], l) == l
  {
    if l.Literal? {
      assert [] + l.value == l.value;
    }
  }

  lemma ConsCons(s: string, l: Lexed)
    requires s != []
    ensures Cons([s[0]], Cons(s[1..], l)) == Cons(s, l)
  {
    if l.Literal? {
      assert [s[0]] + (s[1..] + l.value) == s + l.value;
    }
  }

  lemma {:induction false} LexConsumes(t: string, noBackslash: bool)
    ensures LexBody(t, noBackslash).Literal? ==> |LexBody(t, noBackslash).rest| < |t|
    decreases |t|
  {
    if |t| > 0 {
      LexConsumes(t[1..], noBackslash);
      if |t| > 1 {
        LexConsumes(t[2..], noBackslash);
      }
    }
  }

  /**
    * In both server modes, the server reads quote, escaped text, quote back as exactly the original string and
    * whatever follows, if and only if what follows does not itself start with a quote.
    */
  lemma EscapedLiteralReadsBack(s: string, rest: string, noBackslash: bool)
    ensures LexBody(Escape(s, noBackslash) + [QUOTE] + rest, noBackslash) == Literal(s, rest)
            <==> !StartsWithQuote(rest)
  {
    EscapeIsCharMap(s, noBackslash);
    Associative(Escape(s, noBackslash), [QUOTE], rest);
    LexEscaped(s, [QUOTE] + rest, noBackslash);
    assert ([QUOTE] + rest)[1..] == rest && s + [] == s;
    if StartsWithQuote(rest) {
      assert ([QUOTE] + rest)[2..] == rest[1..];
      LexConsumes(rest[1..], noBackslash);
    }
  }
}
