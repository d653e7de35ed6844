/** The lexical rules of SQL that the generated tokens imitate (ISO/IEC
    9075-2, section 5.2 `<token and separator>` and section 5.3
    `<literal>`), written as reference lexers over UTF-16 units. They are
    independent of the generators; the lemmas of modules QuotedTokens,
    CommentTokens, LiteralTokens and OtherTokens show that each generated
    token reads back as the token it was meant to be. */
module SqlLexical {
  import opened TaintedText

  const Nul := 0
  const LineFeed := '\n' as int
  const CarriageReturn := '\r' as int
  const Space := ' ' as int
  const DoubleQuote := '"' as int
  const Apostrophe := '\'' as int
  const Star := '*' as int
  const Plus := '+' as int
  const Minus := '-' as int
  const Period := '.' as int
  const Slash := '/' as int
  const UpperE := 'E' as int
  const LowerE := 'e' as int

  function Ascii(s: string): seq<int> {
    seq(|s|, k requires 0 <= k < |s| => s[k] as int)
  }

  predicate IsDigit(u: int) { '0' as int <= u <= '9' as int }
  predicate IsSign(u: int) { u == Plus || u == Minus }
  predicate IsLineTerminator(u: int) { u == CarriageReturn || u == LineFeed }

  // ---------------------------------------------------------------------
  // Quoted tokens: a character string literal delimited by `'` (section
  // 5.3) and a delimited identifier delimited by `"` (section 5.2). Inside,
  // the delimiter is written twice.

  function Escape(q: int, u: int): seq<int> {
    if u == q then [q, q] else [u]
  }

  /** The body of a quoted token holding `s`: every `q` doubled. */
  function DoubleQuotes(q: int, s: seq<int>): seq<int> {
    if |s| == 0 then [] else DoubleQuotes(q, s[..|s| - 1]) + Escape(q, s[|s| - 1])
  }

  lemma {:induction false} DoubleQuotesAppend(q: int, a: seq<int>, b: seq<int>)
    ensures DoubleQuotes(q, a + b) == DoubleQuotes(q, a) + DoubleQuotes(q, b)
    decreases |b|
  {
    if |b| == 0 {
      assert a + b == a;
    } else {
      var init := b[..|b| - 1];
      DoubleQuotesAppend(q, a, init);
      assert (a + b)[..|a + b| - 1] == a + init;
    }
  }

  lemma {:induction false} DoubleQuotesSingle(q: int, u: int)
    ensures DoubleQuotes(q, [u]) == Escape(q, u)
  {
    assert [u][..0] == [];
  }

  datatype QuotedLex = Quoted(content: seq<int>, length: nat) | Unterminated

  /** Lexes a quoted token whose opening delimiter `q` has been read: a
      doubled `q` stands for one `q`, a single `q` closes. The result holds
      the content and the number of units read, closing delimiter included. */
  function LexQuoted(q: int, s: seq<int>): QuotedLex
    decreases |s|
  {
    if |s| == 0 then Unterminated
    else if s[0] == q then
      if |s| >= 2 && s[1] == q then
        match LexQuoted(q, s[2..])
        case Unterminated => Unterminated
        case Quoted(c, n) => Quoted([q] + c, n + 2)
      else Quoted([], 1)
    else
      match LexQuoted(q, s[1..])
      case Unterminated => Unterminated
      case Quoted(c, n) => Quoted([s[0]] + c, n + 1)
  }

  /** Doubling round trip: the lexer reads a doubled body back to the
      original units and stops at the closing delimiter, provided the unit
      after the delimiter is not another delimiter. */
  lemma {:induction false} LexQuotedRoundTrip(q: int, body: seq<int>, rest: seq<int>)
    requires |rest| == 0 || rest[0] != q
    ensures LexQuoted(q, DoubleQuotes(q, body) + [q] + rest) == Quoted(body, |DoubleQuotes(q, body)| + 1)
    decreases |body|
  {
    var s := DoubleQuotes(q, body) + [q] + rest;
    if |body| == 0 {
      assert s == [q] + rest;
    } else {
      var x, tail := body[0], body[1..];
      var d := DoubleQuotes(q, tail);
      var after := d + [q] + rest;
      assert DoubleQuotes(q, body) == Escape(q, x) + d by {
        assert [x] + tail == body;
        DoubleQuotesAppend(q, [x], tail);
        DoubleQuotesSingle(q, x);
      }
      assert s == Escape(q, x) + after;
      LexQuotedRoundTrip(q, tail, rest);
      if x == q {
        assert s[0] == q && s[1] == q && s[2..] == after;
      } else {
        assert s[0] == x && s[1..] == after;
      }
    }
  }

  /** The round trip, for a token text `s` already known to be the doubled
      body and its closing delimiter. */
  lemma {:induction false} LexQuotedClosed(q: int, body: seq<int>, s: seq<int>, rest: seq<int>)
    requires s == DoubleQuotes(q, body) + [q]
    requires |rest| == 0 || rest[0] != q
    ensures LexQuoted(q, s + rest) == Quoted(body, |s|)
  {
    LexQuotedRoundTrip(q, body, rest);
  }

  /** Whether the taint of a string literal's doubled body lets untrusted
      data escape: the two units of a doubled quote carry different bits,
      or a NUL unit is tainted. */
  function LiteralBodyLeaks(u: seq<int>, b: seq<bool>): bool
    requires |u| == |b|
    decreases |u|
  {
    if |u| == 0 then false
    else if u[0] == Apostrophe && |u| >= 2 then b[0] != b[1] || LiteralBodyLeaks(u[2..], b[2..])
    else (u[0] == Nul && b[0]) || LiteralBodyLeaks(u[1..], b[1..])
  }

  // ---------------------------------------------------------------------
  // Bracketed comments (section 5.2): slash-star opens, star-slash closes;
  // with nesting, a slash-star inside opens a further level.

  datatype CommentScan = Closed(end: nat, tainted: bool) | Unclosed(depth: int, tainted: bool)

  function ShiftScan(r: CommentScan, k: nat): CommentScan {
    match r
    case Closed(e, t) => Closed(e + k, t)
    case Unclosed(d, t) => r
  }

  /** Lexes the rest of a bracketed comment whose opening delimiter has
      been read, at nesting depth `depth`. It reports where the comment closes
      and whether any delimiter that changed the depth had a tainted unit. */
  function CommentLex(nested: bool, s: seq<int>, b: seq<bool>, depth: int, tainted: bool): CommentScan
    requires |s| == |b|
    decreases |s|
  {
    if |s| >= 2 && s[0] == Star && s[1] == Slash then
      var t := tainted || b[0] || b[1];
      if depth <= 1 then Closed(2, t)
      else ShiftScan(CommentLex(nested, s[2..], b[2..], depth - 1, t), 2)
    else if nested && |s| >= 2 && s[0] == Slash && s[1] == Star then
      ShiftScan(CommentLex(nested, s[2..], b[2..], depth + 1, tainted || b[0] || b[1]), 2)
    else if |s| == 0 then Unclosed(depth, tainted)
    else ShiftScan(CommentLex(nested, s[1..], b[1..], depth, tainted), 1)
  }

  /** The delimiter machine of appendBlockComment, one unit at a time: the
      nesting level, the half-delimiter last seen, the taint bit of the
      previous unit, and whether a level change was tainted. */
  datatype CommentState = Default | SeenSlash | SeenStar
  datatype Machine = Machine(level: int, state: CommentState, prevTaint: bool, violation: bool)

  function StepUnit(nested: bool, m: Machine, u: int, t: bool): Machine {
    if nested && m.state == SeenSlash && u == Star then
      Machine(m.level + 1, Default, t, m.violation || t || m.prevTaint)
    else if m.state == SeenStar && u == Slash then
      Machine(m.level - 1, Default, t, m.violation || t || m.prevTaint)
    else
      Machine(m.level, if u == Star then SeenStar else if u == Slash then SeenSlash else Default,
              t, m.violation)
  }

  datatype MachineRun = Stopped(end: nat, violation: bool) | Running(m: Machine)

  function ShiftRun(r: MachineRun, k: nat): MachineRun {
    match r
    case Stopped(e, v) => Stopped(e + k, v)
    case Running(_) => r
  }

  /** Runs the machine over `s` until the level drops to zero. */
  function Run(nested: bool, s: seq<int>, b: seq<bool>, m: Machine): MachineRun
    requires |s| == |b|
    decreases |s|
  {
    if |s| == 0 then Running(m)
    else
      var m' := StepUnit(nested, m, s[0], b[0]);
      if m'.level <= 0 then Stopped(1, m'.violation)
      else ShiftRun(Run(nested, s[1..], b[1..], m'), 1)
  }

  lemma {:induction false} RunConcat(nested: bool, s: seq<int>, b: seq<bool>, t: seq<int>, tb: seq<bool>, m: Machine)
    requires |s| == |b| && |t| == |tb|
    requires Run(nested, s, b, m).Running?
    ensures Run(nested, s + t, b + tb, m) == ShiftRun(Run(nested, t, tb, Run(nested, s, b, m).m), |s|)
    decreases |s|
  {
    if |s| == 0 {
      assert s + t == t && b + tb == tb;
    } else {
      var m' := StepUnit(nested, m, s[0], b[0]);
      assert (s + t)[1..] == s[1..] + t && (b + tb)[1..] == b[1..] + tb;
      RunConcat(nested, s[1..], b[1..], t, tb, m');
    }
  }

  function Pending(m: Machine): seq<int> {
    match m.state
    case Default => []
    case SeenStar => [Star]
    case SeenSlash => [Slash]
  }

  function PendingBits(m: Machine): seq<bool> {
    if m.state == Default then [] else [m.prevTaint]
  }

  function AsScan(r: MachineRun): CommentScan {
    match r
    case Stopped(e, v) => Closed(e, v)
    case Running(m) => Unclosed(m.level, m.violation)
  }

  /** The delimiter machine agrees with the comment lexer: a machine that
      has seen half a delimiter behaves like the lexer positioned on that
      half. Both find the same end and the same tainted delimiters. */
  lemma {:induction false} MachineMatchesLexer(nested: bool, s: seq<int>, b: seq<bool>, m: Machine)
    requires |s| == |b| && m.level > 0
    ensures CommentLex(nested, Pending(m) + s, PendingBits(m) + b, m.level, m.violation)
            == AsScan(ShiftRun(Run(nested, s, b, m), |Pending(m)|))
    decreases |s|, 3
  {
    if |s| == 0 {
      ShiftFacts(Running(m), |Pending(m)|, 0);
      assert Pending(m) + s == Pending(m) && PendingBits(m) + b == PendingBits(m);
    } else {
      match m.state
      case Default =>
        MatchFromDefault(nested, s, b, m);
        ShiftFacts(Run(nested, s, b, m), 0, 0);
        assert [] + s == s && [] + b == b;
      case SeenStar => MatchFromStar(nested, s, b, m);
      case SeenSlash => MatchFromSlash(nested, s, b, m);
    }
  }

  /** One machine step over a non-empty input, with the hypothesis for the
      rest of the input when the comment is still open. */
  lemma {:induction false} MatchStep(nested: bool, s: seq<int>, b: seq<bool>, m: Machine)
    requires |s| == |b| && |s| > 0 && m.level > 0
    ensures var m' := StepUnit(nested, m, s[0], b[0]);
            m'.level > 0 ==>
              var r := Run(nested, s[1..], b[1..], m');
              Run(nested, s, b, m) == ShiftRun(r, 1) &&
              CommentLex(nested, Pending(m') + s[1..], PendingBits(m') + b[1..], m'.level, m'.violation)
                == AsScan(ShiftRun(r, |Pending(m')|))
    decreases |s|, 0, 0
  {
    var m' := StepUnit(nested, m, s[0], b[0]);
    if m'.level > 0 {
      MachineMatchesLexer(nested, s[1..], b[1..], m');
    }
  }

  lemma {:induction false} MatchFromDefault(nested: bool, s: seq<int>, b: seq<bool>, m: Machine)
    requires |s| == |b| && |s| > 0 && m.level > 0 && m.state == Default
    ensures CommentLex(nested, s, b, m.level, m.violation) == AsScan(Run(nested, s, b, m))
    decreases |s|, 1
  {
    var L, v := m.level, m.violation;
    var x, t, rest, rb := s[0], b[0], s[1..], b[1..];
    var m' := StepUnit(nested, m, x, t);
    var r := Run(nested, rest, rb, m');
    MatchStep(nested, s, b, m);
    ShiftFacts(r, 1, 0);
    ShiftFacts(r, 0, 1);
    if x == Star || x == Slash {
      assert [x] + rest == s && [t] + rb == b;
    } else {
      assert [] + rest == rest && [] + rb == rb;
      assert CommentLex(nested, s, b, L, v) == ShiftScan(CommentLex(nested, rest, rb, L, v), 1);
    }
  }

  lemma {:induction false} MatchFromStar(nested: bool, s: seq<int>, b: seq<bool>, m: Machine)
    requires |s| == |b| && |s| > 0 && m.level > 0 && m.state == SeenStar
    ensures CommentLex(nested, [Star] + s, [m.prevTaint] + b, m.level, m.violation)
            == AsScan(ShiftRun(Run(nested, s, b, m), 1))
    decreases |s|, 2
  {
    if s[0] == Slash {
      MatchCloser(nested, s, b, m);
    } else {
      // The unit after the half delimiter does not complete it, so the
      // machine steps as it would from the default state.
      var m0 := m.(state := Default);
      var S, B := [Star] + s, [m.prevTaint] + b;
      assert S[1..] == s && B[1..] == b;
      assert CommentLex(nested, S, B, m.level, m.violation) == ShiftScan(CommentLex(nested, s, b, m.level, m.violation), 1);
      assert StepUnit(nested, m, s[0], b[0]) == StepUnit(nested, m0, s[0], b[0]);
      assert Run(nested, s, b, m) == Run(nested, s, b, m0);
      MatchFromDefault(nested, s, b, m0);
      ShiftFacts(Run(nested, s, b, m), 1, 0);
    }
  }

  /** A star seen, then a slash: the level drops. */
  lemma {:induction false} MatchCloser(nested: bool, s: seq<int>, b: seq<bool>, m: Machine)
    requires |s| == |b| && |s| > 0 && m.level > 0 && m.state == SeenStar && s[0] == Slash
    ensures CommentLex(nested, [Star] + s, [m.prevTaint] + b, m.level, m.violation)
            == AsScan(ShiftRun(Run(nested, s, b, m), 1))
    decreases |s|, 0, 1
  {
    var L, v := m.level, m.violation;
    var t, rest, rb := b[0], s[1..], b[1..];
    var m' := StepUnit(nested, m, Slash, t);
    var v' := v || m.prevTaint || t;
    assert m' == Machine(L - 1, Default, t, v');
    var S, B := [Star] + s, [m.prevTaint] + b;
    assert S[0] == Star && S[1] == Slash && B[0] == m.prevTaint && B[1] == t;
    if L <= 1 {
      assert Run(nested, s, b, m) == Stopped(1, v');
      assert CommentLex(nested, S, B, L, v) == Closed(2, v');
    } else {
      var r := Run(nested, rest, rb, m');
      assert S[2..] == rest && B[2..] == rb;
      MatchStep(nested, s, b, m);
      ShiftFacts(r, 1, 1);
      ShiftFacts(r, 0, 2);
      assert [] + rest == rest && [] + rb == rb;
      assert CommentLex(nested, S, B, L, v) == ShiftScan(CommentLex(nested, rest, rb, L - 1, v'), 2);
    }
  }

  lemma {:induction false} MatchFromSlash(nested: bool, s: seq<int>, b: seq<bool>, m: Machine)
    requires |s| == |b| && |s| > 0 && m.level > 0 && m.state == SeenSlash
    ensures CommentLex(nested, [Slash] + s, [m.prevTaint] + b, m.level, m.violation)
            == AsScan(ShiftRun(Run(nested, s, b, m), 1))
    decreases |s|, 2
  {
    if nested && s[0] == Star {
      MatchOpener(nested, s, b, m);
    } else {
      // The unit after the half delimiter does not complete it, so the
      // machine steps as it would from the default state.
      var m0 := m.(state := Default);
      var S, B := [Slash] + s, [m.prevTaint] + b;
      assert S[1..] == s && B[1..] == b;
      assert CommentLex(nested, S, B, m.level, m.violation) == ShiftScan(CommentLex(nested, s, b, m.level, m.violation), 1);
      assert StepUnit(nested, m, s[0], b[0]) == StepUnit(nested, m0, s[0], b[0]);
      assert Run(nested, s, b, m) == Run(nested, s, b, m0);
      MatchFromDefault(nested, s, b, m0);
      ShiftFacts(Run(nested, s, b, m), 1, 0);
    }
  }

  /** A slash seen, then a star, in a nesting dialect: the level rises. */
  lemma {:induction false} MatchOpener(nested: bool, s: seq<int>, b: seq<bool>, m: Machine)
    requires |s| == |b| && |s| > 0 && m.level > 0 && m.state == SeenSlash && nested && s[0] == Star
    ensures CommentLex(nested, [Slash] + s, [m.prevTaint] + b, m.level, m.violation)
            == AsScan(ShiftRun(Run(nested, s, b, m), 1))
    decreases |s|, 0, 1
  {
    var L, v := m.level, m.violation;
    var t, rest, rb := b[0], s[1..], b[1..];
    var m' := StepUnit(nested, m, Star, t);
    var v' := v || m.prevTaint || t;
    assert m' == Machine(L + 1, Default, t, v');
    var S, B := [Slash] + s, [m.prevTaint] + b;
    assert S[0] == Slash && S[1] == Star && B[0] == m.prevTaint && B[1] == t;
    var r := Run(nested, rest, rb, m');
    assert S[2..] == rest && B[2..] == rb;
    MatchStep(nested, s, b, m);
    ShiftFacts(r, 1, 1);
    ShiftFacts(r, 0, 2);
    assert [] + rest == rest && [] + rb == rb;
    assert CommentLex(nested, S, B, L, v) == ShiftScan(CommentLex(nested, rest, rb, L + 1, v'), 2);
  }

  lemma {:induction false} ShiftFacts(r: MachineRun, a: nat, c: nat)
    ensures ShiftRun(ShiftRun(r, a), c) == ShiftRun(r, a + c)
    ensures AsScan(ShiftRun(r, a)) == ShiftScan(AsScan(r), a)
    ensures ShiftScan(ShiftScan(AsScan(r), a), c) == ShiftScan(AsScan(r), a + c)
    ensures ShiftRun(r, 0) == r
  {
  }

  // `n` closing delimiters (space, star, slash), one after the other.
  function Closers(n: nat): (s: seq<int>)
    ensures |s| == 3 * n
  {
    if n == 0 then [] else Closers(n - 1) + [Space, Star, Slash]
  }

  lemma {:induction false} ClosersFront(n: nat)
    requires n > 0
    ensures Closers(n) == [Space, Star, Slash] + Closers(n - 1)
    decreases n
  {
    if n > 1 {
      ClosersFront(n - 1);
    }
  }

  // `n` untainted closers close a comment open at level `n`, whatever half
  // delimiter the machine had seen, and add no tainted level change.
  lemma {:induction false} ClosersClose(nested: bool, n: nat, m: Machine)
    requires n > 0 && m.level == n
    ensures Run(nested, Closers(n), Repeat(false, 3 * n), m) == Stopped(3 * n, m.violation)
    decreases n
  {
    ClosersFront(n);
    var head, headBits := [Space, Star, Slash], [false, false, false];
    assert Repeat(false, 3 * n) == headBits + Repeat(false, 3 * (n - 1));
    var m1 := StepUnit(nested, m, Space, false);
    var m2 := StepUnit(nested, m1, Star, false);
    var m3 := StepUnit(nested, m2, Slash, false);
    assert m3 == Machine(n - 1, Default, false, m.violation);
    if n == 1 {
      assert Closers(n) == head && Repeat(false, 3 * n) == headBits;
      assert Run(nested, [Slash], [false], m2) == Stopped(1, m.violation);
      assert head[1..][1..] == [Slash] && headBits[1..][1..] == [false];
      assert Run(nested, head[1..], headBits[1..], m1) == Stopped(2, m.violation);
    } else {
      ClosersClose(nested, n - 1, m3);
      assert Run(nested, head[1..][1..][1..], headBits[1..][1..][1..], m3) == Running(m3);
      assert Run(nested, head[1..][1..], headBits[1..][1..], m2) == Running(m3);
      assert Run(nested, head[1..], headBits[1..], m1) == Running(m3);
      assert Run(nested, head, headBits, m) == Running(m3);
      RunConcat(nested, head, headBits, Closers(n - 1), Repeat(false, 3 * (n - 1)), m);
    }
  }

  /** Two units that open or close a comment: slash-star and star-slash
      for bracketed comments, two dashes and two slashes for line comments. */
  predicate IsCommentDelimiter(a: int, b: int) {
    (a == Slash && b == Star) || (a == Star && b == Slash) ||
    (a == Minus && b == Minus) || (a == Slash && b == Slash)
  }

  // ---------------------------------------------------------------------
  // Line comments: `--` (section 5.2 `<simple comment>`) or, in HyperSQL,
  // `//`, up to and including the first line terminator.

  /** Index of the first CR or LF in `s`, or |s| when there is none. */
  function FirstTerminator(s: seq<int>): (k: nat)
    ensures k <= |s|
    ensures k < |s| ==> IsLineTerminator(s[k])
    ensures forall j :: 0 <= j < k ==> !IsLineTerminator(s[j])
  {
    if |s| == 0 then 0
    else if IsLineTerminator(s[0]) then 0
    else 1 + FirstTerminator(s[1..])
  }

  // ---------------------------------------------------------------------
  // Numeric literals (section 5.3):
  //   <signed numeric literal>   ::= [ <sign> ] <unsigned numeric literal>
  //   <exact numeric literal>    ::= <unsigned integer> [ <period> [ <unsigned integer> ] ]
  //                                | <period> <unsigned integer>
  //   <approximate numeric literal> ::= <mantissa> E <exponent>
  //   <exponent>                 ::= <signed integer>

  /** Length of the longest run of digits that starts `s`. */
  function DigitRun(s: seq<int>): (n: nat)
    ensures n <= |s|
    ensures forall k :: 0 <= k < n ==> IsDigit(s[k])
    ensures n < |s| ==> !IsDigit(s[n])
  {
    if |s| == 0 || !IsDigit(s[0]) then 0 else 1 + DigitRun(s[1..])
  }

  /** Length of the exact numeric literal that starts `s`, 0 if none. */
  function MantissaLength(s: seq<int>): nat {
    var d := DigitRun(s);
    if d < |s| && s[d] == Period then
      var f := DigitRun(s[d + 1..]);
      if d + f == 0 then 0 else d + 1 + f
    else d
  }

  predicate IsExponent(s: seq<int>) {
    |s| >= 2 && (s[0] == UpperE || s[0] == LowerE) &&
    var r := if IsSign(s[1]) then s[2..] else s[1..];
    |r| > 0 && DigitRun(r) == |r|
  }

  predicate IsUnsignedNumericLiteral(s: seq<int>) {
    var m := MantissaLength(s);
    0 < m <= |s| && (m == |s| || IsExponent(s[m..]))
  }

  predicate IsSignedNumericLiteral(s: seq<int>) {
    if |s| > 0 && IsSign(s[0]) then IsUnsignedNumericLiteral(s[1..]) else IsUnsignedNumericLiteral(s)
  }

  // ---------------------------------------------------------------------
  // Boolean literals (section 5.3 `<boolean literal>`), compared ignoring
  // case.

  const TrueWord := Ascii("true")
  const FalseWord := Ascii("false")

  function ToUpperAscii(u: int): int {
    if 'a' as int <= u <= 'z' as int then u - 32 else u
  }

  /** Java's case-insensitive comparison of a unit with a lower-case letter
      of "true" or "false": the unit is the letter, its upper case, or
      U+017F LATIN SMALL LETTER LONG S, whose upper case is 'S'. */
  predicate SameLetterIgnoringCase(u: int, letter: int) {
    u == letter || u == ToUpperAscii(letter) || (letter == 's' as int && u == 0x17F)
  }

  predicate MatchesIgnoringCase(s: seq<int>, word: seq<int>) {
    |s| == |word| && forall k :: 0 <= k < |s| ==> SameLetterIgnoringCase(s[k], word[k])
  }
}
