/** The two quoted tokens of the harness, as functions of the choices their
    generators draw: the string literal of appendSingleQuoteLiteral and the
    delimited identifier of appendQuotedIdentifier. The lemmas read the
    rendered text back with the reference lexer of module SqlLexical. */
module QuotedTokens {
  import opened Utf16
  import opened TaintedText
  import opened SqlLexical

  /** The units a body loop appends: each code point, and a drawn delimiter
      `q` written twice. */
  function QuotedUnits(q: int, ds: seq<Drawn>): seq<int> {
    if |ds| == 0 then []
    else
      var c := ds[|ds| - 1].c;
      QuotedUnits(q, ds[..|ds| - 1]) + (if c == q then [q, q] else ToChars(c))
  }

  /** Doubling a BMP delimiter that is not a surrogate never touches the
      units of a supplementary code point. */
  lemma {:induction false} EscapeCodePoint(q: int, c: CodePoint)
    requires 0 <= q < 0xD800
    ensures DoubleQuotes(q, ToChars(c)) == if c == q then [q, q] else ToChars(c)
  {
    var u := ToChars(c);
    if c < MinSupplementaryCodePoint {
      DoubleQuotesSingle(q, c);
    } else {
      DoubleQuotesAppend(q, [u[0]], [u[1]]);
      DoubleQuotesSingle(q, u[0]);
      DoubleQuotesSingle(q, u[1]);
      assert [u[0]] + [u[1]] == u;
    }
  }

  /** The body loops double the delimiter: their units are exactly the
      drawn text with every delimiter doubled. */
  lemma {:induction false} QuotedUnitsDouble(q: int, ds: seq<Drawn>)
    requires 0 <= q < 0xD800
    ensures QuotedUnits(q, ds) == DoubleQuotes(q, Units(ds))
    decreases |ds|
  {
    if |ds| > 0 {
      var init, c := ds[..|ds| - 1], ds[|ds| - 1].c;
      QuotedUnitsDouble(q, init);
      DoubleQuotesAppend(q, Units(init), ToChars(c));
      EscapeCodePoint(q, c);
    }
  }

  lemma {:induction false} QuotedUnitsFront(q: int, ds: seq<Drawn>)
    requires |ds| > 0
    ensures QuotedUnits(q, ds) == (if ds[0].c == q then [q, q] else ToChars(ds[0].c)) + QuotedUnits(q, ds[1..])
    decreases |ds|
  {
    if |ds| > 1 {
      var init := ds[..|ds| - 1];
      QuotedUnitsFront(q, init);
      assert init[1..] == ds[1..][..|ds[1..]| - 1];
    } else {
      assert ds[..0] == [] && ds[1..] == [];
    }
  }

  // ---------------------------------------------------------------------
  // appendSingleQuoteLiteral

  /** The choices of one string literal: whether a space leads it, the
      fault draw of each opening unit, the body code points with their
      taint coins, the fault draw after each body quote, and the fault draw
      of the closing quote. A fault is a draw of 0 out of 256. */
  datatype LiteralDraws = LiteralDraws(lead: bool, open: seq<bool>, body: seq<Drawn>, faults: seq<bool>, close: bool)

  predicate LiteralWellFormed(r: LiteralDraws) {
    |r.open| == (if r.lead then 2 else 1) &&
    |r.faults| == |r.body| && |r.body| < 256 &&
    forall k :: 0 <= k < |r.body| && r.faults[k] ==> r.body[k].c == Apostrophe
  }

  /** The bits of a literal body: a code point's units get its coin, and
      the doubling quote after a drawn quote gets the coin flipped by the
      fault draw. */
  function LiteralBodyBits(body: seq<Drawn>, faults: seq<bool>): (b: seq<bool>)
    requires |faults| == |body|
    ensures |b| == |QuotedUnits(Apostrophe, body)|
  {
    if |body| == 0 then []
    else
      LiteralBodyBits(body[..|body| - 1], faults[..|body| - 1]) +
        LiteralSegmentBits(body[|body| - 1], faults[|body| - 1])
  }

  function LiteralSegmentBits(d: Drawn, fault: bool): seq<bool> {
    if d.c == Apostrophe then [d.taint, d.taint != fault] else Repeat(d.taint, CharCount(d.c))
  }

  /** The body draws that set the exception flag: a tainted NUL, or a fault
      after a quote. */
  function LiteralBodyViolation(body: seq<Drawn>, faults: seq<bool>): bool
    requires |faults| == |body|
  {
    if |body| == 0 then false
    else
      LiteralBodyViolation(body[..|body| - 1], faults[..|body| - 1]) ||
        LiteralSegmentViolation(body[|body| - 1], faults[|body| - 1])
  }

  function LiteralSegmentViolation(d: Drawn, fault: bool): bool {
    (d.c == Nul && d.taint) || (d.c == Apostrophe && fault)
  }

  function LiteralPrefix(lead: bool): seq<int> {
    (if lead then [Space] else []) + [Apostrophe]
  }

  function LiteralUnits(r: LiteralDraws): seq<int> {
    LiteralPrefix(r.lead) + QuotedUnits(Apostrophe, r.body) + [Apostrophe]
  }

  function LiteralBits(r: LiteralDraws): (b: seq<bool>)
    requires LiteralWellFormed(r)
    ensures |b| == |LiteralUnits(r)|
  {
    r.open + LiteralBodyBits(r.body, r.faults) + [r.close]
  }

  function LiteralViolation(r: LiteralDraws): bool
    requires LiteralWellFormed(r)
  {
    true in r.open || LiteralBodyViolation(r.body, r.faults) || r.close
  }

  /** A string literal reads back as the drawn text: after its prefix (a
      space when the query ended in a quote, then the opening quote) the
      lexer finds exactly the drawn units and stops at the literal's last
      unit, whatever follows as long as it is not a quote. */
  lemma {:induction false} LiteralReadsBack(r: LiteralDraws, rest: seq<int>)
    requires LiteralWellFormed(r)
    requires |rest| == 0 || rest[0] != Apostrophe
    ensures var u, k := LiteralUnits(r), |LiteralPrefix(r.lead)|;
            u[..k] == LiteralPrefix(r.lead) &&
            LexQuoted(Apostrophe, u[k..] + rest) == Quoted(Units(r.body), |u| - k)
  {
    var p, d := LiteralPrefix(r.lead), QuotedUnits(Apostrophe, r.body);
    var u, k := LiteralUnits(r), |p|;
    QuotedUnitsDouble(Apostrophe, r.body);
    assert u == p + (d + [Apostrophe]);
    assert u[..k] == p && u[k..] == d + [Apostrophe];
    LexQuotedClosed(Apostrophe, Units(r.body), u[k..], rest);
  }

  lemma {:induction false} LiteralBodyBitsFront(body: seq<Drawn>, faults: seq<bool>)
    requires |faults| == |body| > 0
    ensures LiteralBodyBits(body, faults) ==
              LiteralSegmentBits(body[0], faults[0]) + LiteralBodyBits(body[1..], faults[1..])
    decreases |body|
  {
    var n := |body|;
    if n > 1 {
      var init, finit := body[..n - 1], faults[..n - 1];
      LiteralBodyBitsFront(init, finit);
      assert init[1..] == body[1..][..n - 2] && finit[1..] == faults[1..][..n - 2];
    } else {
      assert body[..0] == [] && faults[..0] == [] && body[1..] == [] && faults[1..] == [];
    }
  }

  lemma {:induction false} LiteralBodyViolationFront(body: seq<Drawn>, faults: seq<bool>)
    requires |faults| == |body| > 0
    ensures LiteralBodyViolation(body, faults) ==
              (LiteralSegmentViolation(body[0], faults[0]) || LiteralBodyViolation(body[1..], faults[1..]))
    decreases |body|
  {
    var n := |body|;
    if n > 1 {
      var init, finit := body[..n - 1], faults[..n - 1];
      LiteralBodyViolationFront(init, finit);
      assert init[1..] == body[1..][..n - 2] && finit[1..] == faults[1..][..n - 2];
    } else {
      assert body[..0] == [] && faults[..0] == [] && body[1..] == [] && faults[1..] == [];
    }
  }

  /** The scanner of the doubled body skips a code point that is neither a
      quote nor NUL unit by unit. */
  lemma {:induction false} LeaksSkip(c: CodePoint, t: bool, u: seq<int>, b: seq<bool>)
    requires c != Apostrophe && c != Nul && |u| == |b|
    ensures LiteralBodyLeaks(ToChars(c) + u, Repeat(t, CharCount(c)) + b) == LiteralBodyLeaks(u, b)
  {
    var s, sb := ToChars(c) + u, Repeat(t, CharCount(c)) + b;
    if c < MinSupplementaryCodePoint {
      assert s[1..] == u && sb[1..] == b;
    } else {
      assert s[1..][1..] == u && sb[1..][1..] == b;
      assert s[0] != Apostrophe && s[0] != Nul && s[1] != Apostrophe && s[1] != Nul;
    }
  }

  /** What the generator flags in a literal body is exactly what a reader of
      the doubled body sees leak: a quote pair whose two bits differ, or a
      tainted NUL. */
  lemma {:induction false} LiteralBodyFlagVisible(body: seq<Drawn>, faults: seq<bool>)
    requires |faults| == |body|
    requires forall k :: 0 <= k < |body| && faults[k] ==> body[k].c == Apostrophe
    ensures LiteralBodyLeaks(QuotedUnits(Apostrophe, body), LiteralBodyBits(body, faults))
            == LiteralBodyViolation(body, faults)
    decreases |body|
  {
    if |body| > 0 {
      var d, f := body[0], faults[0];
      QuotedUnitsFront(Apostrophe, body);
      LiteralBodyBitsFront(body, faults);
      LiteralBodyViolationFront(body, faults);
      var u, b := QuotedUnits(Apostrophe, body[1..]), LiteralBodyBits(body[1..], faults[1..]);
      LiteralBodyFlagVisible(body[1..], faults[1..]);
      if d.c == Apostrophe {
        var s, sb := [Apostrophe, Apostrophe] + u, [d.taint, d.taint != f] + b;
        assert s[2..] == u && sb[2..] == b;
      } else if d.c == Nul {
        var s, sb := [Nul] + u, [d.taint] + b;
        assert s[1..] == u && sb[1..] == b;
        assert !f;
      } else {
        LeaksSkip(d.c, d.taint, u, b);
      }
    }
  }

  /** The exception flag of a literal is set exactly when its rendered text
      shows a leak: a tainted unit before the body, a tainted closing quote,
      or a leak in the doubled body. */
  lemma {:induction false} LiteralFlagVisible(r: LiteralDraws)
    requires LiteralWellFormed(r)
    ensures var u, b, k := LiteralUnits(r), LiteralBits(r), |LiteralPrefix(r.lead)|;
            LiteralViolation(r) <==>
              (true in b[..k]) || b[|b| - 1] || LiteralBodyLeaks(u[k..|u| - 1], b[k..|b| - 1])
  {
    var u, b, k := LiteralUnits(r), LiteralBits(r), |LiteralPrefix(r.lead)|;
    assert b[..k] == r.open;
    assert u[k..|u| - 1] == QuotedUnits(Apostrophe, r.body);
    assert b[k..|b| - 1] == LiteralBodyBits(r.body, r.faults);
    LiteralBodyFlagVisible(r.body, r.faults);
  }

  // ---------------------------------------------------------------------
  // appendQuotedIdentifier

  /** The bits of an identifier body: a code point's units get its coin,
      except that a drawn `"` is preceded by the doubling quote, which takes
      the coin, while its own unit stays clear. */
  function IdentifierBodyBits(body: seq<Drawn>): (b: seq<bool>)
    ensures |b| == |QuotedUnits(DoubleQuote, body)|
  {
    if |body| == 0 then []
    else
      var d := body[|body| - 1];
      IdentifierBodyBits(body[..|body| - 1]) +
        (if d.c == DoubleQuote then [d.taint, false] else Repeat(d.taint, CharCount(d.c)))
  }

  /** Some body code point was drawn tainted (a draw of 0 out of 1024). */
  function SomeTainted(body: seq<Drawn>): bool {
    if |body| == 0 then false else SomeTainted(body[..|body| - 1]) || body[|body| - 1].taint
  }

  predicate IdentifierWellFormed(body: seq<Drawn>) {
    |body| < 64
  }

  function IdentifierUnits(body: seq<Drawn>): seq<int> {
    [DoubleQuote] + QuotedUnits(DoubleQuote, body) + [DoubleQuote, Space]
  }

  function IdentifierBits(body: seq<Drawn>): (b: seq<bool>)
    ensures |b| == |IdentifierUnits(body)|
  {
    [false] + IdentifierBodyBits(body) + [false, false]
  }

  /** A delimited identifier opens with `"`, reads back as the drawn text,
      and ends with a quote and a space, both clean, so that a following
      token that starts with a quote cannot extend it. */
  lemma {:induction false} IdentifierReadsBack(body: seq<Drawn>)
    ensures var u, b := IdentifierUnits(body), IdentifierBits(body);
            u[0] == DoubleQuote && !b[0] &&
            u[|u| - 2..] == [DoubleQuote, Space] && !b[|b| - 2] && !b[|b| - 1] &&
            LexQuoted(DoubleQuote, u[1..]) == Quoted(Units(body), |u| - 2)
  {
    var u := IdentifierUnits(body);
    QuotedUnitsDouble(DoubleQuote, body);
    var s := u[1..|u| - 1];
    assert s == DoubleQuotes(DoubleQuote, Units(body)) + [DoubleQuote] && u[1..] == s + [Space];
    LexQuotedClosed(DoubleQuote, Units(body), s, [Space]);
  }

  lemma {:induction false} IdentifierBodyFlagVisible(body: seq<Drawn>)
    ensures SomeTainted(body) <==> true in IdentifierBodyBits(body)
    decreases |body|
  {
    if |body| > 0 {
      var init, d := body[..|body| - 1], body[|body| - 1];
      IdentifierBodyFlagVisible(init);
      var seg := if d.c == DoubleQuote then [d.taint, false] else Repeat(d.taint, CharCount(d.c));
      assert IdentifierBodyBits(body) == IdentifierBodyBits(init) + seg;
      assert d.taint <==> true in seg by {
        assert seg[0] == d.taint;
      }
    }
  }

  /** The exception flag of an identifier is set exactly when some unit of
      its text is tainted. */
  lemma {:induction false} IdentifierFlagVisible(body: seq<Drawn>)
    ensures SomeTainted(body) <==> true in IdentifierBits(body)
  {
    IdentifierBodyFlagVisible(body);
  }
}
