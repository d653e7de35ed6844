/** The two literal tokens of the harness whose taint is a single coin, as
    functions of the choices their generators draw: the boolean literal of
    appendBoolean and the numeric literal of appendNumber. */
module LiteralTokens {
  import opened TaintedText
  import opened SqlLexical

  /** What the guard of appendBoolean and appendNumber did in front of a
      tainted literal that follows a character of no separator class: a
      clean space was inserted, or the 1-in-256 draw left it out and
      flagged the query. */
  datatype Separator = NotNeeded | Inserted | Missing

  function SeparatorUnits(sep: Separator): seq<int> {
    if sep == Inserted then [Space] else []
  }

  function SeparatorBits(sep: Separator): seq<bool> {
    if sep == Inserted then [false] else []
  }

  // ---------------------------------------------------------------------
  // appendBoolean

  /** The choices of one boolean literal: the taint coin, the separator,
      which word, and per letter a noise draw (0 out of 128) that flips its
      taint and a coin that upper-cases it. */
  datatype BooleanDraws = BooleanDraws(taint: bool, sep: Separator, isTrue: bool, noise: seq<bool>, upper: seq<bool>)

  function Word(isTrue: bool): seq<int> {
    if isTrue then TrueWord else FalseWord
  }

  predicate BooleanWellFormed(r: BooleanDraws) {
    |r.noise| == |Word(r.isTrue)| && |r.upper| == |Word(r.isTrue)|
  }

  function CasedWord(word: seq<int>, upper: seq<bool>): seq<int>
    requires |upper| == |word|
  {
    seq(|word|, k requires 0 <= k < |word| => if upper[k] then ToUpperAscii(word[k]) else word[k])
  }

  /** A letter is tainted when the coin says so, unless its noise draw
      flips it. */
  function LetterBits(taint: bool, noise: seq<bool>): seq<bool> {
    seq(|noise|, k requires 0 <= k < |noise| => taint != noise[k])
  }

  function BooleanUnits(r: BooleanDraws): seq<int>
    requires BooleanWellFormed(r)
  {
    SeparatorUnits(r.sep) + CasedWord(Word(r.isTrue), r.upper)
  }

  function BooleanBits(r: BooleanDraws): (b: seq<bool>)
    requires BooleanWellFormed(r)
    ensures |b| == |BooleanUnits(r)|
  {
    SeparatorBits(r.sep) + LetterBits(r.taint, r.noise)
  }

  /** A missing separator, or a partly tainted literal. */
  function BooleanViolation(r: BooleanDraws): bool
    requires BooleanWellFormed(r)
  {
    var n := Count(LetterBits(r.taint, r.noise));
    r.sep == Missing || (n != 0 && n != |Word(r.isTrue)|)
  }

  /** The generated letters spell the chosen word, ignoring case. */
  lemma {:induction false} BooleanReadsBack(r: BooleanDraws)
    requires BooleanWellFormed(r)
    ensures MatchesIgnoringCase(CasedWord(Word(r.isTrue), r.upper), Word(r.isTrue))
  {
  }

  /** Partly tainted means mixed: the count of tainted letters lies strictly
      between none and all exactly when some letter is tainted and some is
      not, which happens exactly when some noise draws fired and some did
      not. */
  lemma {:induction false} PartialTaintRule(taint: bool, noise: seq<bool>)
    ensures var b := LetterBits(taint, noise);
            var n := Count(b);
            (n != 0 && n != |b|) <==> (exists i :: 0 <= i < |b| && b[i]) && (exists j :: 0 <= j < |b| && !b[j])
    ensures var n := Count(LetterBits(taint, noise));
            (n != 0 && n != |noise|) <==> (exists i :: 0 <= i < |noise| && noise[i]) && (exists j :: 0 <= j < |noise| && !noise[j])
  {
    var b := LetterBits(taint, noise);
    CountExtremes(b);
    if (exists i :: 0 <= i < |noise| && noise[i]) && (exists j :: 0 <= j < |noise| && !noise[j]) {
      var i :| 0 <= i < |noise| && noise[i];
      var j :| 0 <= j < |noise| && !noise[j];
      assert b[i] != b[j];
    }
    if (exists i :: 0 <= i < |b| && b[i]) && (exists j :: 0 <= j < |b| && !b[j]) {
      var i :| 0 <= i < |b| && b[i];
      var j :| 0 <= j < |b| && !b[j];
      assert noise[i] != noise[j];
    }
  }

  // ---------------------------------------------------------------------
  // appendNumber

  datatype Mantissa = Whole(digits: seq<int>, point: bool, fraction: seq<int>) | Fraction(digits: seq<int>)
  datatype Exponent = NoExponent | Exponent(marker: int, sign: seq<int>, digits: seq<int>)

  /** The choices of one numeric literal: the taint coin, the separator, an
      optional sign, the mantissa and an optional exponent. */
  datatype NumberDraws = NumberDraws(taint: bool, sep: Separator, sign: seq<int>, mantissa: Mantissa, exponent: Exponent)

  predicate AllDigits(s: seq<int>) {
    forall k :: 0 <= k < |s| ==> IsDigit(s[k])
  }

  predicate OptionalSign(s: seq<int>) {
    |s| <= 1 && forall k :: 0 <= k < |s| ==> IsSign(s[k])
  }

  /** One to 32 leading digits with an optional point and up to 31
      fraction digits, or a point and one to 32 digits; an exponent has one
      to 32 digits. */
  predicate NumberWellFormed(r: NumberDraws) {
    OptionalSign(r.sign) &&
    (match r.mantissa
     case Whole(d, p, f) => 1 <= |d| <= 32 && AllDigits(d) && |f| < 32 && AllDigits(f) && (!p ==> |f| == 0)
     case Fraction(d) => 1 <= |d| <= 32 && AllDigits(d)) &&
    (match r.exponent
     case NoExponent => true
     case Exponent(m, s, d) => (m == LowerE || m == UpperE) && OptionalSign(s) && 1 <= |d| <= 32 && AllDigits(d))
  }

  function MantissaText(m: Mantissa): seq<int> {
    match m
    case Whole(d, p, f) => d + (if p then [Period] else []) + f
    case Fraction(d) => [Period] + d
  }

  function ExponentText(e: Exponent): seq<int> {
    match e
    case NoExponent => []
    case Exponent(m, s, d) => [m] + s + d
  }

  function NumberText(r: NumberDraws): seq<int> {
    r.sign + MantissaText(r.mantissa) + ExponentText(r.exponent)
  }

  function NumberUnits(r: NumberDraws): seq<int> {
    SeparatorUnits(r.sep) + NumberText(r) + [Space]
  }

  /** Every unit of the literal carries the coin; the trailing space is
      clean. */
  function NumberBits(r: NumberDraws): (b: seq<bool>)
    ensures |b| == |NumberUnits(r)|
  {
    SeparatorBits(r.sep) + Repeat(r.taint, |NumberText(r)|) + [false]
  }

  function NumberViolation(r: NumberDraws): bool {
    r.sep == Missing
  }

  lemma {:induction false} DigitRunOver(d: seq<int>, rest: seq<int>)
    requires AllDigits(d)
    ensures DigitRun(d + rest) == |d| + DigitRun(rest)
    decreases |d|
  {
    if |d| > 0 {
      assert (d + rest)[1..] == d[1..] + rest;
      DigitRunOver(d[1..], rest);
    } else {
      assert d + rest == rest;
    }
  }

  /** Digits, an optional point and fraction digits, then something that is
      neither a digit nor a point: the exact numeric literal is all of the
      digits, point and fraction. */
  lemma {:induction false} WholeMantissaLength(d: seq<int>, p: bool, f: seq<int>, e: seq<int>)
    requires 1 <= |d| && AllDigits(d) && AllDigits(f) && (!p ==> |f| == 0)
    requires |e| == 0 || (!IsDigit(e[0]) && e[0] != Period)
    ensures MantissaLength(MantissaText(Whole(d, p, f)) + e) == |MantissaText(Whole(d, p, f))|
  {
    if p {
      PointedMantissaLength(d, f, e);
      assert MantissaText(Whole(d, p, f)) == d + [Period] + f;
    } else {
      DigitRunOver(d, e);
      assert MantissaText(Whole(d, p, f)) == d;
      assert DigitRun(e) == 0;
    }
  }

  lemma {:induction false} PointedMantissaLength(d: seq<int>, f: seq<int>, e: seq<int>)
    requires 1 <= |d| && AllDigits(d) && AllDigits(f)
    requires |e| == 0 || (!IsDigit(e[0]) && e[0] != Period)
    ensures MantissaLength(d + [Period] + f + e) == |d| + 1 + |f|
  {
    var s := d + [Period] + f + e;
    var tail := [Period] + f + e;
    assert s == d + tail && s[|d| + 1..] == f + e && s[|d|] == Period;
    DigitsThenStop(d, tail);
    DigitsThenStop(f, e);
  }

  /** A run of digits followed by a non-digit, or by nothing. */
  lemma {:induction false} DigitsThenStop(d: seq<int>, rest: seq<int>)
    requires AllDigits(d) && (|rest| == 0 || !IsDigit(rest[0]))
    ensures DigitRun(d + rest) == |d|
  {
    DigitRunOver(d, rest);
    assert DigitRun(rest) == 0;
  }

  lemma {:induction false} FractionMantissaLength(d: seq<int>, e: seq<int>)
    requires 1 <= |d| && AllDigits(d)
    requires |e| == 0 || (!IsDigit(e[0]) && e[0] != Period)
    ensures MantissaLength(MantissaText(Fraction(d)) + e) == |MantissaText(Fraction(d))|
  {
    var s := MantissaText(Fraction(d)) + e;
    assert DigitRun(e) == 0;
    assert s[0] == Period && DigitRun(s) == 0;
    assert s[1..] == d + e;
    DigitRunOver(d, e);
  }

  lemma {:induction false} ExponentIsExponent(m: int, sg: seq<int>, d: seq<int>)
    requires (m == LowerE || m == UpperE) && OptionalSign(sg) && 1 <= |d| && AllDigits(d)
    ensures IsExponent(ExponentText(Exponent(m, sg, d)))
  {
    var et := ExponentText(Exponent(m, sg, d));
    DigitRunOver(d, []);
    assert d + [] == d;
    if |sg| == 1 {
      assert et[2..] == d;
    } else {
      assert et[1..] == d;
    }
  }

  /** The generated text is a signed numeric literal in the sense of
      section 5.3 of ISO/IEC 9075-2. */
  lemma {:induction false} UnsignedIsLiteral(r: NumberDraws)
    requires NumberWellFormed(r)
    ensures IsUnsignedNumericLiteral(MantissaText(r.mantissa) + ExponentText(r.exponent))
  {
    var mt, et := MantissaText(r.mantissa), ExponentText(r.exponent);
    var u := mt + et;
    assert |et| == 0 || (!IsDigit(et[0]) && et[0] != Period);
    match r.mantissa
    case Whole(d, p, f) => WholeMantissaLength(d, p, f, et);
    case Fraction(d) => FractionMantissaLength(d, et);
    assert u[|mt|..] == et;
    match r.exponent
    case NoExponent =>
    case Exponent(m, sg, d) => ExponentIsExponent(m, sg, d);
  }

  lemma {:induction false} SignedOf(sign: seq<int>, u: seq<int>)
    requires OptionalSign(sign) && IsUnsignedNumericLiteral(u) && |u| > 0 && !IsSign(u[0])
    ensures IsSignedNumericLiteral(sign + u)
  {
    if |sign| == 1 {
      assert (sign + u)[1..] == u;
    } else {
      assert sign + u == u;
    }
  }

  /** A mantissa starts with a digit or a point, never with a sign. */
  lemma {:induction false} MantissaStart(r: NumberDraws)
    requires NumberWellFormed(r)
    ensures var mt := MantissaText(r.mantissa);
            |mt| > 0 && !IsSign(mt[0])
  {
  }

  lemma {:induction false} NumberIsLiteral(r: NumberDraws)
    requires NumberWellFormed(r)
    ensures IsSignedNumericLiteral(NumberText(r))
  {
    var mt, et := MantissaText(r.mantissa), ExponentText(r.exponent);
    UnsignedIsLiteral(r);
    MantissaStart(r);
    var u := mt + et;
    assert u[0] == mt[0];
    SignedOf(r.sign, u);
    assert NumberText(r) == r.sign + u;
  }
}
