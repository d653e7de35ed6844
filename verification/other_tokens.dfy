/** The filler token of appendOther (operators, identifiers and anything
    else), as a function of the code points its generator accepts, and the
    numeric re-check it runs over its tainted units. */
module OtherTokens {
  import opened Utf16
  import opened TaintedText
  import opened SqlLexical
  import opened Collaborators

  const Tru := Ascii("tru")
  const Fals := Ascii("fals")

  /** The last units of `s` spell `word` ignoring case; too short a text
      never does (String.regionMatches at a negative offset). */
  predicate EndsWithIgnoringCase(s: seq<int>, word: seq<int>) {
    |s| >= |word| && MatchesIgnoringCase(s[|s| - |word|..], word)
  }

  /** Appending `c` to `token` would finish the word true or false. */
  predicate CompletesBoolean(token: seq<int>, c: int) {
    (EndsWithIgnoringCase(token, Tru) || EndsWithIgnoringCase(token, Fals)) && (c == LowerE || c == UpperE)
  }

  /** The unit a new code point follows: the token's last unit, else the
      unit before the token. */
  function PrevUnit(token: seq<int>, prev: int): int {
    if |token| > 0 then token[|token| - 1] else prev
  }

  /** The retry test of the body loop: a drawn code point is kept unless it
      would finish a boolean word, is a quote, or forms a comment delimiter
      with the unit before it. */
  predicate Accepts(token: seq<int>, prev: int, c: CodePoint) {
    !CompletesBoolean(token, c) && c != Apostrophe && c != DoubleQuote &&
    !IsCommentDelimiter(PrevUnit(token, prev), c)
  }

  predicate AllAccepted(prev: int, ds: seq<Drawn>) {
    forall k :: 0 <= k < |ds| ==> Accepts(Units(ds[..k]), prev, ds[k].c)
  }

  /** A token ending in a comment character, a digit or a tainted unit gets
      a clean space after it. */
  predicate NeedsGuard(u: seq<int>, b: seq<bool>)
    requires |u| == |b| > 0
  {
    var last := u[|u| - 1];
    last == Slash || last == Star || last == Minus || b[|b| - 1] || IsDigit(last)
  }

  /** The choices of one filler token: the unit before it (the query's last
      unit, or a space for an empty query), the accepted code points with
      their taint coins, and whether the guard space was added. */
  datatype OtherDraws = OtherDraws(prev: int, body: seq<Drawn>, guard: bool)

  predicate OtherWellFormed(r: OtherDraws) {
    1 <= |r.body| <= 64 && AllAccepted(r.prev, r.body) &&
    r.guard == NeedsGuard(Units(r.body), Bits(r.body))
  }

  function OtherUnits(r: OtherDraws): seq<int> {
    Units(r.body) + (if r.guard then [Space] else [])
  }

  function OtherBits(r: OtherDraws): (b: seq<bool>)
    ensures |b| == |OtherUnits(r)|
  {
    Bits(r.body) + (if r.guard then [false] else [])
  }

  lemma {:induction false} AllAcceptedInit(prev: int, ds: seq<Drawn>)
    requires AllAccepted(prev, ds) && |ds| > 0
    ensures var init := ds[..|ds| - 1];
            AllAccepted(prev, init) && Accepts(Units(init), prev, ds[|ds| - 1].c)
  {
    var init := ds[..|ds| - 1];
    forall k | 0 <= k < |init|
      ensures Accepts(Units(init[..k]), prev, init[k].c)
    {
      assert init[..k] == ds[..k];
    }
  }

  /** A code point the retry test accepts extends an accepted body. */
  lemma {:induction false} AllAcceptedSnoc(prev: int, ds: seq<Drawn>, d: Drawn)
    requires AllAccepted(prev, ds) && Accepts(Units(ds), prev, d.c)
    ensures AllAccepted(prev, ds + [d])
    ensures Units(ds + [d]) == Units(ds) + ToChars(d.c)
    ensures Bits(ds + [d]) == Bits(ds) + Repeat(d.taint, CharCount(d.c))
  {
    var ds' := ds + [d];
    assert ds'[..|ds|] == ds;
    forall k | 0 <= k < |ds'|
      ensures Accepts(Units(ds'[..k]), prev, ds'[k].c)
    {
      assert ds'[..k] == if k < |ds| then ds[..k] else ds;
    }
  }

  lemma {:induction false} UnitsSnoc(ds: seq<Drawn>)
    requires |ds| > 0
    ensures Units(ds) == Units(ds[..|ds| - 1]) + ToChars(ds[|ds| - 1].c)
    ensures Bits(ds) == Bits(ds[..|ds| - 1]) + Repeat(ds[|ds| - 1].taint, CharCount(ds[|ds| - 1].c))
  {
  }

  lemma {:induction false} NoQuoteUnits(prev: int, ds: seq<Drawn>)
    requires AllAccepted(prev, ds)
    ensures forall j :: 0 <= j < |Units(ds)| ==> Units(ds)[j] != Apostrophe && Units(ds)[j] != DoubleQuote
    decreases |ds|
  {
    if |ds| > 0 {
      var init := ds[..|ds| - 1];
      AllAcceptedInit(prev, ds);
      NoQuoteUnits(prev, init);
      UnitsSnoc(ds);
    }
  }

  /** The filler never holds a quote, so it never opens a string literal
      or a delimited identifier. */
  lemma {:induction false} OtherHasNoQuotes(r: OtherDraws)
    requires OtherWellFormed(r)
    ensures forall j :: 0 <= j < |OtherUnits(r)| ==> OtherUnits(r)[j] != Apostrophe && OtherUnits(r)[j] != DoubleQuote
  {
    NoQuoteUnits(r.prev, r.body);
  }

  /** No two neighbouring units of `w` open or close a comment. */
  predicate NoDelimiterIn(w: seq<int>) {
    forall j :: 0 <= j < |w| - 1 ==> !IsCommentDelimiter(w[j], w[j + 1])
  }

  /** Joining two texts forms a delimiter only where they meet. */
  lemma {:induction false} NoDelimiterAppend(w: seq<int>, u: seq<int>)
    requires |w| > 0 && |u| > 0 && NoDelimiterIn(w) && NoDelimiterIn(u)
    requires !IsCommentDelimiter(w[|w| - 1], u[0])
    ensures NoDelimiterIn(w + u)
  {
    var s := w + u;
    forall j | 0 <= j < |s| - 1
      ensures !IsCommentDelimiter(s[j], s[j + 1])
    {
      if j < |w| - 1 {
        assert s[j] == w[j] && s[j + 1] == w[j + 1];
      } else if j == |w| - 1 {
        assert s[j] == w[|w| - 1] && s[j + 1] == u[0];
      } else {
        assert s[j] == u[j - |w|] && s[j + 1] == u[j - |w| + 1];
      }
    }
  }

  lemma {:induction false} NoDelimiterUnits(prev: int, ds: seq<Drawn>)
    requires AllAccepted(prev, ds)
    ensures NoDelimiterIn([prev] + Units(ds))
    decreases |ds|
  {
    if |ds| > 0 {
      var init, c := ds[..|ds| - 1], ds[|ds| - 1].c;
      AllAcceptedInit(prev, ds);
      NoDelimiterUnits(prev, init);
      UnitsSnoc(ds);
      var w0, u := [prev] + Units(init), ToChars(c);
      assert w0[|w0| - 1] == PrevUnit(Units(init), prev);
      assert !IsCommentDelimiter(w0[|w0| - 1], u[0]) && NoDelimiterIn(u);
      NoDelimiterAppend(w0, u);
      assert [prev] + Units(ds) == w0 + u;
    }
  }

  /** The filler forms no comment delimiter, neither inside itself nor with
      the unit before it, and its guard space forms none either. */
  lemma {:induction false} OtherFormsNoDelimiter(r: OtherDraws)
    requires OtherWellFormed(r)
    ensures NoDelimiterIn([r.prev] + OtherUnits(r))
  {
    NoDelimiterUnits(r.prev, r.body);
    var w0 := [r.prev] + Units(r.body);
    if r.guard {
      NoDelimiterAppend(w0, [Space]);
      assert [r.prev] + OtherUnits(r) == w0 + [Space];
    } else {
      assert [r.prev] + OtherUnits(r) == w0;
    }
  }

  /** The unit at `j`, if it is an `e` or `E`, does not follow "tru" or
      "fals" in any case. */
  predicate NoBooleanAt(u: seq<int>, j: int)
    requires 0 <= j < |u|
  {
    (u[j] == LowerE || u[j] == UpperE) ==>
      !EndsWithIgnoringCase(u[..j], Tru) && !EndsWithIgnoringCase(u[..j], Fals)
  }

  lemma {:induction false} NoBooleanAtPrefix(u: seq<int>, v: seq<int>, j: int)
    requires 0 <= j < |u|
    ensures NoBooleanAt(u + v, j) == NoBooleanAt(u, j)
  {
    assert (u + v)[..j] == u[..j];
  }

  lemma {:induction false} NoBooleanUnits(prev: int, ds: seq<Drawn>)
    requires AllAccepted(prev, ds)
    ensures forall j :: 0 <= j < |Units(ds)| ==> NoBooleanAt(Units(ds), j)
    decreases |ds|
  {
    if |ds| > 0 {
      var init, c := ds[..|ds| - 1], ds[|ds| - 1].c;
      AllAcceptedInit(prev, ds);
      NoBooleanUnits(prev, init);
      UnitsSnoc(ds);
      var u0, v := Units(init), ToChars(c);
      forall j | 0 <= j < |u0 + v|
        ensures NoBooleanAt(u0 + v, j)
      {
        if j < |u0| {
          NoBooleanAtPrefix(u0, v, j);
        } else if c < MinSupplementaryCodePoint {
          assert (u0 + v)[..j] == u0;
        }
      }
    }
  }

  /** The filler never spells true or false: no `e` or `E` of it follows
      "tru" or "fals" within the token, whatever their case. */
  lemma {:induction false} OtherFormsNoBoolean(r: OtherDraws)
    requires OtherWellFormed(r)
    ensures forall j :: 0 <= j < |OtherUnits(r)| ==> NoBooleanAt(OtherUnits(r), j)
  {
    NoBooleanUnits(r.prev, r.body);
    var u0, g := Units(r.body), if r.guard then [Space] else [];
    forall j | 0 <= j < |u0 + g|
      ensures NoBooleanAt(u0 + g, j)
    {
      if j < |u0| {
        NoBooleanAtPrefix(u0, g, j);
      }
    }
  }

  /** The filler ends in a clean unit that is no comment character and no
      digit, so the next token can neither extend a delimiter nor a number
      with it. */
  lemma {:induction false} OtherEndsClean(r: OtherDraws)
    requires OtherWellFormed(r)
    ensures var u, b := OtherUnits(r), OtherBits(r);
            var last := u[|u| - 1];
            !b[|b| - 1] && last != Slash && last != Star && last != Minus && !IsDigit(last)
  {
  }

  // ---------------------------------------------------------------------
  // The numeric re-check

  /** The re-check loop of appendOther from `offset` on, with the flag
      `pending`: at each tainted unit it stops if the flag is already set,
      and otherwise asks the parser, which either rejects (setting the flag)
      or returns the offset the scan resumes after. */
  function Recheck(parse: NumericParser, q: seq<int>, t: seq<bool>, offset: int, pending: bool): bool
    requires |q| == |t| && 0 <= offset
    decreases |q| - offset
  {
    if offset >= |q| then pending
    else if !t[offset] then Recheck(parse, q, t, offset + 1, pending)
    else if pending then true
    else
      match parse(q, t, offset)
      case Rejected => Recheck(parse, q, t, offset + 1, true)
      case Parsed(last) =>
        assert Advances(parse(q, t, offset), offset);
        Recheck(parse, q, t, (if last > 0 then last else offset) + 1, false)
  }

  /** Once the flag is set it stays set. */
  lemma {:induction false} RecheckKeepsFlag(parse: NumericParser, q: seq<int>, t: seq<bool>, offset: int)
    requires |q| == |t| && 0 <= offset
    ensures Recheck(parse, q, t, offset, true)
    decreases |q| - offset
  {
    if offset < |q| && !t[offset] {
      RecheckKeepsFlag(parse, q, t, offset + 1);
    }
  }

  /** With no tainted unit left to check the flag stays as it is. */
  lemma {:induction false} RecheckClean(parse: NumericParser, q: seq<int>, t: seq<bool>, offset: int, pending: bool)
    requires |q| == |t| && 0 <= offset
    requires forall k :: offset <= k < |q| ==> !t[k]
    ensures Recheck(parse, q, t, offset, pending) == pending
    decreases |q| - offset
  {
    if offset < |q| {
      RecheckClean(parse, q, t, offset + 1, pending);
    }
  }

  /** The re-check flags a query only because the parser rejected it at a
      tainted unit. */
  lemma {:induction false} RecheckSound(parse: NumericParser, q: seq<int>, t: seq<bool>, offset: int)
    requires |q| == |t| && 0 <= offset
    requires Recheck(parse, q, t, offset, false)
    ensures exists k :: offset <= k < |q| && t[k] && parse(q, t, k) == Rejected
    decreases |q| - offset
  {
    if !t[offset] {
      RecheckSound(parse, q, t, offset + 1);
    } else if parse(q, t, offset).Parsed? {
      var last := parse(q, t, offset).last;
      assert Advances(parse(q, t, offset), offset);
      RecheckSound(parse, q, t, (if last > 0 then last else offset) + 1);
    }
  }

  /** Conversely, when the parser rejects the query at the first tainted
      unit of the token, the re-check flags it. */
  lemma {:induction false} RecheckFlagsFirstRejection(parse: NumericParser, q: seq<int>, t: seq<bool>, offset: int, k: int)
    requires |q| == |t| && 0 <= offset <= k < |q|
    requires t[k] && parse(q, t, k) == Rejected
    requires forall j :: offset <= j < k ==> !t[j]
    ensures Recheck(parse, q, t, offset, false)
    decreases k - offset
  {
    if offset < k {
      RecheckFlagsFirstRejection(parse, q, t, offset + 1, k);
    } else {
      RecheckKeepsFlag(parse, q, t, offset + 1);
    }
  }
}
