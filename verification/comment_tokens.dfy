/** The two comment tokens of the harness, as functions of the choices their
    generators draw: the bracketed comment of appendBlockComment and the line
    comment of appendLineComment. */
module CommentTokens {
  import opened Utf16
  import opened TaintedText
  import opened SqlLexical

  // ---------------------------------------------------------------------
  // appendBlockComment

  /** The machine right after the opening slash-star: level 1, nothing
      pending, nothing flagged. */
  const Opened := Machine(1, Default, false, false)

  /** The choices of one bracketed comment: whether nesting is on, the
      length bound, and the body code points with their taint coins. */
  datatype BlockCommentDraws = BlockCommentDraws(nested: bool, len: nat, body: seq<Drawn>)

  function BodyRun(r: BlockCommentDraws): MachineRun {
    Run(r.nested, Units(r.body), Bits(r.body), Opened)
  }

  /** The body loop stops after `len` code points, or at the code point that
      brought the level to zero, whichever comes first. */
  predicate BlockCommentWellFormed(r: BlockCommentDraws) {
    |r.body| <= r.len < 64 &&
    match BodyRun(r)
    case Running(_) => |r.body| == r.len
    case Stopped(e, _) => e == |Units(r.body)|
  }

  /** The level the body loop leaves open, which is the number of closers
      appended. */
  function ClosingLevel(r: BlockCommentDraws): nat {
    match BodyRun(r)
    case Running(m) => if m.level > 0 then m.level else 0
    case Stopped(_, _) => 0
  }

  function BlockCommentUnits(r: BlockCommentDraws): seq<int> {
    [Slash, Star] + Units(r.body) + Closers(ClosingLevel(r))
  }

  function BlockCommentBits(r: BlockCommentDraws): (b: seq<bool>)
    ensures |b| == |BlockCommentUnits(r)|
  {
    [false, false] + Bits(r.body) + Repeat(false, 3 * ClosingLevel(r))
  }

  /** Some level change of the body had a tainted unit. */
  function BlockCommentViolation(r: BlockCommentDraws): bool {
    match BodyRun(r)
    case Running(m) => m.violation
    case Stopped(_, v) => v
  }

  /** A machine that is still running has a positive level. */
  lemma {:induction false} RunStaysOpen(nested: bool, s: seq<int>, b: seq<bool>, m: Machine)
    requires |s| == |b| && m.level > 0
    ensures Run(nested, s, b, m).Running? ==> Run(nested, s, b, m).m.level > 0
    decreases |s|
  {
    if |s| > 0 {
      var m' := StepUnit(nested, m, s[0], b[0]);
      if m'.level > 0 {
        RunStaysOpen(nested, s[1..], b[1..], m');
      }
    }
  }

  /** Without nesting the level never rises above where it started. */
  lemma {:induction false} RunFlat(s: seq<int>, b: seq<bool>, m: Machine)
    requires |s| == |b| && m.level <= 1
    ensures Run(false, s, b, m).Running? ==> Run(false, s, b, m).m.level <= 1
    decreases |s|
  {
    if |s| > 0 {
      var m' := StepUnit(false, m, s[0], b[0]);
      if m'.level > 0 {
        RunFlat(s[1..], b[1..], m');
      }
    }
  }

  /** The only comment the dispatcher asks for is not nested: it gets at
      most one closer. */
  lemma {:induction false} FlatCommentClosesOnce(r: BlockCommentDraws)
    requires !r.nested
    ensures ClosingLevel(r) <= 1
  {
    RunFlat(Units(r.body), Bits(r.body), Opened);
  }

  /** One more code point for the running machine: it steps once, on the
      code point itself. A supplementary code point is two units, neither a
      star nor a slash, so it behaves like any other character. */
  lemma {:induction false} RunAppendCodePoint(nested: bool, ds: seq<Drawn>, d: Drawn, m: Machine)
    requires Run(nested, Units(ds), Bits(ds), Opened) == Running(m)
    ensures var m' := StepUnit(nested, m, d.c, d.taint);
            Run(nested, Units(ds + [d]), Bits(ds + [d]), Opened)
              == if m'.level <= 0 then Stopped(|Units(ds + [d])|, m'.violation) else Running(m')
  {
    var ds' := ds + [d];
    assert ds'[..|ds|] == ds;
    var u, t := ToChars(d.c), Repeat(d.taint, CharCount(d.c));
    assert Units(ds') == Units(ds) + u && Bits(ds') == Bits(ds) + t;
    RunStaysOpen(nested, Units(ds), Bits(ds), Opened);
    RunConcat(nested, Units(ds), Bits(ds), u, t, Opened);
    var m' := StepUnit(nested, m, d.c, d.taint);
    if d.c < MinSupplementaryCodePoint {
      assert u[1..] == [] && t[1..] == [];
    } else {
      assert m' == Machine(m.level, Default, d.taint, m.violation);
      assert StepUnit(nested, m, u[0], t[0]) == m';
      assert StepUnit(nested, m', u[1], t[1]) == m';
      assert u[1..][1..] == [] && t[1..][1..] == [];
      assert Run(nested, u[1..], t[1..], m') == Running(m');
      assert Run(nested, u, t, m) == Running(m');
    }
  }

  /** The loop state of appendBlockComment after `body`: while the level
      is positive the machine is still running in exactly state `m`; once it
      is not, the machine stopped at the end of the body with `m`'s flag. */
  ghost predicate Tracks(nested: bool, body: seq<Drawn>, m: Machine) {
    Run(nested, Units(body), Bits(body), Opened) ==
      if m.level > 0 then Running(m) else Stopped(|Units(body)|, m.violation)
  }

  /** One more code point steps the machine once and keeps the loop state
      in step with the text. */
  lemma {:induction false} TracksStep(nested: bool, body: seq<Drawn>, m: Machine, d: Drawn)
    requires Tracks(nested, body, m) && m.level > 0
    ensures Tracks(nested, body + [d], StepUnit(nested, m, d.c, d.taint))
    ensures Units(body + [d]) == Units(body) + ToChars(d.c)
    ensures Bits(body + [d]) == Bits(body) + Repeat(d.taint, CharCount(d.c))
  {
    RunAppendCodePoint(nested, body, d, m);
    assert (body + [d])[..|body|] == body;
  }

  /** When the body loop stops, because the level dropped to zero or
      because `len` code points were drawn, its state is the one the choice
      record describes. */
  lemma {:induction false} TracksFinish(nested: bool, len: nat, body: seq<Drawn>, m: Machine)
    requires Tracks(nested, body, m) && m.level >= 0 && |body| <= len < 64
    requires m.level > 0 ==> |body| == len
    ensures var r := BlockCommentDraws(nested, len, body);
            BlockCommentWellFormed(r) && m.level == ClosingLevel(r) && m.violation == BlockCommentViolation(r)
  {
  }

  /** The machine run over the body and the appended closers stops exactly
      at the last closer, with the body's flag. */
  lemma {:induction false} BodyThenClosersStop(r: BlockCommentDraws)
    requires BlockCommentWellFormed(r)
    ensures var s, sb, L := Units(r.body), Bits(r.body), ClosingLevel(r);
            Run(r.nested, s + Closers(L), sb + Repeat(false, 3 * L), Opened)
              == Stopped(|s| + 3 * L, BlockCommentViolation(r))
  {
    var s, sb, L := Units(r.body), Bits(r.body), ClosingLevel(r);
    match BodyRun(r)
    case Running(m) =>
      RunStaysOpen(r.nested, s, sb, Opened);
      RunConcat(r.nested, s, sb, Closers(L), Repeat(false, 3 * L), Opened);
      ClosersClose(r.nested, L, m);
    case Stopped(e, v) =>
      assert s + Closers(L) == s && sb + Repeat(false, 3 * L) == sb;
  }

  /** A generated bracketed comment is closed exactly at its last unit, as
      the comment lexer reads it, and the generator flags it exactly when
      the lexer finds a depth-changing delimiter with a tainted unit. */
  lemma {:induction false} BlockCommentCloses(r: BlockCommentDraws)
    requires BlockCommentWellFormed(r)
    ensures var u, b := BlockCommentUnits(r), BlockCommentBits(r);
            u[..2] == [Slash, Star] &&
            CommentLex(r.nested, u[2..], b[2..], 1, false) == Closed(|u| - 2, BlockCommentViolation(r))
  {
    var u, b := BlockCommentUnits(r), BlockCommentBits(r);
    var L := ClosingLevel(r);
    var s, sb := Units(r.body) + Closers(L), Bits(r.body) + Repeat(false, 3 * L);
    assert u[2..] == s && b[2..] == sb;
    BodyThenClosersStop(r);
    MachineMatchesLexer(r.nested, s, sb, Opened);
    assert Pending(Opened) == [] && PendingBits(Opened) == [];
    assert [] + s == s && [] + sb == sb;
    ShiftFacts(Run(r.nested, s, sb, Opened), 0, 0);
  }

  // ---------------------------------------------------------------------
  // appendLineComment

  /** The choices of one line comment: its marker (`--` or `//`), the length
      bound, the body code points with their taint coins, and the terminator
      appended when the body drew none. */
  datatype LineCommentDraws = LineCommentDraws(dashes: bool, len: nat, body: seq<Drawn>, forced: seq<int>)

  function Marker(dashes: bool): seq<int> {
    if dashes then [Minus, Minus] else [Slash, Slash]
  }

  /** The body loop draws up to `len` code points and stops after the first
      line terminator; a terminator is appended only when none was drawn. */
  predicate LineCommentWellFormed(r: LineCommentDraws) {
    1 <= |r.body| <= r.len <= 64 &&
    (forall k :: 0 <= k < |r.body| - 1 ==> !IsLineTerminator(r.body[k].c)) &&
    (|r.body| < r.len ==> IsLineTerminator(r.body[|r.body| - 1].c)) &&
    |r.forced| == (if IsLineTerminator(r.body[|r.body| - 1].c) then 0 else 1) &&
    forall k :: 0 <= k < |r.forced| ==> IsLineTerminator(r.forced[k])
  }

  function LineCommentUnits(r: LineCommentDraws): seq<int> {
    Marker(r.dashes) + Units(r.body) + r.forced
  }

  function LineCommentBits(r: LineCommentDraws): (b: seq<bool>)
    ensures |b| == |LineCommentUnits(r)|
  {
    [false, false] + Bits(r.body) + Repeat(false, |r.forced|)
  }

  /** A line terminator was drawn tainted. */
  function LineCommentViolation(r: LineCommentDraws): bool
    requires |r.body| > 0
  {
    var d := r.body[|r.body| - 1];
    d.taint && IsLineTerminator(d.c)
  }

  lemma {:induction false} FirstTerminatorSkip(s: seq<int>, rest: seq<int>)
    requires forall j :: 0 <= j < |s| ==> !IsLineTerminator(s[j])
    ensures FirstTerminator(s + rest) == |s| + FirstTerminator(rest)
    decreases |s|
  {
    if |s| > 0 {
      assert (s + rest)[1..] == s[1..] + rest;
      FirstTerminatorSkip(s[1..], rest);
    } else {
      assert s + rest == rest;
    }
  }

  /** The units of code points that are not line terminators contain no
      line terminator (the units of a supplementary code point are
      surrogates). */
  lemma {:induction false} NoTerminatorUnits(ds: seq<Drawn>)
    requires forall k :: 0 <= k < |ds| ==> !IsLineTerminator(ds[k].c)
    ensures forall j :: 0 <= j < |Units(ds)| ==> !IsLineTerminator(Units(ds)[j])
    decreases |ds|
  {
    if |ds| > 0 {
      var init := ds[..|ds| - 1];
      NoTerminatorUnits(init);
      var u := ToChars(ds[|ds| - 1].c);
      assert forall j :: 0 <= j < |u| ==> !IsLineTerminator(u[j]);
    }
  }

  /** The marker and the units of the body before its last code point hold
      no line terminator. */
  lemma {:induction false} LineCommentHeadClean(dashes: bool, init: seq<Drawn>)
    requires forall k :: 0 <= k < |init| ==> !IsLineTerminator(init[k].c)
    ensures var head := Marker(dashes) + Units(init);
            |head| >= 2 && head[..2] == Marker(dashes) &&
            forall j :: 0 <= j < |head| ==> !IsLineTerminator(head[j])
  {
    NoTerminatorUnits(init);
  }

  /** The units of the last body code point and the added terminator end
      with the first and only line terminator among them. */
  lemma {:induction false} LineCommentTailEnds(d: Drawn, forced: seq<int>)
    requires |forced| == (if IsLineTerminator(d.c) then 0 else 1)
    requires forall k :: 0 <= k < |forced| ==> IsLineTerminator(forced[k])
    ensures var t := ToChars(d.c) + forced;
            |t| >= 1 && FirstTerminator(t) == |t| - 1
  {
    var c := ToChars(d.c);
    if IsLineTerminator(d.c) {
      assert c + forced == [d.c];
    } else {
      assert forall j :: 0 <= j < |c| ==> !IsLineTerminator(c[j]);
      FirstTerminatorSkip(c, forced);
    }
  }

  /** A line comment starts with its marker and holds exactly one line
      terminator, which is its last unit. */
  lemma {:induction false} LineCommentEnds(r: LineCommentDraws)
    requires LineCommentWellFormed(r)
    ensures var u := LineCommentUnits(r);
            |u| >= 3 && u[..2] == Marker(r.dashes) && FirstTerminator(u) == |u| - 1
  {
    var u := LineCommentUnits(r);
    var n := |r.body|;
    var init, d := r.body[..n - 1], r.body[n - 1];
    var head := Marker(r.dashes) + Units(init);
    var tail := ToChars(d.c) + r.forced;
    LineCommentHeadClean(r.dashes, init);
    LineCommentTailEnds(d, r.forced);
    assert Units(r.body) == Units(init) + ToChars(d.c);
    assert u == head + tail;
    assert u[..2] == head[..2];
    FirstTerminatorSkip(head, tail);
  }

  /** The generator flags a line comment exactly when its last unit, the
      terminator, is tainted; a terminator the generator had to add is
      clean. */
  lemma {:induction false} LineCommentFlagVisible(r: LineCommentDraws)
    requires LineCommentWellFormed(r)
    ensures var b := LineCommentBits(r);
            (LineCommentViolation(r) <==> b[|b| - 1]) && (|r.forced| == 1 ==> !b[|b| - 1])
  {
    var b := LineCommentBits(r);
    var n := |r.body|;
    var init, d := r.body[..n - 1], r.body[n - 1];
    assert r.body == init + [d];
    assert Bits(r.body) == Bits(init) + Repeat(d.taint, CharCount(d.c));
    if IsLineTerminator(d.c) {
      assert b[|b| - 1] == d.taint;
    } else {
      assert b[|b| - 1] == false;
    }
  }
}
