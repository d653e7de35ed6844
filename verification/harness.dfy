/** The fuzz harness HypersonicSqlValidatorTest: seven generators that
    append one random token each to a tainted query and predict, in the
    exception flag, whether the validator must reject the result; the
    dispatcher that picks a generator; and the driver loop that validates
    the query after every token and rolls back tokens it rightly rejects.
    Every generator is proved against the render functions of its token
    module: the query grows by exactly the rendered text and bits of the
    choices it drew, and the flag is set exactly by those choices. */
module Harness {
  import opened Utf16
  import opened TaintedText
  import opened Randomness
  import opened Collaborators
  import opened SqlLexical
  import opened QuotedTokens
  import opened CommentTokens
  import opened LiteralTokens
  import opened OtherTokens

  /** QueryToken.qChars: the printable characters most draws pick from. */
  const QChars := Ascii("abcdefghijklmnopqrstuvwxyzABCDEFGHIJKLMNOPQRSTUVWXYZ0123456789`';,/[]-=~!@#$%^&*()_+{}:\"/,.<>?")

  /** The code point a body loop draws from two tape values: one time in
      twelve any value in [0, 0x10FFFF), lone surrogates included,
      otherwise a character of QChars. */
  function DrawnCodePoint(first: nat, second: nat): (c: CodePoint)
    ensures first % 12 != 0 ==> c in QChars
    ensures first % 12 == 0 ==> c < MaxCodePoint
  {
    if first % 12 == 0 then second % MaxCodePoint else QChars[second % |QChars|]
  }

  /** QueryToken: the token kinds, in the order of their numbers. */
  datatype TokenKind = SingleQuoteLiteral | QuotedIdentifier | Number | LineComment | BlockComment | Other | Boolean

  /** The token number `op` in [0, Q_END). */
  function KindOf(op: int): TokenKind
    requires 0 <= op < 7
  {
    match op
    case 0 => SingleQuoteLiteral
    case 1 => QuotedIdentifier
    case 2 => Number
    case 3 => LineComment
    case 4 => BlockComment
    case 5 => Other
    case _ => Boolean
  }

  /** QueryToken.qMethod: the name a kind is logged under. */
  function KindName(k: TokenKind): string {
    match k
    case SingleQuoteLiteral => "SingleQuoteLiteral"
    case QuotedIdentifier => "QuotedIdentifier"
    case Number => "Number"
    case LineComment => "LineComment"
    case BlockComment => "BlockComment"
    case Other => "Other"
    case Boolean => "Boolean"
  }

  /** The unit before a new token: the query's last unit, or a space. */
  function LastUnit(q: seq<int>): int {
    if |q| > 0 then q[|q| - 1] else Space
  }

  /** The separator guard of appendBoolean and appendNumber: nothing is
      done unless the literal is tainted and follows a unit of no separator
      class, and then the space is either inserted or left out. */
  predicate SeparatorFits(v: Validator, q: seq<int>, taint: bool, sep: Separator) {
    (sep == NotNeeded) == !(v.NeedsSeparator(q) && taint)
  }

  /** The choices of any one token. */
  datatype TokenDraws =
    | LiteralToken(literal: LiteralDraws)
    | IdentifierToken(identifier: seq<Drawn>)
    | NumberToken(number: NumberDraws)
    | LineCommentToken(line: LineCommentDraws)
    | BlockCommentToken(block: BlockCommentDraws)
    | OtherToken(other: OtherDraws)
    | BooleanToken(boolean: BooleanDraws)

  function KindOfDraws(r: TokenDraws): TokenKind {
    match r
    case LiteralToken(_) => SingleQuoteLiteral
    case IdentifierToken(_) => QuotedIdentifier
    case NumberToken(_) => Number
    case LineCommentToken(_) => LineComment
    case BlockCommentToken(_) => BlockComment
    case OtherToken(_) => Other
    case BooleanToken(_) => Boolean
  }

  /** Appending the token drawn as `r` to the query `q0` (bits `t0`, flag
      `e0`) gives the query `q` (bits `t`, flag `e`): the choices are ones
      its generator can make after `q0`, the query grows by the token's
      rendered text and bits, and the flag is raised by the token's own
      violation (for a filler token, by the numeric re-check). */
  ghost predicate Appends(v: Validator, r: TokenDraws, q0: seq<int>, t0: seq<bool>, e0: bool,
                          q: seq<int>, t: seq<bool>, e: bool)
  {
    match r
    case LiteralToken(l) =>
      LiteralWellFormed(l) && l.lead == (LastUnit(q0) == Apostrophe) &&
      q == q0 + LiteralUnits(l) && t == t0 + LiteralBits(l) && e == (e0 || LiteralViolation(l))
    case IdentifierToken(body) =>
      IdentifierWellFormed(body) &&
      q == q0 + IdentifierUnits(body) && t == t0 + IdentifierBits(body) && e == (e0 || SomeTainted(body))
    case NumberToken(n) =>
      NumberWellFormed(n) && SeparatorFits(v, q0, n.taint, n.sep) &&
      q == q0 + NumberUnits(n) && t == t0 + NumberBits(n) && e == (e0 || NumberViolation(n))
    case LineCommentToken(c) =>
      LineCommentWellFormed(c) &&
      q == q0 + LineCommentUnits(c) && t == t0 + LineCommentBits(c) && e == (e0 || LineCommentViolation(c))
    case BlockCommentToken(c) =>
      BlockCommentWellFormed(c) && !c.nested &&
      q == q0 + BlockCommentUnits(c) && t == t0 + BlockCommentBits(c) && e == (e0 || BlockCommentViolation(c))
    case OtherToken(o) =>
      OtherWellFormed(o) && o.prev == LastUnit(q0) &&
      q == q0 + OtherUnits(o) && t == t0 + OtherBits(o) && |q| == |t| &&
      e == Recheck(v.parseTaintedValue, q, t, |q0|, e0)
    case BooleanToken(b) =>
      BooleanWellFormed(b) && SeparatorFits(v, q0, b.taint, b.sep) &&
      q == q0 + BooleanUnits(b) && t == t0 + BooleanBits(b) && e == (e0 || BooleanViolation(b))
  }

  /** A name test() logs: a token kind, or "Exception" for a rollback. */
  predicate IsTokenName(s: string) {
    exists k: TokenKind :: KindName(k) == s
  }

  /** The operation log of test(): token names, each of which may be
      followed by one "Exception" when its token was rolled back. */
  predicate OpsWellFormed(ops: seq<string>) {
    forall k {:trigger ops[k]} :: 0 <= k < |ops| ==>
      IsTokenName(ops[k]) || (ops[k] == "Exception" && k > 0 && IsTokenName(ops[k - 1]))
  }

  /** Logging a token name, or "Exception" right after a token name, keeps
      the log well formed. */
  lemma {:induction false} OpsWellFormedSnoc(ops: seq<string>, s: string)
    requires OpsWellFormed(ops)
    requires IsTokenName(s) || (s == "Exception" && |ops| > 0 && IsTokenName(ops[|ops| - 1]))
    ensures OpsWellFormed(ops + [s])
  {
    var ops' := ops + [s];
    forall k | 0 <= k < |ops'|
      ensures IsTokenName(ops'[k]) || (ops'[k] == "Exception" && k > 0 && IsTokenName(ops'[k - 1]))
    {
      if k < |ops| {
        assert ops'[k] == ops[k];
        if k > 0 {
          assert ops'[k - 1] == ops[k - 1];
        }
      } else {
        assert ops'[k] == s;
        if k > 0 {
          assert ops'[k - 1] == ops[|ops| - 1];
        }
      }
    }
  }

  /** How test() ends: the query reached its length with every token
      validated as predicted; the harness found a failure (where it prints
      the query and exits); a rollback happened with the tape used up,
      after which every iteration draws the same zeros, appends the same
      token and rolls it back again, so that the loop never ends; or the
      length bound maxlen - 1, computed in 32 bits, is not positive, so that
      the first draw throws. */
  datatype Outcome =
    | Passed(query: seq<int>, taint: seq<bool>, ops: seq<string>)
    | Failed(query: seq<int>, taint: seq<bool>, ops: seq<string>, verdict: Verdict, pending: bool)
    | Diverges(ops: seq<string>)
    | BadBound

  /** One iteration of the loop of test(): whether the tape was already used
      up when it began, the token appended, the query before and after it,
      the validator's verdict on the new query and the flag at that moment. */
  datatype Step = Step(exhausted: bool, token: TokenDraws, before: seq<int>, beforeTaint: seq<bool>,
                       after: seq<int>, afterTaint: seq<bool>, verdict: Verdict, pending: bool)

  /** The validator rejected the token the flag said it must reject. */
  predicate RolledBack(s: Step) {
    s.verdict == Violation && s.pending
  }

  /** The validator did what the flag predicted. */
  predicate AsPredicted(s: Step) {
    RolledBack(s) || (s.verdict == Accepted && !s.pending)
  }

  /** Every iteration of a run did what the flag predicted. */
  predicate AllAsPredicted(ss: seq<Step>) {
    forall k :: 0 <= k < |ss| ==> AsPredicted(ss[k])
  }

  lemma {:induction false} AllAsPredictedSnoc(ss: seq<Step>, s: Step)
    requires AllAsPredicted(ss) && AsPredicted(s)
    ensures AllAsPredicted(ss + [s])
  {
    var ss' := ss + [s];
    forall k | 0 <= k < |ss'|
      ensures AsPredicted(ss'[k])
    {
      if k < |ss| {
        assert ss'[k] == ss[k];
      }
    }
  }

  /** Every iteration but the last did what the flag predicted, and the
      last one, which left `query` and `taint` with the verdict `verdict`
      and the flag `pending`, did not. */
  predicate EndsInFailure(ss: seq<Step>, query: seq<int>, taint: seq<bool>, verdict: Verdict, pending: bool) {
    |ss| > 0 && AllAsPredicted(ss[..|ss| - 1]) &&
    var last := ss[|ss| - 1];
    last.after == query && last.afterTaint == taint && last.verdict == verdict && last.pending == pending &&
    !AsPredicted(last)
  }

  lemma {:induction false} EndsInFailureSnoc(ss: seq<Step>, s: Step)
    requires AllAsPredicted(ss) && !AsPredicted(s)
    ensures EndsInFailure(ss + [s], s.after, s.afterTaint, s.verdict, s.pending)
  {
    assert (ss + [s])[..|ss|] == ss;
  }

  /** The query the next iteration starts from. */
  function ResumeUnits(s: Step): seq<int> {
    if RolledBack(s) then s.before else s.after
  }

  function ResumeTaint(s: Step): seq<bool> {
    if RolledBack(s) then s.beforeTaint else s.afterTaint
  }

  /** The query after a run of iterations. */
  function QueryUnits(ss: seq<Step>): seq<int> {
    if |ss| == 0 then [] else ResumeUnits(ss[|ss| - 1])
  }

  function QueryTaint(ss: seq<Step>): seq<bool> {
    if |ss| == 0 then [] else ResumeTaint(ss[|ss| - 1])
  }

  /** An iteration starting with the flag clear: the token is one its
      generator can append to the query before, and the verdict is the
      validator's on the query after. */
  ghost predicate StepOk(v: Validator, s: Step) {
    Appends(v, s.token, s.before, s.beforeTaint, false, s.after, s.afterTaint, s.pending) &&
    s.verdict == v.validate(s.after, s.afterTaint)
  }

  /** Iteration k starts from the query the iterations before it left. */
  predicate Follows(ss: seq<Step>, k: int)
    requires 0 <= k < |ss|
  {
    if k == 0 then ss[k].before == [] && ss[k].beforeTaint == []
    else ss[k].before == ResumeUnits(ss[k - 1]) && ss[k].beforeTaint == ResumeTaint(ss[k - 1])
  }

  /** Iteration k of a run is an iteration of test() that starts from the
      query the iterations before it left. */
  ghost predicate StepAt(v: Validator, ss: seq<Step>, k: int)
    requires 0 <= k < |ss|
  {
    StepOk(v, ss[k]) && Follows(ss, k)
  }

  /** A run of iterations of test() from the empty query. */
  ghost predicate Trace(v: Validator, ss: seq<Step>) {
    forall k :: 0 <= k < |ss| ==> StepAt(v, ss, k)
  }

  lemma {:induction false} TraceSnoc(v: Validator, ss: seq<Step>, s: Step)
    requires Trace(v, ss) && StepOk(v, s)
    requires s.before == QueryUnits(ss) && s.beforeTaint == QueryTaint(ss)
    ensures Trace(v, ss + [s])
  {
    var ss' := ss + [s];
    forall k | 0 <= k < |ss'|
      ensures StepAt(v, ss', k)
    {
      if k < |ss| {
        assert ss'[k] == ss[k] && StepAt(v, ss, k);
        if k > 0 {
          assert ss'[k - 1] == ss[k - 1];
        }
      } else {
        assert ss'[k] == s;
        if k > 0 {
          assert ss'[k - 1] == ss[|ss| - 1];
        }
      }
    }
  }

  /** What test() logs for one iteration: the token's name, and
      "Exception" when it was rolled back. */
  function LogEntry(s: Step): seq<string> {
    [KindName(KindOfDraws(s.token))] + (if RolledBack(s) then ["Exception"] else [])
  }

  function Log(ss: seq<Step>): seq<string> {
    if |ss| == 0 then [] else Log(ss[..|ss| - 1]) + LogEntry(ss[|ss| - 1])
  }

  lemma {:induction false} LogSnoc(ss: seq<Step>, s: Step)
    ensures Log(ss + [s]) == Log(ss) + LogEntry(s)
  {
    assert (ss + [s])[..|ss|] == ss;
  }

  /** The log of any run of iterations is well formed: every "Exception"
      follows a token name. */
  lemma {:induction false} LogWellFormed(ss: seq<Step>)
    ensures OpsWellFormed(Log(ss))
    decreases |ss|
  {
    if |ss| > 0 {
      var init, s := ss[..|ss| - 1], ss[|ss| - 1];
      LogWellFormed(init);
      var name := KindName(KindOfDraws(s.token));
      assert IsTokenName(name);
      OpsWellFormedSnoc(Log(init), name);
      if RolledBack(s) {
        OpsWellFormedSnoc(Log(init) + [name], "Exception");
        assert Log(init) + [name] + ["Exception"] == Log(ss);
      }
    }
  }

  /** The operation log of test(): one name per token appended, followed by
      "Exception" when the token was rolled back. */
  class OpList {
    var items: seq<string>

    constructor ()
      ensures items == []
    {
      items := [];
    }

    method Add(s: string)
      modifies this
      ensures items == old(items) + [s]
    {
      items := items + [s];
    }
  }

  /** A Java `int`. */
  newtype Int32 = x: int | -0x8000_0000 <= x < 0x8000_0000

  /** maxlen - 1 evaluated as Java evaluates it on an `int`: the difference
      wraps around modulo 2^32, so Integer.MIN_VALUE - 1 is Integer.MAX_VALUE. */
  function LengthBound(maxlen: Int32): (b: int)
    ensures -0x8000_0000 <= b < 0x8000_0000
    ensures (b - (maxlen as int - 1)) % 0x1_0000_0000 == 0
    ensures b <= 0 <==> -0x8000_0000 < maxlen <= 1
  {
    if maxlen == -0x8000_0000 then 0x7FFF_FFFF else maxlen as int - 1
  }

  class HypersonicSqlValidatorTest {
    const maxlen: Int32
    const sr: SafeRandom
    const v: Validator
    var exception: bool

    constructor (maxlen: Int32, sr: SafeRandom, v: Validator)
      ensures this.maxlen == maxlen && this.sr == sr && this.v == v && !exception
    {
      this.maxlen := maxlen;
      this.sr := sr;
      this.v := v;
      exception := false;
    }

    function PendingException(): bool
      reads this
    {
      exception
    }

    method ClearException()
      modifies this
      ensures !exception
    {
      exception := false;
    }

    method SetException()
      modifies this
      ensures exception
    {
      exception := true;
    }

    /** QueryToken.randChar. */
    method RandChar() returns (u: int)
      modifies sr
      ensures u == QChars[Draw(sr.tape, old(sr.pos)) % |QChars|]
      ensures sr.pos == old(sr.pos) + 1
    {
      var k := sr.NextInt(|QChars|);
      u := QChars[k];
    }

    /** The code point draw every body loop makes. */
    method RandomCodePoint() returns (c: CodePoint)
      modifies sr
      ensures c == DrawnCodePoint(Draw(sr.tape, old(sr.pos)), Draw(sr.tape, old(sr.pos) + 1))
      ensures sr.pos == old(sr.pos) + 2
    {
      var wide := sr.NextInt(12);
      if wide == 0 {
        var k := sr.NextInt(MaxCodePoint - MinCodePoint);
        c := MinCodePoint + k;
      } else {
        c := RandChar();
      }
    }

    /** One iteration of the body loop of appendSingleQuoteLiteral: a code
        point with its taint coin, a drawn quote doubled with the fault draw
        deciding the bit of the doubling quote, and the flag raised for a
        tainted NUL or a fault. */
    method LiteralCodePoint() returns (c: CodePoint, taint: bool, units: seq<int>, bits: seq<bool>, ghost fault: bool)
      modifies this, sr
      ensures fault ==> c == Apostrophe
      ensures units == if c == Apostrophe then [Apostrophe, Apostrophe] else ToChars(c)
      ensures bits == LiteralSegmentBits(Drawn(c, taint), fault)
      ensures exception == (old(exception) || LiteralSegmentViolation(Drawn(c, taint), fault))
      ensures sr.pos > old(sr.pos)
    {
      taint := sr.NextBoolean();
      c := RandomCodePoint();
      var clen := CharCount(c);
      units := ToChars(c);
      bits := Repeat(false, clen);
      if c == Nul && taint {
        SetException();
      }
      fault := false;
      if c == Apostrophe {
        units := units + [Apostrophe];
        bits := bits + [false];
        var d := sr.NextInt(256);
        if !taint {
          if d == 0 {
            bits := bits[1 := true];
            SetException();
            fault := true;
          }
        } else {
          if d != 0 {
            bits := bits[1 := true];
          } else {
            SetException();
            fault := true;
          }
        }
      }
      bits := MarkUnits(bits, 0, clen, taint);
    }

    /** The opening of a string literal: a space when the query ends in a
        quote, then the quote; each of these units is tainted, flagging the
        query, when its fault draw (0 out of 256) fires. */
    method LiteralOpening(lead: bool) returns (sb: seq<int>, b: seq<bool>, ghost open: seq<bool>)
      modifies this, sr
      ensures sb == LiteralPrefix(lead) && b == open && |open| == |sb|
      ensures exception == (old(exception) || true in open)
      ensures sr.pos > old(sr.pos)
    {
      sb := [];
      if lead {
        sb := sb + [Space];
      }
      sb := sb + [Apostrophe];
      b := Repeat(false, |sb|);
      open := [];
      for i := 0 to |sb|
        invariant |open| == i
        invariant b == open + Repeat(false, |sb| - i)
        invariant exception == (old(exception) || true in open)
        invariant sr.pos == old(sr.pos) + i
      {
        var d := sr.NextInt(256);
        if d == 0 {
          b := b[i := true];
          SetException();
        }
        open := open + [d == 0];
      }
    }

    /** The body loop of a string literal, from unit `from` while the unit
        count stays below `len + 1`. */
    method LiteralBody(from: nat, len: int) returns (sb: seq<int>, b: seq<bool>, ghost body: seq<Drawn>, ghost faults: seq<bool>)
      modifies this, sr
      ensures |faults| == |body| == if from < len + 1 then len + 1 - from else 0
      ensures forall k :: 0 <= k < |body| && faults[k] ==> body[k].c == Apostrophe
      ensures sb == QuotedUnits(Apostrophe, body) && b == LiteralBodyBits(body, faults)
      ensures exception == (old(exception) || LiteralBodyViolation(body, faults))
      ensures sr.pos >= old(sr.pos)
    {
      sb, b, body, faults := [], [], [], [];
      var i := from;
      while i < len + 1
        invariant |body| == |faults| && i == from + |body|
        invariant from < len + 1 ==> i <= len + 1
        invariant from >= len + 1 ==> |body| == 0
        invariant forall k :: 0 <= k < |body| && faults[k] ==> body[k].c == Apostrophe
        invariant sb == QuotedUnits(Apostrophe, body) && b == LiteralBodyBits(body, faults)
        invariant exception == (old(exception) || LiteralBodyViolation(body, faults))
        invariant sr.pos >= old(sr.pos)
      {
        var c, taint, units, bits, fault := LiteralCodePoint();
        sb := sb + units;
        b := b + bits;
        ghost var body' := body + [Drawn(c, taint)];
        ghost var faults' := faults + [fault];
        assert body'[..|body|] == body && faults'[..|body|] == faults;
        body, faults := body', faults';
        i := i + 1;
      }
    }

    /** appendSingleQuoteLiteral. */
    method AppendSingleQuoteLiteral(query: TaintedBuilder) returns (ghost r: LiteralDraws)
      requires query.Valid()
      modifies this, sr, query
      ensures query.Valid() && LiteralWellFormed(r)
      ensures r.lead == (LastUnit(old(query.units)) == Apostrophe)
      ensures query.units == old(query.units) + LiteralUnits(r)
      ensures query.taint == old(query.taint) + LiteralBits(r)
      ensures exception == (old(exception) || LiteralViolation(r))
      ensures sr.pos > old(sr.pos)
    {
      var len := sr.NextInt(256);
      var qc := Space;
      if |query.units| > 0 {
        qc := query.units[|query.units| - 1];
      }
      var sb, b, open := LiteralOpening(qc == Apostrophe);
      var units, bits, body, faults := LiteralBody(|sb|, len);
      sb := sb + units;
      b := b + bits;
      sb := sb + [Apostrophe];
      b := b + [false];
      var d := sr.NextInt(256);
      if d == 0 {
        b := b[|sb| - 1 := true];
        SetException();
      }
      r := LiteralDraws(qc == Apostrophe, open, body, faults, d == 0);
      assert b == LiteralBits(r);
      query.Append(sb, b);
    }
    /** appendQuotedIdentifier. */
    method AppendQuotedIdentifier(query: TaintedBuilder) returns (ghost body: seq<Drawn>)
      requires query.Valid()
      modifies this, sr, query
      ensures query.Valid() && IdentifierWellFormed(body)
      ensures query.units == old(query.units) + IdentifierUnits(body)
      ensures query.taint == old(query.taint) + IdentifierBits(body)
      ensures exception == (old(exception) || SomeTainted(body))
      ensures sr.pos > old(sr.pos)
    {
      var len := sr.NextInt(64);
      var sb, b;
      sb, b, body := IdentifierBody(len);
      sb := [DoubleQuote] + sb + [DoubleQuote, Space];
      b := [false] + b + [false, false];
      query.Append(sb, b);
    }

    /** The body loop of appendQuotedIdentifier: `len` code points, a
        drawn double quote doubled, each tainted by a draw of 0 out of 1024,
        which also flags the query. */
    method IdentifierBody(len: nat) returns (sb: seq<int>, b: seq<bool>, ghost body: seq<Drawn>)
      requires len < 64
      modifies this, sr
      ensures |body| == len
      ensures sb == QuotedUnits(DoubleQuote, body) && b == IdentifierBodyBits(body)
      ensures exception == (old(exception) || SomeTainted(body))
      ensures sr.pos >= old(sr.pos)
    {
      sb, b, body := [], [], [];
      for i := 0 to len
        modifies this, sr
        invariant |body| == i
        invariant sb == QuotedUnits(DoubleQuote, body) && b == IdentifierBodyBits(body)
        invariant exception == (old(exception) || SomeTainted(body))
        invariant sr.pos >= old(sr.pos)
      {
        var c, taint, units, bits := IdentifierCodePoint();
        sb := sb + units;
        b := b + bits;
        ghost var body' := body + [Drawn(c, taint)];
        assert body'[..|body|] == body;
        body := body';
      }
    }

    /** One iteration of the body loop of appendQuotedIdentifier. */
    method IdentifierCodePoint() returns (c: CodePoint, taint: bool, units: seq<int>, bits: seq<bool>)
      modifies this, sr
      ensures units == if c == DoubleQuote then [DoubleQuote, DoubleQuote] else ToChars(c)
      ensures bits == if c == DoubleQuote then [taint, false] else Repeat(taint, CharCount(c))
      ensures exception == (old(exception) || taint)
      ensures sr.pos > old(sr.pos)
    {
      c := RandomCodePoint();
      var clen := CharCount(c);
      var d := sr.NextInt(1024);
      taint := d == 0;
      if taint {
        SetException();
      }
      units := if c == DoubleQuote then [DoubleQuote] else [];
      units := units + ToChars(c);
      // b.set(oldlen + j, taint): the first `clen` units of this iteration.
      bits := MarkUnits(Repeat(false, |units|), 0, clen, taint);
      assert bits == if c == DoubleQuote then [taint, false] else Repeat(taint, clen);
    }

    /** appendLineComment. */
    method AppendLineComment(query: TaintedBuilder) returns (ghost r: LineCommentDraws)
      requires query.Valid()
      modifies this, sr, query
      ensures query.Valid() && LineCommentWellFormed(r)
      ensures query.units == old(query.units) + LineCommentUnits(r)
      ensures query.taint == old(query.taint) + LineCommentBits(r)
      ensures exception == (old(exception) || LineCommentViolation(r))
      ensures sr.pos > old(sr.pos)
    {
      var sb, b;
      sb, b, r := BuildLineComment();
      query.Append(sb, b);
    }

    /** The text and bits of a line comment, before they are appended. */
    method BuildLineComment() returns (sb: seq<int>, b: seq<bool>, ghost r: LineCommentDraws)
      modifies this, sr
      ensures LineCommentWellFormed(r)
      ensures sb == LineCommentUnits(r) && b == LineCommentBits(r)
      ensures exception == (old(exception) || LineCommentViolation(r))
      ensures sr.pos > old(sr.pos)
    {
      var len := sr.NextInt(64);
      len := 1 + len;
      var dashes := sr.NextBoolean();
      sb := if dashes then [Minus, Minus] else [Slash, Slash];
      b := [false, false];
      var units, bits, body, i := LineCommentBody(len);
      sb := sb + units;
      b := b + bits;
      ghost var forced: seq<int> := [];
      if i == len {
        var cr := sr.NextBoolean();
        var t := if cr then CarriageReturn else LineFeed;
        sb := sb + [t];
        b := b + [false];
        forced := [t];
      }
      r := LineCommentDraws(dashes, len, body, forced);
      assert Repeat(false, |forced|) == if forced == [] then [] else [false];
    }

    /** The body loop of appendLineComment: up to `len` code points, each
        with its taint coin, ending early (with `i < len`) right after the
        first line terminator, which flags the query when it is tainted. */
    method LineCommentBody(len: nat) returns (units: seq<int>, bits: seq<bool>, ghost body: seq<Drawn>, i: nat)
      modifies this, sr
      ensures units == Units(body) && bits == Bits(body)
      ensures i <= len
      ensures i == len ==> |body| == len && forall k :: 0 <= k < |body| ==> !IsLineTerminator(body[k].c)
      ensures i < len ==> |body| == i + 1 && IsLineTerminator(body[i].c) &&
                          forall k :: 0 <= k < i ==> !IsLineTerminator(body[k].c)
      ensures exception == (old(exception) || (i < len && body[i].taint))
      ensures sr.pos >= old(sr.pos)
    {
      units, bits, body := [], [], [];
      i := 0;
      while i < len
        invariant i <= len && |body| == i
        invariant units == Units(body) && bits == Bits(body)
        invariant forall k :: 0 <= k < |body| ==> !IsLineTerminator(body[k].c)
        invariant exception == old(exception)
        invariant sr.pos >= old(sr.pos)
      {
        var c, taint, cu, cb := LineCommentCodePoint();
        units := units + cu;
        bits := bits + cb;
        ghost var body' := body + [Drawn(c, taint)];
        assert body'[..|body|] == body;
        body := body';
        if IsLineTerminator(c) {
          break;
        }
        i := i + 1;
      }
    }

    /** One iteration of the body loop of appendLineComment: a code point
        with its taint coin, rendered and marked; a tainted line terminator
        flags the query. */
    method LineCommentCodePoint() returns (c: CodePoint, taint: bool, units: seq<int>, bits: seq<bool>)
      modifies this, sr
      ensures units == ToChars(c) && bits == Repeat(taint, CharCount(c))
      ensures exception == (old(exception) || (taint && IsLineTerminator(c)))
      ensures sr.pos > old(sr.pos)
    {
      taint := sr.NextBoolean();
      c := RandomCodePoint();
      var clen := CharCount(c);
      if taint && IsLineTerminator(c) {
        SetException();
      }
      units := ToChars(c);
      bits := MarkUnits(Repeat(false, clen), 0, clen, taint);
      assert bits == Repeat(taint, clen);
    }

    /** The separator guard of appendBoolean and appendNumber: a tainted
        literal after a unit of no separator class gets a clean space in
        front of it, unless the draw of 0 out of 256 leaves the space out
        and flags the query. The space is returned, with its bit, to be
        appended together with the literal. */
    method SeparatorGuard(query: TaintedBuilder, taint: bool) returns (space: seq<int>, spaceBits: seq<bool>, ghost sep: Separator)
      modifies this, sr
      ensures SeparatorFits(v, query.units, taint, sep)
      ensures space == SeparatorUnits(sep) && spaceBits == SeparatorBits(sep)
      ensures exception == (old(exception) || sep == Missing)
      ensures sr.pos >= old(sr.pos)
    {
      space, spaceBits := [], [];
      var oldlen := |query.units|;
      if oldlen != 0 && !v.IsSeparator(query.units[oldlen - 1]) && taint {
        var d := sr.NextInt(256);
        if d == 0 {
          SetException();
          sep := Missing;
        } else {
          space, spaceBits := [Space], [false];
          sep := Inserted;
        }
      } else {
        sep := NotNeeded;
      }
    }

    /** appendBoolean. */
    method AppendBoolean(query: TaintedBuilder) returns (ghost r: BooleanDraws)
      requires query.Valid()
      modifies this, sr, query
      ensures query.Valid() && BooleanWellFormed(r)
      ensures SeparatorFits(v, old(query.units), r.taint, r.sep)
      ensures query.units == old(query.units) + BooleanUnits(r)
      ensures query.taint == old(query.taint) + BooleanBits(r)
      ensures exception == (old(exception) || BooleanViolation(r))
      ensures sr.pos > old(sr.pos)
    {
      var taint := sr.NextBoolean();
      var space, spaceBits;
      ghost var sep;
      space, spaceBits, sep := SeparatorGuard(query, taint);
      var sb, b;
      sb, b, r := BooleanWord(taint, sep);
      query.Append(space + sb, spaceBits + b);
    }

    /** The literal of appendBoolean after the separator guard: the word,
        its cased letters and their bits, with the flag raised for a
        missing separator (already raised by the guard) or a partly tainted
        literal. */
    method BooleanWord(taint: bool, ghost sep: Separator) returns (sb: seq<int>, b: seq<bool>, ghost r: BooleanDraws)
      requires sep == Missing ==> exception
      modifies this, sr
      ensures BooleanWellFormed(r) && r.taint == taint && r.sep == sep
      ensures BooleanUnits(r) == SeparatorUnits(sep) + sb && BooleanBits(r) == SeparatorBits(sep) + b && |sb| == |b|
      ensures exception == (old(exception) || BooleanViolation(r))
      ensures sr.pos >= old(sr.pos)
    {
      var isTrue := sr.NextBoolean();
      var s := if isTrue then TrueWord else FalseWord;
      ghost var noise, upper;
      sb, b, noise, upper := CasedLetters(taint, s);
      var n := Count(b);
      // Partly tainted boolean literals are forbidden.
      if n != 0 && n != |s| {
        SetException();
      }
      r := BooleanDraws(taint, sep, isTrue, noise, upper);
    }

    /** The letter loop of appendBoolean: each letter is tainted by the
        coin unless its noise draw (0 out of 128) flips it, and is
        upper-cased by a second coin. */
    method CasedLetters(taint: bool, s: seq<int>) returns (sb: seq<int>, b: seq<bool>, ghost noise: seq<bool>, ghost upper: seq<bool>)
      modifies sr
      ensures |noise| == |upper| == |s|
      ensures sb == CasedWord(s, upper) && b == LetterBits(taint, noise)
      ensures sr.pos >= old(sr.pos)
    {
      sb, b, noise, upper := [], [], [], [];
      for i := 0 to |s|
        invariant |noise| == |upper| == i
        invariant b == LetterBits(taint, noise)
        invariant sb == CasedWord(s[..i], upper)
        invariant sr.pos >= old(sr.pos)
      {
        var d := sr.NextInt(128);
        var bit := false;
        if d == 0 {
          if !taint {
            bit := true;
          }
        } else if taint {
          bit := true;
        }
        b := b + [bit];
        var up := sr.NextBoolean();
        if up {
          sb := sb + [ToUpperAscii(s[i])];
        } else {
          sb := sb + [s[i]];
        }
        noise := noise + [d == 0];
        upper := upper + [up];
      }
      assert s[..|s|] == s;
    }

    /** An optional sign, drawn as appendNumber draws it for the literal
        and for its exponent. */
    method RandomSign() returns (sign: seq<int>)
      modifies sr
      ensures OptionalSign(sign)
      ensures sign == [] <==> Draw(sr.tape, old(sr.pos)) % 2 == 0
      ensures sr.pos > old(sr.pos)
    {
      sign := [];
      var signed := sr.NextBoolean();
      if signed {
        var plus := sr.NextBoolean();
        sign := if plus then [Plus] else [Minus];
      }
    }

    /** `count` decimal digits, digit.charAt(sr.nextInt(10)) each. */
    method RandomDigits(count: nat) returns (digits: seq<int>)
      modifies sr
      ensures |digits| == count && AllDigits(digits)
      ensures forall k :: 0 <= k < count ==> digits[k] == '0' as int + Draw(sr.tape, old(sr.pos) + k) % 10
      ensures sr.pos == old(sr.pos) + count
    {
      digits := [];
      for k := 0 to count
        invariant |digits| == k && AllDigits(digits)
        invariant forall j :: 0 <= j < k ==> digits[j] == '0' as int + Draw(sr.tape, old(sr.pos) + j) % 10
        invariant sr.pos == old(sr.pos) + k
      {
        var d := sr.NextInt(10);
        digits := digits + ['0' as int + d];
      }
    }

    /** appendNumber. */
    method AppendNumber(query: TaintedBuilder) returns (ghost r: NumberDraws)
      requires query.Valid()
      modifies this, sr, query
      ensures query.Valid() && NumberWellFormed(r)
      ensures SeparatorFits(v, old(query.units), r.taint, r.sep)
      ensures query.units == old(query.units) + NumberUnits(r)
      ensures query.taint == old(query.taint) + NumberBits(r)
      ensures exception == (old(exception) || NumberViolation(r))
      ensures sr.pos > old(sr.pos)
    {
      var len := sr.NextInt(32);
      len := 1 + len;
      var taint := sr.NextBoolean();
      var space, spaceBits;
      ghost var sep;
      space, spaceBits, sep := SeparatorGuard(query, taint);
      var sb, t;
      sb, t, r := NumberLiteral(len, taint, sep);
      query.Append(space + sb, spaceBits + t);
    }

    /** The literal of appendNumber after the separator guard, with its
        trailing space: every unit carries the taint coin but the space. */
    method NumberLiteral(len: nat, taint: bool, ghost sep: Separator) returns (sb: seq<int>, t: seq<bool>, ghost r: NumberDraws)
      requires 1 <= len <= 32
      modifies sr
      ensures NumberWellFormed(r) && r.taint == taint && r.sep == sep
      ensures NumberUnits(r) == SeparatorUnits(sep) + sb && NumberBits(r) == SeparatorBits(sep) + t
      ensures |sb| == |t|
      ensures sr.pos > old(sr.pos)
    {
      var sign := RandomSign();
      var mantissa, m := RandomMantissa(len);
      var exponent, e := RandomExponent();
      sb := sign + mantissa + exponent;
      r := NumberDraws(taint, sep, sign, m, e);
      assert sb == NumberText(r);
      sb := sb + [Space];
      // new Taint(taint, sb.length()), then t.clear(sb.length() - 1).
      t := Repeat(taint, |sb|);
      t := t[|sb| - 1 := false];
      assert t == Repeat(taint, |sb| - 1) + [false];
    }

    /** The mantissa of appendNumber: `len` leading digits, then maybe a
        point and maybe up to 31 fraction digits; or a point and `len`
        digits. */
    method RandomMantissa(len: nat) returns (sb: seq<int>, ghost m: Mantissa)
      requires 1 <= len <= 32
      modifies sr
      ensures sb == MantissaText(m)
      ensures match m
              case Whole(d, p, f) => |d| == len && AllDigits(d) && |f| < 32 && AllDigits(f) && (!p ==> |f| == 0)
              case Fraction(d) => |d| == len && AllDigits(d)
      ensures sr.pos > old(sr.pos)
    {
      var leading := sr.NextBoolean();
      if leading {
        var digits := RandomDigits(len);
        sb := digits;
        var point := sr.NextBoolean();
        var fraction: seq<int> := [];
        if point {
          sb := sb + [Period];
          var more := sr.NextBoolean();
          if more {
            var len2 := sr.NextInt(32);
            fraction := RandomDigits(len2);
            sb := sb + fraction;
          }
        }
        m := Whole(digits, point, fraction);
      } else {
        sb := [Period];
        var digits := RandomDigits(len);
        sb := sb + digits;
        m := Fraction(digits);
      }
    }

    /** The optional exponent of appendNumber: `e` or `E`, an optional sign
        and one to 32 digits. */
    method RandomExponent() returns (sb: seq<int>, ghost e: Exponent)
      modifies sr
      ensures sb == ExponentText(e)
      ensures match e
              case NoExponent => true
              case Exponent(m, s, d) => (m == LowerE || m == UpperE) && OptionalSign(s) && 1 <= |d| <= 32 && AllDigits(d)
      ensures sr.pos > old(sr.pos)
    {
      sb := [];
      e := NoExponent;
      var hasExponent := sr.NextBoolean();
      if hasExponent {
        var len3 := sr.NextInt(32);
        len3 := 1 + len3;
        var lower := sr.NextBoolean();
        var marker := if lower then LowerE else UpperE;
        sb := sb + [marker];
        var sign := RandomSign();
        sb := sb + sign;
        var digits := RandomDigits(len3);
        sb := sb + digits;
        e := Exponent(marker, sign, digits);
      }
    }
    /** appendBlockComment. */
    method AppendBlockComment(query: TaintedBuilder, nested: bool) returns (ghost r: BlockCommentDraws)
      requires query.Valid()
      modifies this, sr, query
      ensures query.Valid() && BlockCommentWellFormed(r) && r.nested == nested
      ensures query.units == old(query.units) + BlockCommentUnits(r)
      ensures query.taint == old(query.taint) + BlockCommentBits(r)
      ensures exception == (old(exception) || BlockCommentViolation(r))
      ensures sr.pos > old(sr.pos)
    {
      var len := sr.NextInt(64);
      var sb, b, level, body := BlockCommentBody(nested, len);
      r := BlockCommentDraws(nested, len, body);
      ghost var head := sb;
      for i := 0 to level
        invariant sb == head + Closers(i) && b == [false, false] + Bits(body) + Repeat(false, 3 * i)
      {
        sb := sb + [Space, Star, Slash];
        b := b + [false, false, false];
      }
      query.Append(sb, b);
    }

    /** The opening slash-star and the body loop of appendBlockComment: up
        to `len` code points, stopping at the one that closes the comment.
        The loop tracks the nesting level and the half delimiter last seen,
        and flags the query when a level change has a tainted unit. */
    method BlockCommentBody(nested: bool, len: nat) returns (sb: seq<int>, b: seq<bool>, level: int, ghost body: seq<Drawn>)
      requires len < 64
      modifies this, sr
      ensures var r := BlockCommentDraws(nested, len, body);
              BlockCommentWellFormed(r) && level >= 0 && level == ClosingLevel(r) &&
              exception == (old(exception) || BlockCommentViolation(r))
      ensures sb == [Slash, Star] + Units(body) && b == [false, false] + Bits(body)
      ensures sr.pos >= old(sr.pos)
    {
      sb, b := [], [];
      level := 1;
      var state := Default;
      var prevTaint := false;
      body := [];
      ghost var violation := false;
      var i := 0;
      while level > 0 && i < len
        invariant i <= len && |body| == i && level >= 0
        invariant sb == Units(body) && b == Bits(body)
        invariant Tracks(nested, body, Machine(level, state, prevTaint, violation))
        invariant exception == (old(exception) || violation)
        invariant sr.pos >= old(sr.pos)
        decreases len - i
      {
        ghost var m := Machine(level, state, prevTaint, violation);
        var c, taint, units, bits;
        c, taint, units, bits, level, state, violation := BlockCommentCodePoint(nested, level, state, prevTaint, violation);
        TracksStep(nested, body, m, Drawn(c, taint));
        sb := sb + units;
        b := b + bits;
        prevTaint := taint;
        body := body + [Drawn(c, taint)];
        i := i + 1;
      }
      TracksFinish(nested, len, body, Machine(level, state, prevTaint, violation));
      sb := [Slash, Star] + sb;
      b := [false, false] + b;
    }
    /** One iteration of the body loop of appendBlockComment: a code point
        with its taint coin, and one step of the delimiter machine on it. An
        opener (when nesting) raises the level, a closer lowers it, and a
        level change with a tainted unit, this one or the one before it,
        flags the query. */
    method BlockCommentCodePoint(nested: bool, level: int, state: CommentState, prevTaint: bool, ghost violation: bool)
      returns (c: CodePoint, taint: bool, units: seq<int>, bits: seq<bool>,
               level': int, state': CommentState, ghost violation': bool)
      modifies this, sr
      ensures units == ToChars(c) && bits == Repeat(taint, CharCount(c))
      ensures Machine(level', state', taint, violation') == StepUnit(nested, Machine(level, state, prevTaint, violation), c, taint)
      ensures exception == (old(exception) || (level' != level && (taint || prevTaint)))
      ensures sr.pos >= old(sr.pos)
    {
      taint := sr.NextBoolean();
      c := RandomCodePoint();
      var clen := CharCount(c);
      if c == Star {
        state' := SeenStar;
      } else if c == Slash {
        state' := SeenSlash;
      } else {
        state' := Default;
      }
      level', violation' := level, violation;
      if nested && state == SeenSlash && c == Star {
        level' := level + 1;
        if taint || prevTaint {
          SetException();
        }
        violation' := violation || taint || prevTaint;
        state' := Default;
      } else if state == SeenStar && c == Slash {
        level' := level - 1;
        if taint || prevTaint {
          SetException();
        }
        violation' := violation || taint || prevTaint;
        state' := Default;
      }
      units := ToChars(c);
      bits := MarkUnits(Repeat(false, clen), 0, clen, taint);
      assert bits == Repeat(taint, clen);
    }
    /** appendOther. */
    method AppendOther(query: TaintedBuilder) returns (ghost r: OtherDraws)
      requires query.Valid()
      modifies this, sr, query
      ensures query.Valid() && OtherWellFormed(r) && r.prev == LastUnit(old(query.units))
      ensures query.units == old(query.units) + OtherUnits(r)
      ensures query.taint == old(query.taint) + OtherBits(r)
      ensures exception == Recheck(v.parseTaintedValue, query.units, query.taint, |old(query.units)|, old(exception))
      ensures sr.pos > old(sr.pos)
    {
      var len := sr.NextInt(64);
      len := 1 + len;
      var origLength := |query.units|;
      var prev := LastUnit(query.units);
      var sb, b, body := OtherBody(len, prev);
      var lastc := sb[|sb| - 1];
      // Do not end in a comment character, a digit or a tainted unit.
      ghost var guard := false;
      if lastc == Slash || lastc == Star || lastc == Minus || b[|b| - 1] || IsDigit(lastc) {
        sb := sb + [Space];
        b := b + [false];
        guard := true;
      }
      r := OtherDraws(prev, body, guard);
      query.Append(sb, b);
      assert query.taint[origLength..] == b;
      if !(true in b) {
        RecheckClean(v.parseTaintedValue, query.units, query.taint, origLength, exception);
        return;
      }
      RecheckNumericValues(query, origLength, b);
    }

    /** The body loop of appendOther: `len` accepted code points, each with
        its taint coin (a draw of 0 out of 64). A code point that would
        finish a boolean word, is a quote, or would form a comment delimiter
        with the unit before it is drawn again. */
    method OtherBody(len: nat, prev: int) returns (sb: seq<int>, b: seq<bool>, ghost body: seq<Drawn>)
      requires len > 0
      modifies sr
      ensures |body| == len && AllAccepted(prev, body)
      ensures sb == Units(body) && b == Bits(body) && |sb| > 0
      ensures sr.pos >= old(sr.pos)
    {
      sb, b, body := [], [], [];
      var i := 0;
      while i < len
        invariant i <= len && |body| == i
        invariant sb == Units(body) && b == Bits(body) && AllAccepted(prev, body)
        invariant i > 0 ==> |sb| > 0
        invariant sr.pos >= old(sr.pos)
        decreases len - i, sr.Remaining()
      {
        var c, taint, accepted := OtherCodePoint(sb, prev);
        if !accepted {
          continue;
        }
        AllAcceptedSnoc(prev, body, Drawn(c, taint));
        sb, b := AppendCodePoint(sb, b, c, taint);
        body := body + [Drawn(c, taint)];
        i := i + 1;
      }
    }

    /** Appends one accepted code point to the token under construction and
        marks its units with its taint coin. */
    static method AppendCodePoint(sb: seq<int>, b: seq<bool>, c: CodePoint, taint: bool)
      returns (sb': seq<int>, b': seq<bool>)
      ensures sb' == sb + ToChars(c) && |sb'| > |sb|
      ensures b' == b + Repeat(taint, CharCount(c))
    {
      var clen := CharCount(c);
      sb' := sb + ToChars(c);
      var marked := MarkUnits(Repeat(false, clen), 0, clen, taint);
      assert marked == Repeat(taint, clen);
      b' := b + marked;
    }

    /** The draws of one iteration of the body loop of appendOther and its
        retry test against the token so far. Past the end of the tape the
        draw is a tainted NUL, which is accepted, so the retries end. */
    method OtherCodePoint(sb: seq<int>, prev: int) returns (c: CodePoint, taint: bool, accepted: bool)
      modifies sr
      ensures accepted == Accepts(sb, prev, c)
      ensures old(sr.Remaining()) == 0 ==> accepted
      ensures sr.pos > old(sr.pos)
      ensures old(sr.Remaining()) > 0 ==> sr.Remaining() < old(sr.Remaining())
    {
      var d := sr.NextInt(64);
      taint := d == 0;
      c := RandomCodePoint();
      accepted := true;
      // Do not create a boolean literal.
      if CompletesBoolean(sb, c) {
        accepted := false;
      } else {
        var prevc := if |sb| > 0 then sb[|sb| - 1] else prev;
        // Quotes belong to the quoted tokens, comment delimiters to the
        // comment tokens.
        if c == Apostrophe || c == DoubleQuote || IsCommentDelimiter(prevc, c) {
          accepted := false;
        }
      }
    }

    /** The re-check loop at the end of appendOther: from the first unit of
        the new text, every tainted unit is handed to the numeric parser,
        which either rejects the query (flagging it) or returns the offset
        the scan resumes after; the loop stops at a tainted unit once the
        flag is set. */
    method RecheckNumericValues(query: TaintedBuilder, origLength: nat, b: seq<bool>)
      requires query.Valid() && origLength + |b| == |query.units| && query.taint[origLength..] == b
      modifies this
      ensures exception == Recheck(v.parseTaintedValue, query.units, query.taint, origLength, old(exception))
    {
      var offset := origLength;
      while offset < |query.units|
        invariant origLength <= offset
        invariant Recheck(v.parseTaintedValue, query.units, query.taint, offset, exception) ==
                  Recheck(v.parseTaintedValue, query.units, query.taint, origLength, old(exception))
        decreases |query.units| - offset
      {
        var toff := 0;
        assert b[offset - origLength] == query.taint[offset];
        if !b[offset - origLength] {
          offset := offset + 1;
          continue;
        }
        if PendingException() {
          break;
        }
        var outcome := v.parseTaintedValue(query.units, query.taint, offset);
        assert Advances(outcome, offset);
        match outcome {
          case Rejected =>
            SetException();
          case Parsed(last) =>
            toff := last;
        }
        if toff > 0 {
          offset := toff;
        }
        offset := offset + 1;
      }
    }

    /** appendRandomToken: draws a token number, logs its name when there
        is a log, and appends a token of that kind; bracketed comments are
        not nested. */
    method AppendRandomToken(query: TaintedBuilder, opList: OpList?) returns (ghost r: TokenDraws)
      requires query.Valid()
      modifies this, sr, query, opList
      ensures query.Valid()
      ensures Appends(v, r, old(query.units), old(query.taint), old(exception), query.units, query.taint, exception)
      ensures KindOfDraws(r) == KindOf(Draw(sr.tape, old(sr.pos)) % 7)
      ensures opList != null ==> opList.items == old(opList.items) + [KindName(KindOfDraws(r))]
      ensures |query.units| > |old(query.units)|
      ensures sr.pos > old(sr.pos)
    {
      var op := sr.NextInt(7);
      var kind := KindOf(op);
      if opList != null {
        opList.Add(KindName(kind));
      }
      match kind {
        case SingleQuoteLiteral =>
          ghost var l := AppendSingleQuoteLiteral(query);
          r := LiteralToken(l);
        case QuotedIdentifier =>
          ghost var body := AppendQuotedIdentifier(query);
          r := IdentifierToken(body);
        case Number =>
          ghost var n := AppendNumber(query);
          r := NumberToken(n);
        case LineComment =>
          ghost var c := AppendLineComment(query);
          r := LineCommentToken(c);
        case BlockComment =>
          ghost var c := AppendBlockComment(query, false);
          r := BlockCommentToken(c);
        case Other =>
          ghost var o := AppendOther(query);
          r := OtherToken(o);
        case Boolean =>
          ghost var bl := AppendBoolean(query);
          r := BooleanToken(bl);
      }
    }

    /** One iteration of the loop of test() up to the validation: a random
        token is appended and logged, and the whole query is validated. */
    method AppendAndValidate(query: TaintedBuilder, opList: OpList) returns (verdict: Verdict, ghost r: TokenDraws)
      requires query.Valid()
      modifies this, sr, query, opList
      ensures query.Valid() && |query.units| > |old(query.units)|
      ensures Appends(v, r, old(query.units), old(query.taint), old(exception), query.units, query.taint, exception)
      ensures opList.items == old(opList.items) + [KindName(KindOfDraws(r))]
      ensures verdict == v.validate(query.units, query.taint)
      ensures sr.pos > old(sr.pos)
    {
      r := AppendRandomToken(query, opList);
      verdict := v.validate(query.units, query.taint);
    }

    /** One iteration of the loop of test(), starting with the flag clear
        after the iterations `steps`: a token is appended and validated;
        when the validator rejects it as the flag predicted, the flag is
        cleared, the query before the token is restored, and "Exception" is
        logged. The iteration is recorded as `s`. */
    method Iteration(query: TaintedBuilder, opList: OpList, ghost steps: seq<Step>)
      returns (next: TaintedBuilder, verdict: Verdict, rolledBack: bool, ghost s: Step)
      requires query.Valid() && !exception && Trace(v, steps)
      requires query.units == QueryUnits(steps) && query.taint == QueryTaint(steps) && opList.items == Log(steps)
      modifies this, sr, query, opList
      ensures next == query || fresh(next)
      ensures next.Valid() && Trace(v, steps + [s])
      ensures next.units == QueryUnits(steps + [s]) && next.taint == QueryTaint(steps + [s]) && opList.items == Log(steps + [s])
      ensures s.exhausted == (old(sr.Remaining()) == 0)
      ensures verdict == s.verdict && rolledBack == RolledBack(s) && exception == (s.pending && !rolledBack)
      ensures rolledBack ==> next.units == old(query.units) && next.taint == old(query.taint)
      ensures !rolledBack ==> s.after == next.units && s.afterTaint == next.taint && verdict == v.validate(next.units, next.taint)
      ensures !rolledBack ==> |next.units| > |old(query.units)|
      ensures sr.Remaining() <= old(sr.Remaining()) && (old(sr.Remaining()) > 0 ==> sr.Remaining() < old(sr.Remaining()))
    {
      var snapshot := new TaintedBuilder.Copy(query);
      ghost var r;
      verdict, r := AppendAndValidate(query, opList);
      s := Step(old(sr.Remaining()) == 0, r, snapshot.units, snapshot.taint, query.units, query.taint, verdict, exception);
      TraceSnoc(v, steps, s);
      LogSnoc(steps, s);
      rolledBack := verdict == Violation && PendingException();
      if rolledBack {
        ClearException();
        next := snapshot;
        opList.Add("Exception");
      } else {
        next := query;
      }
    }

    /** test(): appends random tokens until the query reaches a drawn
        length in [1, maxlen - 1] (maxlen - 1 in 32 bits), validating the whole query after each.
        A token the validator rejects while the flag predicts it is rolled
        back and logged as "Exception"; any other rejection, a crash of the
        validator, or an accepted query with the flag set is a failure.
        `steps` records every iteration. */
    method Test() returns (outcome: Outcome, ghost steps: seq<Step>)
      modifies this, sr
      ensures outcome.BadBound? <==> -0x8000_0000 < maxlen <= 1
      ensures Trace(v, steps)
      ensures outcome.Passed? || outcome.Failed? || outcome.Diverges? ==> outcome.ops == Log(steps) && OpsWellFormed(outcome.ops)
      ensures outcome.Passed? ==>
                |outcome.query| >= 1 + Draw(sr.tape, old(sr.pos)) % LengthBound(maxlen) && !exception &&
                v.validate(outcome.query, outcome.taint) == Accepted &&
                outcome.query == QueryUnits(steps) && outcome.taint == QueryTaint(steps) &&
                AllAsPredicted(steps)
      ensures outcome.Failed? ==>
                outcome.verdict == v.validate(outcome.query, outcome.taint) && outcome.pending == exception &&
                (outcome.verdict == Crash || (outcome.verdict == Violation) != outcome.pending) &&
                EndsInFailure(steps, outcome.query, outcome.taint, outcome.verdict, outcome.pending)
      ensures outcome.Diverges? ==>
                sr.Remaining() == 0 && !exception &&
                |steps| > 0 && steps[|steps| - 1].exhausted && RolledBack(steps[|steps| - 1]) && AllAsPredicted(steps)
    {
      var bound := LengthBound(maxlen);
      if bound <= 0 {
        return BadBound, [];
      }
      var len := sr.NextInt(bound);
      outcome, steps := Loop(1 + len);
    }

    /** The loop of test(), run until the query has at least `len` units. */
    method Loop(len: int) returns (outcome: Outcome, ghost steps: seq<Step>)
      requires len >= 1
      modifies this, sr
      ensures !outcome.BadBound? && Trace(v, steps)
      ensures outcome.ops == Log(steps) && OpsWellFormed(outcome.ops)
      ensures outcome.Passed? ==>
                |outcome.query| >= len && !exception &&
                v.validate(outcome.query, outcome.taint) == Accepted &&
                outcome.query == QueryUnits(steps) && outcome.taint == QueryTaint(steps) &&
                AllAsPredicted(steps)
      ensures outcome.Failed? ==>
                outcome.verdict == v.validate(outcome.query, outcome.taint) && outcome.pending == exception &&
                (outcome.verdict == Crash || (outcome.verdict == Violation) != outcome.pending) &&
                EndsInFailure(steps, outcome.query, outcome.taint, outcome.verdict, outcome.pending)
      ensures outcome.Diverges? ==>
                sr.Remaining() == 0 && !exception &&
                |steps| > 0 && steps[|steps| - 1].exhausted && RolledBack(steps[|steps| - 1]) && AllAsPredicted(steps)
    {
      steps := [];
      var opList := new OpList();
      var query := new TaintedBuilder();
      ClearException();
      while query.Length() < len
        invariant fresh(query) && fresh(opList) && query.Valid()
        invariant !exception
        invariant |query.units| > 0 ==> v.validate(query.units, query.taint) == Accepted
        invariant Trace(v, steps) && AllAsPredicted(steps)
        invariant query.units == QueryUnits(steps) && query.taint == QueryTaint(steps)
        invariant opList.items == Log(steps)
        decreases sr.Remaining(), len - query.Length()
      {
        var exhausted := sr.Remaining() == 0;
        var verdict, rolledBack;
        ghost var s;
        query, verdict, rolledBack, s := Iteration(query, opList, steps);
        if rolledBack {
          AllAsPredictedSnoc(steps, s);
          steps := steps + [s];
          if exhausted {
            LogWellFormed(steps);
            return Diverges(opList.items), steps;
          }
          continue;
        }
        if verdict != Accepted || PendingException() {
          EndsInFailureSnoc(steps, s);
          steps := steps + [s];
          LogWellFormed(steps);
          return Failed(query.units, query.taint, opList.items, verdict, exception), steps;
        }
        AllAsPredictedSnoc(steps, s);
        steps := steps + [s];
      }
      LogWellFormed(steps);
      outcome := Passed(query.units, query.taint, opList.items);
    }
  }
}
