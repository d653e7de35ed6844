/** Text with a taint bitmap: one bit per UTF-16 unit, set when the unit
    comes from an untrusted source. */
module TaintedText {
  import opened Utf16

  /** One code point drawn by a generator together with its taint coin. */
  datatype Drawn = Drawn(c: CodePoint, taint: bool)

  function Repeat(t: bool, n: nat): seq<bool> {
    seq(n, _ => t)
  }

  /** The units of the drawn code points, in order (StringBuffer.append of
      Character.toChars). */
  function Units(ds: seq<Drawn>): seq<int> {
    if |ds| == 0 then [] else Units(ds[..|ds| - 1]) + ToChars(ds[|ds| - 1].c)
  }

  /** The bitmap a body loop builds: every unit of a code point gets that
      code point's taint coin. */
  function Bits(ds: seq<Drawn>): (b: seq<bool>)
    ensures |b| == |Units(ds)|
  {
    if |ds| == 0 then []
    else
      var last := ds[|ds| - 1];
      Bits(ds[..|ds| - 1]) + Repeat(last.taint, CharCount(last.c))
  }

  function CodePoints(ds: seq<Drawn>): seq<int> {
    seq(|ds|, k requires 0 <= k < |ds| => ds[k].c as int)
  }

  /** Offset of the first unit of `ds[k]` in `Units(ds)`. */
  function Offset(ds: seq<Drawn>, k: nat): nat
    requires k <= |ds|
  {
    |Units(ds[..k])|
  }

  lemma {:induction false} UnitsFront(ds: seq<Drawn>)
    requires |ds| > 0
    ensures Units(ds) == ToChars(ds[0].c) + Units(ds[1..])
    decreases |ds|
  {
    if |ds| > 1 {
      var init := ds[..|ds| - 1];
      UnitsFront(init);
      assert init[1..] == ds[1..][..|ds[1..]| - 1];
    } else {
      assert ds[..0] == [];
      assert ds[1..] == [];
    }
  }

  lemma {:induction false} BitsFront(ds: seq<Drawn>)
    requires |ds| > 0
    ensures Bits(ds) == Repeat(ds[0].taint, CharCount(ds[0].c)) + Bits(ds[1..])
    decreases |ds|
  {
    if |ds| > 1 {
      var init := ds[..|ds| - 1];
      BitsFront(init);
      assert init[1..] == ds[1..][..|ds[1..]| - 1];
    } else {
      assert ds[..0] == [];
      assert ds[1..] == [];
    }
  }

  /** A code point is one indivisible taint unit: each of its `CharCount`
      units sits at its offset in the text and carries its taint coin. */
  lemma {:induction false} CodePointTaint(ds: seq<Drawn>, k: nat, j: nat)
    requires k < |ds| && j < CharCount(ds[k].c)
    ensures Offset(ds, k) + j < |Units(ds)|
    ensures Units(ds)[Offset(ds, k) + j] == ToChars(ds[k].c)[j]
    ensures Bits(ds)[Offset(ds, k) + j] == ds[k].taint
    decreases |ds|
  {
    var init := ds[..|ds| - 1];
    if k == |ds| - 1 {
      assert ds[..k] == init;
    } else {
      CodePointTaint(init, k, j);
      assert init[..k] == ds[..k];
    }
  }

  /** Text built from code points that are not surrogates decodes back to
      exactly those code points. */
  lemma {:induction false} DecodeUnits(ds: seq<Drawn>)
    requires forall k :: 0 <= k < |ds| ==> !IsSurrogate(ds[k].c)
    ensures Decode(Units(ds)) == CodePoints(ds)
    decreases |ds|
  {
    if |ds| > 0 {
      UnitsFront(ds);
      DecodeToChars(ds[0].c, Units(ds[1..]));
      DecodeUnits(ds[1..]);
      assert CodePoints(ds) == [ds[0].c as int] + CodePoints(ds[1..]);
    }
  }

  /** Lone surrogates are drawn as well: any drawn high surrogate followed
      by any drawn low surrogate reads back as one supplementary character,
      while its two units keep the two drawn taint bits, which may differ. */
  lemma {:induction false} LoneSurrogatesFuse(h: CodePoint, l: CodePoint, th: bool, tl: bool)
    requires IsHighSurrogate(h) && IsLowSurrogate(l)
    ensures var ds := [Drawn(h, th), Drawn(l, tl)];
            Decode(Units(ds)) == [MinSupplementaryCodePoint + (h - 0xD800) * 0x400 + (l - 0xDC00)] &&
            Bits(ds) == [th, tl]
  {
    var ds := [Drawn(h, th), Drawn(l, tl)];
    assert ds[..1][..0] == [];
    assert Units(ds[..1]) == [h];
    assert Units(ds) == [h, l];
    var u := Units(ds);
    assert u[2..] == [];
    assert Bits(ds[..1]) == [th];
  }

  /** Number of set bits (BitSet.cardinality). */
  function Count(b: seq<bool>): nat {
    if |b| == 0 then 0 else Count(b[..|b| - 1]) + (if b[|b| - 1] then 1 else 0)
  }

  /** No bit is set exactly when the count is zero, and every bit is set
      exactly when the count is the length. */
  lemma {:induction false} CountExtremes(b: seq<bool>)
    ensures Count(b) <= |b|
    ensures Count(b) == 0 <==> forall k :: 0 <= k < |b| ==> !b[k]
    ensures Count(b) == |b| <==> forall k :: 0 <= k < |b| ==> b[k]
    decreases |b|
  {
    if |b| > 0 {
      var init := b[..|b| - 1];
      CountExtremes(init);
      assert forall k :: 0 <= k < |init| ==> init[k] == b[k];
    }
  }

  /** `for (j = 0; j < count; j++) b.set(from + j, taint)` on a bitmap kept
      as long as its buffer (a BitSet reads unset bits as clear). */
  method MarkUnits(b: seq<bool>, from: nat, count: nat, taint: bool) returns (r: seq<bool>)
    requires from + count <= |b|
    ensures |r| == |b|
    ensures forall k :: 0 <= k < |b| ==> r[k] == if from <= k < from + count then taint else b[k]
  {
    r := b;
    for j := 0 to count
      invariant |r| == |b|
      invariant forall k :: 0 <= k < |b| ==> r[k] == if from <= k < from + j then taint else b[k]
    {
      r := r[from + j := taint];
    }
  }

  /** A StringBuilder holding tainted text: its units and their bitmap. */
  class TaintedBuilder {
    var units: seq<int>
    var taint: seq<bool>

    ghost predicate Valid()
      reads this
    {
      |units| == |taint|
    }

    constructor ()
      ensures Valid() && units == [] && taint == []
    {
      units, taint := [], [];
    }

    /** A snapshot: `new StringBuilder(query.toString())` keeps the taint. */
    constructor Copy(other: TaintedBuilder)
      requires other.Valid()
      ensures Valid() && units == other.units && taint == other.taint
    {
      units, taint := other.units, other.taint;
    }

    function Length(): nat
      reads this
    {
      |units|
    }

    /** Appends a tainted string. */
    method Append(u: seq<int>, t: seq<bool>)
      requires Valid() && |u| == |t|
      modifies this
      ensures Valid()
      ensures units == old(units) + u && taint == old(taint) + t
    {
      units, taint := units + u, taint + t;
    }
  }
}
