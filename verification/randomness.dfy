/** The random source of the harness. Its algorithm is replaced by a tape of
    pre-drawn values: the k-th draw reads the k-th value of the tape, and
    every draw past the end of the tape reads 0. */
module Randomness {

  function Draw(tape: seq<nat>, k: nat): nat {
    if k < |tape| then tape[k] else 0
  }

  class SafeRandom {
    const tape: seq<nat>
    var pos: nat

    constructor (tape: seq<nat>)
      ensures this.tape == tape && pos == 0
    {
      this.tape := tape;
      pos := 0;
    }

    /** Number of tape values not yet drawn. */
    function Remaining(): nat
      reads this
    {
      if pos < |tape| then |tape| - pos else 0
    }

    /** nextInt(bound): a value in [0, bound). */
    method NextInt(bound: int) returns (r: int)
      requires 0 < bound
      modifies this
      ensures 0 <= r < bound
      ensures r == Draw(tape, old(pos)) % bound
      ensures pos == old(pos) + 1
    {
      r := Draw(tape, pos) % bound;
      pos := pos + 1;
    }

    /** nextBoolean(). */
    method NextBoolean() returns (b: bool)
      modifies this
      ensures b == (Draw(tape, old(pos)) % 2 == 1)
      ensures pos == old(pos) + 1
    {
      b := Draw(tape, pos) % 2 == 1;
      pos := pos + 1;
    }
  }
}
