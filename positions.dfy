/**
 * Sequences of positions in a string, as the tokenizers report where their
 * tokens start.
 */
module Positions {

  /** The positions xs moved d places to the right. */
  function Shift(xs: seq<nat>, d: nat): seq<nat> {
    seq(|xs|, k requires 0 <= k < |xs| => xs[k] + d)
  }

  /** Positions listed from left to right, each once. */
  predicate Increasing(xs: seq<nat>) {
    forall k, l :: 0 <= k < l < |xs| ==> xs[k] < xs[l]
  }

  /** A shifted position is one of the original positions moved d places. */
  lemma ShiftMembers(xs: seq<nat>, d: nat)
    ensures forall i: int :: i in Shift(xs, d) <==> i >= d && i - d in xs
  {
    forall i: int
      ensures i in Shift(xs, d) <==> i >= d && i - d in xs
    {
      if i in Shift(xs, d) {
        var k :| 0 <= k < |xs| && Shift(xs, d)[k] == i;
        assert xs[k] == i - d;
      }
      if i >= d && i - d in xs {
        var k :| 0 <= k < |xs| && xs[k] == i - d;
        assert Shift(xs, d)[k] == i;
      }
    }
  }
}
