/** Which elements of a sequence a selection took. */
module Positions {
  ghost predicate Rising(from: seq<nat>) {
    forall i, j | 0 <= i < j < |from| :: from[i] < from[j]
  }

  /** The same positions, one further on. */
  function Shifted(from: seq<nat>): (later: seq<nat>)
    ensures |later| == |from| && forall j | 0 <= j < |from| :: later[j] == from[j] + 1
  {
    seq(|from|, j requires 0 <= j < |from| => from[j] + 1)
  }

  lemma ShiftedHas(from: seq<nat>, i: nat)
    ensures i in Shifted(from) <==> i > 0 && i - 1 in from
  {
    if i > 0 && i - 1 in from {
      var j :| 0 <= j < |from| && from[j] == i - 1;
      assert Shifted(from)[j] == i;
    }
  }

  lemma OrFirst(from: seq<nat>, i: nat)
    ensures i in [0] + from <==> i == 0 || i in from
  {
    assert ([0] + from)[0] == 0;
  }

  lemma ShiftedRises(from: seq<nat>)
    requires Rising(from)
    ensures Rising(Shifted(from)) && Rising([0] + Shifted(from))
  {
  }
}
