/** Parts of a sequence that keep its order. */
module Positions {

  ghost predicate Ascending(at: seq<nat>, n: nat) {
    && (forall k :: 0 <= k < |at| ==> at[k] < n)
    && forall j, k :: 0 <= j < k < |at| ==> at[j] < at[k]
  }

  /** `kept` holds the elements of `all` at the positions `at`, in order. */
  ghost predicate KeptAt<T>(all: seq<T>, at: seq<nat>, kept: seq<T>) {
    Ascending(at, |all|) && |kept| == |at| && forall k :: 0 <= k < |at| ==> kept[k] == all[at[k]]
  }

  lemma KeptAtEnd<T>(all: seq<T>, at: seq<nat>, kept: seq<T>, x: T)
    requires KeptAt(all, at, kept)
    ensures KeptAt(all + [x], at, kept) && KeptAt(all + [x], at + [|all|], kept + [x])
  {
  }

  /** The positions after one more element came in front, which is kept or not. */
  function Shifted(at: seq<nat>, keep: bool): (r: seq<nat>)
    ensures |r| == |at| + if keep then 1 else 0
  {
    (if keep then [0] else []) + seq(|at|, k requires 0 <= k < |at| => at[k] + 1)
  }

  lemma ShiftedAscends(at: seq<nat>, keep: bool, n: nat)
    requires Ascending(at, n)
    ensures Ascending(Shifted(at, keep), n + 1)
  {
  }

  lemma ShiftedHolds(at: seq<nat>, keep: bool, i: nat)
    ensures i in Shifted(at, keep) <==> if i == 0 then keep else i - 1 in at
  {
    var r, d := Shifted(at, keep), if keep then 1 else 0;
    if i > 0 && i - 1 in at {
      var k :| 0 <= k < |at| && at[k] == i - 1;
      assert r[k + d] == i;
    } else if i == 0 && keep {
      assert r[0] == 0;
    }
  }

  lemma KeptAtFront<T>(all: seq<T>, at: seq<nat>, kept: seq<T>, x: T)
    requires KeptAt(all, at, kept)
    ensures KeptAt([x] + all, Shifted(at, false), kept) && KeptAt([x] + all, Shifted(at, true), [x] + kept)
  {
    ShiftedAscends(at, false, |all|);
    ShiftedAscends(at, true, |all|);
  }
}
