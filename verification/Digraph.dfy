/** Finite directed graphs as adjacency maps: walks, reachability, cycles. */
module Digraph {

  ghost predicate Edge<V>(g: map<V, set<V>>, u: V, v: V) {
    u in g && v in g[u]
  }

  /** Every edge target is itself a vertex. */
  ghost predicate Closed<V(!new)>(g: map<V, set<V>>) {
    forall u, v :: Edge(g, u, v) ==> v in g
  }

  ghost predicate StepAt<V>(g: map<V, set<V>>, p: seq<V>, i: nat)
    requires i + 1 < |p|
  {
    Edge(g, p[i], p[i + 1])
  }

  ghost predicate IsWalk<V>(g: map<V, set<V>>, p: seq<V>) {
    forall i: nat :: i + 1 < |p| ==> StepAt(g, p, i)
  }

  ghost predicate WalkBetween<V>(g: map<V, set<V>>, p: seq<V>, u: V, v: V) {
    |p| >= 2 && IsWalk(g, p) && p[0] == u && p[|p| - 1] == v
  }

  /** v is reached from u over one or more edges. */
  ghost predicate Reaches<V(!new)>(g: map<V, set<V>>, u: V, v: V) {
    exists p: seq<V> :: WalkBetween(g, p, u, v)
  }

  ghost predicate ReachesOrIs<V(!new)>(g: map<V, set<V>>, u: V, v: V) {
    u == v || Reaches(g, u, v)
  }

  ghost predicate OnCycle<V(!new)>(g: map<V, set<V>>, v: V) {
    Reaches(g, v, v)
  }

  ghost predicate Acyclic<V(!new)>(g: map<V, set<V>>) {
    forall v :: !OnCycle(g, v)
  }

  /** v lies on a cycle or is reached from one. */
  ghost predicate BehindCycle<V(!new)>(g: map<V, set<V>>, v: V) {
    exists c :: OnCycle(g, c) && ReachesOrIs(g, c, v)
  }

  ghost predicate NoDup<T>(s: seq<T>) {
    forall i, j :: 0 <= i < j < |s| ==> s[i] != s[j]
  }

  ghost function Elems<T>(s: seq<T>): set<T> {
    set x | x in s
  }

  lemma SubWalk<V(!new)>(g: map<V, set<V>>, p: seq<V>, i: nat, j: nat)
    requires IsWalk(g, p) && i <= j <= |p|
    ensures IsWalk(g, p[i..j])
  {
    forall k: nat | k + 1 < |p[i..j]| ensures StepAt(g, p[i..j], k) {
      assert StepAt(g, p, i + k);
    }
  }

  lemma EdgeReaches<V(!new)>(g: map<V, set<V>>, u: V, v: V)
    requires Edge(g, u, v)
    ensures Reaches(g, u, v)
  {
    assert StepAt(g, [u, v], 0);
    assert WalkBetween(g, [u, v], u, v);
  }

  lemma ReachesTrans<V(!new)>(g: map<V, set<V>>, u: V, v: V, w: V)
    requires Reaches(g, u, v) && Reaches(g, v, w)
    ensures Reaches(g, u, w)
  {
    var p :| WalkBetween(g, p, u, v);
    var q :| WalkBetween(g, q, v, w);
    var r := p + q[1..];
    forall i: nat | i + 1 < |r| ensures StepAt(g, r, i) {
      if i + 1 < |p| { assert StepAt(g, p, i); } else { assert StepAt(g, q, i + 1 - |p|); }
    }
    assert WalkBetween(g, r, u, w);
  }

  /** Any nonempty walk ends with an edge whose source is reached or is the start. */
  lemma LastStep<V(!new)>(g: map<V, set<V>>, u: V, v: V) returns (w: V)
    requires Reaches(g, u, v)
    ensures ReachesOrIs(g, u, w) && Edge(g, w, v)
  {
    var p :| WalkBetween(g, p, u, v);
    w := p[|p| - 2];
    assert StepAt(g, p, |p| - 2);
    if |p| > 2 {
      SubWalk(g, p, 0, |p| - 1);
      assert WalkBetween(g, p[0..|p| - 1], u, w);
    }
  }

  lemma FirstStep<V(!new)>(g: map<V, set<V>>, u: V, v: V) returns (w: V)
    requires Reaches(g, u, v)
    ensures Edge(g, u, w) && ReachesOrIs(g, w, v)
  {
    var p :| WalkBetween(g, p, u, v);
    w := p[1];
    assert StepAt(g, p, 0);
    if |p| > 2 {
      SubWalk(g, p, 1, |p|);
      assert WalkBetween(g, p[1..|p|], w, v);
    }
  }

  /** A relation that holds on edges and composes holds on whole walks. */
  lemma {:induction false} WalkInduction<V(!new)>(g: map<V, set<V>>, p: seq<V>, r: (V, V) -> bool)
    requires |p| >= 2 && IsWalk(g, p)
    requires forall u, v :: Edge(g, u, v) ==> r(u, v)
    requires forall u, v, w :: r(u, v) && r(v, w) ==> r(u, w)
    ensures r(p[0], p[|p| - 1])
    decreases |p|
  {
    assert StepAt(g, p, 0);
    if |p| > 2 {
      SubWalk(g, p, 1, |p|);
      WalkInduction(g, p[1..|p|], r);
    }
  }

  lemma {:induction false} NoDupCard<T>(s: seq<T>)
    requires NoDup(s)
    ensures |Elems(s)| == |s|
  {
    if s != [] {
      var n := |s| - 1;
      NoDupCard(s[..n]);
      assert Elems(s) == Elems(s[..n]) + {s[n]};
      assert s[n] !in Elems(s[..n]);
    }
  }

  lemma SubsetCard<T>(a: set<T>, b: set<T>)
    requires a <= b
    ensures |a| <= |b|
  {
    assert b == a + (b - a);
  }

  lemma NoDupBound<T>(s: seq<T>, bound: set<T>)
    requires NoDup(s) && Elems(s) <= bound
    ensures |s| <= |bound|
  {
    NoDupCard(s);
    SubsetCard(Elems(s), bound);
  }

  /** Pigeonhole: a sequence longer than the set it draws from repeats itself. */
  lemma Pigeonhole<T>(s: seq<T>, pool: set<T>) returns (i: nat, j: nat)
    requires Elems(s) <= pool && |s| > |pool|
    ensures i < j < |s| && s[i] == s[j]
  {
    if NoDup(s) {
      NoDupBound(s, pool);
      assert false;
    }
    i, j :| 0 <= i < j < |s| && s[i] == s[j];
  }

  lemma SubgraphReaches<V(!new)>(g: map<V, set<V>>, h: map<V, set<V>>, x: V, y: V)
    requires forall u, v :: Edge(g, u, v) ==> Edge(h, u, v)
    requires Reaches(g, x, y)
    ensures Reaches(h, x, y)
  {
    var p :| WalkBetween(g, p, x, y);
    forall i: nat | i + 1 < |p| ensures StepAt(h, p, i) {
      assert StepAt(g, p, i);
    }
    assert WalkBetween(h, p, x, y);
  }

  /** Every member of `s` has a predecessor inside `s`. */
  ghost predicate ParentInside<V(!new)>(g: map<V, set<V>>, s: set<V>) {
    forall v {:trigger HasParentIn(g, s, v)} :: v in s ==> HasParentIn(g, s, v)
  }

  ghost predicate HasParentIn<V>(g: map<V, set<V>>, s: set<V>, v: V) {
    exists u :: u in s && Edge(g, u, v)
  }

  lemma {:induction false} BackwardWalk<V(!new)>(g: map<V, set<V>>, s: set<V>, v: V, n: nat) returns (p: seq<V>)
    requires ParentInside(g, s) && v in s
    ensures |p| == n + 1 && IsWalk(g, p) && p[n] == v && Elems(p) <= s
  {
    if n == 0 {
      p := [v];
    } else {
      assert HasParentIn(g, s, v);
      var u :| u in s && Edge(g, u, v);
      var q := BackwardWalk(g, s, u, n - 1);
      p := q + [v];
      forall i: nat | i + 1 < |p| ensures StepAt(g, p, i) {
        if i + 1 < |q| { assert StepAt(g, q, i); }
      }
      assert Elems(p) == Elems(q) + {v};
    }
  }

  /** Walking backward inside a finite source-free set must close a cycle. */
  lemma SourceFreeIsBehindCycle<V(!new)>(g: map<V, set<V>>, s: set<V>, v: V)
    requires ParentInside(g, s) && v in s
    ensures BehindCycle(g, v)
  {
    var p := BackwardWalk(g, s, v, |s|);
    var i, j := Pigeonhole(p, s);
    SubWalk(g, p, i, j + 1);
    assert WalkBetween(g, p[i..j + 1], p[i], p[i]);
    SubWalk(g, p, i, |p|);
    assert WalkBetween(g, p[i..|p|], p[i], v);
    assert OnCycle(g, p[i]) && ReachesOrIs(g, p[i], v);
  }

  /** In an acyclic graph every nonempty set of vertices has a member with no predecessor in the set. */
  lemma AcyclicHasSource<V(!new)>(g: map<V, set<V>>, s: set<V>) returns (v: V)
    requires Acyclic(g) && s != {}
    ensures v in s && forall u :: u in s ==> !Edge(g, u, v)
  {
    if ParentInside(g, s) {
      var w :| w in s;
      SourceFreeIsBehindCycle(g, s, w);
      assert false;
    }
    v :| v in s && !HasParentIn(g, s, v);
  }
}
