/** The flat graph holds every job and the whole order exactly when nothing is lost and the operands agree. */
module FlattenExact {
  import opened Digraph
  import opened Graphs
  import opened Elements
  import opened Flatten
  import opened FlattenMeaning

  // ---- soundness ----

  lemma {:induction false} LinkIsOrdered(e: Element, u: Element, v: Element)
    requires Buildable(e) && Link(e, u, v)
    ensures Ordered(e, u, v) && Buildable(u) && Buildable(v)
  {
    if e.Chain? && exists i :: 0 <= i < |e.items| - 1 && u == e.items[i] && v == e.items[i + 1] {
      var i :| 0 <= i < |e.items| - 1 && u == e.items[i] && v == e.items[i + 1];
      assert 0 <= i < i + 1 < |e.items|;
    }
  }

  /** Where an edge of the flat graph comes from: its jobs part at a link. */
  lemma {:induction false} EdgeOrigin(root: Element, flat: map<JobId, set<JobId>>, x: JobId, y: JobId)
    returns (m: Element, u: Element, v: Element)
    requires Tree(root) && IsFlat(flat, Parts(root)) && Edge(flat, x, y)
    ensures Inside(root, m) && Link(m, u, v) && x in Tail(u) && y in Head(v)
    ensures Ordered(m, u, v) && Apart(m, u, v, x, y) && x in Main(u)
  {
    m, u, v :| m in Parts(root) && Link(m, u, v) && x in Tail(u) && y in Head(v);
    PartsAreInside(root, m);
    InsideTree(root, m);
    LinkIsOrdered(m, u, v);
    EndsInside(u);
    EndsInside(v);
    MainInAll(v);
    hide *;
    OrderedApart(m, u, v, x, y);
  }

  /** Every edge of the flat graph is part of the order. */
  lemma {:induction false} EdgeSound(root: Element, flat: map<JobId, set<JobId>>, x: JobId, y: JobId)
    requires Tree(root) && IsFlat(flat, Parts(root)) && Edge(flat, x, y)
    ensures Precedes(root, x, y)
  {
    var m, u, v := EdgeOrigin(root, flat, x, y);
    assert Precedes(m, x, y);
    PrecedesLift(root, m, x, y);
  }

  /** Never a spurious order: whatever is reachable was asked for. */
  lemma {:induction false} ReachSound(root: Element, flat: map<JobId, set<JobId>>, x: JobId, y: JobId)
    requires Tree(root) && IsFlat(flat, Parts(root)) && Reaches(flat, x, y)
    ensures Precedes(root, x, y)
  {
    forall a, b | Edge(flat, a, b) ensures Precedes(root, a, b) { EdgeSound(root, flat, a, b); }
    forall a, b, c | Precedes(root, a, b) && Precedes(root, b, c) ensures Precedes(root, a, c) {
      PrecedesTrans(root, a, b, c);
    }
    var p :| WalkBetween(flat, p, x, y);
    WalkInduction(flat, p, (a, b) => Precedes(root, a, b));
  }

  lemma {:induction false} JobPart(e: Element, x: JobId) returns (j: Element)
    requires x in All(e)
    ensures Inside(e, j) && j.Job? && j.id == x
  {
    if e.Job? && x == e.id {
      j := e;
    } else {
      var c := ChildOf(e, x);
      j := JobPart(c, x);
    }
  }

  /** The flat graph has exactly the attached jobs as vertices, is closed and has no cycle. */
  lemma {:induction false} FlatIsJobDag(root: Element, flat: map<JobId, set<JobId>>)
    requires Tree(root) && IsFlat(flat, Parts(root))
    ensures flat.Keys == All(root) && Closed(flat) && Acyclic(flat)
  {
    forall t ensures t in flat <==> t in All(root) {
      if t in All(root) {
        var j := JobPart(root, t);
        PartsAreInside(root, j);
        assert Vertex(j, j) && t in Tail(j);
        assert FlatVertex(Parts(root), t);
      }
      if FlatVertex(Parts(root), t) {
        var e, u :| e in Parts(root) && Vertex(e, u) && t in Tail(u);
        VertexIsPart(root, e, u);
        PartsAreInside(root, u);
        InsideTree(root, u);
        EndsInside(u);
        MainInAll(u);
      }
    }
    forall x, y | Edge(flat, x, y) ensures y in flat {
      EdgeSound(root, flat, x, y);
      PrecedesInAll(root, x, y);
    }
    forall x ensures !OnCycle(flat, x) {
      if OnCycle(flat, x) {
        ReachSound(root, flat, x, x);
        PrecedesIrreflexive(root, x);
      }
    }
  }

  // ---- the order is decided by its closest pairs ----

  /** x comes before y with no job between. */
  ghost predicate Covers(e: Element, x: JobId, y: JobId) {
    Precedes(e, x, y) && forall z :: !(Precedes(e, x, z) && Precedes(e, z, y))
  }

  ghost function Between(e: Element, x: JobId, y: JobId): set<JobId> {
    set z | z in All(e) && Precedes(e, x, z) && Precedes(e, z, y)
  }

  /** If every closest pair is an edge, the whole order is in the flat graph. */
  lemma {:induction false} ReachComplete(root: Element, flat: map<JobId, set<JobId>>, x: JobId, y: JobId)
    requires Tree(root) && Precedes(root, x, y)
    requires forall a, b :: Covers(root, a, b) ==> Edge(flat, a, b)
    ensures Reaches(flat, x, y)
    decreases |Between(root, x, y)|
  {
    if Covers(root, x, y) {
      EdgeReaches(flat, x, y);
    } else {
      var z :| Precedes(root, x, z) && Precedes(root, z, y);
      BetweenShrinks(root, x, z, y);
      ReachComplete(root, flat, x, z);
      ReachComplete(root, flat, z, y);
      ReachesTrans(flat, x, z, y);
    }
  }

  lemma {:induction false} BetweenShrinks(e: Element, x: JobId, z: JobId, y: JobId)
    requires Tree(e) && Precedes(e, x, z) && Precedes(e, z, y)
    ensures |Between(e, x, z)| < |Between(e, x, y)| && |Between(e, z, y)| < |Between(e, x, y)|
  {
    hide Precedes, All, Tree;
    PrecedesInAll(e, x, z);
    PrecedesIrreflexive(e, z);
    forall w | w in Between(e, x, z) || w in Between(e, z, y) ensures w in Between(e, x, y) {
      if w in Between(e, x, z) { PrecedesTrans(e, w, z, y); } else { PrecedesTrans(e, x, z, w); }
    }
    assert z in Between(e, x, y) && z !in Between(e, x, z) && z !in Between(e, z, y);
    hide *;
    SubsetCard(Between(e, x, z) + {z}, Between(e, x, y));
    SubsetCard(Between(e, z, y) + {z}, Between(e, x, y));
  }

  /** A closest pair that is reachable is an edge. */
  lemma {:induction false} ReachedCoverIsEdge(root: Element, flat: map<JobId, set<JobId>>, x: JobId, y: JobId)
    requires Tree(root) && IsFlat(flat, Parts(root)) && Covers(root, x, y) && Reaches(flat, x, y)
    ensures Edge(flat, x, y)
  {
    var s := FirstStep(flat, x, y);
    if s != y {
      EdgeSound(root, flat, x, s);
      ReachSound(root, flat, s, y);
    }
  }

  // ---- the closest pairs part at neighbours ----

  /** Jobs of one part have only jobs of that part between them. */
  lemma {:induction false} PartsAreConvex(root: Element, e: Element, x: JobId, z: JobId, y: JobId)
    requires Tree(root) && Inside(root, e) && x in All(e) && y in All(e)
    requires Precedes(root, x, z) && Precedes(root, z, y)
    ensures z in All(e)
  {
    if e != root {
      var c := InsideStep(root, e);
      ChildTree(root, c);
      InsideTree(c, e);
      ChildIsConvex(root, c, x, z, y);
      PrecedesSameChild(root, c, x, z);
      PrecedesSameChild(root, c, z, y);
      PartsAreConvex(c, e, x, z, y);
    } else {
      PrecedesInAll(root, x, z);
    }
  }

  lemma {:induction false} ChildIsConvex(e: Element, c: Element, x: JobId, z: JobId, y: JobId)
    requires Tree(e) && Child(e, c) && x in All(c) && y in All(c) && Precedes(e, x, z) && Precedes(e, z, y)
    ensures z in All(c)
  {
    PrecedesInAll(e, x, z);
    if z !in All(c) {
      if e.Job? && z == e.id {
        OwnJobIsFirst(e);
      } else {
        var d := ChildOf(e, z);
        hide All, Main, Asked, Precedes, Ordered;
        if e.Job? {
          FollowersUnordered(e, c, d, x, z);
        } else {
          PrecedesAcross(e, c, d, x, z);
          PrecedesAcross(e, d, c, z, y);
          MainInAll(c);
          MainInAll(d);
          OrderedDiffer(e, c, d, x, z);
        }
      }
    }
  }

  lemma {:induction false} FollowersUnordered(e: Element, c: Element, d: Element, x: JobId, z: JobId)
    requires Tree(e) && e.Job? && Child(e, c) && Child(e, d) && c != d && x in All(c) && z in All(d)
    ensures !Precedes(e, x, z)
  {
    if Precedes(e, x, z) {
      var u, v := PrecedesCases(e, x, z);
      hide All, Main, Asked, Precedes, Ordered;
      MainInAll(c);
      MainInAll(d);
      if u == v && Child(e, u) && Precedes(u, x, z) {
        ChildTree(e, u);
        PrecedesInAll(u, x, z);
        MainInAll(u);
        SameChild(e, u, c, x);
        SameChild(e, u, d, z);
      } else {
        JobIsNotBelow(e, u, v, c, x, z);
      }
    }
  }

  lemma {:induction false} CoversLocal(root: Element, e: Element, x: JobId, y: JobId)
    requires Tree(root) && Inside(root, e) && x in All(e) && y in All(e)
    ensures Covers(root, x, y) <==> Covers(e, x, y)
  {
    InsideTree(root, e);
    if Precedes(e, x, y) { PrecedesLift(root, e, x, y); }
    if Precedes(root, x, y) { PrecedesLocal(root, e, x, y); }
    forall z ensures Precedes(root, x, z) && Precedes(root, z, y) <==> Precedes(e, x, z) && Precedes(e, z, y) {
      if Precedes(root, x, z) && Precedes(root, z, y) {
        PartsAreConvex(root, e, x, z, y);
        PrecedesLocal(root, e, x, z);
        PrecedesLocal(root, e, z, y);
      }
      if Precedes(e, x, z) && Precedes(e, z, y) {
        PrecedesLift(root, e, x, z);
        PrecedesLift(root, e, z, y);
      }
    }
    hide Precedes, All, Tree, Inside;
  }

  /** At the element where they part, closest pairs are a last job of one neighbour and a first of the next. */
  lemma {:induction false} CoversAtParting(m: Element, u: Element, v: Element, x: JobId, y: JobId)
    requires Tree(m) && Apart(m, u, v, x, y)
    ensures Covers(m, x, y) <==> Adjacent(m, u, v) && x in Last(u) && y in First(v)
  {
    PartTrees(m, u, v, x, y);
    if Covers(m, x, y) {
      PrecedesAcross(m, u, v, x, y);
      CoverEnds(m, u, v, x, y);
      CoverAdjacent(m, u, v, x, y);
    }
    if Adjacent(m, u, v) && x in Last(u) && y in First(v) {
      EndsInside(u);
      assert Precedes(m, x, y);
      forall z ensures !(Precedes(m, x, z) && Precedes(m, z, y)) {
        if Precedes(m, x, z) && Precedes(m, z, y) { NothingBetween(m, u, v, x, z, y); }
      }
    }
  }

  lemma {:induction false} PartTrees(m: Element, u: Element, v: Element, x: JobId, y: JobId)
    requires Tree(m) && Apart(m, u, v, x, y)
    ensures Tree(u) && Tree(v)
  {
    ChildTree(m, v);
    if !m.Job? { ChildTree(m, u); }
  }

  lemma {:induction false} CoverEnds(m: Element, u: Element, v: Element, x: JobId, y: JobId)
    requires Tree(m) && Tree(u) && Tree(v) && Apart(m, u, v, x, y)
    requires Ordered(m, u, v) && x in Main(u) && Covers(m, x, y)
    ensures x in Last(u) && y in First(v)
  {
    LastIsMaximal(u, x);
    FirstIsMinimal(v, y);
    if exists z :: z in Main(u) && Precedes(u, x, z) {
      var z :| z in Main(u) && Precedes(u, x, z);
      assert Precedes(m, z, y);
      if !m.Job? { PrecedesOfChild(m, u, x, z); }
    }
    if exists z :: Precedes(v, z, y) {
      var z :| Precedes(v, z, y);
      PrecedesInAll(v, z, y);
      assert Precedes(m, x, z);
      PrecedesOfChild(m, v, z, y);
    }
  }

  lemma {:induction false} CoverAdjacent(m: Element, u: Element, v: Element, x: JobId, y: JobId)
    requires Apart(m, u, v, x, y) && Ordered(m, u, v) && x in Main(u) && Covers(m, x, y)
    ensures Adjacent(m, u, v)
  {
    forall w | Ordered(m, u, w) && Ordered(m, w, v) ensures Main(w) == {} {
      MainInAll(w);
      forall z ensures z !in Main(w) {
        if z in Main(w) { assert Precedes(m, x, z) && Precedes(m, z, y); }
      }
    }
  }

  lemma {:induction false} NothingBetween(m: Element, u: Element, v: Element, x: JobId, z: JobId, y: JobId)
    requires Tree(m) && Tree(u) && Tree(v) && Apart(m, u, v, x, y) && Adjacent(m, u, v)
    requires x in Last(u) && y in First(v)
    ensures !(Precedes(m, x, z) && Precedes(m, z, y))
  {
    if Precedes(m, x, z) && Precedes(m, z, y) {
      LastIsMaximal(u, x);
      FirstIsMinimal(v, y);
      PrecedesInAll(m, x, z);
      if m.Job? {
        JobHasNothingBetween(m, v, x, z, y);
      } else {
        var w := ChildOf(m, z);
        hide First, Last, All, Main, Asked, Ordered, Precedes, Tree;
        if w == u {
          PrecedesSameChild(m, u, x, z);
          PrecedesAcross(m, u, v, z, y);
        } else if w == v {
          PrecedesSameChild(m, v, z, y);
        } else {
          PrecedesAcross(m, u, w, x, z);
          PrecedesAcross(m, w, v, z, y);
        }
      }
    }
  }

  lemma {:induction false} JobHasNothingBetween(m: Element, v: Element, x: JobId, z: JobId, y: JobId)
    requires Tree(m) && m.Job? && x == m.id && Child(m, v) && y in All(v) && Minimal(v, y) && z in All(m)
    ensures !(Precedes(m, x, z) && Precedes(m, z, y))
  {
    if Precedes(m, x, z) && Precedes(m, z, y) {
      if z == m.id {
        PrecedesIrreflexive(m, z);
      } else {
        var w := ChildOf(m, z);
        if w == v {
          PrecedesSameChild(m, v, z, y);
        } else {
          FollowersUnordered(m, w, v, z, y);
        }
      }
    }
  }

  // ---- exactness ----

  /** The edge between a closest pair can only come from the element where the pair parts. */
  lemma {:induction false} CoverEdge(root: Element, flat: map<JobId, set<JobId>>, m: Element, u: Element, v: Element,
                                     x: JobId, y: JobId)
    requires Tree(root) && IsFlat(flat, Parts(root)) && Inside(root, m) && Apart(m, u, v, x, y)
    ensures Edge(flat, x, y) <==> Link(m, u, v) && x in Tail(u) && y in Head(v)
  {
    if Edge(flat, x, y) {
      var m', u', v' := EdgeOrigin(root, flat, x, y);
      MeetingUnique(root, m, u, v, m', u', v', x, y);
    }
    if Link(m, u, v) && x in Tail(u) && y in Head(v) {
      PartsAreInside(root, m);
      assert FlatEdge(Parts(root), x, y);
    }
  }

  lemma {:induction false} AgreesInside(root: Element, m: Element)
    requires OperandsAgree(root) && Inside(root, m)
    ensures LinksMeet(m)
  {
    if m != root {
      var c := InsideStep(root, m);
      AgreesInside(c, m);
    }
  }

  /** Where the operands agree, every closest pair is an edge. */
  lemma {:induction false} AgreedCoverIsEdge(root: Element, flat: map<JobId, set<JobId>>, x: JobId, y: JobId)
    requires Tree(root) && IsFlat(flat, Parts(root)) && OperandsAgree(root) && Covers(root, x, y)
    ensures Edge(flat, x, y)
  {
    var m, u, v := MeetingPoint(root, x, y);
    InsideTree(root, m);
    ApartInAll(m, u, v, x, y);
    CoversLocal(root, m, x, y);
    CoversAtParting(m, u, v, x, y);
    PartTrees(m, u, v, x, y);
    AgreesInside(root, m);
    ChecksAreExact(u);
    ChecksAreExact(v);
    CoverEdge(root, flat, m, u, v, x, y);
  }

  /** Where they do not, some closest pair is not reachable. */
  lemma {:induction false} DisagreementLosesOrder(root: Element, flat: map<JobId, set<JobId>>, m: Element, u: Element,
                                                  v: Element)
    returns (x: JobId, y: JobId)
    requires Tree(root) && IsFlat(flat, Parts(root)) && Inside(root, m)
    requires Adjacent(m, u, v) && Main(u) != {} && All(v) != {}
    requires !(Link(m, u, v) && TailsRight(u) && HeadsRight(v))
    ensures x in Last(u) && y in First(v) && Precedes(root, x, y) && !Reaches(flat, x, y)
  {
    InsideTree(root, m);
    NeighbourTrees(m, u, v);
    EndsInside(u);
    EndsInside(v);
    EndsExist(u);
    EndsExist(v);
    ChecksAreExact(u);
    ChecksAreExact(v);
    x := MissedOrAny(Last(u), Tail(u));
    y := MissedOrAny(First(v), Head(v));
    hide First, Last, Head, Tail, All, Main, Asked, Ordered, Precedes, Tree, Reaches;
    hide HeadsRight, TailsRight, Link, Inside;
    OrderedApart(m, u, v, x, y);
    CoversAtParting(m, u, v, x, y);
    CoversLocal(root, m, x, y);
    CoverEdge(root, flat, m, u, v, x, y);
    if Reaches(flat, x, y) { ReachedCoverIsEdge(root, flat, x, y); }
  }

  lemma {:induction false} MissedOrAny(a: set<JobId>, b: set<JobId>) returns (x: JobId)
    requires a != {}
    ensures x in a && (!(a <= b) ==> x !in b)
  {
    if a <= b { x :| x in a; } else { x :| x in a && x !in b; }
  }

  lemma {:induction false} NeighbourTrees(m: Element, u: Element, v: Element)
    requires Tree(m) && Ordered(m, u, v)
    ensures Tree(u) && Tree(v)
  {
  }

  lemma {:induction false} FindDisagreement(e: Element) returns (m: Element, u: Element, v: Element)
    requires !OperandsAgree(e)
    ensures Inside(e, m) && Adjacent(m, u, v) && Main(u) != {} && All(v) != {}
    ensures !(Link(m, u, v) && TailsRight(u) && HeadsRight(v))
  {
    if !LinksMeet(e) {
      m := e;
      u, v :| Adjacent(e, u, v) && Main(u) != {} && All(v) != {} && !(Link(e, u, v) && TailsRight(u) && HeadsRight(v));
    } else if !e.Job? && exists c :: c in e.items && !OperandsAgree(c) {
      var c :| c in e.items && !OperandsAgree(c);
      m, u, v := FindDisagreement(c);
    } else {
      var a :| a in e.after && !OperandsAgree(a);
      m, u, v := FindDisagreement(a);
    }
  }

  /** The flat graph realises exactly the order of the attached jobs if and only if the operands agree. */
  lemma {:induction false} FlattenIsExact(root: Element, flat: map<JobId, set<JobId>>)
    requires Tree(root) && IsFlat(flat, Parts(root))
    ensures OperandsAgree(root) <==> forall x, y :: Reaches(flat, x, y) <==> Precedes(root, x, y)
  {
    hide Tree, IsFlat, Parts, Reaches, Precedes;
    if OperandsAgree(root) {
      forall x, y | Covers(root, x, y) ensures Edge(flat, x, y) {
        AgreedCoverIsEdge(root, flat, x, y);
      }
      forall x, y ensures Reaches(flat, x, y) <==> Precedes(root, x, y) {
        if Reaches(flat, x, y) { ReachSound(root, flat, x, y); }
        if Precedes(root, x, y) { ReachComplete(root, flat, x, y); }
      }
    } else {
      var m, u, v := FindDisagreement(root);
      var x, y := DisagreementLosesOrder(root, flat, m, u, v);
    }
  }
}
