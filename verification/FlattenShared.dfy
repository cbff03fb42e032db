/** Flattening when jobs may be shared: a job can be attached below several parents. */
module FlattenShared {
  import opened Digraph
  import opened Graphs
  import opened Elements
  import opened Flatten
  import opened FlattenMeaning
  import opened FlattenExact
  import opened FlattenWhole

  /** What is asked for directly, as a graph; with shared jobs the order asked for is what it reaches. */
  ghost function OrderGraph(root: Element): map<JobId, set<JobId>> {
    map x | x in All(root) :: set y | y in All(root) && Precedes(root, x, y)
  }

  lemma {:induction false} PrecedesInside(e: Element, x: JobId, y: JobId)
    requires Precedes(e, x, y)
    ensures x in All(e) && y in All(e)
  {
    if !e.Job? && exists c :: c in e.items && Precedes(c, x, y) {
      var c :| c in e.items && Precedes(c, x, y);
      PrecedesInside(c, x, y);
    } else if !(e.Group? && e.items == []) && exists a :: a in e.after && Precedes(a, x, y) {
      var a :| a in e.after && Precedes(a, x, y);
      PrecedesInside(a, x, y);
    } else {
      var u, v :| Ordered(e, u, v) && x in Main(u) && y in All(v);
      MainInAll(u);
    }
  }

  lemma {:induction false} OrderEdge(root: Element, x: JobId, y: JobId)
    ensures Edge(OrderGraph(root), x, y) <==> Precedes(root, x, y)
  {
    if Precedes(root, x, y) { PrecedesInside(root, x, y); }
  }

  // ---- soundness ----

  lemma {:induction false} InsideBuildableToo(root: Element, e: Element)
    requires Buildable(root) && Inside(root, e)
    ensures Buildable(e) && All(e) <= All(root)
  {
    InsideBuildable(root, e);
    InsideTree(root, e);
  }

  /** Every edge of the flat graph is asked for, also when jobs are shared. */
  lemma {:induction false} SharedEdgeSound(root: Element, flat: map<JobId, set<JobId>>, x: JobId, y: JobId)
    requires Buildable(root) && IsFlat(flat, Parts(root)) && Edge(flat, x, y)
    ensures Precedes(root, x, y)
  {
    var m, u, v :| m in Parts(root) && Link(m, u, v) && x in Tail(u) && y in Head(v);
    PartsAreInside(root, m);
    InsideBuildableToo(root, m);
    LinkIsOrdered(m, u, v);
    EndsInside(u);
    EndsInside(v);
    MainInAll(v);
    assert Precedes(m, x, y);
    PrecedesLift(root, m, x, y);
  }

  lemma {:induction false} SharedVertices(root: Element, flat: map<JobId, set<JobId>>)
    requires Buildable(root) && IsFlat(flat, Parts(root))
    ensures flat.Keys == All(root) && Closed(flat)
  {
    forall t ensures t in flat <==> t in All(root) {
      if t in All(root) {
        var j := JobPart(root, t);
        PartsAreInside(root, j);
        assert Vertex(j, j) && t in Tail(j);
        assert FlatVertex(Parts(root), t);
      }
      if FlatVertex(Parts(root), t) {
        var e, u :| e in Parts(root) && Vertex(e, u) && t in Tail(u);
        VertexIsPart(root, e, u);
        PartsAreInside(root, u);
        InsideBuildableToo(root, u);
        EndsInside(u);
        MainInAll(u);
      }
    }
    forall x, y | Edge(flat, x, y) ensures y in flat {
      SharedEdgeSound(root, flat, x, y);
      PrecedesInside(root, x, y);
    }
  }

  /** Flattening never invents an order, also when jobs are shared; so it closes a cycle only if one is asked for. */
  lemma {:induction false} SharedReachSound(root: Element, flat: map<JobId, set<JobId>>)
    requires Buildable(root) && IsFlat(flat, Parts(root))
    ensures forall x, y :: Reaches(flat, x, y) ==> Reaches(OrderGraph(root), x, y)
    ensures Acyclic(OrderGraph(root)) ==> Acyclic(flat)
  {
    forall u, v | Edge(flat, u, v) ensures Edge(OrderGraph(root), u, v) {
      SharedEdgeSound(root, flat, u, v);
      OrderEdge(root, u, v);
    }
    hide *;
    forall x, y | Reaches(flat, x, y) ensures Reaches(OrderGraph(root), x, y) {
      SubgraphReaches(flat, OrderGraph(root), x, y);
    }
    SmallerIsAcyclic(flat, OrderGraph(root));
  }

  lemma SmallerIsAcyclic(g: map<JobId, set<JobId>>, h: map<JobId, set<JobId>>)
    requires forall x, y :: Reaches(g, x, y) ==> Reaches(h, x, y)
    ensures Acyclic(h) ==> Acyclic(g)
  {
    hide Reaches;
    if Acyclic(h) {
      forall x ensures !OnCycle(g, x) {
        assert !OnCycle(h, x);
      }
    }
  }

  // ---- completeness ----

  /** Neighbours that hold jobs are joined in the flat graph. */
  ghost predicate Joined(flat: map<JobId, set<JobId>>, m: Element) {
    forall u, v, t, h {:trigger t in Last(u), h in First(v), Adjacent(m, u, v)} ::
      Adjacent(m, u, v) && t in Last(u) && h in First(v) ==> Reaches(flat, t, h)
  }

  ghost predicate JoinedInside(flat: map<JobId, set<JobId>>, root: Element) {
    forall m :: Inside(root, m) ==> Joined(flat, m)
  }

  /** No element with jobs is to come before itself. */
  ghost predicate Irreflexive(m: Element) {
    forall u :: Ordered(m, u, u) ==> Main(u) == {}
  }

  lemma {:induction false} NotBeforeItself(root: Element, m: Element)
    requires Inside(root, m) && forall x :: !Precedes(root, x, x)
    ensures Irreflexive(m)
  {
    forall u | Ordered(m, u, u) ensures Main(u) == {} {
      if Main(u) != {} {
        var x :| x in Main(u);
        MainInAll(u);
        assert Precedes(m, x, x);
        PrecedesLift(root, m, x, x);
        assert false;
      }
    }
  }

  lemma {:induction false} OrderedThrough(m: Element, u: Element, w: Element, v: Element)
    requires Irreflexive(m) && Main(w) != {} && Ordered(m, u, w) && Ordered(m, w, v)
    ensures Ordered(m, u, v)
  {
    assert !Ordered(m, w, w);
    hide Main;
  }

  ghost function Middles(m: Element, u: Element, v: Element): set<Element> {
    set w | w in Items(m) && Ordered(m, u, w) && Ordered(m, w, v) && Main(w) != {}
  }

  lemma {:induction false} MiddlesShrink(m: Element, u: Element, w: Element, v: Element)
    requires Irreflexive(m) && w in Middles(m, u, v)
    ensures |Middles(m, u, w)| < |Middles(m, u, v)| && |Middles(m, w, v)| < |Middles(m, u, v)|
  {
    NotTwice(m, w);
    hide Main, Ordered, Irreflexive;
    forall z | z in Middles(m, u, w) ensures z in Middles(m, u, v) { OrderedThrough(m, z, w, v); }
    forall z | z in Middles(m, w, v) ensures z in Middles(m, u, v) { OrderedThrough(m, u, w, z); }
    ProperSubset(Middles(m, u, w), Middles(m, u, v), w);
    ProperSubset(Middles(m, w, v), Middles(m, u, v), w);
  }

  lemma NotTwice(m: Element, w: Element)
    requires Irreflexive(m) && Main(w) != {}
    ensures !Ordered(m, w, w)
  {
    hide Main, Ordered;
  }

  lemma ProperSubset(a: set<Element>, b: set<Element>, w: Element)
    requires a <= b && w in b && w !in a
    ensures |a| < |b|
  {
    SubsetCard(a + {w}, b);
  }

  /** What can be said of every element below a root whose neighbours are joined. */
  ghost predicate Sorted(flat: map<JobId, set<JobId>>, m: Element) {
    Buildable(m) && Irreflexive(m) && Joined(flat, m) && forall c :: Child(m, c) ==> Connected(flat, c)
  }

  /** Every job of the element is reached from a first one, and reaches a last one if it is no follower. */
  ghost predicate Connected(flat: map<JobId, set<JobId>>, e: Element) {
    && (forall y :: y in All(e) ==> FromFirst(flat, e, y))
    && (forall x :: x in Main(e) ==> ToLast(flat, e, x))
  }

  ghost predicate FromFirst(flat: map<JobId, set<JobId>>, e: Element, y: JobId) {
    exists h :: h in First(e) && ReachesOrIs(flat, h, y)
  }

  ghost predicate ToLast(flat: map<JobId, set<JobId>>, e: Element, x: JobId) {
    exists t :: t in Last(e) && ReachesOrIs(flat, x, t)
  }

  lemma OrThen(g: map<JobId, set<JobId>>, x: JobId, y: JobId, z: JobId)
    requires ReachesOrIs(g, x, y) && Reaches(g, y, z)
    ensures Reaches(g, x, z)
  {
    if x != y { ReachesTrans(g, x, y, z); }
  }

  lemma ThenOr(g: map<JobId, set<JobId>>, x: JobId, y: JobId, z: JobId)
    requires Reaches(g, x, y) && ReachesOrIs(g, y, z)
    ensures Reaches(g, x, z)
  {
    if y != z { ReachesTrans(g, x, y, z); }
  }

  /** Ordered elements are joined, over whatever lies between them. */
  lemma {:induction false} OrderedJoin(flat: map<JobId, set<JobId>>, m: Element, u: Element, v: Element,
                                       t: JobId, h: JobId)
    requires Sorted(flat, m) && Ordered(m, u, v) && t in Last(u) && h in First(v)
    ensures Reaches(flat, t, h)
    decreases |Middles(m, u, v)|
  {
    if Adjacent(m, u, v) {
      assert Joined(flat, m);
    } else {
      var w :| Ordered(m, u, w) && Ordered(m, w, v) && Main(w) != {};
      var z :| z in Main(w);
      MiddleIsItem(m, u, w, v);
      MiddlesShrink(m, u, w, v);
      MainInAll(w);
      hide Sorted, First, Last, Main, All, Ordered, Reaches, ReachesOrIs, Middles;
      assert Connected(flat, w);
      assert FromFirst(flat, w, z) && ToLast(flat, w, z);
      var h' :| h' in First(w) && ReachesOrIs(flat, h', z);
      var t' :| t' in Last(w) && ReachesOrIs(flat, z, t');
      OrderedJoin(flat, m, u, w, t, h');
      OrderedJoin(flat, m, w, v, t', h);
      ThenOr(flat, t, h', z);
      OrThen(flat, z, t', h);
      ReachesTrans(flat, t, z, h);
    }
  }

  lemma {:induction false} MiddleIsItem(m: Element, u: Element, w: Element, v: Element)
    requires Ordered(m, u, w) && Ordered(m, w, v) && Main(w) != {}
    ensures Child(m, w) && w in Middles(m, u, v)
  {
    hide Main;
    assert w in Items(m) || w in Followers(m);
  }

  lemma {:induction false} Across(flat: map<JobId, set<JobId>>, m: Element, u: Element, v: Element, x: JobId, y: JobId)
    requires Sorted(flat, m) && Ordered(m, u, v) && ToLast(flat, u, x) && FromFirst(flat, v, y)
    ensures Reaches(flat, x, y)
  {
    hide Sorted, First, Last, Ordered, Reaches, ReachesOrIs;
    var t :| t in Last(u) && ReachesOrIs(flat, x, t);
    var h :| h in First(v) && ReachesOrIs(flat, h, y);
    OrderedJoin(flat, m, u, v, t, h);
    OrThen(flat, x, t, h);
    ThenOr(flat, x, h, y);
  }

  /** The same with the job itself in front of its followers. */
  lemma {:induction false} OwnToLast(flat: map<JobId, set<JobId>>, e: Element)
    requires e.Job?
    ensures ToLast(flat, e, e.id) && FromFirst(flat, e, e.id)
  {
    assert e.id in Last(e) && ReachesOrIs(flat, e.id, e.id) && e.id in First(e);
  }

  lemma {:induction false} FirstsOf(flat: map<JobId, set<JobId>>, e: Element, c: Element, y: JobId)
    requires FromFirst(flat, c, y) && First(c) <= First(e)
    ensures FromFirst(flat, e, y)
  {
    var h :| h in First(c) && ReachesOrIs(flat, h, y);
    assert h in First(e);
  }

  lemma {:induction false} LastsOf(flat: map<JobId, set<JobId>>, e: Element, c: Element, x: JobId)
    requires ToLast(flat, c, x) && Last(c) <= Last(e)
    ensures ToLast(flat, e, x)
  {
    var t :| t in Last(c) && ReachesOrIs(flat, x, t);
    assert t in Last(e);
  }

  /** Behind an item that leads and has jobs, everything is reached from a first job. */
  lemma {:induction false} BehindItem(flat: map<JobId, set<JobId>>, e: Element, u: Element, v: Element, y: JobId)
    requires Sorted(flat, e) && Ordered(e, u, v) && Child(e, u) && Child(e, v) && Main(u) != {} && y in All(v)
    requires First(u) <= First(e)
    ensures FromFirst(flat, e, y)
  {
    assert Connected(flat, u) && Connected(flat, v);
    hide Sorted, First, Last, Main, All, Ordered, Reaches, ReachesOrIs;
    var z :| z in Main(u);
    MainInAll(u);
    Across(flat, e, u, v, z, y);
    FirstsOf(flat, e, u, z);
    StillFromFirst(flat, e, z, y);
  }

  lemma {:induction false} StillFromFirst(flat: map<JobId, set<JobId>>, e: Element, z: JobId, y: JobId)
    requires FromFirst(flat, e, z) && Reaches(flat, z, y)
    ensures FromFirst(flat, e, y)
  {
    hide First, Reaches;
    var h :| h in First(e) && ReachesOrIs(flat, h, z);
    OrThen(flat, h, z, y);
    assert ReachesOrIs(flat, h, y);
  }

  lemma {:induction false} FromFirsts(flat: map<JobId, set<JobId>>, e: Element, y: JobId)
    requires Sorted(flat, e) && y in All(e)
    ensures FromFirst(flat, e, y)
  {
    if e.Job? {
      OwnToLast(flat, e);
      if y != e.id {
        var a :| a in e.after && y in All(a);
        assert Child(e, a) && Ordered(e, e, a);
        hide Sorted, First, Last, Main, All, Ordered, Reaches, ReachesOrIs;
        assert Connected(flat, a) by { SortedChild(flat, e, a); }
        Across(flat, e, e, a, e.id, y);
        StillFromFirst(flat, e, e.id, y);
      }
    } else {
      var c := ChildOf(e, y);
      SortedChild(flat, e, c);
      if First(c) <= First(e) {
        FirstsOf(flat, e, c, y);
      } else {
        var u := InFront(e, c);
        BehindItem(flat, e, u, c, y);
      }
    }
  }

  lemma {:induction false} SortedChild(flat: map<JobId, set<JobId>>, e: Element, c: Element)
    requires Sorted(flat, e) && Child(e, c)
    ensures Connected(flat, c)
  {
  }

  lemma {:induction false} SomeItemHasJobs(e: Element, c: Element)
    requires e.Chain? && Child(e, c) && !(First(c) <= First(e))
    ensures Main(e) != {}
  {
    MainOfItems(e);
    hide Main;
    if c in e.items {
      var j :| 0 <= j < |e.items| && e.items[j] == c;
      assert !Leads(e.items, j);
      var k :| 0 <= k < j && Main(e.items[k]) != {};
      assert e.items[k] in e.items;
    }
  }

  /** A child whose first jobs are not first has an item with jobs in front of it, which leads. */
  lemma {:induction false} InFront(e: Element, c: Element) returns (u: Element)
    requires !e.Job? && Child(e, c) && !(First(c) <= First(e))
    ensures Child(e, u) && Ordered(e, u, c) && Main(u) != {} && First(u) <= First(e)
  {
    MainOfItems(e);
    if e.Group? {
      assert c !in e.items;
      assert Main(e) != {};
      u :| u in e.items && Main(u) != {};
    } else {
      assert Main(e) != {} by { SomeItemHasJobs(e, c); }
      var k := FirstWithJobs(e.items);
      u := e.items[k];
      if c in e.items {
        var j :| 0 <= j < |e.items| && e.items[j] == c;
        assert !Leads(e.items, j);
      }
    }
  }

  lemma {:induction false} ToLasts(flat: map<JobId, set<JobId>>, e: Element, x: JobId)
    requires Sorted(flat, e) && x in Main(e)
    ensures ToLast(flat, e, x)
  {
    if e.Job? {
      OwnToLast(flat, e);
    } else {
      var c :| c in e.items && x in Main(c);
      SortedChild(flat, e, c);
      if Last(c) <= Last(e) {
        LastsOf(flat, e, c, x);
      } else {
        var k := LastWithJobs(e.items);
        var v := e.items[k];
        ItemBehind(e, c, k);
        SortedChild(flat, e, v);
        hide Sorted, First, Last, Main, All, Ordered, Reaches;
        var z :| z in Main(v);
        MainInAll(v);
        Across(flat, e, c, v, x, z);
        LastsOf(flat, e, v, z);
        var t :| t in Last(e) && ReachesOrIs(flat, z, t);
        ThenOr(flat, x, z, t);
      }
    }
  }

  lemma {:induction false} ItemBehind(e: Element, c: Element, k: nat)
    requires !e.Job? && c in e.items && Main(c) != {} && !(Last(c) <= Last(e))
    requires k < |e.items| && Main(e.items[k]) != {} && Trails(e.items, k)
    ensures Ordered(e, c, e.items[k]) && Last(e.items[k]) <= Last(e)
  {
    assert e.Chain?;
    var j :| 0 <= j < |e.items| && e.items[j] == c;
    assert !Trails(e.items, j);
    assert j <= k;
    assert j != k;
  }

  lemma {:induction false} AllConnected(flat: map<JobId, set<JobId>>, root: Element, e: Element)
    requires Buildable(root) && Inside(root, e) && JoinedInside(flat, root) && forall x :: !Precedes(root, x, x)
    ensures Sorted(flat, e) && Connected(flat, e)
  {
    InsideBuildableToo(root, e);
    NotBeforeItself(root, e);
    forall c | Child(e, c) ensures Connected(flat, c) {
      assert Inside(c, c);
      assert Inside(e, c);
      InsideTrans(root, e, c);
      ChildSmaller(e, c);
      AllConnected(flat, root, c);
    }
    hide Precedes, Inside, Main, All, First, Last, Irreflexive, Joined, Buildable;
    assert Sorted(flat, e);
    forall y | y in All(e) ensures FromFirst(flat, e, y) { FromFirsts(flat, e, y); }
    forall x | x in Main(e) ensures ToLast(flat, e, x) { ToLasts(flat, e, x); }
  }

  lemma {:induction false} ChildSmaller(e: Element, c: Element)
    requires Child(e, c)
    ensures c < e
  {
  }

  /** Where the neighbours are joined, every order asked for is in the flat graph. */
  lemma {:induction false} SharedReachComplete(flat: map<JobId, set<JobId>>, root: Element, e: Element,
                                               x: JobId, y: JobId)
    requires Buildable(root) && Inside(root, e) && JoinedInside(flat, root) && forall x :: !Precedes(root, x, x)
    requires Precedes(e, x, y)
    ensures Reaches(flat, x, y)
    decreases e
  {
    if exists c :: Child(e, c) && Precedes(c, x, y) {
      var c :| Child(e, c) && Precedes(c, x, y);
      assert Inside(c, c);
      assert Inside(e, c);
      InsideTrans(root, e, c);
      ChildSmaller(e, c);
      SharedReachComplete(flat, root, c, x, y);
    } else {
      var u, v :| Ordered(e, u, v) && x in Main(u) && y in All(v);
      AllConnected(flat, root, e);
      OrderedChild(e, u, v);
      hide Precedes, Inside, Main, All, First, Last, Sorted;
      SortedChild(flat, e, v);
      if e.Job? { OwnToLast(flat, e); }
      Across(flat, e, u, v, x, y);
    }
  }

  lemma {:induction false} OrderedChild(e: Element, u: Element, v: Element)
    requires Ordered(e, u, v)
    ensures Child(e, v) && (u == e || Child(e, u))
  {
  }

  // ---- the operands ----

  ghost predicate Suffices(e: Element) {
    && (HeadsRight(e) ==> First(e) <= Head(e)) && (HeadsSwapped(e) ==> First(e) <= Tail(e))
    && (TailsRight(e) ==> Last(e) <= Tail(e)) && (TailsSwapped(e) ==> Last(e) <= Head(e))
  }

  /** The shape checks suffice whether jobs are shared or not. */
  lemma {:induction false} ChecksSuffice(e: Element)
    requires Buildable(e)
    ensures Suffices(e)
  {
    if Main(e) == {} {
      HollowExact(e);
      assert Exact(e);
    } else if e.Job? {
      JobExact(e);
      assert Exact(e);
    } else {
      forall c | c in e.items ensures Suffices(c) {
        ChecksSuffice(c);
      }
      hide HeadsRight, HeadsSwapped, TailsRight, TailsSwapped, First, Last, Head, Tail, All, Main, Suffices;
      if e.Chain? { ChainSuffices(e); } else { GroupSuffices(e); }
    }
  }

  lemma {:induction false} GroupSuffices(e: Element)
    requires e.Group? && Main(e) != {} && forall c :: c in e.items ==> Suffices(c)
    ensures Suffices(e)
  {
    GroupUnions(e);
    hide First, Last, Head, Tail, All, Main;
  }

  lemma {:induction false} ChainSuffices(e: Element)
    requires Buildable(e) && e.Chain? && Main(e) != {} && forall c :: c in e.items ==> Suffices(c)
    ensures Suffices(e)
  {
    var first, last := e.items[0], e.items[|e.items| - 1];
    assert first in e.items && last in e.items;
    assert Suffices(first) && Suffices(last);
    ItemEnds(e);
    ChainChecks(e, first, last);
    hide HeadsRight, HeadsSwapped, TailsRight, TailsSwapped, First, Last, Head, Tail, All, Main, Buildable;
    ChainFirstsCovered(e, first, last);
    ChainLastsCovered(e, first, last);
  }

  lemma {:induction false} ChainFirstsCovered(e: Element, first: Element, last: Element)
    requires e.Chain? && Main(e) != {} && e.items != [] && first == e.items[0] && last == e.items[|e.items| - 1]
    requires forall i :: 0 <= i < |e.items| ==> First(e.items[i]) <= All(e.items[i])
    ensures Main(first) != {} && First(first) <= Tail(first) ==> First(e) <= Tail(first)
    ensures First(last) <= Head(last) && (forall i :: 0 <= i < |e.items| - 1 ==> All(e.items[i]) == {}) ==>
              First(e) <= Head(last)
  {
    var n := |e.items| - 1;
    hide First, Head, Tail, All, Main;
    if Main(first) != {} && First(first) <= Tail(first) { OnlyFirst(e, 0, Tail(first)); }
    if First(last) <= Head(last) && forall i :: 0 <= i < n ==> All(e.items[i]) == {} {
      if Main(last) == {} { var i := OtherItem(e, n); }
      OnlyFirst(e, n, Head(last));
    }
  }

  lemma {:induction false} ChainLastsCovered(e: Element, first: Element, last: Element)
    requires e.Chain? && Main(e) != {} && e.items != [] && first == e.items[0] && last == e.items[|e.items| - 1]
    requires forall i :: 0 <= i < |e.items| ==> Last(e.items[i]) <= Main(e.items[i])
    ensures Main(last) != {} && Last(last) <= Head(last) ==> Last(e) <= Head(last)
    ensures Last(first) <= Tail(first) && (forall i :: 0 < i < |e.items| ==> Main(e.items[i]) == {}) ==>
              Last(e) <= Tail(first)
  {
    var n := |e.items| - 1;
    hide Last, Head, Tail, All, Main;
    if Main(last) != {} && Last(last) <= Head(last) { OnlyLast(e, n, Head(last)); }
    if Last(first) <= Tail(first) && forall i :: 0 < i < |e.items| ==> Main(e.items[i]) == {} {
      if Main(first) == {} { var i := OtherItem(e, 0); }
      OnlyLast(e, 0, Tail(first));
    }
  }

  lemma {:induction false} ItemEnds(e: Element)
    requires Buildable(e) && e.Chain?
    ensures forall i :: 0 <= i < |e.items| ==>
              First(e.items[i]) <= All(e.items[i]) && Last(e.items[i]) <= Main(e.items[i])
  {
    hide First, Last, All, Main;
    forall i | 0 <= i < |e.items|
      ensures First(e.items[i]) <= All(e.items[i]) && Last(e.items[i]) <= Main(e.items[i])
    {
      assert e.items[i] in e.items;
      EndsInside(e.items[i]);
    }
  }

  /** Operands that agree join their neighbours. */
  lemma {:induction false} AgreedIsJoined(root: Element, flat: map<JobId, set<JobId>>)
    requires Buildable(root) && IsFlat(flat, Parts(root)) && OperandsAgree(root)
    ensures JoinedInside(flat, root)
  {
    forall m | Inside(root, m) ensures Joined(flat, m) {
      AgreesInside(root, m);
      InsideBuildableToo(root, m);
      PartsAreInside(root, m);
      forall u, v, t, h | Adjacent(m, u, v) && t in Last(u) && h in First(v) ensures Reaches(flat, t, h) {
        NeighbourEdge(m, u, v, t, h);
        assert FlatEdge(Parts(root), t, h);
        EdgeReaches(flat, t, h);
      }
    }
  }

  lemma {:induction false} NeighbourEdge(m: Element, u: Element, v: Element, t: JobId, h: JobId)
    requires Buildable(m) && LinksMeet(m) && Adjacent(m, u, v) && t in Last(u) && h in First(v)
    ensures Link(m, u, v) && t in Tail(u) && h in Head(v)
  {
    assert Buildable(u) && Buildable(v);
    EndsExist(u);
    EndsExist(v);
    ChecksSuffice(u);
    ChecksSuffice(v);
    assert Suffices(u) && Suffices(v);
    hide First, Last, Head, Tail, Main, All, Buildable;
  }

  /** Jobs may be shared: the flat graph has exactly the attached jobs and exactly the order asked for, if and only if
      in every element the last jobs of one neighbour reach the first of the next; for that it is enough that the
      operands agree. */
  lemma {:induction false} SharedIsExact(root: Element, flat: map<JobId, set<JobId>>)
    requires Buildable(root) && IsFlat(flat, Parts(root)) && forall x :: !Precedes(root, x, x)
    ensures flat.Keys == All(root) && Closed(flat)
    ensures (forall x, y :: Reaches(flat, x, y) <==> Reaches(OrderGraph(root), x, y)) <==> JoinedInside(flat, root)
    ensures OperandsAgree(root) ==> JoinedInside(flat, root)
  {
    SharedVertices(root, flat);
    SharedReachSound(root, flat);
    if OperandsAgree(root) { AgreedIsJoined(root, flat); }
    if JoinedInside(flat, root) {
      JoinedHasOrder(root, flat);
    } else {
      var m :| Inside(root, m) && !Joined(flat, m);
      var u, v, t, h :| Adjacent(m, u, v) && t in Last(u) && h in First(v) && !Reaches(flat, t, h);
      NeighboursAsked(root, m, u, v, t, h);
      hide *;
      EdgeReaches(OrderGraph(root), t, h);
    }
  }

  lemma {:induction false} NeighboursAsked(root: Element, m: Element, u: Element, v: Element, t: JobId, h: JobId)
    requires Buildable(root) && Inside(root, m) && Ordered(m, u, v) && t in Last(u) && h in First(v)
    ensures Edge(OrderGraph(root), t, h)
  {
    InsideBuildableToo(root, m);
    assert Buildable(u) && Buildable(v);
    EndsInside(u);
    EndsInside(v);
    assert Precedes(m, t, h);
    PrecedesLift(root, m, t, h);
    OrderEdge(root, t, h);
  }

  lemma {:induction false} JoinedHasOrder(root: Element, flat: map<JobId, set<JobId>>)
    requires Buildable(root) && JoinedInside(flat, root) && forall x :: !Precedes(root, x, x)
    ensures forall x, y :: Reaches(OrderGraph(root), x, y) ==> Reaches(flat, x, y)
  {
    forall x, y | Edge(OrderGraph(root), x, y) ensures Reaches(flat, x, y) {
      OrderEdge(root, x, y);
      assert Inside(root, root);
      SharedReachComplete(flat, root, root, x, y);
    }
    hide *;
    forall x, y | Reaches(OrderGraph(root), x, y) ensures Reaches(flat, x, y) {
      EdgesReach(OrderGraph(root), flat, x, y);
    }
  }

  lemma EdgesReach(g: map<JobId, set<JobId>>, h: map<JobId, set<JobId>>, x: JobId, y: JobId)
    requires forall u, v :: Edge(g, u, v) ==> Reaches(h, u, v)
    requires Reaches(g, x, y)
    ensures Reaches(h, x, y)
  {
    var p :| WalkBetween(g, p, x, y);
    forall u, v, w | Reaches(h, u, v) && Reaches(h, v, w) ensures Reaches(h, u, w) { ReachesTrans(h, u, v, w); }
    WalkInduction(g, p, (u, v) => Reaches(h, u, v));
  }

  /** Without sharing the order asked for directly is the whole order, and it has no cycle. */
  lemma {:induction false} TreeOrder(root: Element)
    requires Tree(root)
    ensures forall x, y :: Reaches(OrderGraph(root), x, y) <==> Precedes(root, x, y)
    ensures Acyclic(OrderGraph(root))
  {
    forall x, y | Edge(OrderGraph(root), x, y) ensures Precedes(root, x, y) { OrderEdge(root, x, y); }
    forall a, b, c | Precedes(root, a, b) && Precedes(root, b, c) ensures Precedes(root, a, c) {
      PrecedesTrans(root, a, b, c);
    }
    hide Precedes, OrderGraph;
    forall x, y ensures Reaches(OrderGraph(root), x, y) <==> Precedes(root, x, y) {
      if Reaches(OrderGraph(root), x, y) {
        var p :| WalkBetween(OrderGraph(root), p, x, y);
        WalkInduction(OrderGraph(root), p, (a, b) => Precedes(root, a, b));
      }
      if Precedes(root, x, y) {
        OrderEdge(root, x, y);
        EdgeReaches(OrderGraph(root), x, y);
      }
    }
    forall x ensures !OnCycle(OrderGraph(root), x) {
      PrecedesIrreflexive(root, x);
    }
  }

  lemma {:induction false} AcyclicIsIrreflexive(root: Element)
    requires Acyclic(OrderGraph(root))
    ensures forall x :: !Precedes(root, x, x)
  {
    forall x ensures !Precedes(root, x, x) {
      assert !OnCycle(OrderGraph(root), x);
      OrderEdge(root, x, x);
      if Precedes(root, x, x) { EdgeReaches(OrderGraph(root), x, x); }
    }
  }

  /** Connecting and sorting runs every attached job at most once, and exactly once when no cycle is asked for; and in
      the order asked for when the operands agree. */
  method ExecuteGraphDirect(root: Element) returns (order: seq<JobId>)
    requires Buildable(root)
    ensures NoDup(order) && Elems(order) <= All(root)
    ensures Acyclic(OrderGraph(root)) ==> Elems(order) == All(root)
    ensures Acyclic(OrderGraph(root)) && OperandsAgree(root) ==> forall x, y :: Reaches(OrderGraph(root), x, y) ==>
      x in order && y in order && IndexIn(order, x) < IndexIn(order, y)
    ensures UsedOnce(root) ==> (NothingLost(root) <==> Elems(order) == Asked(root))
  {
    var flat := ConnectGraphs(root);
    SharedVertices(root, flat.graph);
    hide IsFlat, Parts, Reaches, OrderGraph, OperandsAgree, JoinedInside, NothingLost, UsedOnce, Buildable, Precedes;
    order := flat.TopologicalSort();
    assert forall v :: v in Elems(order) ==> v in order;
    SortedRuns(root, flat.graph, order);
  }

  /** What a topological order of the flat graph runs. */
  lemma {:induction false} SortedRuns(root: Element, flat: map<JobId, set<JobId>>, order: seq<JobId>)
    requires Buildable(root) && IsFlat(flat, Parts(root)) && flat.Keys == All(root) && Closed(flat)
    requires NoDup(order) && ParentsFirst(flat, order) && forall v :: v in order <==> v in flat && !BehindCycle(flat, v)
    ensures Acyclic(OrderGraph(root)) ==> Elems(order) == All(root)
    ensures Acyclic(OrderGraph(root)) && OperandsAgree(root) ==> forall x, y :: Reaches(OrderGraph(root), x, y) ==>
      x in order && y in order && IndexIn(order, x) < IndexIn(order, y)
    ensures UsedOnce(root) ==> (NothingLost(root) <==> Elems(order) == Asked(root))
  {
    SharedReachSound(root, flat);
    if UsedOnce(root) {
      TreeOrder(root);
      FlattenIsWhole(root, flat);
    }
    hide IsFlat, Parts, Reaches, OrderGraph, OperandsAgree, JoinedInside, NothingLost, UsedOnce, Buildable, Precedes;
    if Acyclic(OrderGraph(root)) {
      AcyclicIsIrreflexive(root);
      SharedIsExact(root, flat);
      AcyclicOrderIsComplete(flat, order);
    }
  }
}
