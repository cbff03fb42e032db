/** What the flat graph of crose/queue_job/delay.py contains: the jobs, and never an order that was not asked for. */
module FlattenMeaning {
  import opened Digraph
  import opened Graphs
  import opened Elements
  import opened Flatten

  /** Nothing before, respectively behind, item i consists of jobs. */
  ghost predicate Leads(items: seq<Element>, i: int)
    requires i <= |items|
  {
    forall k :: 0 <= k < i ==> Main(items[k]) == {}
  }

  ghost predicate Trails(items: seq<Element>, i: int) {
    forall k :: 0 <= k && i < k < |items| ==> Main(items[k]) == {}
  }

  /** The jobs that may start first: an element that consists of no job does not hold up what comes behind it. */
  ghost function First(e: Element): set<JobId> {
    match e
    case Job(id, _) => {id}
    case Chain(items, after) =>
      (set i, x | 0 <= i < |items| && Leads(items, i) && x in First(items[i]) :: x) +
      (if Main(e) == {} then set a, x | a in after && x in First(a) :: x else {})
    case Group(items, after) =>
      (set c, x | c in items && x in First(c) :: x) +
      (if Main(e) == {} && items != [] then set a, x | a in after && x in First(a) :: x else {})
  }

  /** The jobs that may finish last. */
  ghost function Last(e: Element): set<JobId> {
    match e
    case Job(id, _) => {id}
    case Chain(items, _) =>
      set i, x | 0 <= i < |items| && Trails(items, i) && x in Last(items[i]) :: x
    case Group(items, _) => set c, x | c in items && x in Last(c) :: x
  }

  /** `_head` covers the first jobs, although a chain swaps `_head` and `_tail`. */
  predicate HeadsRight(e: Element) {
    if Main(e) == {} then All(e) == {}
    else
      match e
      case Job(_, _) => true
      case Chain(items, _) => items != [] && Main(items[0]) != {} && HeadsSwapped(items[0])
      case Group(items, _) => forall c :: c in items ==> HeadsRight(c)
  }

  /** `_tail` covers the first jobs. */
  predicate HeadsSwapped(e: Element) {
    if Main(e) == {} then All(e) == {}
    else
      match e
      case Job(_, _) => true
      case Chain(items, _) =>
        && items != [] && HeadsRight(items[|items| - 1])
        && forall i :: 0 <= i < |items| - 1 ==> All(items[i]) == {}
      case Group(items, _) => forall c :: c in items ==> HeadsSwapped(c)
  }

  /** `_tail` covers the last jobs. */
  predicate TailsRight(e: Element) {
    Main(e) == {} ||
    match e
    case Job(_, _) => true
    case Chain(items, _) => items != [] && Main(items[|items| - 1]) != {} && TailsSwapped(items[|items| - 1])
    case Group(items, _) => forall c :: c in items ==> TailsRight(c)
  }

  /** `_head` covers the last jobs. */
  predicate TailsSwapped(e: Element) {
    Main(e) == {} ||
    match e
    case Job(_, _) => true
    case Chain(items, _) =>
      && items != [] && TailsRight(items[0])
      && forall i :: 0 < i < |items| ==> Main(items[i]) == {}
    case Group(items, _) => forall c :: c in items ==> TailsSwapped(c)
  }

  /** `u` comes before `v`, and nothing with a job in it lies between. */
  ghost predicate Adjacent(e: Element, u: Element, v: Element) {
    Ordered(e, u, v) && forall w :: Ordered(e, u, w) && Ordered(e, w, v) ==> Main(w) == {}
  }

  /** Neighbours that hold jobs are linked, and the link meets the last jobs of one and the first of the other. */
  ghost predicate LinksMeet(e: Element) {
    forall u, v :: Adjacent(e, u, v) && Main(u) != {} && All(v) != {} ==>
      Link(e, u, v) && TailsRight(u) && HeadsRight(v)
  }

  ghost predicate OperandsAgree(e: Element) {
    && LinksMeet(e)
    && (e.Job? || forall c :: c in e.items ==> OperandsAgree(c))
    && ((e.Group? && e.items == []) || forall a :: a in e.after ==> OperandsAgree(a))
  }

  // ---- first and last jobs ----

  lemma {:induction false} EndsInside(e: Element)
    requires Buildable(e)
    ensures Head(e) <= Main(e) && Tail(e) <= Main(e) && First(e) <= All(e) && Last(e) <= Main(e)
  {
    if !e.Job? {
      forall c | c in e.items
        ensures Head(c) <= Main(c) && Tail(c) <= Main(c) && First(c) <= All(c) && Last(c) <= Main(c)
      {
        EndsInside(c);
      }
    }
    forall a | a in e.after ensures First(a) <= All(a) {
      EndsInside(a);
    }
    if e.Chain? {
      assert e.items[0] in e.items && e.items[|e.items| - 1] in e.items;
    }
  }

  /** No job comes before `c` as a whole. */
  ghost predicate Unpreceded(e: Element, c: Element) {
    forall u :: Ordered(e, u, c) ==> Main(u) == {}
  }

  lemma {:induction false} FirstOfChild(e: Element, c: Element, x: JobId)
    requires Tree(e) && Child(e, c) && x in All(c)
    ensures x in First(e) <==> x in First(c) && Unpreceded(e, c)
  {
    forall d | Child(e, d) && x in First(d) ensures d == c {
      ChildTree(e, d);
      EndsInside(d);
      MainInAll(c);
      MainInAll(d);
      SameChild(e, c, d, x);
    }
    MainInAll(c);
    hide Main, All, Asked, First, Unpreceded, UsedOnce, Buildable;
    if e.Job? {
      JobFirst(e, c, x);
    } else {
      NotBothKinds(e, c, x);
      if c in Followers(e) {
        FirstOfFollower(e, c, x);
      } else if e.Chain? {
        FirstInChain(e, c, x);
      } else {
        FirstInGroup(e, c, x);
      }
    }
  }

  lemma {:induction false} JobFirst(e: Element, c: Element, x: JobId)
    requires UsedOnce(e) && e.Job? && Child(e, c) && x in Asked(c)
    ensures x !in First(e) && !Unpreceded(e, c)
  {
    assert Ordered(e, e, c) && e.id in Main(e);
  }

  lemma {:induction false} NotBothKinds(e: Element, c: Element, x: JobId)
    requires UsedOnce(e) && x in Asked(c)
    ensures !(c in Items(e) && c in e.after)
  {
  }

  lemma {:induction false} FirstOfFollower(e: Element, c: Element, x: JobId)
    requires !e.Job? && c in Followers(e) && c !in e.items
    requires forall d :: Child(e, d) && x in First(d) ==> d == c
    ensures x in First(e) <==> x in First(c) && Unpreceded(e, c)
  {
    MainOfItems(e);
    hide Main, All, Asked;
    assert forall u :: Ordered(e, u, c) <==> u in e.items;
    assert forall i :: 0 <= i < |e.items| ==> e.items[i] in e.items;
  }

  lemma {:induction false} FirstInGroup(e: Element, c: Element, x: JobId)
    requires e.Group? && c in e.items && c !in e.after
    requires forall d :: Child(e, d) && x in First(d) ==> d == c
    ensures x in First(e) <==> x in First(c) && Unpreceded(e, c)
  {
    hide Main, All, Asked;
  }

  lemma MainOfItems(e: Element)
    requires !e.Job?
    ensures Main(e) == {} <==> forall c :: c in e.items ==> Main(c) == {}
  {
    if Main(e) == {} {
      forall c | c in e.items ensures Main(c) == {} {
        assert forall x :: x in Main(c) ==> x in Main(e);
      }
    }
  }

  lemma {:induction false} FirstInChain(e: Element, c: Element, x: JobId)
    requires UsedOnce(e) && e.Chain? && c in e.items && c !in e.after && x in Asked(c)
    requires forall d :: Child(e, d) && x in First(d) ==> d == c
    ensures x in First(e) <==> x in First(c) && Unpreceded(e, c)
  {
    var j := PositionOf(e, c, x);
    assert forall i :: 0 <= i < |e.items| ==> e.items[i] in e.items;
    LeadsUnpreceded(e, c, j);
    hide Main, All, Asked, Disjoint, UsedOnce, Leads, Unpreceded;
    if x in First(e) {
      assert exists i :: 0 <= i < |e.items| && Leads(e.items, i) && x in First(e.items[i]);
    }
  }

  lemma {:induction false} LeadsUnpreceded(e: Element, c: Element, j: nat)
    requires e.Chain? && j < |e.items| && c !in e.after
    requires forall i :: 0 <= i < |e.items| ==> (e.items[i] == c <==> i == j)
    ensures Unpreceded(e, c) <==> Leads(e.items, j)
  {
    hide Main;
    forall k | 0 <= k < j ensures Ordered(e, e.items[k], c) {
      assert 0 <= k < j < |e.items| && c == e.items[j];
    }
  }

  lemma {:induction false} PositionOf(e: Element, c: Element, x: JobId) returns (j: nat)
    requires UsedOnce(e) && e.Chain? && c in e.items && x in Asked(c)
    ensures j < |e.items| && forall i :: 0 <= i < |e.items| ==> (e.items[i] == c <==> i == j)
  {
    hide Asked;
    assert Disjoint(e.items);
    j :| 0 <= j < |e.items| && e.items[j] == c;
  }

  ghost predicate Minimal(e: Element, x: JobId) {
    forall z :: !Precedes(e, z, x)
  }

  /** The first jobs are exactly those that nothing in the element comes before. */
  lemma {:induction false} FirstIsMinimal(e: Element, x: JobId)
    requires Tree(e)
    ensures x in First(e) <==> x in All(e) && Minimal(e, x)
  {
    EndsInside(e);
    if x in All(e) {
      if e.Job? && x == e.id {
        OwnJobIsFirst(e);
      } else {
        var c := ChildOf(e, x);
        ChildTree(e, c);
        FirstIsMinimal(c, x);
        FirstOfChild(e, c, x);
        MinimalInChild(e, c, x);
      }
    }
  }

  lemma {:induction false} OwnJobIsFirst(e: Element)
    requires Tree(e) && e.Job?
    ensures Minimal(e, e.id)
  {
    forall z ensures !Precedes(e, z, e.id) {
      if Precedes(e, z, e.id) {
        var u, v := PrecedesCases(e, z, e.id);
        ChildTree(e, v);
        if u == v && Precedes(u, z, e.id) { PrecedesInAll(u, z, e.id); }
        MainInAll(v);
        assert false;
      }
    }
  }

  lemma ChildOf(e: Element, x: JobId) returns (c: Element)
    requires x in All(e) && !(e.Job? && x == e.id)
    ensures Child(e, c) && x in All(c)
  {
    if !e.Job? && exists d :: d in e.items && x in All(d) {
      c :| c in e.items && x in All(c);
    } else {
      c :| c in e.after && x in All(c);
    }
  }

  lemma {:induction false} MinimalInChild(e: Element, c: Element, x: JobId)
    requires Tree(e) && Child(e, c) && x in All(c)
    ensures Minimal(e, x) <==> Unpreceded(e, c) && Minimal(c, x)
  {
    if exists u :: Ordered(e, u, c) && Main(u) != {} {
      var u :| Ordered(e, u, c) && Main(u) != {};
      var z :| z in Main(u);
      assert Precedes(e, z, x);
    } else if exists z :: Precedes(c, z, x) {
      var z :| Precedes(c, z, x);
      PrecedesOfChild(e, c, z, x);
    } else {
      forall z ensures !Precedes(e, z, x) {
        if Precedes(e, z, x) { PredecessorLeaves(e, c, z, x); }
      }
    }
  }

  lemma {:induction false} PredecessorLeaves(e: Element, c: Element, z: JobId, x: JobId)
    requires Tree(e) && Child(e, c) && x in All(c) && Precedes(e, z, x)
    ensures Precedes(c, z, x) || exists u :: Ordered(e, u, c) && z in Main(u)
  {
    var u, v := PrecedesCases(e, z, x);
    ChildTree(e, v);
    if u == v && Child(e, u) && Precedes(u, z, x) { PrecedesInAll(u, z, x); }
    MainInAll(c);
    MainInAll(v);
    SameChild(e, c, v, x);
  }

  /** No job of the element proper comes after `c` as a whole. */
  ghost predicate Unfollowed(e: Element, c: Element) {
    forall v :: v in Items(e) && Ordered(e, c, v) ==> Main(v) == {}
  }

  lemma {:induction false} LastOfItem(e: Element, c: Element, x: JobId)
    requires Tree(e) && !e.Job? && c in e.items && x in Main(c)
    ensures x in Last(e) <==> x in Last(c) && Unfollowed(e, c)
  {
    MainInAll(c);
    forall d | d in e.items && x in Last(d) ensures d == c {
      ChildTree(e, d);
      EndsInside(d);
      MainInAll(d);
      SameChild(e, c, d, x);
    }
    if e.Chain? {
      LastInChain(e, c, x);
    } else {
      forall v | v in Items(e) && Ordered(e, c, v) ensures Main(v) == {} {
        MainInAll(v);
        if v in e.after && Asked(v) != {} { assert false; }
      }
      hide Main, All, Asked;
    }
  }

  lemma {:induction false} LastInChain(e: Element, c: Element, x: JobId)
    requires UsedOnce(e) && e.Chain? && c in e.items && x in Asked(c)
    requires forall d :: d in e.items && x in Last(d) ==> d == c
    ensures x in Last(e) <==> x in Last(c) && Unfollowed(e, c)
  {
    var j := PositionOf(e, c, x);
    forall v | v in e.items && v in e.after ensures Main(v) == {} {
      MainInAll(v);
      if Asked(v) != {} { assert false; }
    }
    hide Main, All, Asked, Disjoint, UsedOnce;
    assert Unfollowed(e, c) <==> Trails(e.items, j) by {
      assert forall k :: j < k < |e.items| ==> e.items[k] in Items(e) && Ordered(e, c, e.items[k]);
    }
    assert forall i :: 0 <= i < |e.items| ==> e.items[i] in e.items;
  }

  /** The last jobs are exactly those of the element proper that no other job of it comes after. */
  lemma {:induction false} LastIsMaximal(e: Element, x: JobId)
    requires Tree(e)
    ensures x in Last(e) <==> x in Main(e) && forall z :: z in Main(e) ==> !Precedes(e, x, z)
  {
    EndsInside(e);
    if x in Main(e) {
      if e.Job? {
        PrecedesIrreflexive(e, x);
      } else {
        var c :| c in e.items && x in Main(c);
        ChildTree(e, c);
        LastIsMaximal(c, x);
        LastOfItem(e, c, x);
        MaximalInItem(e, c, x);
      }
    }
  }

  lemma {:induction false} MaximalInItem(e: Element, c: Element, x: JobId)
    requires Tree(e) && !e.Job? && c in e.items && x in Main(c)
    ensures (forall z :: z in Main(e) ==> !Precedes(e, x, z)) <==>
            Unfollowed(e, c) && forall z :: z in Main(c) ==> !Precedes(c, x, z)
  {
    ChildTree(e, c);
    if (forall z :: z in Main(e) ==> !Precedes(e, x, z)) {
      forall z | z in Main(c) ensures !Precedes(c, x, z) {
        if Precedes(c, x, z) { PrecedesOfChild(e, c, x, z); }
      }
      forall v | v in Items(e) && Ordered(e, c, v) ensures Main(v) == {} {
        MainInAll(v);
        ChildTree(e, v);
        assert forall z :: z in Main(v) ==> Precedes(e, x, z);
      }
    }
    if Unfollowed(e, c) && forall z :: z in Main(c) ==> !Precedes(c, x, z) {
      forall z | z in Main(e) ensures !Precedes(e, x, z) {
        if Precedes(e, x, z) { SuccessorLeaves(e, c, x, z); }
      }
    }
  }

  lemma {:induction false} SuccessorLeaves(e: Element, c: Element, x: JobId, z: JobId)
    requires Tree(e) && !e.Job? && c in e.items && x in Main(c) && z in Main(e) && Precedes(e, x, z)
    ensures (z in Main(c) && Precedes(c, x, z)) || exists v :: v in Items(e) && Ordered(e, c, v) && z in Main(v)
  {
    var u, v := PrecedesCases(e, x, z);
    ChildTree(e, v);
    MainInAll(c);
    MainInAll(u);
    MainInAll(v);
    if u == v && Child(e, u) && Precedes(u, x, z) { PrecedesInAll(u, x, z); }
    SameChild(e, c, u, x);
    MainOfItem(e, v, z);
  }

  lemma {:induction false} EndsExist(e: Element)
    requires Buildable(e)
    ensures First(e) == {} <==> All(e) == {}
    ensures Last(e) == {} <==> Main(e) == {}
  {
    EndsInside(e);
    MainInAll(e);
    if !e.Job? {
      forall c | c in e.items ensures (First(c) == {} <==> All(c) == {}) && (Last(c) == {} <==> Main(c) == {}) {
        EndsExist(c);
      }
      forall a | a in e.after ensures First(a) == {} <==> All(a) == {} {
        EndsExist(a);
      }
      if All(e) != {} { FirstExists(e); }
      if Main(e) != {} { LastExists(e); }
    }
  }

  lemma {:induction false} FirstExists(e: Element)
    requires !e.Job? && All(e) != {}
    requires forall c :: Child(e, c) && All(c) != {} ==> First(c) != {}
    ensures First(e) != {}
  {
    var x :| x in All(e);
    var c := ChildOf(e, x);
    MainOfItems(e);
    if Main(e) == {} {
      hide All, Main;
      var y :| y in First(c);
      if c in Items(e) && e.Chain? {
        var i :| 0 <= i < |e.items| && e.items[i] == c;
        assert forall k :: 0 <= k < i ==> e.items[k] in e.items;
        assert Leads(e.items, i);
      }
      assert y in First(e);
    } else if e.Chain? {
      var i := FirstWithJobs(e.items);
      MainInAll(e.items[i]);
      assert e.items[i] in e.items;
      var y :| y in First(e.items[i]);
      assert y in First(e);
    } else {
      var d :| d in e.items && Main(d) != {};
      MainInAll(d);
      var y :| y in First(d);
      assert y in First(e);
    }
  }

  lemma {:induction false} LastExists(e: Element)
    requires !e.Job? && Main(e) != {}
    requires forall c :: c in e.items && Main(c) != {} ==> Last(c) != {}
    ensures Last(e) != {}
  {
    MainOfItems(e);
    hide Main;
    if e.Chain? {
      var i := LastWithJobs(e.items);
      assert e.items[i] in e.items;
      var y :| y in Last(e.items[i]);
      assert y in Last(e);
    } else {
      var d :| d in e.items && Main(d) != {};
      var y :| y in Last(d);
      assert y in Last(e);
    }
  }

  lemma {:induction false} FirstWithJobs(items: seq<Element>) returns (i: nat)
    requires exists c :: c in items && Main(c) != {}
    ensures i < |items| && Main(items[i]) != {} && Leads(items, i)
  {
    hide Main;
    i := 0;
    while Main(items[i]) == {}
      invariant i < |items| && forall k :: 0 <= k < i ==> Main(items[k]) == {}
      decreases |items| - i
    {
      assert exists k :: 0 <= k < |items| && Main(items[k]) != {};
      i := i + 1;
    }
  }

  lemma {:induction false} LastWithJobs(items: seq<Element>) returns (i: nat)
    requires exists c :: c in items && Main(c) != {}
    ensures i < |items| && Main(items[i]) != {} && Trails(items, i)
  {
    hide Main;
    i := |items| - 1;
    while Main(items[i]) == {}
      invariant i < |items| && forall k :: i < k < |items| ==> Main(items[k]) == {}
      decreases i
    {
      assert exists k :: 0 <= k < |items| && Main(items[k]) != {};
      i := i - 1;
    }
  }

  // ---- the checks are exact ----

  ghost predicate Exact(e: Element) {
    && (HeadsRight(e) <==> First(e) <= Head(e))
    && (HeadsSwapped(e) <==> First(e) <= Tail(e))
    && (TailsRight(e) <==> Last(e) <= Tail(e))
    && (TailsSwapped(e) <==> Last(e) <= Head(e))
  }

  /** The structural checks say exactly that the code's heads and tails cover the intended ones. */
  lemma {:induction false} ChecksAreExact(e: Element)
    requires Tree(e)
    ensures HeadsRight(e) <==> First(e) <= Head(e)
    ensures HeadsSwapped(e) <==> First(e) <= Tail(e)
    ensures TailsRight(e) <==> Last(e) <= Tail(e)
    ensures TailsSwapped(e) <==> Last(e) <= Head(e)
  {
    hide HeadsRight, HeadsSwapped, TailsRight, TailsSwapped, First, Last, Head, Tail, All, Asked, Main, UsedOnce;
    if Main(e) == {} {
      HollowExact(e);
    } else if e.Job? {
      JobExact(e);
    } else {
      forall c | c in e.items ensures Exact(c) {
        ChildTree(e, c);
        ChecksAreExact(c);
      }
      if e.Chain? { ChainExact(e); } else { GroupExact(e); }
    }
  }

  lemma {:induction false} HollowExact(e: Element)
    requires Buildable(e) && Main(e) == {}
    ensures Exact(e)
  {
    EndsInside(e);
    EndsExist(e);
    hide First, Last, Head, Tail, All, Main;
  }

  lemma {:induction false} JobExact(e: Element)
    requires e.Job?
    ensures Exact(e)
  {
  }

  ghost function Union(items: seq<Element>, f: Element -> set<JobId>): set<JobId> {
    set c, x | c in items && x in f(c) :: x
  }

  /** Members do not share jobs, so a union covers another only member by member. */
  lemma {:induction false} GroupCovers(e: Element, f: Element -> set<JobId>, h: Element -> set<JobId>)
    requires UsedOnce(e) && e.Group?
    requires forall c :: c in e.items ==> f(c) <= Asked(c) && h(c) <= Asked(c)
    ensures Union(e.items, f) <= Union(e.items, h) <==> forall c :: c in e.items ==> f(c) <= h(c)
  {
    if Union(e.items, f) <= Union(e.items, h) {
      forall c, x | c in e.items && x in f(c) ensures x in h(c) {
        assert x in Union(e.items, f);
        var d :| d in e.items && x in h(d);
        SameChild(e, c, d, x);
      }
    }
  }

  lemma {:induction false} GroupExact(e: Element)
    requires Tree(e) && e.Group? && Main(e) != {} && forall c :: c in e.items ==> Exact(c)
    ensures Exact(e)
  {
    hide First, Last, Head, Tail, All, Asked, Main, UsedOnce, Union;
    forall c | c in e.items
      ensures Head(c) <= Asked(c) && Tail(c) <= Asked(c) && First(c) <= Asked(c) && Last(c) <= Asked(c)
    {
      ChildTree(e, c);
      EndsInside(c);
      MainInAll(c);
    }
    GroupCovers(e, First, Head);
    GroupCovers(e, First, Tail);
    GroupCovers(e, Last, Tail);
    GroupCovers(e, Last, Head);
    GroupUnions(e);
  }

  lemma {:induction false} GroupUnions(e: Element)
    requires e.Group? && Main(e) != {}
    ensures First(e) == Union(e.items, First) && Last(e) == Union(e.items, Last)
    ensures Head(e) == Union(e.items, Head) && Tail(e) == Union(e.items, Tail)
  {
    hide Main;
  }

  lemma {:induction false} ChainExact(e: Element)
    requires Tree(e) && e.Chain? && Main(e) != {} && forall c :: c in e.items ==> Exact(c)
    ensures Exact(e)
  {
    var first, last := e.items[0], e.items[|e.items| - 1];
    assert first in e.items && last in e.items;
    assert Exact(first) && Exact(last);
    ChainChecks(e, first, last);
    hide HeadsRight, HeadsSwapped, TailsRight, TailsSwapped, First, Last, Head, Tail, All, Asked, Main, Tree;
    ChainFirsts(e, first, last);
    ChainLasts(e, first, last);
  }

  lemma {:induction false} ChainChecks(e: Element, first: Element, last: Element)
    requires e.Chain? && Main(e) != {} && e.items != [] && first == e.items[0] && last == e.items[|e.items| - 1]
    ensures Head(e) == Tail(first) && Tail(e) == Head(last)
    ensures HeadsRight(e) <==> Main(first) != {} && HeadsSwapped(first)
    ensures HeadsSwapped(e) <==> HeadsRight(last) && forall i :: 0 <= i < |e.items| - 1 ==> All(e.items[i]) == {}
    ensures TailsRight(e) <==> Main(last) != {} && TailsSwapped(last)
    ensures TailsSwapped(e) <==> TailsRight(first) && forall i :: 0 < i < |e.items| ==> Main(e.items[i]) == {}
  {
    hide Main, All;
  }

  lemma {:induction false} ChainFirsts(e: Element, first: Element, last: Element)
    requires Tree(e) && e.Chain? && Main(e) != {} && first == e.items[0] && last == e.items[|e.items| - 1]
    ensures First(e) <= Tail(first) <==> Main(first) != {} && First(first) <= Tail(first)
    ensures First(e) <= Head(last) <==>
      First(last) <= Head(last) && forall i :: 0 <= i < |e.items| - 1 ==> All(e.items[i]) == {}
  {
    var n := |e.items| - 1;
    EndsOfItem(e, 0);
    EndsOfItem(e, n);
    hide *;
    FirstCovered(e, 0, Tail(first));
    FirstCovered(e, n, Head(last));
    if Main(last) == {} { var i := OtherItem(e, n); }
  }

  lemma {:induction false} ChainLasts(e: Element, first: Element, last: Element)
    requires Tree(e) && e.Chain? && Main(e) != {} && first == e.items[0] && last == e.items[|e.items| - 1]
    ensures Last(e) <= Head(last) <==> Main(last) != {} && Last(last) <= Head(last)
    ensures Last(e) <= Tail(first) <==>
      Last(first) <= Tail(first) && forall i :: 0 < i < |e.items| ==> Main(e.items[i]) == {}
  {
    var n := |e.items| - 1;
    EndsOfItem(e, 0);
    EndsOfItem(e, n);
    hide *;
    LastCovered(e, 0, Tail(first));
    LastCovered(e, n, Head(last));
    if Main(first) == {} { var i := OtherItem(e, 0); }
  }

  lemma {:induction false} EndsOfItem(e: Element, i: nat)
    requires Buildable(e) && e.Chain? && i < |e.items|
    ensures Head(e.items[i]) <= Main(e.items[i]) && Tail(e.items[i]) <= Main(e.items[i])
  {
    assert e.items[i] in e.items;
    EndsInside(e.items[i]);
  }

  lemma {:induction false} OtherItem(e: Element, n: nat) returns (i: nat)
    requires e.Chain? && Main(e) != {} && n < |e.items| && Main(e.items[n]) == {}
    ensures i < |e.items| && i != n && Main(e.items[i]) != {} && All(e.items[i]) != {}
  {
    MainOfItems(e);
    i := FirstWithJobs(e.items);
    MainInAll(e.items[i]);
  }

  lemma {:induction false} ItemFacts(e: Element)
    requires Tree(e) && e.Chain? && Main(e) != {}
    ensures exists c :: c in e.items && Main(c) != {}
    ensures exists i :: 0 <= i < |e.items| && Main(e.items[i]) != {}
    ensures forall i :: 0 <= i < |e.items| ==>
      && (First(e.items[i]) == {} <==> All(e.items[i]) == {})
      && (Last(e.items[i]) == {} <==> Main(e.items[i]) == {})
      && First(e.items[i]) <= All(e.items[i]) && Last(e.items[i]) <= Main(e.items[i]) <= All(e.items[i])
    ensures forall i :: 0 <= i < |e.items| && Leads(e.items, i) ==> First(e.items[i]) <= First(e)
    ensures forall i :: 0 <= i < |e.items| && Trails(e.items, i) ==> Last(e.items[i]) <= Last(e)
  {
    MainOfItems(e);
    hide Main, All;
    var c :| c in e.items && Main(c) != {};
    var k :| 0 <= k < |e.items| && e.items[k] == c;
    forall i | 0 <= i < |e.items|
      ensures First(e.items[i]) == {} <==> All(e.items[i]) == {}
      ensures (Last(e.items[i]) == {} <==> Main(e.items[i]) == {})
      ensures First(e.items[i]) <= All(e.items[i]) && Last(e.items[i]) <= Main(e.items[i]) <= All(e.items[i])
    {
      assert e.items[i] in e.items;
      ChildTree(e, e.items[i]);
      MainInAll(e.items[i]);
      EndsExist(e.items[i]);
      EndsInside(e.items[i]);
    }
  }

  lemma {:induction false} ItemsApart(e: Element, i: nat, j: nat, s: set<JobId>)
    requires Tree(e) && e.Chain? && i < |e.items| && j < |e.items| && s != {}
    requires s <= All(e.items[i]) && s <= All(e.items[j])
    ensures i == j
  {
    MainInAll(e.items[i]);
    MainInAll(e.items[j]);
    assert Disjoint(e.items);
    var x :| x in s;
  }

  /** The first jobs of a chain lie in one item only if no job lies in an earlier one and that item has jobs. */
  lemma {:induction false} FirstCovered(e: Element, n: nat, s: set<JobId>)
    requires Tree(e) && e.Chain? && Main(e) != {} && n < |e.items| && s <= Main(e.items[n])
    ensures First(e) <= s <==>
      First(e.items[n]) <= s && Main(e.items[n]) != {} && forall i :: 0 <= i < n ==> All(e.items[i]) == {}
  {
    ItemFacts(e);
    var k := FirstWithJobs(e.items);
    if First(e) <= s {
      hide First, Last, All, Asked, Main, UsedOnce, Buildable;
      ItemsApart(e, k, n, First(e.items[k]));
      forall i | 0 <= i < n ensures All(e.items[i]) == {} {
        assert Leads(e.items, i);
        if First(e.items[i]) != {} { ItemsApart(e, i, n, First(e.items[i])); }
      }
    } else if First(e.items[n]) <= s && Main(e.items[n]) != {} && forall i :: 0 <= i < n ==> All(e.items[i]) == {} {
      OnlyFirst(e, n, s);
    }
  }

  lemma {:induction false} OnlyFirst(e: Element, n: nat, s: set<JobId>)
    requires e.Chain? && Main(e) != {} && n < |e.items| && First(e.items[n]) <= s
    requires forall i :: 0 <= i < |e.items| ==> First(e.items[i]) <= All(e.items[i])
    requires Main(e.items[n]) != {} && forall i :: 0 <= i < n ==> All(e.items[i]) == {}
    ensures First(e) <= s
  {
    hide Main, All;
  }

  lemma {:induction false} LastCovered(e: Element, n: nat, s: set<JobId>)
    requires Tree(e) && e.Chain? && Main(e) != {} && n < |e.items| && s <= Main(e.items[n])
    ensures Last(e) <= s <==>
      Last(e.items[n]) <= s && Main(e.items[n]) != {} && forall i :: n < i < |e.items| ==> Main(e.items[i]) == {}
  {
    ItemFacts(e);
    var k := LastWithJobs(e.items);
    if Last(e) <= s {
      hide First, Last, All, Asked, Main, UsedOnce, Buildable;
      ItemsApart(e, k, n, Last(e.items[k]));
    } else if Last(e.items[n]) <= s && Main(e.items[n]) != {} &&
              forall i :: n < i < |e.items| ==> Main(e.items[i]) == {} {
      OnlyLast(e, n, s);
    }
  }

  lemma {:induction false} OnlyLast(e: Element, n: nat, s: set<JobId>)
    requires e.Chain? && n < |e.items| && Last(e.items[n]) <= s
    requires forall i :: 0 <= i < |e.items| ==> Last(e.items[i]) <= Main(e.items[i])
    requires Main(e.items[n]) != {} && forall i :: n < i < |e.items| ==> Main(e.items[i]) == {}
    ensures Last(e) <= s
  {
    hide Main;
  }
}
