/** Flattening against everything the caller handed over, and the usual and the failing shapes. */
module FlattenWhole {
  import opened Digraph
  import opened Graphs
  import opened Elements
  import opened Flatten
  import opened FlattenMeaning
  import opened FlattenExact

  /** The order asked for, over all jobs handed over. */
  ghost predicate AskedBefore(e: Element, x: JobId, y: JobId) {
    || (!e.Job? && exists c :: c in e.items && AskedBefore(c, x, y))
    || (exists a :: a in e.after && AskedBefore(a, x, y))
    || (exists u, v :: Ordered(e, u, v) && x in Main(u) && y in Asked(v))
  }

  /** No group without members is given followers with jobs. */
  predicate NothingLost(e: Element) {
    && (e.Job? || forall c :: c in e.items ==> NothingLost(c))
    && (if e.Group? && e.items == [] then forall a :: a in e.after ==> Asked(a) == {}
        else forall a :: a in e.after ==> NothingLost(a))
  }

  lemma {:induction false} AskedInside(e: Element, x: JobId, y: JobId)
    requires AskedBefore(e, x, y)
    ensures y in Asked(e)
  {
    if !e.Job? && exists c :: c in e.items && AskedBefore(c, x, y) {
      var c :| c in e.items && AskedBefore(c, x, y);
      AskedInside(c, x, y);
    } else if exists a :: a in e.after && AskedBefore(a, x, y) {
      var a :| a in e.after && AskedBefore(a, x, y);
      AskedInside(a, x, y);
    } else {
      var u, v :| Ordered(e, u, v) && x in Main(u) && y in Asked(v);
      assert v in Items(e) || v in e.after;
    }
  }

  ghost predicate SameAsAsked(e: Element) {
    All(e) == Asked(e) && forall x, y :: AskedBefore(e, x, y) <==> Precedes(e, x, y)
  }

  /** Where nothing is lost, the attached jobs and their order are what was asked for. */
  lemma {:induction false} KeptIsAsked(e: Element)
    requires NothingLost(e)
    ensures SameAsAsked(e)
  {
    hide Main, Ordered, SameAsAsked;
    forall c | c in Items(e) ensures SameAsAsked(c) {
      KeptIsAsked(c);
    }
    if e.Group? && e.items == [] {
      LostGroup(e);
    } else {
      forall a | a in e.after ensures SameAsAsked(a) {
        KeptIsAsked(a);
      }
      KeptParts(e);
    }
  }

  lemma {:induction false} LostGroup(e: Element)
    requires e.Group? && e.items == [] && forall a :: a in e.after ==> Asked(a) == {}
    ensures SameAsAsked(e)
  {
    forall a, x, y | a in e.after ensures !AskedBefore(a, x, y) {
      if AskedBefore(a, x, y) { AskedInside(a, x, y); }
    }
    EmptyOrdersNothing(e);
    hide Main, Ordered;
    assert All(e) == {} && Asked(e) == {};
    forall x, y ensures !AskedBefore(e, x, y) && !Precedes(e, x, y) {}
  }

  lemma {:induction false} KeptParts(e: Element)
    requires !(e.Group? && e.items == [])
    requires (forall c :: c in Items(e) ==> SameAsAsked(c)) && forall a :: a in e.after ==> SameAsAsked(a)
    ensures SameAsAsked(e)
  {
    OrderedInside(e);
    hide Main, Ordered;
    assert forall c :: c in Items(e) || c in e.after ==> All(c) == Asked(c);
    if !e.Job? { assert forall c :: c in e.items ==> All(c) == Asked(c) && SameAsAsked(c); }
    assert All(e) == Asked(e);
    forall x, y ensures AskedBefore(e, x, y) <==> Precedes(e, x, y) {
      assert forall u, v :: Ordered(e, u, v) ==> All(v) == Asked(v);
    }
  }

  lemma {:induction false} EmptyOrdersNothing(e: Element)
    requires e.Group? && e.items == []
    ensures forall u, v :: !Ordered(e, u, v)
  {
  }

  lemma {:induction false} OrderedInside(e: Element)
    ensures forall u, v :: Ordered(e, u, v) ==> v in Items(e) || v in e.after
  {
  }

  /** A follower of a group without members is lost. */
  lemma {:induction false} LostJob(e: Element) returns (x: JobId)
    requires UsedOnce(e) && !NothingLost(e)
    ensures x in Asked(e) && x !in All(e)
  {
    if e.Group? && e.items == [] {
      var a :| a in e.after && Asked(a) != {};
      x :| x in Asked(a);
    } else {
      var c := LosingChild(e);
      x := LostJob(c);
      LostInChild(e, c, x);
    }
  }

  lemma {:induction false} LosingChild(e: Element) returns (c: Element)
    requires UsedOnce(e) && !NothingLost(e) && !(e.Group? && e.items == [])
    ensures Child(e, c) && UsedOnce(c) && !NothingLost(c) && c < e
  {
    if !e.Job? && exists d :: d in e.items && !NothingLost(d) {
      c :| c in e.items && !NothingLost(c);
    } else {
      c :| c in e.after && !NothingLost(c);
    }
  }

  lemma {:induction false} LostInChild(e: Element, c: Element, x: JobId)
    requires UsedOnce(e) && Child(e, c) && x in Asked(c) && x !in All(c)
    ensures x in Asked(e) && x !in All(e)
  {
    ChildTree(e, c);
    if x in All(e) && !(e.Job? && x == e.id) {
      var d := ChildOf(e, x);
      MainInAll(d);
      SameChild(e, c, d, x);
    }
  }

  /** The flat graph holds exactly the jobs handed over, in exactly the order asked for, if and only if no
      group without members is given followers with jobs and the operands agree. */
  lemma {:induction false} FlattenIsWhole(root: Element, flat: map<JobId, set<JobId>>)
    requires Tree(root) && IsFlat(flat, Parts(root))
    ensures NothingLost(root) <==> flat.Keys == Asked(root)
    ensures NothingLost(root) && OperandsAgree(root) <==>
            flat.Keys == Asked(root) && forall x, y :: Reaches(flat, x, y) <==> AskedBefore(root, x, y)
  {
    FlatIsJobDag(root, flat);
    FlattenIsExact(root, flat);
    if NothingLost(root) {
      KeptIsAsked(root);
    } else {
      var x := LostJob(root);
    }
    hide IsFlat, Parts, Reaches, Precedes, AskedBefore, OperandsAgree, NothingLost, Tree;
  }

  // ---- the usual shapes ----

  /** Every group has a member. */
  predicate NonEmpty(e: Element) {
    && (e.Job? || (e.items != [] && forall c :: c in e.items ==> NonEmpty(c)))
    && forall c :: c in e.after ==> NonEmpty(c)
  }

  /** A job, or a group of such. */
  predicate Plain(e: Element) {
    e.Job? || (e.Group? && forall c :: c in e.items ==> Plain(c))
  }

  /** Every chain starts and ends with a job or a group of jobs. */
  predicate PlainEnds(e: Element) {
    && (e.Chain? ==> e.items != [] && Plain(e.items[0]) && Plain(e.items[|e.items| - 1]))
    && (e.Job? || forall c :: c in e.items ==> PlainEnds(c))
    && (forall a :: a in e.after ==> PlainEnds(a))
  }

  lemma {:induction false} NonEmptyHasJobs(e: Element)
    requires NonEmpty(e)
    ensures Main(e) != {} && All(e) != {} && NothingLost(e)
  {
    if !e.Job? {
      forall c | c in e.items ensures Main(c) != {} && NothingLost(c) { NonEmptyHasJobs(c); }
      assert e.items[0] in e.items;
      MainOfItems(e);
    }
    forall a | a in e.after ensures NothingLost(a) { NonEmptyHasJobs(a); }
    MainInAll(e);
  }

  lemma {:induction false} PlainIsSymmetric(e: Element)
    requires Plain(e) && NonEmpty(e)
    ensures HeadsRight(e) && HeadsSwapped(e) && TailsRight(e) && TailsSwapped(e)
  {
    NonEmptyHasJobs(e);
    if e.Group? {
      forall c | c in e.items ensures HeadsRight(c) && HeadsSwapped(c) && TailsRight(c) && TailsSwapped(c) {
        PlainIsSymmetric(c);
      }
    }
  }

  /** The documented shape is inside the condition. */
  lemma {:induction false} PlainEndsAgree(e: Element)
    requires PlainEnds(e) && NonEmpty(e)
    ensures OperandsAgree(e) && NothingLost(e) && HeadsRight(e) && TailsRight(e)
  {
    NonEmptyHasJobs(e);
    if !e.Job? {
      forall c | c in e.items ensures OperandsAgree(c) && Main(c) != {} && HeadsRight(c) && TailsRight(c) {
        PlainEndsAgree(c);
        NonEmptyHasJobs(c);
      }
    }
    forall a | a in e.after ensures OperandsAgree(a) && HeadsRight(a) {
      PlainEndsAgree(a);
    }
    if e.Chain? {
      PlainIsSymmetric(e.items[0]);
      PlainIsSymmetric(e.items[|e.items| - 1]);
    }
    NeighboursMeet(e);
  }

  /** Without empty elements neighbours are linked. */
  lemma {:induction false} NeighboursMeet(e: Element)
    requires e.Job? || (e.items != [] && forall c :: c in e.items ==> Main(c) != {} && HeadsRight(c) && TailsRight(c))
    requires forall a :: a in e.after ==> HeadsRight(a)
    ensures LinksMeet(e)
  {
    forall u, v | Adjacent(e, u, v) ensures Link(e, u, v) {
      if e.Chain? { ChainNeighbours(e, u, v); }
    }
    hide Main, All, HeadsRight, Link;
    assert forall u, v :: Ordered(e, u, v) ==> (u in Items(e) || (e.Job? && u == e)) && (v in Items(e) || v in e.after);
    assert e.Job? ==> TailsRight(e);
  }

  lemma {:induction false} ChainNeighbours(e: Element, u: Element, v: Element)
    requires e.Chain? && e.items != [] && (forall c :: c in e.items ==> Main(c) != {}) && Adjacent(e, u, v)
    ensures Link(e, u, v)
  {
    hide Main;
    var n := |e.items| - 1;
    forall i, j | 0 <= i < j <= n
      ensures Ordered(e, e.items[i], e.items[j]) && e.items[i] in e.items && e.items[j] in e.items
    {}
    assert e.items[n] in e.items;
    if v in e.after && u in e.items {
      var i :| 0 <= i <= n && u == e.items[i];
      var w := e.items[n];
      assert Ordered(e, w, v) && !(Ordered(e, u, w) && Ordered(e, w, v));
    } else {
      var i, j :| 0 <= i < j < |e.items| && u == e.items[i] && v == e.items[j];
      var w := e.items[i + 1];
      assert Ordered(e, u, w) && !(Ordered(e, u, w) && Ordered(e, w, v));
    }
  }

  // ---- the failing shapes ----

  /** chain(chain(a, chain(b, c)), d): the first chain ends with a chain. */
  function NestedChain(a: JobId, b: JobId, c: JobId, d: JobId): Element {
    Chain([Chain([Job(a, []), Chain([Job(b, []), Job(c, [])], [])], []), Job(d, [])], [])
  }

  /** Job d does not wait for job c. */
  lemma {:induction false} NestedChainLosesOrder(a: JobId, b: JobId, c: JobId, d: JobId, flat: map<JobId, set<JobId>>)
    requires a != b && a != c && a != d && b != c && b != d && c != d
    requires IsFlat(flat, Parts(NestedChain(a, b, c, d)))
    ensures Tree(NestedChain(a, b, c, d)) && AskedBefore(NestedChain(a, b, c, d), c, d) && !Reaches(flat, c, d)
  {
    NestedLeft(a, b, c);
    hide Facts, TailsRight;
    var left := Chain([Job(a, []), Chain([Job(b, []), Job(c, [])], [])], []);
    assert NestedChain(a, b, c, d) == Chain([left, Job(d, [])], []);
    NestedWhole(left, {a, b, c}, c, d, flat);
  }

  /** A tree that loses nothing, with exactly these jobs, one of them last. */
  ghost predicate Facts(e: Element, jobs: set<JobId>, last: JobId) {
    Tree(e) && NothingLost(e) && Main(e) == jobs && All(e) == jobs && Asked(e) == jobs && Last(e) == {last}
  }

  lemma {:induction false} NestedLeft(a: JobId, b: JobId, c: JobId)
    requires a != b && a != c && b != c
    ensures var e := Chain([Job(a, []), Chain([Job(b, []), Job(c, [])], [])], []);
            Facts(e, {a, b, c}, c) && !TailsRight(e)
  {
    Single(a);
    Single(b);
    Single(c);
    hide Tree, NothingLost, Main, All, Asked, Last, TailsRight, TailsSwapped;
    PairFacts(Job(b, []), {b}, b, Job(c, []), {c}, c);
    PairFacts(Job(a, []), {a}, a, Chain([Job(b, []), Job(c, [])], []), {b, c}, c);
    assert {a} + {b, c} == {a, b, c} && {b} + {c} == {b, c};
  }

  lemma {:induction false} PairFacts(p: Element, ps: set<JobId>, x: JobId, q: Element, qs: set<JobId>, y: JobId)
    requires Facts(p, ps, x) && Facts(q, qs, y) && ps !! qs && ps != {} && qs != {}
    ensures var e := Chain([p, q], []);
            Facts(e, ps + qs, y) && (TailsRight(e) ==> TailsSwapped(q)) && !TailsSwapped(e)
  {
    hide Tree, NothingLost, Main, All, Asked, Last, TailsRight, TailsSwapped;
    Pair(p, q);
    PairEnds(p, q);
  }

  lemma {:induction false} NestedWhole(left: Element, jobs: set<JobId>, c: JobId, d: JobId,
                                       flat: map<JobId, set<JobId>>)
    requires Facts(left, jobs, c) && jobs != {} && d !in jobs && !TailsRight(left)
    requires IsFlat(flat, Parts(Chain([left, Job(d, [])], [])))
    ensures var root := Chain([left, Job(d, [])], []);
            Tree(root) && AskedBefore(root, c, d) && !Reaches(flat, c, d)
  {
    Single(d);
    hide Tree, NothingLost, Main, All, Asked, Last, TailsRight, AskedBefore, Reaches, Parts, IsFlat;
    hide Adjacent, First, Link;
    var root := Chain([left, Job(d, [])], []);
    Pair(left, Job(d, []));
    PairAdjacent(left, Job(d, []));
    LosesPair(root, flat, left, Job(d, []), c, d);
  }

  lemma {:induction false} LosesPair(root: Element, flat: map<JobId, set<JobId>>, u: Element, v: Element,
                                     x: JobId, y: JobId)
    requires Tree(root) && NothingLost(root) && IsFlat(flat, Parts(root)) && Adjacent(root, u, v)
    requires Last(u) == {x} && First(v) == {y} && Main(u) != {} && All(v) != {} && !(Link(root, u, v) && TailsRight(u))
    ensures AskedBefore(root, x, y) && !Reaches(flat, x, y)
  {
    assert Inside(root, root);
    hide *;
    var x', y' := DisagreementLosesOrder(root, flat, root, u, v);
    KeptIsAsked(root);
  }

  lemma {:induction false} Single(id: JobId)
    ensures var j := Job(id, []);
            && Tree(j) && NothingLost(j) && Main(j) == {id} && All(j) == {id} && Asked(j) == {id}
            && Last(j) == {id} && First(j) == {id}
  {
  }

  /** The facts about a chain of two. */
  lemma {:induction false} Pair(p: Element, q: Element)
    ensures var e := Chain([p, q], []);
            && Main(e) == Main(p) + Main(q) && All(e) == All(p) + All(q) && Asked(e) == Asked(p) + Asked(q)
            && (Tree(p) && Tree(q) && Asked(p) !! Asked(q) ==> Tree(e))
            && (NothingLost(p) && NothingLost(q) ==> NothingLost(e))
  {
    PairSets(p, q);
    hide Main, All, Asked;
    var e := Chain([p, q], []);
    assert e.items[0] == p && e.items[1] == q;
    assert forall d :: d in e.items <==> d == p || d == q;
  }

  lemma {:induction false} PairSets(p: Element, q: Element)
    ensures var e := Chain([p, q], []);
            Main(e) == Main(p) + Main(q) && All(e) == All(p) + All(q) && Asked(e) == Asked(p) + Asked(q)
  {
    var e := Chain([p, q], []);
    assert e.items[0] == p && e.items[1] == q;
    assert forall d :: d in e.items <==> d == p || d == q;
  }

  lemma {:induction false} PairEnds(p: Element, q: Element)
    requires Main(Chain([p, q], [])) != {} && Main(q) != {}
    ensures var e := Chain([p, q], []);
            Last(e) == Last(q) && (TailsRight(e) ==> TailsSwapped(q)) && !TailsSwapped(e)
  {
    var e := Chain([p, q], []);
    hide Main;
    assert e.items[0] == p && e.items[1] == q && !Trails(e.items, 0) && Trails(e.items, 1);
  }

  lemma {:induction false} PairAdjacent(p: Element, q: Element)
    requires p != q
    ensures Adjacent(Chain([p, q], []), p, q)
  {
    var e := Chain([p, q], []);
    assert e.items[0] == p && e.items[1] == q;
  }

  /** chain(x, group(), y): what `split` of no records can leave in the middle. */
  function EmptyMiddle(x: JobId, y: JobId): Element {
    Chain([Job(x, []), Group([], []), Job(y, [])], [])
  }

  /** Job y does not wait for job x. */
  lemma {:induction false} EmptyGroupLosesOrder(x: JobId, y: JobId, flat: map<JobId, set<JobId>>)
    requires x != y && IsFlat(flat, Parts(EmptyMiddle(x, y)))
    ensures Tree(EmptyMiddle(x, y)) && AskedBefore(EmptyMiddle(x, y), x, y) && !Reaches(flat, x, y)
  {
    EmptyMiddleFacts(x, y);
    Single(x);
    Single(y);
    hide *;
    LosesPair(EmptyMiddle(x, y), flat, Job(x, []), Job(y, []), x, y);
  }

  lemma {:induction false} EmptyMiddleFacts(x: JobId, y: JobId)
    requires x != y
    ensures var e := EmptyMiddle(x, y);
            && Tree(e) && NothingLost(e) && Adjacent(e, Job(x, []), Job(y, [])) && !Link(e, Job(x, []), Job(y, []))
  {
    var e := EmptyMiddle(x, y);
    assert e.items[0] == Job(x, []) && e.items[1] == Group([], []) && e.items[2] == Job(y, []);
    assert forall d :: d in e.items <==> d == Job(x, []) || d == Group([], []) || d == Job(y, []);
  }
}
