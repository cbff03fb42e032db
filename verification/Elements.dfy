/** Nested jobs, chains and groups of crose/queue_job/delay.py as values, and the order they ask for. */
module Elements {

  type JobId = nat

  /** A unit of a graph together with what `on_done` attached to it. */
  datatype Element =
    | Job(id: JobId, after: seq<Element>)
    | Chain(items: seq<Element>, after: seq<Element>)
    | Group(items: seq<Element>, after: seq<Element>)

  function Items(e: Element): seq<Element> {
    if e.Job? then [] else e.items
  }

  /** What `on_done` really attached: a group without members has nothing to attach it to. */
  function Followers(e: Element): seq<Element> {
    if e.Group? && e.items == [] then [] else e.after
  }

  ghost predicate Child(e: Element, c: Element) {
    c in Items(e) || c in Followers(e)
  }

  /** The jobs an element consists of; what follows it is not part of it. */
  function Main(e: Element): set<JobId> {
    if e.Job? then {e.id} else set c, x | c in e.items && x in Main(c) :: x
  }

  /** The jobs of an element and of everything attached below it. */
  function All(e: Element): set<JobId> {
    (if e.Job? then {e.id} else set c, x | c in e.items && x in All(c) :: x) +
    (if e.Group? && e.items == [] then {} else set c, x | c in e.after && x in All(c) :: x)
  }

  /** The jobs the caller handed over, whether they are attached or not. */
  function Asked(e: Element): set<JobId> {
    (if e.Job? then {e.id} else set c, x | c in e.items && x in Asked(c) :: x) +
    (set c, x | c in e.after && x in Asked(c) :: x)
  }

  /** What the constructors accept: a chain has a first element. */
  predicate Buildable(e: Element) {
    && (e.Chain? ==> e.items != [])
    && (e.Job? || forall c :: c in e.items ==> Buildable(c))
    && forall c :: c in e.after ==> Buildable(c)
  }

  predicate Disjoint(cs: seq<Element>) {
    forall i, j :: 0 <= i < j < |cs| ==> Asked(cs[i]) !! Asked(cs[j])
  }

  /** Every job is used once. */
  predicate UsedOnce(e: Element) {
    && Disjoint(Items(e)) && Disjoint(e.after)
    && (forall c, a :: c in Items(e) && a in e.after ==> Asked(c) !! Asked(a))
    && (e.Job? ==> forall a :: a in e.after ==> e.id !in Asked(a))
    && (e.Job? || forall c :: c in e.items ==> UsedOnce(c))
    && (forall c :: c in e.after ==> UsedOnce(c))
  }

  ghost predicate Tree(e: Element) {
    Buildable(e) && UsedOnce(e)
  }

  /** `e` occurs in `root`. */
  ghost predicate Inside(root: Element, e: Element) {
    || e == root
    || (!root.Job? && exists c :: c in root.items && Inside(c, e))
    || (!(root.Group? && root.items == []) && exists c :: c in root.after && Inside(c, e))
  }

  /** `u` comes before `v` as a whole: the job before its followers, an item before the followers,
      an item of a chain before the later ones. */
  ghost predicate Ordered(e: Element, u: Element, v: Element) {
    || (e.Job? && u == e && v in e.after)
    || (u in Items(e) && v in Followers(e))
    || (e.Chain? && exists i, j :: 0 <= i < j < |e.items| && u == e.items[i] && v == e.items[j])
  }

  /** The order that is asked for: x is done before y starts. */
  ghost predicate Precedes(e: Element, x: JobId, y: JobId) {
    || (!e.Job? && exists c :: c in e.items && Precedes(c, x, y))
    || (!(e.Group? && e.items == []) && exists a :: a in e.after && Precedes(a, x, y))
    || (exists u, v :: Ordered(e, u, v) && x in Main(u) && y in All(v))
  }

  lemma {:induction false} MainInAll(e: Element)
    ensures Main(e) <= All(e) <= Asked(e)
  {
    if !e.Job? {
      forall c | c in e.items { MainInAll(c); }
    }
    forall c | c in e.after { MainInAll(c); }
  }

  /** The child that holds a job is unique. */
  lemma {:induction false} SameChild(e: Element, c: Element, d: Element, x: JobId)
    requires UsedOnce(e) && Child(e, c) && Child(e, d) && x in Asked(c) && x in Asked(d)
    ensures c == d
  {
    hide Asked;
    if c in Items(e) && d in Items(e) {
      SameMember(Items(e), c, d, x);
    } else if c in e.after && d in e.after {
      SameMember(e.after, c, d, x);
    }
  }

  lemma SameMember(cs: seq<Element>, c: Element, d: Element, x: JobId)
    requires Disjoint(cs) && c in cs && d in cs && x in Asked(c) && x in Asked(d)
    ensures c == d
  {
    hide Asked;
    var i :| 0 <= i < |cs| && cs[i] == c;
    var j :| 0 <= j < |cs| && cs[j] == d;
  }

  lemma {:induction false} ChildTree(e: Element, c: Element)
    requires Child(e, c)
    ensures Tree(e) ==> Tree(c)
    ensures All(c) <= All(e) && Asked(c) <= Asked(e)
    ensures c in Items(e) ==> Main(c) <= Main(e)
  {
  }

  /** `x` and `y` part at `e`: they lie in two children, or `x` is the job of `e` and `y` follows it. */
  ghost predicate Apart(e: Element, u: Element, v: Element, x: JobId, y: JobId) {
    && Child(e, v) && x in All(u) && y in All(v)
    && if e.Job? then u == e && x == e.id else Child(e, u) && u != v
  }

  lemma {:induction false} ApartInAll(e: Element, u: Element, v: Element, x: JobId, y: JobId)
    requires Apart(e, u, v, x, y)
    ensures x in All(e) && y in All(e)
  {
    ChildTree(e, v);
    if !e.Job? { ChildTree(e, u); }
  }

  /** An ordered pair of children that hold jobs is a pair of different children. */
  lemma {:induction false} OrderedApart(e: Element, u: Element, v: Element, x: JobId, y: JobId)
    requires Tree(e) && Ordered(e, u, v) && x in Main(u) && y in All(v)
    ensures Apart(e, u, v, x, y) && x in All(e) && y in All(e)
  {
    MainInAll(u);
    MainInAll(v);
    hide All, Asked, Main;
    if e.Job? {
      assert Main(e) == {e.id} by { JobMain(e); }
    } else {
      OrderedDiffer(e, u, v, x, y);
    }
    ApartInAll(e, u, v, x, y);
  }

  lemma {:induction false} JobMain(e: Element)
    requires e.Job?
    ensures Main(e) == {e.id}
  {
  }

  lemma {:induction false} OrderedDiffer(e: Element, u: Element, v: Element, x: JobId, y: JobId)
    requires Tree(e) && !e.Job? && Ordered(e, u, v) && x in Asked(u) && y in Asked(v)
    ensures Child(e, u) && Child(e, v) && u != v && !Ordered(e, v, u)
  {
    hide Asked;
    assert Disjoint(e.items);
  }

  /** Why x precedes y in e: inside one child, or across two ordered ones. */
  lemma {:induction false} PrecedesCases(e: Element, x: JobId, y: JobId) returns (u: Element, v: Element)
    requires Tree(e) && Precedes(e, x, y)
    ensures || (u == v && Child(e, u) && Precedes(u, x, y))
            || (Ordered(e, u, v) && Apart(e, u, v, x, y) && x in Main(u))
  {
    if !e.Job? && exists b :: b in e.items && Precedes(b, x, y) {
      u :| u in e.items && Precedes(u, x, y);
      v := u;
    } else if exists a :: a in Followers(e) && Precedes(a, x, y) {
      u :| u in Followers(e) && Precedes(u, x, y);
      v := u;
    } else {
      u, v :| Ordered(e, u, v) && x in Main(u) && y in All(v);
      OrderedApart(e, u, v, x, y);
    }
  }

  lemma {:induction false} PrecedesInAll(e: Element, x: JobId, y: JobId)
    requires Tree(e) && Precedes(e, x, y)
    ensures x in All(e) && y in All(e)
  {
    var u, v := PrecedesCases(e, x, y);
    if u == v && Child(e, u) && Precedes(u, x, y) {
      ChildTree(e, u);
      PrecedesInAll(u, x, y);
    } else {
      ApartInAll(e, u, v, x, y);
    }
  }

  /** Two jobs of one child are ordered inside that child. */
  lemma {:induction false} PrecedesSameChild(e: Element, c: Element, x: JobId, y: JobId)
    requires Tree(e) && Child(e, c) && x in All(c) && y in All(c) && Precedes(e, x, y)
    ensures Precedes(c, x, y)
  {
    var u, v := PrecedesCases(e, x, y);
    hide All, Asked, Main, Precedes, Ordered, Buildable;
    MainInAll(c);
    if u == v && Child(e, u) && Precedes(u, x, y) {
      ChildTree(e, u);
      PrecedesInAll(u, x, y);
      MainInAll(u);
      SameChild(e, c, u, x);
    } else {
      NotBoth(e, u, v, c, x, y);
    }
  }

  lemma {:induction false} NotBoth(e: Element, u: Element, v: Element, c: Element, x: JobId, y: JobId)
    requires UsedOnce(e) && Apart(e, u, v, x, y) && Child(e, c)
    ensures !(x in Asked(c) && y in Asked(c))
  {
    MainInAll(u);
    MainInAll(v);
    if x in Asked(c) && y in Asked(c) {
      SameChild(e, c, v, y);
      if !e.Job? { SameChild(e, c, u, x); }
    }
  }

  /** Jobs that part at e are ordered there only by the order of the children. */
  lemma {:induction false} PrecedesAcross(e: Element, u: Element, v: Element, x: JobId, y: JobId)
    requires Tree(e) && Apart(e, u, v, x, y) && Precedes(e, x, y)
    ensures Ordered(e, u, v) && x in Main(u)
  {
    var b, f := PrecedesCases(e, x, y);
    hide All, Asked, Main, Precedes, Ordered, Buildable;
    if b == f && Child(e, b) && Precedes(b, x, y) {
      ChildTree(e, b);
      PrecedesInAll(b, x, y);
      MainInAll(b);
      NotBoth(e, u, v, b, x, y);
    } else {
      SameParting(e, u, v, b, f, x, y);
    }
  }

  lemma {:induction false} SameParting(e: Element, u: Element, v: Element, u': Element, v': Element, x: JobId, y: JobId)
    requires UsedOnce(e) && Apart(e, u, v, x, y) && Apart(e, u', v', x, y)
    ensures u == u' && v == v'
  {
    MainInAll(u);
    MainInAll(v);
    MainInAll(u');
    MainInAll(v');
    SameChild(e, v, v', y);
    if !e.Job? { SameChild(e, u, u', x); }
  }

  lemma {:induction false} PrecedesIrreflexive(e: Element, x: JobId)
    requires Tree(e)
    ensures !Precedes(e, x, x)
  {
    if Precedes(e, x, x) {
      var u, v := PrecedesCases(e, x, x);
      if u == v && Child(e, u) && Precedes(u, x, x) {
        ChildTree(e, u);
        PrecedesIrreflexive(u, x);
      } else {
        MainInAll(v);
        NotBoth(e, u, v, v, x, x);
      }
    }
  }

  /** Whatever comes before a job of the element proper is itself part of the element proper. */
  lemma {:induction false} PredecessorOfMain(e: Element, x: JobId, y: JobId)
    requires Tree(e) && Precedes(e, x, y) && y in Main(e)
    ensures x in Main(e)
  {
    var u, v := PrecedesCases(e, x, y);
    MainInAll(e);
    MainInAll(v);
    if u == v && Child(e, u) && Precedes(u, x, y) {
      ChildTree(e, u);
      PrecedesInAll(u, x, y);
      MainOfItem(e, u, y);
      PredecessorOfMain(u, x, y);
    } else {
      MainOfItem(e, v, y);
      if u in Items(e) { ChildTree(e, u); }
    }
  }

  /** A job of the element proper lies in an item, never behind `after`. */
  lemma {:induction false} MainOfItem(e: Element, c: Element, x: JobId)
    requires UsedOnce(e) && Child(e, c) && x in Asked(c) && x in Main(e)
    ensures !e.Job? && c in e.items && x in Main(c)
  {
    if e.Job? {
      assert false;
    } else {
      var d :| d in e.items && x in Main(d);
      MainInAll(d);
      SameChild(e, c, d, x);
    }
  }

  lemma PrecedesOfChild(e: Element, c: Element, x: JobId, y: JobId)
    requires Child(e, c) && Precedes(c, x, y)
    ensures Precedes(e, x, y)
  {
  }

  lemma {:induction false} OrderedTrans(e: Element, u: Element, v: Element, w: Element, y: JobId)
    requires Tree(e) && Ordered(e, u, v) && Ordered(e, v, w) && y in Asked(v) && (e.Job? ==> v != e)
    ensures Ordered(e, u, w)
  {
    hide Asked;
    assert Disjoint(Items(e));
    if v in Items(e) && v in Followers(e) { assert false; }
  }

  /** The order is transitive. */
  lemma {:induction false} PrecedesTrans(e: Element, x: JobId, y: JobId, z: JobId)
    requires Tree(e) && Precedes(e, x, y) && Precedes(e, y, z)
    ensures Precedes(e, x, z)
    decreases e, 1
  {
    hide *;
    var u, v := PrecedesCases(e, x, y);
    var u', v' := PrecedesCases(e, y, z);
    if u == v && Child(e, u) && Precedes(u, x, y) {
      TransBelow(e, u, u', v', x, y, z);
    } else {
      TransAcross(e, u, v, u', v', x, y, z);
    }
  }

  lemma {:induction false} TransBelow(e: Element, c: Element, u: Element, v: Element, x: JobId, y: JobId, z: JobId)
    requires Tree(e) && Child(e, c) && Precedes(c, x, y)
    requires || (u == v && Child(e, u) && Precedes(u, y, z))
             || (Ordered(e, u, v) && Apart(e, u, v, y, z) && y in Main(u))
    ensures Precedes(e, x, z)
    decreases e, 0
  {
    ChildTree(e, c);
    PrecedesInAll(c, x, y);
    MainInAll(c);
    if u == v && Child(e, u) && Precedes(u, y, z) {
      ChildTree(e, u);
      PrecedesInAll(u, y, z);
      MainInAll(u);
      SameChild(e, c, u, y);
      PrecedesTrans(c, x, y, z);
      PrecedesOfChild(e, c, x, z);
    } else {
      MainInAll(u);
      JobIsNotBelow(e, u, v, c, y, z);
      SameChild(e, c, u, y);
      PredecessorOfMain(c, x, y);
    }
  }

  lemma {:induction false} JobIsNotBelow(e: Element, u: Element, v: Element, c: Element, x: JobId, y: JobId)
    requires UsedOnce(e) && Apart(e, u, v, x, y) && Child(e, c) && x in Asked(c)
    ensures !e.Job?
  {
  }

  lemma {:induction false} TransAcross(e: Element, u: Element, v: Element, u': Element, v': Element,
                                       x: JobId, y: JobId, z: JobId)
    requires Tree(e) && Ordered(e, u, v) && Apart(e, u, v, x, y) && x in Main(u)
    requires || (u' == v' && Child(e, u') && Precedes(u', y, z))
             || (Ordered(e, u', v') && Apart(e, u', v', y, z) && y in Main(u'))
    ensures Precedes(e, x, z)
  {
    MainInAll(v);
    MainInAll(u');
    if u' == v' && Child(e, u') && Precedes(u', y, z) {
      ChildTree(e, u');
      PrecedesInAll(u', y, z);
      SameChild(e, v, u', y);
    } else {
      JobIsNotBelow(e, u', v', v, y, z);
      SameChild(e, v, u', y);
      OrderedTrans(e, u, v, v', y);
    }
  }

  lemma {:induction false} InsideStep(root: Element, e: Element) returns (c: Element)
    requires Inside(root, e) && e != root
    ensures Child(root, c) && Inside(c, e) && c < root
  {
    if !root.Job? && exists b :: b in root.items && Inside(b, e) {
      c :| c in root.items && Inside(c, e);
    } else {
      c :| c in root.after && Inside(c, e);
    }
  }

  lemma {:induction false} PrecedesLift(root: Element, e: Element, x: JobId, y: JobId)
    requires Inside(root, e) && Precedes(e, x, y)
    ensures Precedes(root, x, y)
  {
    if e != root {
      var c := InsideStep(root, e);
      PrecedesLift(c, e, x, y);
      PrecedesOfChild(root, c, x, y);
    }
  }

  lemma {:induction false} InsideTree(root: Element, e: Element)
    requires Inside(root, e)
    ensures Tree(root) ==> Tree(e)
    ensures All(e) <= All(root)
  {
    if e != root {
      var c := InsideStep(root, e);
      ChildTree(root, c);
      InsideTree(c, e);
    }
  }

  lemma {:induction false} InsideTrans(a: Element, b: Element, c: Element)
    requires Inside(a, b) && Inside(b, c)
    ensures Inside(a, c)
  {
    if a != b {
      var d := InsideStep(a, b);
      InsideTrans(d, b, c);
      assert Child(a, d) && Inside(d, c);
    }
  }

  /** Order between two jobs of a part is decided inside that part. */
  lemma {:induction false} PrecedesLocal(root: Element, e: Element, x: JobId, y: JobId)
    requires Tree(root) && Inside(root, e) && x in All(e) && y in All(e) && Precedes(root, x, y)
    ensures Precedes(e, x, y)
  {
    if e != root {
      var c := InsideStep(root, e);
      ChildTree(root, c);
      InsideTree(c, e);
      PrecedesSameChild(root, c, x, y);
      PrecedesLocal(c, e, x, y);
    }
  }

  /** Ordered jobs part at some element, where their children are ordered. */
  lemma {:induction false} MeetingPoint(root: Element, x: JobId, y: JobId) returns (m: Element, u: Element, v: Element)
    requires Tree(root) && Precedes(root, x, y)
    ensures Inside(root, m) && Apart(m, u, v, x, y) && Ordered(m, u, v) && x in Main(u)
  {
    u, v := PrecedesCases(root, x, y);
    if u == v && Child(root, u) && Precedes(u, x, y) {
      var c := u;
      ChildTree(root, c);
      m, u, v := MeetingPoint(c, x, y);
      assert Child(root, c) && Inside(c, m);
    } else {
      m := root;
    }
  }

  /** Two jobs part at one element only. */
  lemma {:induction false} MeetingUnique(root: Element, m: Element, u: Element, v: Element,
                                         m': Element, u': Element, v': Element, x: JobId, y: JobId)
    requires Tree(root) && Inside(root, m) && Apart(m, u, v, x, y) && Inside(root, m') && Apart(m', u', v', x, y)
    ensures m == m' && u == u' && v == v'
  {
    if m == root {
      MeetsAtTop(root, u, v, m', u', v', x, y);
      SameParting(root, u, v, u', v', x, y);
    } else if m' == root {
      MeetsAtTop(root, u', v', m, u, v, x, y);
    } else {
      var c := InsideStep(root, m);
      var c' := InsideStep(root, m');
      ChildTree(root, c);
      InsideTree(c, m);
      InsideTree(c', m');
      ApartInAll(m, u, v, x, y);
      ApartInAll(m', u', v', x, y);
      MainInAll(c);
      MainInAll(c');
      SameChild(root, c, c', x);
      MeetingUnique(c, m, u, v, m', u', v', x, y);
    }
  }

  lemma {:induction false} MeetsAtTop(root: Element, u: Element, v: Element,
                                      m: Element, u': Element, v': Element, x: JobId, y: JobId)
    requires Tree(root) && Apart(root, u, v, x, y) && Inside(root, m) && Apart(m, u', v', x, y)
    ensures m == root
  {
    if m != root {
      var c := InsideStep(root, m);
      InsideTree(c, m);
      ApartInAll(m, u', v', x, y);
      MainInAll(c);
      NotBoth(root, u, v, c, x, y);
    }
  }
}
