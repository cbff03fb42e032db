/** The dependency graph of crose/queue_job/delay.py: edges, Kahn's ordering, simple-path search. */
module Graphs {
  import opened Digraph

  function WithVertex<V(==)>(g: map<V, set<V>>, v: V): map<V, set<V>> {
    if v in g then g else g[v := {}]
  }

  function WithEdge<V(==)>(g: map<V, set<V>>, parent: V, child: V): map<V, set<V>> {
    var h := WithVertex(g, child);
    h[parent := (if parent in h then h[parent] else {}) + {child}]
  }

  lemma WithVertexMeaning<V(!new)>(g: map<V, set<V>>, v: V)
    ensures WithVertex(g, v).Keys == g.Keys + {v}
    ensures forall a, b :: Edge(WithVertex(g, v), a, b) <==> Edge(g, a, b)
  {
    assert forall a, b :: Edge(WithVertex(g, v), a, b) ==> Edge(g, a, b);
    assert forall a, b :: Edge(g, a, b) ==> Edge(WithVertex(g, v), a, b);
  }

  /** Adding an edge adds exactly that edge, keeps the graph closed, and is idempotent. */
  lemma WithEdgeMeaning<V(!new)>(g: map<V, set<V>>, parent: V, child: V)
    ensures WithEdge(g, parent, child).Keys == g.Keys + {parent, child}
    ensures forall u, v :: Edge(WithEdge(g, parent, child), u, v) <==> Edge(g, u, v) || (u == parent && v == child)
    ensures Closed(g) ==> Closed(WithEdge(g, parent, child))
    ensures WithEdge(WithEdge(g, parent, child), parent, child) == WithEdge(g, parent, child)
  {
    var h := WithEdge(g, parent, child);
    forall u, v
      ensures Edge(h, u, v) <==> Edge(g, u, v) || (u == parent && v == child)
    {
    }
    assert h[parent] + {child} == h[parent];
    assert WithEdge(h, parent, child) == h;
  }

  /** Vertices without incoming edges. */
  ghost function Roots<V>(g: map<V, set<V>>): set<V> {
    set v | v in g && forall u :: u in g ==> v !in g[u]
  }

  /** Parents of v that are not yet in `done`. */
  ghost function Unresolved<V>(g: map<V, set<V>>, done: set<V>, v: V): set<V> {
    set u | u in g && v in g[u] && u !in done
  }

  ghost predicate ParentsFirst<V(!new)>(g: map<V, set<V>>, order: seq<V>) {
    forall i, u :: 0 <= i < |order| && Edge(g, u, order[i]) ==> u in order[..i]
  }

  ghost function IndexIn<V>(s: seq<V>, v: V): (i: nat)
    requires v in s
    ensures i < |s| && s[i] == v
  {
    var i: nat :| i < |s| && s[i] == v;
    i
  }

  /** v, if emitted, has u emitted at a smaller index. */
  ghost predicate Before<V>(order: seq<V>, u: V, v: V) {
    v in order ==> u in order && IndexIn(order, u) < IndexIn(order, v)
  }

  /** Dependency order extends from edges to whole chains of dependencies. */
  lemma AncestorsFirst<V(!new)>(g: map<V, set<V>>, order: seq<V>, u: V, v: V)
    requires NoDup(order) && ParentsFirst(g, order) && Reaches(g, u, v)
    ensures Before(order, u, v)
  {
    forall a, b | Edge(g, a, b) ensures Before(order, a, b) {
      if b in order {
        var i := IndexIn(order, b);
        assert a in order[..i];
        var k :| 0 <= k < i && order[k] == a;
        assert IndexIn(order, a) == k;
      }
    }
    var p :| WalkBetween(g, p, u, v);
    WalkInduction(g, p, (a, b) => Before(order, a, b));
  }

  /** A run of Kahn's algorithm that can emit nothing more has emitted exactly
      the vertices that no cycle leads to. */
  lemma EmittedIffNotBehindCycle<V(!new)>(g: map<V, set<V>>, order: seq<V>)
    requires NoDup(order) && Elems(order) <= g.Keys && ParentsFirst(g, order)
    requires forall v :: v in g ==> (v in order <==> Unresolved(g, Elems(order), v) == {})
    ensures forall v :: v in order <==> v in g && !BehindCycle(g, v)
  {
    var left := g.Keys - Elems(order);
    forall v {:trigger HasParentIn(g, left, v)} | v in left ensures HasParentIn(g, left, v) {
      var u :| u in Unresolved(g, Elems(order), v);
      assert u in left && Edge(g, u, v);
    }
    forall v | v in left ensures BehindCycle(g, v) {
      SourceFreeIsBehindCycle(g, left, v);
    }
    forall v | v in order && BehindCycle(g, v) ensures false {
      var c :| OnCycle(g, c) && ReachesOrIs(g, c, v);
      if c != v { AncestorsFirst(g, order, c, v); }
      AncestorsFirst(g, order, c, c);
    }
    forall v ensures v in order <==> v in g && !BehindCycle(g, v) {
      if v in order { assert v in Elems(order); }
    }
  }

  /** A counter that starts at zero for every key. */
  function Count<V(==)>(m: map<V, int>, v: V): int {
    if v in m then m[v] else 0
  }

  ghost function Sources<V>(links: seq<(V, V)>, v: V): set<V> {
    set l | l in links && l.1 == v :: l.0
  }

  lemma SourceOf<V(!new)>(links: seq<(V, V)>, u: V, v: V)
    ensures u in Sources(links, v) <==> (u, v) in links
  {
    if (u, v) in links {
      assert (u, v).1 == v;
    }
  }

  lemma SourcesStep<V(!new)>(links: seq<(V, V)>, l: (V, V), v: V)
    requires l !in links
    ensures |Sources(links + [l], v)| == |Sources(links, v)| + (if v == l.1 then 1 else 0)
  {
    SourceOf(links, l.0, l.1);
    var more := links + [l];
    assert forall m :: m in more <==> m in links || m == l;
    if v == l.1 {
      assert Sources(more, v) == Sources(links, v) + {l.0};
    } else {
      assert Sources(more, v) == Sources(links, v);
    }
  }

  method ListOf<V(==)>(s: set<V>) returns (r: seq<V>)
    ensures NoDup(r) && Elems(r) == s
  {
    r := [];
    var todo := s;
    while todo != {}
      invariant NoDup(r) && todo <= s && Elems(r) == s - todo
      decreases todo
    {
      var v :| v in todo;
      todo := todo - {v};
      r := r + [v];
      assert Elems(r) == Elems(r[..|r| - 1]) + {v};
    }
  }

  /** What holds between two iterations of the queue loop: the queue holds exactly the
      vertices whose parents are all emitted, the counters count the other parents. */
  ghost predicate Kahn<V(!new)>(g: map<V, set<V>>, order: seq<V>, queue: seq<V>, depends: map<V, int>) {
    && NoDup(order + queue) && Elems(order + queue) <= g.Keys
    && ParentsFirst(g, order)
    && forall v :: v in g ==>
      Count(depends, v) == |Unresolved(g, Elems(order), v)| &&
      (v in order + queue <==> Unresolved(g, Elems(order), v) == {})
  }

  /** The vertices emitted as far as `v` is concerned: the children still in `todo`
      have not yet been told about `vertex`. */
  ghost function Told<V>(emitted: seq<V>, vertex: V, todo: set<V>, v: V): set<V> {
    Elems(emitted) + (if v in todo then {} else {vertex})
  }

  ghost predicate KahnInner<V(!new)>(g: map<V, set<V>>, emitted: seq<V>, vertex: V, todo: set<V>,
                                     queue: seq<V>, depends: map<V, int>) {
    && NoDup(emitted + [vertex] + queue) && Elems(emitted + [vertex] + queue) <= g.Keys
    && ParentsFirst(g, emitted + [vertex])
    && Counting(g, emitted, vertex, todo, emitted + [vertex] + queue, depends)
  }

  ghost predicate Counting<V(!new)>(g: map<V, set<V>>, emitted: seq<V>, vertex: V, todo: set<V>,
                                    listed: seq<V>, depends: map<V, int>) {
    forall v :: v in g ==>
      Count(depends, v) == |Unresolved(g, Told(emitted, vertex, todo, v), v)| &&
      (v in listed <==> Unresolved(g, Told(emitted, vertex, todo, v), v) == {})
  }

  lemma KahnStart<V(!new)>(g: map<V, set<V>>, queue: seq<V>, depends: map<V, int>)
    requires NoDup(queue) && Elems(queue) == Roots(g)
    requires forall v :: Count(depends, v) == |Unresolved(g, {}, v)|
    ensures Kahn(g, [], queue, depends)
  {
    assert [] + queue == queue;
    assert Elems<V>([]) == {};
    forall v | v in g ensures v in queue <==> Unresolved(g, {}, v) == {} {
      assert v in queue <==> v in Elems(queue);
      if v !in Roots(g) {
        var u :| u in g && v in g[u];
        assert u in Unresolved(g, {}, v);
      } else {
        assert forall u :: u !in Unresolved(g, {}, v);
      }
    }
  }

  lemma KahnStop<V(!new)>(g: map<V, set<V>>, order: seq<V>, depends: map<V, int>)
    requires Kahn(g, order, [], depends)
    ensures NoDup(order) && ParentsFirst(g, order)
    ensures forall v :: v in order <==> v in g && !BehindCycle(g, v)
  {
    assert order + [] == order;
    EmittedIffNotBehindCycle(g, order);
  }

  lemma KahnPop<V(!new)>(g: map<V, set<V>>, emitted: seq<V>, vertex: V, queue: seq<V>, depends: map<V, int>)
    requires Kahn(g, emitted, [vertex] + queue, depends)
    ensures vertex in g && KahnInner(g, emitted, vertex, g[vertex], queue, depends)
    ensures |emitted| < |g|
  {
    var all := emitted + [vertex] + queue;
    assert all == emitted + ([vertex] + queue);
    assert vertex in all && vertex in Elems(all);
    assert Unresolved(g, Elems(emitted), vertex) == {};
    var order := emitted + [vertex];
    forall i, u | 0 <= i < |order| && Edge(g, u, order[i]) ensures u in order[..i] {
      if i < |emitted| {
        assert order[..i] == emitted[..i];
      } else {
        assert order[..i] == emitted;
        assert u !in Unresolved(g, Elems(emitted), vertex);
      }
    }
    forall v | v in g
      ensures Unresolved(g, Told(emitted, vertex, g[vertex], v), v) == Unresolved(g, Elems(emitted), v)
    {
    }
    assert NoDup(order) by {
      forall i, j | 0 <= i < j < |order| ensures order[i] != order[j] {
        assert all[i] == order[i] && all[j] == order[j];
      }
    }
    assert Elems(order) <= Elems(all);
    NoDupBound(order, g.Keys);
    assert |g.Keys| == |g|;
  }

  lemma KahnChild<V(!new)>(g: map<V, set<V>>, emitted: seq<V>, vertex: V, todo: set<V>, node: V,
                           queue: seq<V>, depends: map<V, int>)
    requires KahnInner(g, emitted, vertex, todo, queue, depends) && Closed(g)
    requires node in todo && todo <= g[vertex] && vertex in g
    ensures node in g && Count(depends, node) > 0
    ensures Unresolved(g, Told(emitted, vertex, todo, node), node) ==
            Unresolved(g, Told(emitted, vertex, todo - {node}, node), node) + {vertex}
    ensures |Unresolved(g, Told(emitted, vertex, todo, node), node)| ==
            |Unresolved(g, Told(emitted, vertex, todo - {node}, node), node)| + 1
    ensures node !in emitted + [vertex] + queue
  {
    assert Edge(g, vertex, node);
    var all := emitted + [vertex] + queue;
    assert vertex !in Elems(emitted) by {
      forall i | 0 <= i < |emitted| ensures emitted[i] != vertex {
        assert all[i] != all[|emitted|];
      }
    }
    assert vertex in Unresolved(g, Told(emitted, vertex, todo, node), node);
  }

  lemma {:induction false} KahnDecrement<V(!new)>(g: map<V, set<V>>, emitted: seq<V>, vertex: V, todo: set<V>, node: V,
                               queue: seq<V>, depends: map<V, int>, queue': seq<V>, depends': map<V, int>)
    requires KahnInner(g, emitted, vertex, todo, queue, depends) && Closed(g)
    requires node in todo && vertex in g && todo <= g[vertex]
    requires Count(depends, node) > 0 && depends' == depends[node := Count(depends, node) - 1]
    requires queue' == if depends'[node] == 0 then queue + [node] else queue
    ensures KahnInner(g, emitted, vertex, todo - {node}, queue', depends')
  {
    KahnChild(g, emitted, vertex, todo, node, queue, depends);
    var all := emitted + [vertex] + queue;
    var all' := emitted + [vertex] + queue';
    AppendFresh(all, node);
    assert all' == if depends'[node] == 0 then all + [node] else all;
    hide Unresolved, ParentsFirst, NoDup, Counting;
    CountingStep(g, emitted, vertex, todo, node, all, depends, all', depends');
  }

  lemma {:induction false} CountingStep<V(!new)>(g: map<V, set<V>>, emitted: seq<V>, vertex: V, todo: set<V>, node: V,
                              all: seq<V>, depends: map<V, int>, all': seq<V>, depends': map<V, int>)
    requires Counting(g, emitted, vertex, todo, all, depends)
    requires |Unresolved(g, Told(emitted, vertex, todo, node), node)| ==
             |Unresolved(g, Told(emitted, vertex, todo - {node}, node), node)| + 1
    requires depends' == depends[node := Count(depends, node) - 1] && node in g && node !in all
    requires all' == if depends'[node] == 0 then all + [node] else all
    ensures Counting(g, emitted, vertex, todo - {node}, all', depends')
  {
    forall v | v in g
      ensures Count(depends', v) == |Unresolved(g, Told(emitted, vertex, todo - {node}, v), v)|
      ensures v in all' <==> Unresolved(g, Told(emitted, vertex, todo - {node}, v), v) == {}
    {
      if v != node {
        assert Told(emitted, vertex, todo - {node}, v) == Told(emitted, vertex, todo, v);
      }
    }
  }

  lemma AppendFresh<V>(s: seq<V>, v: V)
    requires NoDup(s) && v !in s
    ensures NoDup(s + [v]) && Elems(s + [v]) == Elems(s) + {v}
    ensures forall u :: u in s + [v] <==> u in s || u == v
  {
  }

  lemma {:induction false} KahnNext<V(!new)>(g: map<V, set<V>>, emitted: seq<V>, vertex: V, queue: seq<V>,
                                             depends: map<V, int>)
    requires KahnInner(g, emitted, vertex, {}, queue, depends)
    ensures Kahn(g, emitted + [vertex], queue, depends)
  {
    assert Elems(emitted + [vertex]) == Elems(emitted) + {vertex};
  }

  /** On an acyclic graph the emitted vertices are all of them: the result is a permutation
      in which every ancestor comes first. */
  lemma AcyclicOrderIsComplete<V(!new)>(g: map<V, set<V>>, order: seq<V>)
    requires Closed(g) && Acyclic(g) && NoDup(order) && ParentsFirst(g, order)
    requires forall v :: v in order <==> v in g && !BehindCycle(g, v)
    ensures Elems(order) == g.Keys && |order| == |g|
    ensures forall u, v :: Reaches(g, u, v) ==> u in order && v in order && IndexIn(order, u) < IndexIn(order, v)
  {
    NoDupCard(order);
    assert forall v :: !BehindCycle(g, v);
    assert Elems(order) == g.Keys;
    assert |g.Keys| == |g|;
    forall u, v | Reaches(g, u, v)
      ensures u in order && v in order && IndexIn(order, u) < IndexIn(order, v)
    {
      AncestorsFirst(g, order, u, v);
      if v !in order {
        VertexOfReach(g, u, v);
      }
    }
  }

  lemma VertexOfReach<V(!new)>(g: map<V, set<V>>, u: V, v: V)
    requires Reaches(g, u, v)
    ensures u in g && (Closed(g) ==> v in g)
  {
    var w := FirstStep(g, u, v);
    var x := LastStep(g, u, v);
  }

  ghost predicate SimplePath<V(!new)>(g: map<V, set<V>>, p: seq<V>) {
    |p| > 0 && IsWalk(g, p) && NoDup(p) && Elems(p) <= g.Keys
  }

  /** A cycle-free path that no neighbour of its last vertex can extend. */
  ghost predicate MaximalPath<V(!new)>(g: map<V, set<V>>, p: seq<V>) {
    SimplePath(g, p) && forall n :: n in g[p[|p| - 1]] ==> n in p
  }

  /** `found` lists every maximal path that extends `prefix`, each once, and nothing else. */
  ghost predicate Enumerates<V(!new)>(g: map<V, set<V>>, prefix: seq<V>, found: seq<seq<V>>) {
    NoDup(found) && forall p :: p in found <==> MaximalPath(g, p) && prefix <= p
  }

  /** The same, restricted to extensions whose first added vertex is in `next`. */
  ghost predicate EnumeratesVia<V(!new)>(g: map<V, set<V>>, prefix: seq<V>, next: set<V>, found: seq<seq<V>>) {
    NoDup(found) && forall p :: p in found <==> MaximalPath(g, p) && prefix < p && p[|prefix|] in next
  }

  lemma ExtendSimple<V(!new)>(g: map<V, set<V>>, p: seq<V>, n: V)
    requires Closed(g) && SimplePath(g, p) && n in g[p[|p| - 1]] && n !in p
    ensures SimplePath(g, p + [n])
    ensures |g.Keys - Elems(p + [n])| < |g.Keys - Elems(p)|
  {
    var q := p + [n];
    assert Edge(g, p[|p| - 1], n);
    forall i: nat | i + 1 < |q| ensures StepAt(g, q, i) {
      if i + 1 < |p| { assert StepAt(g, p, i); }
    }
    assert Elems(q) == Elems(p) + {n};
    assert g.Keys - Elems(p) == (g.Keys - Elems(q)) + {n};
  }

  lemma MergeBranch<V(!new)>(g: map<V, set<V>>, path: seq<V>, next: set<V>, n: V, a: seq<seq<V>>, b: seq<seq<V>>)
    requires EnumeratesVia(g, path, next, a) && n !in next && Enumerates(g, path + [n], b)
    ensures EnumeratesVia(g, path, next + {n}, a + b)
  {
    forall p ensures p in a + b <==> MaximalPath(g, p) && path < p && p[|path|] in next + {n} {
      assert p in a + b <==> p in a || p in b;
      assert path + [n] <= p <==> path < p && p[|path|] == n;
    }
    forall i, j | 0 <= i < j < |a + b| ensures (a + b)[i] != (a + b)[j] {
      if i < |a| <= j {
        assert a[i] in a && b[j - |a|] in b;
      }
    }
  }

  lemma SkipSeen<V(!new)>(g: map<V, set<V>>, path: seq<V>, next: set<V>, n: V, a: seq<seq<V>>)
    requires EnumeratesVia(g, path, next, a) && n in path
    ensures EnumeratesVia(g, path, next + {n}, a)
  {
    var i :| 0 <= i < |path| && path[i] == n;
    forall p | MaximalPath(g, p) && path < p ensures p[|path|] != n {
      assert p[i] == n;
    }
  }

  lemma FinishBranches<V(!new)>(g: map<V, set<V>>, path: seq<V>, deadEnd: bool, a: seq<seq<V>>)
    requires SimplePath(g, path) && EnumeratesVia(g, path, g[path[|path| - 1]], a)
    requires deadEnd <==> forall n :: n in g[path[|path| - 1]] ==> n in path
    ensures Enumerates(g, path, if deadEnd then a + [path] else a)
  {
    var last := |path| - 1;
    var r := if deadEnd then a + [path] else a;
    forall p ensures p in r <==> MaximalPath(g, p) && path <= p {
      assert p in r <==> p in a || (deadEnd && p == path);
      if p == path {
        assert MaximalPath(g, path) <==> deadEnd;
      } else if MaximalPath(g, p) && path <= p {
        assert StepAt(g, p, last);
        assert p[last] == path[last];
      }
    }
    assert path !in a;
  }

  /** The traversal state that the inner generator of `paths` closes over. */
  class PathSearch<V(==,!new)> {
    const g: map<V, set<V>>
    var path: seq<V>
    var seen: set<V>
    var found: seq<seq<V>>

    constructor (g: map<V, set<V>>, vertex: V)
      ensures this.g == g && path == [vertex] && seen == {vertex} && found == []
    {
      this.g, path, seen, found := g, [vertex], {vertex}, [];
    }

    /** Appends all maximal extensions of `path` and leaves `path` and `seen` as they were. */
    method Search() returns (ghost added: seq<seq<V>>)
      requires Closed(g) && SimplePath(g, path) && seen == Elems(path)
      modifies this
      ensures path == old(path) && seen == old(seen)
      ensures found == old(found) + added && Enumerates(g, path, added)
      decreases |g.Keys - Elems(path)|, 1
    {
      var deadEnd := true;
      var neighbours := g[path[|path| - 1]];
      var todo := neighbours;
      added := [];
      while todo != {}
        invariant path == old(path) && seen == old(seen) && todo <= neighbours
        invariant found == old(found) + added && EnumeratesVia(g, path, neighbours - todo, added)
        invariant deadEnd <==> forall n :: n in neighbours - todo ==> n in path
        decreases todo
      {
        var neighbour :| neighbour in todo;
        ghost var next := neighbours - todo;
        todo := todo - {neighbour};
        assert neighbours - todo == next + {neighbour};
        if neighbour !in seen {
          deadEnd := false;
          ghost var more := Descend(neighbour);
          MergeBranch(g, path, next, neighbour, added, more);
          added := added + more;
        } else {
          SkipSeen(g, path, next, neighbour, added);
        }
      }
      assert neighbours - todo == neighbours;
      FinishBranches(g, path, deadEnd, added);
      if deadEnd {
        found := found + [path];
        added := added + [path];
      }
    }

    /** Pushes one unseen neighbour, searches below it, and pops it again. */
    method Descend(neighbour: V) returns (ghost added: seq<seq<V>>)
      requires Closed(g) && SimplePath(g, path) && seen == Elems(path)
      requires neighbour in g[path[|path| - 1]] && neighbour !in seen
      modifies this
      ensures path == old(path) && seen == old(seen)
      ensures found == old(found) + added && Enumerates(g, path + [neighbour], added)
      decreases |g.Keys - Elems(path)|, 0
    {
      ExtendSimple(g, path, neighbour);
      seen := seen + {neighbour};
      path := path + [neighbour];
      assert seen == Elems(path);
      added := Search();
      path := path[..|path| - 1];
      seen := seen - {neighbour};
    }
  }

  class Graph<V(==,!new)> {
    var graph: map<V, set<V>>

    constructor (g: map<V, set<V>>)
      ensures graph == g
    {
      graph := g;
    }

    method AddVertex(vertex: V)
      modifies this
      ensures graph == WithVertex(old(graph), vertex)
    {
      if vertex !in graph {
        graph := graph[vertex := {}];
      }
    }

    method AddEdge(parent: V, child: V)
      modifies this
      ensures graph == WithEdge(old(graph), parent, child)
    {
      AddVertex(child);
      if parent !in graph {
        graph := graph[parent := {}];
      }
      graph := graph[parent := graph[parent] + {child}];
    }

    method Edges() returns (links: seq<(V, V)>)
      ensures NoDup(links)
      ensures forall u, v :: (u, v) in links <==> Edge(graph, u, v)
    {
      links := [];
      var todo := graph.Keys;
      while todo != {}
        invariant todo <= graph.Keys
        invariant NoDup(links)
        invariant forall u, v :: (u, v) in links <==> Edge(graph, u, v) && u !in todo
        decreases todo
      {
        var vertex :| vertex in todo;
        todo := todo - {vertex};
        var neighbours := graph[vertex];
        while neighbours != {}
          invariant neighbours <= graph[vertex]
          invariant NoDup(links)
          invariant forall u, v :: (u, v) in links <==>
            Edge(graph, u, v) && u !in todo && (u == vertex ==> v !in neighbours)
          decreases neighbours
        {
          var neighbour :| neighbour in neighbours;
          neighbours := neighbours - {neighbour};
          links := links + [(vertex, neighbour)];
        }
      }
    }

    method RootVertices() returns (roots: set<V>)
      ensures roots == Roots(graph)
    {
      var dependencyVertices: set<V> := {};
      var todo := graph.Keys;
      while todo != {}
        invariant todo <= graph.Keys
        invariant forall v :: v in dependencyVertices <==> exists u :: u in graph.Keys - todo && v in graph[u]
        decreases todo
      {
        var u :| u in todo;
        todo := todo - {u};
        dependencyVertices := dependencyVertices + graph[u];
      }
      roots := graph.Keys - dependencyVertices;
    }

    /** Enumerates the maximal cycle-free paths from `vertex`, on cyclic graphs too. */
    method Paths(vertex: V) returns (paths: seq<seq<V>>)
      requires Closed(graph) && vertex in graph
      ensures NoDup(paths)
      ensures forall p :: p in paths <==> MaximalPath(graph, p) && p[0] == vertex
    {
      var search := new PathSearch(graph, vertex);
      ghost var added := search.Search();
      paths := search.found;
      assert forall p: seq<V> :: |p| > 0 ==> ([vertex] <= p <==> p[0] == vertex);
    }

    /** Number of parents of every vertex. */
    method CountDependencies() returns (depends: map<V, int>)
      ensures forall v :: Count(depends, v) == |Unresolved(graph, {}, v)|
    {
      var links := Edges();
      depends := map[];
      for i := 0 to |links|
        invariant forall v :: Count(depends, v) == |Sources(links[..i], v)|
      {
        var tail := links[i].1;
        ghost var before := depends;
        depends := depends[tail := Count(depends, tail) + 1];
        forall v ensures Count(depends, v) == |Sources(links[..i + 1], v)| {
          assert links[..i + 1] == links[..i] + [links[i]];
          SourcesStep(links[..i], links[i], v);
          assert Count(before, v) == |Sources(links[..i], v)|;
        }
      }
      assert links[..|links|] == links;
      forall v ensures Count(depends, v) == |Unresolved(graph, {}, v)| {
        assert Sources(links, v) == Unresolved(graph, {}, v) by {
          forall u ensures u in Sources(links, v) <==> Edge(graph, u, v) {
            SourceOf(links, u, v);
          }
        }
      }
    }

    /** The inner loop: tells the children of an emitted vertex and queues the released ones. */
    method ResolveChildren(ghost emitted: seq<V>, vertex: V, queue: seq<V>, depends: map<V, int>)
      returns (depends': map<V, int>, queue': seq<V>)
      requires Closed(graph) && vertex in graph
      requires KahnInner(graph, emitted, vertex, graph[vertex], queue, depends)
      ensures KahnInner(graph, emitted, vertex, {}, queue', depends')
    {
      depends', queue' := depends, queue;
      var todo := graph[vertex];
      while todo != {}
        invariant todo <= graph[vertex]
        invariant KahnInner(graph, emitted, vertex, todo, queue', depends')
        decreases todo
      {
        var node :| node in todo;
        KahnChild(graph, emitted, vertex, todo, node, queue', depends');
        ghost var before, waiting := depends', queue';
        depends' := depends'[node := Count(depends', node) - 1];
        if depends'[node] == 0 {
          queue' := queue' + [node];
        }
        KahnDecrement(graph, emitted, vertex, todo, node, waiting, before, queue', depends');
        todo := todo - {node};
      }
    }

    /** Kahn's algorithm: emits every vertex no cycle leads to, once, after all its parents. */
    method TopologicalSort() returns (order: seq<V>)
      requires Closed(graph)
      ensures NoDup(order) && ParentsFirst(graph, order)
      ensures forall v :: v in order <==> v in graph && !BehindCycle(graph, v)
    {
      var dependsPerNode := CountDependencies();
      var roots := RootVertices();
      var queue := ListOf(roots);
      order := [];
      KahnStart(graph, queue, dependsPerNode);
      while queue != []
        invariant Kahn(graph, order, queue, dependsPerNode)
        decreases |graph| - |order|
      {
        var vertex := queue[0];
        assert queue == [vertex] + queue[1..];
        queue := queue[1..];
        KahnPop(graph, order, vertex, queue, dependsPerNode);
        dependsPerNode, queue := ResolveChildren(order, vertex, queue, dependsPerNode);
        KahnNext(graph, order, vertex, queue, dependsPerNode);
        order := order + [vertex];
      }
      KahnStop(graph, order, dependsPerNode);
    }
  }
}
