/** How crose/queue_job/delay.py turns nested elements into one flat graph of jobs. */
module Flatten {
  import opened Digraph
  import opened Graphs
  import opened Elements

  /** `_head`, as written: a chain asks its first element for its tail. */
  function Head(e: Element): set<JobId> {
    match e
    case Job(id, _) => {id}
    case Chain(items, _) => if items == [] then {} else Tail(items[0])
    case Group(items, _) => set c, x | c in items && x in Head(c) :: x
  }

  /** `_tail`, as written: a chain asks its last element for its head. */
  function Tail(e: Element): set<JobId> {
    match e
    case Job(id, _) => {id}
    case Chain(items, _) => if items == [] then {} else Head(items[|items| - 1])
    case Group(items, _) => set c, x | c in items && x in Tail(c) :: x
  }

  ghost predicate Vertex(e: Element, u: Element) {
    (if e.Job? then u == e else u in e.items) || u in Followers(e)
  }

  /** The edges of the element's own graph: chain links, and `on_done` edges
      from the last link, from every member, or from the job. A group without members gets none. */
  ghost predicate Link(e: Element, u: Element, v: Element) {
    match e
    case Job(_, after) => u == e && v in after
    case Chain(items, after) =>
      || (exists i :: 0 <= i < |items| - 1 && u == items[i] && v == items[i + 1])
      || (items != [] && u == items[|items| - 1] && v in after)
    case Group(items, after) => u in items && v in after
  }

  ghost predicate IsGraphOf(g: map<Element, set<Element>>, e: Element) {
    && (forall u :: u in g <==> Vertex(e, u))
    && (forall u, v :: Edge(g, u, v) <==> Link(e, u, v))
  }

  /** `on_done` on one parent: an edge to every follower. */
  method OnDone(g: Graph<Element>, parent: Element, after: seq<Element>)
    requires parent in g.graph
    modifies g
    ensures forall u :: u in g.graph <==> u in old(g.graph) || u in after
    ensures forall u, v :: Edge(g.graph, u, v) <==> Edge(old(g.graph), u, v) || (u == parent && v in after)
  {
    for i := 0 to |after|
      invariant forall u :: u in g.graph <==> u in old(g.graph) || u in after[..i]
      invariant forall u, v :: Edge(g.graph, u, v) <==> Edge(old(g.graph), u, v) || (u == parent && v in after[..i])
    {
      AddLink(g, parent, after[i]);
      assert after[..i + 1] == after[..i] + [after[i]];
    }
    assert after[..|after|] == after;
  }

  method AddLink(g: Graph<Element>, parent: Element, child: Element)
    modifies g
    ensures forall u :: u in g.graph <==> u in old(g.graph) || u == parent || u == child
    ensures forall u, v :: Edge(g.graph, u, v) <==> Edge(old(g.graph), u, v) || (u == parent && v == child)
  {
    WithEdgeMeaning(g.graph, parent, child);
    g.AddEdge(parent, child);
  }

  /** `DelayableChain.__init__`: links each element to the next one. */
  method BuildChain(items: seq<Element>) returns (g: Graph<Element>)
    requires items != []
    ensures fresh(g) && IsGraphOf(g.graph, Chain(items, []))
  {
    g := new Graph<Element>(map[items[0] := {}]);
    var head := items[0];
    for i := 1 to |items|
      invariant fresh(g) && head == items[i - 1]
      invariant forall u :: u in g.graph <==> u in items[..i]
      invariant forall u, v :: Edge(g.graph, u, v) <==> ChainLink(items, i, u, v)
    {
      var neighbour := items[i];
      AddLink(g, head, neighbour);
      head := neighbour;
      assert items[..i + 1] == items[..i] + [items[i]];
    }
    assert items[..|items|] == items;
  }

  ghost predicate ChainLink(items: seq<Element>, n: nat, u: Element, v: Element)
    requires n <= |items|
  {
    exists i :: 0 <= i < n - 1 && u == items[i] && v == items[i + 1]
  }

  /** `DelayableGroup.__init__`: members without edges. */
  method BuildGroup(items: seq<Element>) returns (g: Graph<Element>)
    ensures fresh(g) && IsGraphOf(g.graph, Group(items, []))
  {
    g := new Graph<Element>(map[]);
    for i := 0 to |items|
      invariant fresh(g)
      invariant forall u :: u in g.graph <==> u in items[..i]
      invariant forall u, v :: !Edge(g.graph, u, v)
    {
      WithVertexMeaning(g.graph, items[i]);
      g.AddVertex(items[i]);
      assert items[..i + 1] == items[..i] + [items[i]];
    }
    assert items[..|items|] == items;
  }

  /** The graph an element carries: its constructor followed by its `on_done`. */
  method BuildGraph(e: Element) returns (g: Graph<Element>)
    requires e.Chain? ==> e.items != []
    ensures fresh(g) && IsGraphOf(g.graph, e)
  {
    match e
    case Job(_, after) =>
      g := new Graph<Element>(map[e := {}]);
      OnDone(g, e, after);
    case Chain(items, after) =>
      g := BuildChain(items);
      OnDone(g, items[|items| - 1], after);
    case Group(items, after) =>
      g := BuildGroup(items);
      for i := 0 to |items|
        invariant fresh(g)
        invariant forall u :: u in g.graph <==> u in items || (i > 0 && u in after)
        invariant forall u, v :: Edge(g.graph, u, v) <==> u in items[..i] && v in after
      {
        OnDone(g, items[i], after);
        assert items[..i + 1] == items[..i] + [items[i]];
      }
      assert items[..|items|] == items;
  }

  ghost predicate MergedVertex(graph: map<Element, set<Element>>, t: JobId) {
    exists u :: u in graph && t in Tail(u)
  }

  ghost predicate MergedEdge(graph: map<Element, set<Element>>, t: JobId, h: JobId) {
    exists u, v :: Edge(graph, u, v) && t in Tail(u) && h in Head(v)
  }

  ghost predicate MergedFrom(graph: map<Element, set<Element>>, from: set<Element>, t: JobId, h: JobId) {
    exists u, v :: u in from && Edge(graph, u, v) && t in Tail(u) && h in Head(v)
  }

  /** `_merge_graph`: connects the tails of every vertex to the heads of its neighbours. */
  method MergeGraph(flat: Graph<JobId>, graph: map<Element, set<Element>>)
    modifies flat
    ensures forall t :: t in flat.graph <==> t in old(flat.graph) || MergedVertex(graph, t)
    ensures forall t, h :: Edge(flat.graph, t, h) <==> Edge(old(flat.graph), t, h) || MergedEdge(graph, t, h)
  {
    var todo := graph.Keys;
    while todo != {}
      invariant todo <= graph.Keys
      invariant forall t :: t in flat.graph <==>
        t in old(flat.graph) || exists u :: u in graph && u !in todo && t in Tail(u)
      invariant forall t, h :: Edge(flat.graph, t, h) <==>
        Edge(old(flat.graph), t, h) || MergedFrom(graph, graph.Keys - todo, t, h)
      decreases todo
    {
      var vertex :| vertex in todo;
      var heads := set n, h | n in graph[vertex] && h in Head(n) :: h;
      ConnectTails(flat, Tail(vertex), heads);
      forall t, h ensures MergedFrom(graph, graph.Keys - (todo - {vertex}), t, h) <==>
                          MergedFrom(graph, graph.Keys - todo, t, h) || (t in Tail(vertex) && h in heads)
      {
        if t in Tail(vertex) && h in heads {
          var n :| n in graph[vertex] && h in Head(n);
          assert Edge(graph, vertex, n);
        }
      }
      todo := todo - {vertex};
    }
  }

  method ConnectTails(flat: Graph<JobId>, tails: set<JobId>, heads: set<JobId>)
    modifies flat
    ensures forall t :: t in flat.graph <==> t in old(flat.graph) || t in tails
    ensures forall t, h :: Edge(flat.graph, t, h) <==> Edge(old(flat.graph), t, h) || (t in tails && h in heads)
  {
    var todo := tails;
    while todo != {}
      invariant todo <= tails
      invariant forall t :: t in flat.graph <==> t in old(flat.graph) || t in tails - todo
      invariant forall t, h :: Edge(flat.graph, t, h) <==>
        Edge(old(flat.graph), t, h) || (t in tails - todo && h in heads)
      decreases todo
    {
      var tail :| tail in todo;
      todo := todo - {tail};
      flat.graph := flat.graph[tail := (if tail in flat.graph then flat.graph[tail] else {}) + heads];
    }
  }

  /** t is a vertex, respectively t -> h an edge, contributed by one of the given elements' graphs. */
  ghost predicate FlatVertex(parts: set<Element>, t: JobId) {
    exists e, u :: e in parts && Vertex(e, u) && t in Tail(u)
  }

  ghost predicate FlatEdge(parts: set<Element>, t: JobId, h: JobId) {
    exists e, u, v :: e in parts && Link(e, u, v) && t in Tail(u) && h in Head(v)
  }

  ghost predicate IsFlat(flat: map<JobId, set<JobId>>, parts: set<Element>) {
    && (forall t :: t in flat <==> FlatVertex(parts, t))
    && (forall t, h :: Edge(flat, t, h) <==> FlatEdge(parts, t, h))
  }

  /** Every element that occurs in e. */
  ghost function Parts(e: Element): set<Element> {
    {e} + (if e.Job? then {} else set c, x | c in e.items && x in Parts(c) :: x)
        + (if e.Group? && e.items == [] then {} else set c, x | c in e.after && x in Parts(c) :: x)
  }

  lemma {:induction false} PartsAreInside(root: Element, e: Element)
    ensures e in Parts(root) <==> Inside(root, e)
  {
    if e != root {
      forall c | c in root.after { PartsAreInside(c, e); }
      if !root.Job? {
        forall c | c in root.items { PartsAreInside(c, e); }
      }
    }
  }

  lemma {:induction false} VertexIsPart(root: Element, e: Element, u: Element)
    requires e in Parts(root) && Vertex(e, u)
    ensures u in Parts(root)
  {
    PartsAreInside(root, e);
    PartsAreInside(e, u);
    PartsAreInside(root, u);
    assert Inside(e, u) by {
      assert Inside(u, u);
    }
    InsideTrans(root, e, u);
  }

  lemma {:induction false} ClosedPartsAreAll(root: Element, parts: set<Element>)
    requires root in parts && forall e, u :: e in parts && Vertex(e, u) ==> u in parts
    ensures Parts(root) <= parts
  {
    if !root.Job? {
      forall c | c in root.items ensures Parts(c) <= parts {
        assert Vertex(root, c);
        ClosedPartsAreAll(c, parts);
      }
    }
    forall c | c in Followers(root) ensures Parts(c) <= parts {
      assert Vertex(root, c);
      ClosedPartsAreAll(c, parts);
    }
  }

  lemma FlatGrows(flat: map<JobId, set<JobId>>, parts: set<Element>, e: Element,
                  graph: map<Element, set<Element>>, flat': map<JobId, set<JobId>>)
    requires IsFlat(flat, parts) && IsGraphOf(graph, e)
    requires forall t :: t in flat' <==> t in flat || MergedVertex(graph, t)
    requires forall t, h :: Edge(flat', t, h) <==> Edge(flat, t, h) || MergedEdge(graph, t, h)
    ensures IsFlat(flat', parts + {e})
  {
    forall t ensures t in flat' <==> FlatVertex(parts + {e}, t) {
      assert MergedVertex(graph, t) <==> FlatVertex({e}, t);
      assert FlatVertex(parts + {e}, t) <==> FlatVertex(parts, t) || FlatVertex({e}, t);
    }
    forall t, h ensures Edge(flat', t, h) <==> FlatEdge(parts + {e}, t, h) {
      assert MergedEdge(graph, t, h) <==> FlatEdge({e}, t, h);
      assert FlatEdge(parts + {e}, t, h) <==> FlatEdge(parts, t, h) || FlatEdge({e}, t, h);
    }
  }

  /** `_connect_graphs`: visits the element graphs breadth first and merges each into one flat graph. */
  method ConnectGraphs(root: Element) returns (flat: Graph<JobId>)
    requires Buildable(root)
    ensures fresh(flat) && IsFlat(flat.graph, Parts(root))
  {
    flat := new Graph<JobId>(map[]);
    var rootGraph := BuildGraph(root);
    MergeGraph(flat, rootGraph.graph);
    FlatGrows(map[], {}, root, rootGraph.graph, flat.graph);
    ghost var merged := {root};
    assert {} + {root} == merged;
    var seen: set<Element> := {};
    var visitStack := [root];
    while visitStack != []
      invariant fresh(flat) && IsFlat(flat.graph, merged)
      invariant Visiting(root, merged, seen, visitStack)
      decreases |Parts(root) - seen|, |visitStack|
    {
      var current := visitStack[0];
      ghost var waiting, before, known := visitStack, merged, seen;
      visitStack := visitStack[1..];
      if current !in seen {
        merged, visitStack := VisitVertices(root, flat, current, merged, visitStack);
        seen := seen + {current};
      }
      VisitStep(root, before, known, waiting, merged, seen, visitStack);
    }
    ClosedPartsAreAll(root, merged);
    assert merged == Parts(root);
  }

  /** Merged elements are visited or waiting; the vertices of visited ones are merged. */
  ghost predicate Visiting(root: Element, merged: set<Element>, seen: set<Element>, stack: seq<Element>) {
    && root in merged && merged <= Parts(root) && seen <= merged
    && (forall e :: e in stack ==> e in merged)
    && (forall e, u :: e in seen && Vertex(e, u) ==> u in merged)
    && (forall e :: e in merged ==> e in seen || e in stack)
  }

  lemma VisitStep(root: Element, merged: set<Element>, seen: set<Element>, stack: seq<Element>,
                  merged': set<Element>, seen': set<Element>, stack': seq<Element>)
    requires Visiting(root, merged, seen, stack) && stack != [] && merged' <= Parts(root)
    requires if stack[0] in seen then merged' == merged && seen' == seen && stack' == stack[1..] else
      && seen' == seen + {stack[0]}
      && (forall e :: e in stack' <==> e in stack[1..] || Vertex(stack[0], e))
      && (forall e :: e in merged' <==> e in merged || Vertex(stack[0], e))
    ensures Visiting(root, merged', seen', stack')
    ensures stack[0] in merged
    ensures stack[0] !in seen ==> |Parts(root) - seen'| < |Parts(root) - seen|
  {
    hide Vertex, Parts;
    assert forall e :: e in stack <==> e == stack[0] || e in stack[1..];
    if stack[0] !in seen {
      assert Parts(root) - seen == (Parts(root) - seen') + {stack[0]};
    }
  }

  /** One round of the visit: merges the graph of every vertex of `current` and schedules it. */
  method VisitVertices(root: Element, flat: Graph<JobId>, current: Element, ghost merged: set<Element>,
                       visitStack: seq<Element>)
    returns (ghost merged': set<Element>, visitStack': seq<Element>)
    requires Buildable(root) && IsFlat(flat.graph, merged) && current in merged && merged <= Parts(root)
    modifies flat
    ensures IsFlat(flat.graph, merged') && merged <= merged' <= Parts(root)
    ensures forall u :: Vertex(current, u) ==> u in merged'
    ensures forall e :: e in visitStack' <==> e in visitStack || Vertex(current, e)
    ensures forall e :: e in merged' <==> e in merged || Vertex(current, e)
  {
    PartsAreInside(root, current);
    InsideTree(root, current);
    InsideBuildable(root, current);
    var currentGraph := BuildGraph(current);
    var todo := currentGraph.graph.Keys;
    merged', visitStack' := merged, visitStack;
    while todo != {}
      invariant IsFlat(flat.graph, merged') && merged <= merged' <= Parts(root)
      invariant forall u :: u in todo ==> Vertex(current, u)
      invariant forall e :: e in merged' <==> e in merged || (Vertex(current, e) && e !in todo)
      invariant forall e :: e in visitStack' <==> e in visitStack || (Vertex(current, e) && e !in todo)
      decreases todo
    {
      var vertex :| vertex in todo;
      todo := todo - {vertex};
      VertexIsPart(root, current, vertex);
      PartsAreInside(root, vertex);
      InsideBuildable(root, vertex);
      var vertexGraph := BuildGraph(vertex);
      ghost var before := flat.graph;
      MergeGraph(flat, vertexGraph.graph);
      FlatGrows(before, merged', vertex, vertexGraph.graph, flat.graph);
      merged' := merged' + {vertex};
      visitStack' := visitStack' + [vertex];
    }
  }

  lemma {:induction false} InsideBuildable(root: Element, e: Element)
    requires Inside(root, e) && Buildable(root)
    ensures Buildable(e)
  {
    if e != root {
      var c := InsideStep(root, e);
      InsideBuildable(c, e);
    }
  }
}
