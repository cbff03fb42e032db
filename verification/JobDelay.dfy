/** `delay()`: from a tree of delayables to the stored jobs, and the order in which they run. */
module JobDelay {
  import opened Digraph
  import opened Graphs
  import opened Elements
  import opened Flatten
  import opened FlattenMeaning
  import opened FlattenExact
  import opened FlattenWhole
  import opened FlattenShared
  import opened JobQueue
  import opened JobTables
  import opened JobRuns
  import opened JobOrder

  /** The batch that `delay` stores for a flat graph. */
  function ParentsOf(flat: map<JobId, set<JobId>>): map<Uuid, set<Uuid>> {
    map c | c in flat :: set p | p in flat && c in flat[p]
  }

  // ---- the stored dependencies are the flat graph ----

  ghost predicate Delayed(w: World, e: Event, flat: map<JobId, set<JobId>>) {
    e.Delay? && Enabled(w, e) && e.parents == ParentsOf(flat) && Closed(flat)
  }

  lemma BatchEdges(flat: map<JobId, set<JobId>>)
    requires Closed(flat)
    ensures forall u, v :: Edge(BatchGraph(ParentsOf(flat)), u, v) <==> Edge(flat, u, v)
  {
    forall u, v ensures Edge(BatchGraph(ParentsOf(flat)), u, v) <==> Edge(flat, u, v) {
      if Edge(flat, u, v) { assert v in flat; }
    }
  }

  lemma {:induction false} NewEdges(w: World, e: Event)
    requires e.Delay? && Enabled(w, e)
    ensures forall u, v :: Edge(BatchGraph(e.parents), u, v) ==> Edge(DependencyGraph(Next(w, e).rows), u, v)
  {
    forall u, v | Edge(BatchGraph(e.parents), u, v) ensures Edge(DependencyGraph(Next(w, e).rows), u, v) {
      assert Next(w, e).rows[u] == NewRow(e.graph, e.parents, e.limits, u);
    }
  }

  /** Between the jobs of the batch the stored dependencies give exactly the flat graph's order. */
  lemma {:induction false} DelayedReaches(w: World, e: Event, flat: map<JobId, set<JobId>>, x: JobId, y: JobId)
    requires Mirrored(w.rows) && Delayed(w, e, flat) && y in flat
    ensures Reaches(DependencyGraph(Next(w, e).rows), x, y) <==> Reaches(flat, x, y)
  {
    var before, batch, after := DependencyGraph(w.rows), BatchGraph(e.parents), DependencyGraph(Next(w, e).rows);
    BatchEdges(flat);
    NewEdges(w, e);
    DelayEdgesApart(w, e);
    assert y !in w.rows;
    hide *;
    if Reaches(flat, x, y) { SubgraphReaches(flat, after, x, y); }
    if Reaches(after, x, y) {
      ReachesApart(after, before, batch, w.rows.Keys, x, y);
      SubgraphReaches(batch, flat, x, y);
    }
  }

  lemma ReachesApart(g: map<Uuid, set<Uuid>>, a: map<Uuid, set<Uuid>>, b: map<Uuid, set<Uuid>>, left: set<Uuid>,
                     x: Uuid, y: Uuid)
    requires Reaches(g, x, y) && y !in left
    requires forall u, v :: Edge(g, u, v) ==> Edge(a, u, v) || Edge(b, u, v)
    requires forall u, v :: Edge(a, u, v) ==> u in left && v in left
    requires forall u, v :: Edge(b, u, v) ==> u !in left && v !in left
    ensures Reaches(b, x, y)
  {
    var p :| WalkBetween(g, p, x, y);
    StaysApart(g, a, b, left, p);
    if Reaches(a, x, y) {
      var z := LastStep(a, x, y);
      assert false;
    }
  }

  // ---- jobs run in the documented order ----

  /** No job may run, or ran, before every job that was asked to precede it is done. */
  ghost predicate InOrder(t: Table, root: Element) {
    forall x, y :: AskedBefore(root, x, y) && Reached(t, y) ==> x in t && t[x].state == Done
  }

  /** In every run without manual intervention that follows `delay`. */
  ghost predicate AlwaysInOrder(w: World, root: Element) {
    forall es :: Legal(w, es) && AutomaticRun(w, es) ==> InOrder(Run(w, es).rows, root)
  }

  lemma {:induction false} ReachedInOrder(w: World, es: seq<Event>, x: Uuid, y: Uuid)
    requires Inv(w) && DoneBelow(w.rows) && Legal(w, es) && AutomaticRun(w, es)
    requires Reaches(DependencyGraph(w.rows), x, y) && Reached(Run(w, es).rows, y)
    ensures x in Run(w, es).rows && Run(w, es).rows[x].state == Done
  {
    var t := Run(w, es).rows;
    RunKeepsLists(w, es);
    assert forall u, v :: Edge(DependencyGraph(w.rows), u, v) ==> Edge(DependencyGraph(t), u, v);
    hide *;
    SubgraphReaches(DependencyGraph(w.rows), DependencyGraph(t), x, y);
    AutomaticRunKeepsDoneBelow(w, es);
    AncestorsDone(Run(w, es), x, y);
  }

  /** After `delay`, nothing on the way to a job of the batch has failed. */
  lemma {:induction false} BatchIsFresh(w: World, e: Event, flat: map<JobId, set<JobId>>, y: JobId)
    requires Mirrored(w.rows) && Delayed(w, e, flat) && y in flat
    ensures var t := Next(w, e).rows;
            y in t && !Broken(t, y) && forall k :: k in Ancestors(t, y) ==> !Broken(t, k)
  {
    var t := Next(w, e).rows;
    NewStates(w, e);
    hide Mirrored, Enabled, Next, DependencyGraph, Reaches;
    forall k | k in Ancestors(t, y) ensures !Broken(t, k) {
      DelayedReaches(w, e, flat, k, y);
      var z := FirstStep(flat, k, y);
    }
  }

  /** A run in which y becomes pending while x, which it does not depend on, is not done. */
  lemma {:induction false} RunsEarly(w: World, e: Event, flat: map<JobId, set<JobId>>, x: JobId, y: JobId)
    returns (es: seq<Event>)
    requires Inv(w) && Acyclic(DependencyGraph(w.rows)) && Delayed(w, e, flat) && Acyclic(flat)
    requires x in flat && y in flat && !Reaches(flat, x, y)
    ensures Legal(Next(w, e), es) && AutomaticRun(Next(w, e), es)
    ensures Reached(Run(Next(w, e), es).rows, y) && x in Unfinished(Run(Next(w, e), es).rows)
  {
    var w1 := Next(w, e);
    NewStates(w, e);
    hide *;
    AfterDelay(w, e, flat);
    BatchIsFresh(w, e, flat, y);
    DelayedReaches(w, e, flat, x, y);
    es := FinishAncestors(w1, y);
    NotAncestor(w1.rows, x, y);
  }

  lemma {:induction false} AfterDelay(w: World, e: Event, flat: map<JobId, set<JobId>>)
    requires Inv(w) && Acyclic(DependencyGraph(w.rows)) && Delayed(w, e, flat) && Acyclic(flat)
    ensures e.parents.Keys == flat.Keys && Mirrored(w.rows)
    ensures Inv(Next(w, e)) && Acyclic(DependencyGraph(Next(w, e).rows))
  {
    BatchAcyclic(flat);
    DelayKeepsAcyclic(w, e);
    DelayKeeps(w, e);
  }

  lemma NotAncestor(t: Table, x: Uuid, y: Uuid)
    requires x in t && t[x].state != Done && !Reaches(DependencyGraph(t), x, y)
    ensures x in Unfinished(t) - Ancestors(t, y)
  {
  }

  lemma BatchAcyclic(flat: map<JobId, set<JobId>>)
    requires Closed(flat) && Acyclic(flat)
    ensures Acyclic(BatchGraph(ParentsOf(flat)))
  {
    BatchEdges(flat);
    hide ParentsOf, BatchGraph, Edge, Reaches;
    forall x ensures !OnCycle(BatchGraph(ParentsOf(flat)), x) {
      assert !OnCycle(flat, x);
      if OnCycle(BatchGraph(ParentsOf(flat)), x) {
        SubgraphReaches(BatchGraph(ParentsOf(flat)), flat, x, x);
      }
    }
  }

  lemma {:induction false} NewStates(w: World, e: Event)
    requires e.Delay? && Enabled(w, e)
    ensures forall k :: k in e.parents ==>
              k in Next(w, e).rows && Next(w, e).rows[k].state in {Pending, WaitDependencies}
  {
    forall k | k in e.parents ensures k in Next(w, e).rows && Next(w, e).rows[k].state in {Pending, WaitDependencies} {
      assert Next(w, e).rows[k] == NewRow(e.graph, e.parents, e.limits, k);
    }
  }

  /** What the flat graph reaches, every run respects. */
  lemma {:induction false} ReachedIsInOrder(root: Element, flat: map<JobId, set<JobId>>, w: World, e: Event)
    requires forall x, y :: AskedBefore(root, x, y) ==> Reaches(flat, x, y)
    requires Inv(w) && DoneBelow(w.rows) && Delayed(w, e, flat)
    ensures AlwaysInOrder(Next(w, e), root)
  {
    DelayKeeps(w, e);
    AutomaticKeepsDoneBelow(w, e);
    forall es, x, y | Legal(Next(w, e), es) && AutomaticRun(Next(w, e), es) && AskedBefore(root, x, y) &&
        Reached(Run(Next(w, e), es).rows, y)
      ensures x in Run(Next(w, e), es).rows && Run(Next(w, e), es).rows[x].state == Done
    {
      assert Reaches(flat, x, y);
      var z := LastStep(flat, x, y);
      DelayedReaches(w, e, flat, x, y);
      hide *;
      ReachedInOrder(Next(w, e), es, x, y);
    }
  }

  /** End to end: after `delay` of a tree every job handed over is stored and no run starts one before the jobs
      asked to precede it are done, if and only if nothing is lost and the operands agree. */
  lemma {:induction false} DocumentedOrderIsExact(root: Element, flat: map<JobId, set<JobId>>, w: World, e: Event)
    requires Tree(root) && IsFlat(flat, Parts(root))
    requires Inv(w) && DoneBelow(w.rows) && Acyclic(DependencyGraph(w.rows))
    requires e.Delay? && Enabled(w, e) && e.parents == ParentsOf(flat)
    ensures NothingLost(root) && OperandsAgree(root) <==>
            Asked(root) == flat.Keys && AlwaysInOrder(Next(w, e), root)
  {
    FlatIsJobDag(root, flat);
    FlattenIsWhole(root, flat);
    if NothingLost(root) && OperandsAgree(root) {
      ReachedIsInOrder(root, flat, w, e);
    } else if NothingLost(root) {
      var x, y := LostOrder(root, flat);
      hide *;
      var es := RunsEarly(w, e, flat, x, y);
      NotInOrder(Next(w, e), root, es, x, y);
    }
  }

  /** The same when jobs are shared and no cycle is asked for: every run respects the order if and only if neighbours
      are joined in the flat graph; for that it is enough that the operands agree. */
  lemma {:induction false} SharedOrderIsExact(root: Element, flat: map<JobId, set<JobId>>, w: World, e: Event)
    requires Buildable(root) && IsFlat(flat, Parts(root)) && NothingLost(root) && Acyclic(OrderGraph(root))
    requires Inv(w) && DoneBelow(w.rows) && Acyclic(DependencyGraph(w.rows))
    requires e.Delay? && Enabled(w, e) && e.parents == ParentsOf(flat)
    ensures flat.Keys == Asked(root)
    ensures AlwaysInOrder(Next(w, e), root) <==> JoinedInside(flat, root)
    ensures OperandsAgree(root) ==> AlwaysInOrder(Next(w, e), root)
  {
    AcyclicIsIrreflexive(root);
    SharedIsExact(root, flat);
    SharedReachSound(root, flat);
    KeptIsAsked(root);
    assert All(root) == Asked(root);
    if JoinedInside(flat, root) {
      forall x, y | AskedBefore(root, x, y) ensures Reaches(flat, x, y) {
        SameOrder(root, x, y);
        OrderEdge(root, x, y);
        EdgeReaches(OrderGraph(root), x, y);
      }
      ReachedIsInOrder(root, flat, w, e);
    } else {
      var x, y := MissedOrder(root, flat);
      SameOrder(root, x, y);
      hide *;
      var es := RunsEarly(w, e, flat, x, y);
      NotInOrder(Next(w, e), root, es, x, y);
    }
  }

  lemma {:induction false} MissedOrder(root: Element, flat: map<JobId, set<JobId>>) returns (x: JobId, y: JobId)
    requires Buildable(root) && IsFlat(flat, Parts(root)) && !JoinedInside(flat, root)
    ensures Precedes(root, x, y) && !Reaches(flat, x, y) && x in flat && y in flat
  {
    var m :| Inside(root, m) && !Joined(flat, m);
    var u, v, t, h :| Adjacent(m, u, v) && t in Last(u) && h in First(v) && !Reaches(flat, t, h);
    NeighboursAsked(root, m, u, v, t, h);
    OrderEdge(root, t, h);
    PrecedesInside(root, t, h);
    SharedVertices(root, flat);
    x, y := t, h;
  }

  lemma {:induction false} LostOrder(root: Element, flat: map<JobId, set<JobId>>) returns (x: JobId, y: JobId)
    requires Tree(root) && IsFlat(flat, Parts(root)) && NothingLost(root) && !OperandsAgree(root)
    ensures AskedBefore(root, x, y) && !Reaches(flat, x, y) && x in flat && y in flat
  {
    hide *;
    FlatIsJobDag(root, flat);
    KeptIsAsked(root);
    var m, u, v := FindDisagreement(root);
    x, y := DisagreementLosesOrder(root, flat, m, u, v);
    PrecedesInAll(root, x, y);
    SameOrder(root, x, y);
  }

  lemma {:induction false} SameOrder(root: Element, x: JobId, y: JobId)
    requires SameAsAsked(root)
    ensures AskedBefore(root, x, y) <==> Precedes(root, x, y)
  {
    hide AskedBefore, Precedes;
  }

  lemma NotInOrder(w: World, root: Element, es: seq<Event>, x: JobId, y: JobId)
    requires Legal(w, es) && AutomaticRun(w, es) && AskedBefore(root, x, y)
    requires Reached(Run(w, es).rows, y) && x in Unfinished(Run(w, es).rows)
    ensures !AlwaysInOrder(w, root)
  {
    hide AskedBefore, Legal, Run, AutomaticRun, Reached;
    assert !InOrder(Run(w, es).rows, root);
  }

  // ---- delay() ----

  datatype Fate = ExpectingJobs | DependsOnItself | FoundExisting | Stored

  /** Some job has an identity key, and each one that has finds a stored job with the same key. */
  predicate AllExist(vertices: set<JobId>, existing: map<JobId, bool>) {
    vertices * existing.Keys != {} && forall v :: v in vertices && v in existing ==> existing[v]
  }

  /** The loop over the identity keys, in the order the vertices happen to come in. */
  method FindExisting(vertices: set<JobId>, existing: map<JobId, bool>) returns (found: bool)
    ensures found == AllExist(vertices, existing)
    ensures found <==> (exists v :: v in vertices && v in existing) &&
                       (forall v :: v in vertices && v in existing ==> existing[v])
  {
    var mapping: set<JobId> := {};
    var todo := vertices;
    while todo != {}
      invariant todo <= vertices && mapping == (vertices - todo) * existing.Keys
      invariant forall v :: v in mapping ==> existing[v]
      decreases todo
    {
      var vertex :| vertex in todo;
      todo := todo - {vertex};
      if vertex in existing {
        if !existing[vertex] {
          return false;
        }
        mapping := mapping + {vertex};
      }
    }
    found := mapping != {};
    assert forall v :: v in mapping <==> v in vertices && v in existing;
    assert found <==> exists v :: v in mapping;
  }

  ghost function Batch(graph: Uuid, flat: map<JobId, set<JobId>>, limits: map<JobId, nat>): Event
    requires flat.Keys <= limits.Keys
  {
    Delay(if |flat.Keys| == 1 then NoGraph else GraphUuid(graph), ParentsOf(flat), map c | c in flat :: limits[c])
  }

  ghost predicate SelfDependent(flat: map<JobId, set<JobId>>) {
    exists x :: Edge(flat, x, x)
  }

  /** The loop that adds the dependencies refuses a job that depends on itself. */
  method FindSelfDependency(edges: seq<(JobId, JobId)>) returns (found: bool)
    ensures found <==> exists x :: (x, x) in edges
  {
    for i := 0 to |edges|
      invariant forall x :: (x, x) !in edges[..i]
    {
      if edges[i].0 == edges[i].1 {
        assert (edges[i].0, edges[i].0) in edges;
        return true;
      }
      assert edges[..i + 1] == edges[..i] + [edges[i]];
    }
    assert edges[..|edges|] == edges;
    found := false;
  }

  /** `delay()` on the top-level element: connect, build, add dependencies, look for existing jobs, store.
      `existing` tells of each job with an identity key whether its key is stored already. */
  method DelayTree(root: Element, table: JobTable, graph: Uuid, limits: map<JobId, nat>, existing: map<JobId, bool>)
    returns (flat: Graphs.Graph<JobId>, fate: Fate)
    requires Buildable(root) && All(root) !! table.rows.Keys && All(root) <= limits.Keys
    modifies table
    ensures IsFlat(flat.graph, Parts(root)) && flat.graph.Keys == All(root)
    ensures fate == if All(root) == {} then ExpectingJobs
                    else if SelfDependent(flat.graph) then DependsOnItself
                    else if AllExist(All(root), existing) then FoundExisting else Stored
    ensures Acyclic(OrderGraph(root)) ==> !fate.DependsOnItself?
    ensures fate.Stored? ==> Enabled(old(table.Now()), Batch(graph, flat.graph, limits))
    ensures table.Now() == if fate.Stored? then Next(old(table.Now()), Batch(graph, flat.graph, limits))
                           else old(table.Now())
  {
    hide UsedOnce, All, IsFlat, Parts, Closed, Acyclic, Edge, ParentsOf, ParentsIn, Next, Enabled, NewRow, NewRows;
    hide OrderGraph, Reaches;
    flat := ConnectGraphs(root);
    SharedVertices(root, flat.graph);
    SharedReachSound(root, flat.graph);
    AcyclicHasNoLoop(flat.graph);
    var vertices := flat.graph.Keys;
    if vertices == {} {
      return flat, ExpectingJobs;
    }
    var graphUuid := if |vertices| == 1 then NoGraph else GraphUuid(graph);
    var edges := flat.Edges();
    var loop := FindSelfDependency(edges);
    if loop {
      return flat, DependsOnItself;
    }
    var found := FindExisting(vertices, existing);
    if found {
      return flat, FoundExisting;
    }
    var own := map c | c in flat.graph :: limits[c];
    EdgesAreReady(flat.graph, edges);
    DelayIsEnabled(table.Now(), graphUuid, flat.graph, edges, own);
    table.DelayGraph(graphUuid, vertices, edges, own);
    fate := Stored;
  }

  lemma AcyclicHasNoLoop(flat: map<JobId, set<JobId>>)
    ensures Acyclic(flat) ==> !SelfDependent(flat)
  {
    if Acyclic(flat) {
      forall x ensures !Edge(flat, x, x) {
        assert !OnCycle(flat, x);
        if Edge(flat, x, x) { EdgeReaches(flat, x, x); }
      }
    }
  }

  lemma DelayIsEnabled(w: World, graph: JobQueue.Graph, flat: map<JobId, set<JobId>>, edges: seq<(JobId, JobId)>,
                       limits: map<JobId, nat>)
    requires limits.Keys == flat.Keys
    requires flat.Keys !! w.rows.Keys && (graph == NoGraph ==> edges == [])
    requires forall c :: c in flat ==> c !in ParentsOf(flat)[c] && ParentsOf(flat)[c] <= flat.Keys
    requires edges == [] ==> forall c :: c in flat ==> ParentsOf(flat)[c] == {}
    ensures Enabled(w, Delay(graph, ParentsOf(flat), limits))
  {
  }

  lemma EdgesAreReady(flat: map<JobId, set<JobId>>, edges: seq<(JobId, JobId)>)
    requires Closed(flat) && !SelfDependent(flat)
    requires forall u: JobId, v: JobId :: (u, v) in edges <==> Edge(flat, u, v)
    ensures forall p: JobId, c: JobId :: (p, c) in edges ==> p in flat && c in flat && p != c
    ensures |flat.Keys| == 1 ==> edges == []
    ensures ParentsIn(flat.Keys, edges) == ParentsOf(flat)
    ensures forall c :: c in flat ==> c !in ParentsOf(flat)[c] && ParentsOf(flat)[c] <= flat.Keys
    ensures edges == [] ==> forall c :: c in flat ==> ParentsOf(flat)[c] == {}
  {
    forall p: JobId, c: JobId | (p, c) in edges ensures p in flat && c in flat && p != c {
      assert Edge(flat, p, c) && !Edge(flat, p, p);
    }
    if |flat.Keys| == 1 && edges != [] {
      var (p, c) := edges[0];
      assert (p, c) in edges;
      SubsetCard({p, c}, flat.Keys);
      assert false;
    }
    forall c: JobId, p: JobId | c in flat && p in flat ensures (p, c) in edges <==> c in flat[p] {
      assert (p, c) in edges <==> Edge(flat, p, c);
    }
    forall c | c in flat ensures ParentsIn(flat.Keys, edges)[c] == ParentsOf(flat)[c] {
    }
  }
}
