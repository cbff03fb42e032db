/** The queue_job table as crose/queue_job changes it in place. */
module JobTables {
  import opened JobQueue
  import opened JobEffects

  ghost function ParentsIn(vertices: set<Uuid>, edges: seq<(Uuid, Uuid)>): (parents: map<Uuid, set<Uuid>>)
    ensures parents.Keys == vertices
  {
    map c | c in vertices :: set p | p in vertices && (p, c) in edges
  }

  /** The rows after `add_depends`: both lists extended, the child waiting unless every new parent is done. */
  function DependsAdded(t: Table, job: Uuid, jobs: set<Uuid>): (t': Table)
    requires job in t && jobs <= t.Keys
    ensures t'.Keys == t.Keys
  {
    map k | k in t :: t[k].(
      dependsOn := if k == job then t[k].dependsOn + jobs else t[k].dependsOn,
      reverseDependsOn := if k in jobs then t[k].reverseDependsOn + {job} else t[k].reverseDependsOn,
      state := if k == job && exists p :: p in jobs && t[p].state != Done then WaitDependencies else t[k].state)
  }

  /** A new row starts without retries and lists the ends of its own edges. */
  ghost predicate RowAsked(r: Row, graph: Graph, edges: seq<(Uuid, Uuid)>, limit: nat, c: Uuid) {
    && r.graph == graph && r.retry == 0 && r.maxRetries == limit
    && (forall p :: p in r.dependsOn <==> (p, c) in edges)
    && (forall k :: k in r.reverseDependsOn <==> (c, k) in edges)
    && r.state == if exists p :: (p, c) in edges then WaitDependencies else Pending
  }

  ghost predicate GraphStored(t: Table, t': Table, graph: Graph, vertices: set<Uuid>, edges: seq<(Uuid, Uuid)>,
                              limits: map<Uuid, nat>)
    requires limits.Keys == vertices
  {
    && t'.Keys == t.Keys + vertices && (forall k :: k in t && k !in vertices ==> t'[k] == t[k])
    && forall c :: c in vertices ==> RowAsked(t'[c], graph, edges, limits[c], c)
  }

  class JobTable {
    var rows: Table
    ghost var waking: set<Uuid>

    constructor ()
      ensures rows == map[] && waking == {}
    {
      rows, waking := map[], {};
    }

    ghost function Now(): World
      reads this
    {
      World(rows, waking)
    }

    /** `add_depends`: a job may not depend on itself. */
    method AddDepends(job: Uuid, jobs: set<Uuid>) returns (ok: bool)
      requires job in rows && jobs <= rows.Keys
      modifies this`rows
      ensures ok == (job !in jobs)
      ensures rows == if ok then DependsAdded(old(rows), job, jobs) else old(rows)
      ensures ok ==> rows[job] == old(rows)[job].(
        dependsOn := old(rows)[job].dependsOn + jobs,
        state := if exists p :: p in jobs && old(rows)[p].state != Done then WaitDependencies else old(rows)[job].state)
      ensures ok ==> forall k :: k in rows && k != job ==> rows[k] == old(rows)[k].(reverseDependsOn :=
        if k in jobs then old(rows)[k].reverseDependsOn + {job} else old(rows)[k].reverseDependsOn)
    {
      if job in jobs {
        return false;
      }
      var anyNotDone := RegisterChild(job, jobs);
      var r := rows[job].(dependsOn := rows[job].dependsOn + jobs);
      rows := rows[job := if anyNotDone then r.(state := WaitDependencies) else r];
      ok := true;
    }

    method RegisterChild(job: Uuid, jobs: set<Uuid>) returns (anyNotDone: bool)
      requires job in rows && jobs <= rows.Keys
      modifies this`rows
      ensures rows.Keys == old(rows.Keys)
      ensures forall k :: k in rows ==> rows[k] == old(rows)[k].(reverseDependsOn :=
        if k in jobs then old(rows)[k].reverseDependsOn + {job} else old(rows)[k].reverseDependsOn)
      ensures anyNotDone <==> exists p :: p in jobs && old(rows)[p].state != Done
    {
      var todo := jobs;
      anyNotDone := false;
      while todo != {}
        invariant todo <= jobs && rows.Keys == old(rows.Keys)
        invariant forall k :: k in rows ==> rows[k] == old(rows)[k].(reverseDependsOn :=
          if k in jobs - todo then old(rows)[k].reverseDependsOn + {job} else old(rows)[k].reverseDependsOn)
        invariant anyNotDone <==> exists p :: p in jobs && p !in todo && old(rows)[p].state != Done
        decreases todo
      {
        var parent :| parent in todo;
        rows := rows[parent := rows[parent].(reverseDependsOn := rows[parent].reverseDependsOn + {job})];
        anyNotDone := anyNotDone || rows[parent].state != Done;
        todo := todo - {parent};
      }
    }

    /** `_get_common_dependent_jobs_query`: the join and the aggregation, then the UPDATE. */
    method UpdateDependentJobs(job: Uuid, required: State, target: State)
      modifies this`rows
      ensures rows == UpdateDependents(old(rows), job, required, target)
    {
      var selected: set<Uuid> := {};
      if job in rows {
        selected := SelectChildren(job, required);
      }
      SetStates(selected, target);
    }

    method SelectChildren(job: Uuid, required: State) returns (selected: set<Uuid>)
      requires job in rows
      ensures forall c :: c in selected <==> Selected(rows, job, required, c)
    {
      selected := {};
      var children := rows[job].reverseDependsOn;
      while children != {}
        invariant children <= rows[job].reverseDependsOn
        invariant forall c :: c in selected <==>
          c in rows[job].reverseDependsOn && c !in children && Selected(rows, job, required, c)
        decreases children
      {
        var child :| child in children;
        children := children - {child};
        if child in rows && SameGraph(rows[child], rows[job]) {
          var joined, matching := ParentStates(job, child, required);
          if joined && matching && rows[child].state == WaitDependencies {
            selected := selected + {child};
          }
        }
      }
    }

    method SetStates(jobs: set<Uuid>, target: State)
      requires jobs <= rows.Keys
      modifies this`rows
      ensures rows.Keys == old(rows.Keys)
      ensures forall k :: k in rows ==> rows[k] == if k in jobs then old(rows)[k].(state := target) else old(rows)[k]
    {
      var todo := jobs;
      while todo != {}
        invariant todo <= jobs && rows.Keys == old(rows.Keys)
        invariant forall k :: k in rows ==>
          rows[k] == if k in jobs - todo then old(rows)[k].(state := target) else old(rows)[k]
        decreases todo
      {
        var job :| job in todo;
        todo := todo - {job};
        rows := rows[job := rows[job].(state := target)];
      }
    }

    method ParentStates(job: Uuid, child: Uuid, required: State) returns (joined: bool, matching: bool)
      requires job in rows && child in rows
      ensures joined <==> JoinedParents(rows, job, child) != {}
      ensures matching <==> forall p :: p in JoinedParents(rows, job, child) ==> rows[p].state == required
    {
      joined, matching := false, true;
      var todo := rows[child].dependsOn;
      ghost var seen: set<Uuid> := {};
      while todo != {}
        invariant todo <= rows[child].dependsOn
        invariant seen == JoinedParents(rows, job, child) - todo
        invariant joined <==> seen != {}
        invariant matching <==> forall p :: p in seen ==> rows[p].state == required
        decreases todo
      {
        var parent :| parent in todo;
        todo := todo - {parent};
        if parent in rows && SameGraph(rows[parent], rows[job]) {
          seen := seen + {parent};
          joined := true;
          matching := matching && rows[parent].state == required;
        }
      }
    }

    /** `set_pending`. */
    method ResetToPending(job: Uuid, resetRetry: bool)
      requires job in rows
      modifies this`rows
      ensures rows == SetPending(old(rows), job, resetRetry)
    {
      var todo := rows[job].dependsOn;
      var waiting := false;
      while todo != {}
        invariant rows == old(rows) && todo <= rows[job].dependsOn
        invariant waiting <==> exists p :: p in rows[job].dependsOn && p !in todo && p in rows && rows[p].state != Done
        decreases todo
      {
        var parent :| parent in todo;
        todo := todo - {parent};
        if parent in rows && rows[parent].state != Done {
          waiting := true;
        }
      }
      rows := rows[job := rows[job].(state := if waiting then WaitDependencies else Pending)];
      if resetRetry {
        rows := rows[job := rows[job].(retry := 0)];
      }
    }

    /** `_runjob` around `perform`: done, postponed or failed; the wakeup follows in its own step. */
    method PerformJob(job: Uuid, outcome: Outcome)
      requires Enabled(Now(), Perform(job, outcome))
      modifies this
      ensures Now() == Next(old(Now()), Perform(job, outcome))
      ensures rows.Keys == old(rows).Keys && forall k :: k in rows && k != job ==> rows[k] == old(rows)[k]
      ensures rows[job] == old(rows)[job].(state := rows[job].state, retry := rows[job].retry)
      ensures rows[job].retry == old(rows)[job].retry + if outcome == AsksRetry(true) then 0 else 1
      ensures rows[job].state == Done <==> outcome.Succeeds?
      ensures rows[job].state == Failed <==>
        (|| outcome.Raises?
         || (outcome == AsksRetry(false) && rows[job].maxRetries != 0
             && old(rows)[job].retry + 1 >= rows[job].maxRetries))
      ensures rows[job].state == Pending ==>
        forall p :: p in rows[job].dependsOn && p in rows ==> old(rows)[p].state == Done
      ensures rows[job].state !in {Done, Failed, Pending} ==>
        (&& rows[job].state == WaitDependencies
         && exists p :: p in rows[job].dependsOn && p in rows && old(rows)[p].state != Done)
      ensures waking == old(waking) + if outcome.Succeeds? then {job} else {}
    {
      var r := rows[job].(retry := rows[job].retry + 1);
      var failed := false;
      match outcome {
        case Succeeds =>
          rows := rows[job := r.(state := Done)];
          waking := waking + {job};
        case AsksRetry(ignoreRetry) =>
          if ignoreRetry {
            r := r.(retry := r.retry - 1);
          } else if r.maxRetries != 0 && r.retry >= r.maxRetries {
            failed := true;
          }
          rows := rows[job := r];
          if failed {
            rows := rows[job := r.(state := Failed)];
          } else {
            ResetToPending(job, false);
          }
        case Conflict =>
          rows := rows[job := r];
          ResetToPending(job, false);
        case Raises =>
          rows := rows[job := r.(state := Failed)];
      }
    }

    /** `enqueue_waiting`, after the parent's own transaction. */
    method EnqueueWaitingJobs(job: Uuid)
      requires Enabled(Now(), EnqueueWaiting(job))
      modifies this
      ensures Now() == Next(old(Now()), EnqueueWaiting(job))
      ensures waking == old(waking) - {job} && rows.Keys == old(rows).Keys
      ensures Mirrored(old(rows)) && job in rows ==> forall k :: k in rows ==>
        rows[k] == old(rows)[k].(state :=
          if old(rows)[job].state == Done && WaitsOnlyFor(old(rows), k, job, Done) then Pending
          else old(rows)[k].state)
    {
      UpdateDependentJobs(job, Done, Pending);
      waking := waking - {job};
      if Mirrored(old(rows)) && job in rows { WakeupExactly(old(Now()), job); }
    }

    /** `_change_job_state` for DONE, CANCELLED and PENDING, each in one transaction. */
    method ChangeJobState(job: Uuid, e: Event)
      requires e.ButtonDone? || e.ButtonCancelled? || e.Requeue?
      requires e.job == job && Enabled(Now(), e)
      modifies this
      ensures Now() == Next(old(Now()), e)
      ensures waking == old(waking) && rows.Keys == old(rows).Keys
      ensures e.ButtonDone? && Mirrored(old(rows)) ==> forall k :: k in rows ==>
        rows[k] == old(rows)[k].(state :=
          if k == job then Done else if WaitsOnlyFor(old(rows), k, job, Done) then Pending else old(rows)[k].state)
      ensures e.ButtonCancelled? && Mirrored(old(rows)) ==> forall k :: k in rows ==>
        rows[k] == old(rows)[k].(state :=
          if k == job || WaitsOnlyFor(old(rows), k, job, Cancelled) then Cancelled else old(rows)[k].state)
      ensures e.Requeue? ==> forall k :: k in rows && k != job ==> rows[k] == old(rows)[k]
      ensures e.Requeue? ==> rows[job] == old(rows)[job].(retry := 0, state :=
        if forall p :: p in rows[job].dependsOn && p in rows ==> old(rows)[p].state == Done then Pending
        else WaitDependencies)
    {
      if e.ButtonDone? {
        rows := rows[job := rows[job].(state := Done)];
        UpdateDependentJobs(job, Done, Pending);
        if Mirrored(old(rows)) { ButtonDoneExactly(old(Now()), job); }
      } else if e.ButtonCancelled? {
        rows := rows[job := rows[job].(state := Cancelled)];
        UpdateDependentJobs(job, Cancelled, Cancelled);
        if Mirrored(old(rows)) { ButtonCancelledExactly(old(Now()), job); }
      } else {
        ResetToPending(job, true);
      }
    }

    /** `delay`: builds a job per vertex, calls `add_depends` per edge, stores them all. */
    method DelayGraph(graph: Graph, vertices: set<Uuid>, edges: seq<(Uuid, Uuid)>, limits: map<Uuid, nat>)
      requires vertices !! rows.Keys && limits.Keys == vertices
      requires forall p, c :: (p, c) in edges ==> p in vertices && c in vertices && p != c
      requires graph == NoGraph ==> edges == []
      modifies this
      ensures Now() == Next(old(Now()), Delay(graph, ParentsIn(vertices, edges), limits))
      ensures waking == old(waking) && GraphStored(old(rows), rows, graph, vertices, edges, limits)
    {
      hide NewRows, DependsAdded, ParentsIn, Enabled, GraphStored;
      NoEdgeRows(graph, vertices, limits);
      rows := rows + map c | c in vertices :: Row(Pending, graph, {}, {}, 0, limits[c]);
      assert edges[..0] == [];
      for i := 0 to |edges|
        invariant waking == old(waking)
        invariant rows == old(rows) + NewRows(graph, ParentsIn(vertices, edges[..i]), limits)
      {
        var (parent, child) := edges[i];
        assert (parent, child) in edges;
        assert edges[..i + 1] == edges[..i] + [(parent, child)];
        AddEdgeRow(graph, vertices, edges[..i], parent, child, limits);
        AddedInUnion(old(rows), NewRows(graph, ParentsIn(vertices, edges[..i]), limits), child, parent);
        var ok := AddDepends(child, {parent});
      }
      assert edges[..|edges|] == edges;
      DelayedRows(old(Now()), graph, vertices, edges, limits);
    }
  }

  lemma NewRowAsked(graph: Graph, vertices: set<Uuid>, edges: seq<(Uuid, Uuid)>, limits: map<Uuid, nat>, c: Uuid)
    requires limits.Keys == vertices && c in vertices
    requires forall p, c :: (p, c) in edges ==> p in vertices && c in vertices && p != c
    ensures RowAsked(NewRow(graph, ParentsIn(vertices, edges), limits, c), graph, edges, limits[c], c)
  {
    var parents := ParentsIn(vertices, edges);
    if p :| (p, c) in edges { assert p in parents[c]; }
  }

  lemma DelayedRows(w: World, graph: Graph, vertices: set<Uuid>, edges: seq<(Uuid, Uuid)>, limits: map<Uuid, nat>)
    requires vertices !! w.rows.Keys && limits.Keys == vertices
    requires forall p, c :: (p, c) in edges ==> p in vertices && c in vertices && p != c
    ensures GraphStored(w.rows, w.rows + NewRows(graph, ParentsIn(vertices, edges), limits), graph, vertices, edges,
                        limits)
  {
    hide RowAsked, NewRow;
    forall c | c in vertices
      ensures RowAsked(NewRows(graph, ParentsIn(vertices, edges), limits)[c], graph, edges, limits[c], c)
    {
      NewRowAsked(graph, vertices, edges, limits, c);
    }
  }

  lemma NoEdgeRows(graph: Graph, vertices: set<Uuid>, limits: map<Uuid, nat>)
    requires limits.Keys == vertices
    ensures NewRows(graph, ParentsIn(vertices, []), limits) ==
            map c | c in vertices :: Row(Pending, graph, {}, {}, 0, limits[c])
    ensures NewRows(graph, ParentsIn(vertices, []), limits).Keys == vertices
  {
    var a := ParentsIn(vertices, []);
    assert forall c :: c in a ==> a[c] == {} && (set k | k in a && c in a[k]) == {};
  }

  lemma AddedInUnion(a: Table, b: Table, c: Uuid, p: Uuid)
    requires a.Keys !! b.Keys && c in b && p in b
    ensures DependsAdded(a + b, c, {p}) == a + DependsAdded(b, c, {p})
  {
  }

  lemma OneMoreEdge(vertices: set<Uuid>, edges: seq<(Uuid, Uuid)>, p: Uuid, c: Uuid, k: Uuid)
    requires p in vertices && c in vertices && k in vertices
    ensures var a, b := ParentsIn(vertices, edges), ParentsIn(vertices, edges + [(p, c)]);
            && b[k] == (if k == c then a[k] + {p} else a[k])
            && (set d | d in b && k in b[d]) == (set d | d in a && k in a[d]) + (if k == p then {c} else {})
  {
    assert forall q, d :: (q, d) in edges + [(p, c)] <==> (q, d) in edges || (q == p && d == c);
  }

  lemma AddedRow(graph: Graph, a: map<Uuid, set<Uuid>>, b: map<Uuid, set<Uuid>>, limits: map<Uuid, nat>,
                 p: Uuid, c: Uuid, k: Uuid)
    requires a.Keys == b.Keys <= limits.Keys && p in a && c in a && k in a
    requires b[k] == if k == c then a[k] + {p} else a[k]
    requires (set d | d in b && k in b[d]) == (set d | d in a && k in a[d]) + if k == p then {c} else {}
    ensures NewRows(graph, b, limits)[k] == DependsAdded(NewRows(graph, a, limits), c, {p})[k]
  {
    assert NewRows(graph, a, limits)[p].state != Done;
  }

  /** Building the rows edge by edge gives the rows of the whole graph. */
  lemma {:induction false} AddEdgeRow(graph: Graph, vertices: set<Uuid>, edges: seq<(Uuid, Uuid)>, p: Uuid, c: Uuid,
                                      limits: map<Uuid, nat>)
    requires limits.Keys == vertices && p in vertices && c in vertices && p != c
    ensures NewRows(graph, ParentsIn(vertices, edges), limits).Keys == vertices
    ensures NewRows(graph, ParentsIn(vertices, edges + [(p, c)]), limits) ==
            DependsAdded(NewRows(graph, ParentsIn(vertices, edges), limits), c, {p})
  {
    var a, b := ParentsIn(vertices, edges), ParentsIn(vertices, edges + [(p, c)]);
    hide *;
    forall k | k in vertices
      ensures NewRows(graph, b, limits)[k] == DependsAdded(NewRows(graph, a, limits), c, {p})[k]
    {
      OneMoreEdge(vertices, edges, p, c, k);
      AddedRow(graph, a, b, limits, p, c, k);
    }
  }
}
