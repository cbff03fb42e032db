/** What whole runs of the job queue keep and reach, and how they get stuck. */
module JobRuns {
  import opened Digraph
  import opened JobQueue

  // ---- acyclicity is kept ----

  function BatchGraph(parents: map<Uuid, set<Uuid>>): map<Uuid, set<Uuid>> {
    map p | p in parents :: set c | c in parents && p in parents[c]
  }

  lemma {:induction false} DelayKeepsAcyclic(w: World, e: Event)
    requires Mirrored(w.rows) && e.Delay? && Enabled(w, e)
    requires Acyclic(DependencyGraph(w.rows)) && Acyclic(BatchGraph(e.parents))
    ensures Acyclic(DependencyGraph(Next(w, e).rows))
  {
    var before, batch, after := DependencyGraph(w.rows), BatchGraph(e.parents), DependencyGraph(Next(w, e).rows);
    DelayEdgesApart(w, e);
    hide Mirrored, Enabled, Next, DependencyGraph, BatchGraph, Reaches;
    forall x ensures !OnCycle(after, x) {
      if OnCycle(after, x) {
        CycleStaysApart(after, before, batch, w.rows.Keys, x);
      }
    }
  }

  lemma CycleStaysApart(g: map<Uuid, set<Uuid>>, a: map<Uuid, set<Uuid>>, b: map<Uuid, set<Uuid>>,
                        left: set<Uuid>, x: Uuid)
    requires OnCycle(g, x)
    requires forall u, v :: Edge(g, u, v) ==> Edge(a, u, v) || Edge(b, u, v)
    requires forall u, v :: Edge(a, u, v) ==> u in left && v in left
    requires forall u, v :: Edge(b, u, v) ==> u !in left && v !in left
    ensures OnCycle(a, x) || OnCycle(b, x)
  {
    var p :| WalkBetween(g, p, x, x);
    StaysApart(g, a, b, left, p);
  }

  lemma DelayEdgesApart(w: World, e: Event)
    requires Mirrored(w.rows) && e.Delay? && Enabled(w, e)
    ensures forall u, v :: Edge(DependencyGraph(Next(w, e).rows), u, v) ==>
              Edge(DependencyGraph(w.rows), u, v) || Edge(BatchGraph(e.parents), u, v)
    ensures forall u, v :: Edge(DependencyGraph(w.rows), u, v) ==> u in w.rows && v in w.rows
    ensures forall u, v :: Edge(BatchGraph(e.parents), u, v) ==> u !in w.rows && v !in w.rows
  {
    forall u, v | Edge(DependencyGraph(Next(w, e).rows), u, v)
      ensures Edge(DependencyGraph(w.rows), u, v) || Edge(BatchGraph(e.parents), u, v)
    {
      if u in e.parents {
        assert Next(w, e).rows[u] == NewRow(e.graph, e.parents, e.limits, u);
      }
    }
  }

  lemma StaysApart(g: map<Uuid, set<Uuid>>, a: map<Uuid, set<Uuid>>, b: map<Uuid, set<Uuid>>,
                   left: set<Uuid>, p: seq<Uuid>)
    requires |p| >= 2 && IsWalk(g, p)
    requires forall u, v :: Edge(g, u, v) ==> Edge(a, u, v) || Edge(b, u, v)
    requires forall u, v :: Edge(a, u, v) ==> u in left && v in left
    requires forall u, v :: Edge(b, u, v) ==> u !in left && v !in left
    ensures Reaches(a, p[0], p[|p| - 1]) || Reaches(b, p[0], p[|p| - 1])
  {
    forall u, v | Edge(g, u, v) ensures Within(a, b, left, u, v) {
      if Edge(a, u, v) { EdgeReaches(a, u, v); } else { EdgeReaches(b, u, v); }
    }
    forall u, v, w | Within(a, b, left, u, v) && Within(a, b, left, v, w) ensures Within(a, b, left, u, w) {
      if u in left { ReachesTrans(a, u, v, w); } else { ReachesTrans(b, u, v, w); }
    }
    WalkInduction(g, p, (u, v) => Within(a, b, left, u, v));
  }

  ghost predicate Within(a: map<Uuid, set<Uuid>>, b: map<Uuid, set<Uuid>>, left: set<Uuid>, u: Uuid, v: Uuid) {
    if u in left then v in left && Reaches(a, u, v) else v !in left && Reaches(b, u, v)
  }

  ghost predicate BatchesAcyclic(es: seq<Event>) {
    forall i :: 0 <= i < |es| && es[i].Delay? ==> Acyclic(BatchGraph(es[i].parents))
  }

  lemma {:induction false} RunKeepsAcyclic(w: World, es: seq<Event>)
    requires Mirrored(w.rows) && Acyclic(DependencyGraph(w.rows)) && Legal(w, es) && BatchesAcyclic(es)
    ensures Acyclic(DependencyGraph(Run(w, es).rows))
    decreases |es|
  {
    if es != [] {
      if es[0].Delay? {
        DelayKeepsAcyclic(w, es[0]);
        DelayMirrored(w, es[0]);
      } else {
        NextKeepsShape(w, es[0]);
        ShapeKeepsMirrored(w.rows, Next(w, es[0]).rows);
        SetStateKeepsGraph(w.rows, Next(w, es[0]).rows);
      }
      RunKeepsAcyclic(Next(w, es[0]), es[1..]);
    }
  }

  lemma NextKeepsShape(w: World, e: Event)
    requires Enabled(w, e) && !e.Delay?
    ensures SameShape(w.rows, Next(w, e).rows)
  {
  }

  /** No deadlock over whole runs: a run of acyclic graphs in which nothing failed or was cancelled
      can always be continued until every job is done. */
  lemma EveryRunCanFinish(es: seq<Event>) returns (more: seq<Event>)
    requires Legal(NoJobs(), es) && BatchesAcyclic(es) && NoneFailed(Run(NoJobs(), es).rows)
    ensures Legal(NoJobs(), es + more)
    ensures forall j :: j in Run(NoJobs(), es + more).rows ==> Run(NoJobs(), es + more).rows[j].state == Done
  {
    hide Legal, Run, Inv, BatchesAcyclic;
    NoJobsInv();
    NoJobsAcyclic();
    RunKeepsInv(NoJobs(), es);
    RunKeepsAcyclic(NoJobs(), es);
    more := CanFinish(Run(NoJobs(), es));
    RunAppend(NoJobs(), es, more);
    var w := Run(NoJobs(), es + more);
    assert forall j :: j in w.rows ==> j !in Unfinished(w.rows);
  }

  lemma NoJobsAcyclic()
    ensures Mirrored(NoJobs().rows) && Acyclic(DependencyGraph(NoJobs().rows))
  {
    forall x ensures !OnCycle(DependencyGraph(NoJobs().rows), x) {
      if OnCycle(DependencyGraph(NoJobs().rows), x) {
        var y := FirstStep(DependencyGraph(NoJobs().rows), x, x);
      }
    }
  }

  // ---- retries ----

  /** n executions that all end the same way. */
  function Attempts(j: Uuid, outcome: Outcome, n: nat): seq<Event> {
    if n == 0 then [] else [Enqueue(j), Start(j), Perform(j, outcome)] + Attempts(j, outcome, n - 1)
  }

  lemma StepThen(w: World, e: Event, es: seq<Event>)
    requires Enabled(w, e) && Careful(w, e) && Legal(Next(w, e), es)
    ensures Legal(w, [e] + es) && Run(w, [e] + es) == Run(Next(w, e), es)
  {
    assert ([e] + es)[0] == e && ([e] + es)[1..] == es;
  }

  predicate Ready(w: World, j: Uuid) {
    j in w.rows && w.rows[j].state == Pending && AllParentsDone(w.rows, j) && j !in w.rows[j].dependsOn
  }

  lemma OneAttempt(w: World, j: Uuid, outcome: Outcome)
    requires Ready(w, j) && (outcome == AsksRetry(false) || outcome.Conflict?)
    ensures var es := [Enqueue(j), Start(j), Perform(j, outcome)];
            var r := w.rows[j];
            Legal(w, es) && Run(w, es) == World(w.rows[j := r.(
              state := if GivesUp(r, outcome) then Failed else Pending, retry := r.retry + 1)], w.waking)
  {
    EnqueueThenStart(w, j);
    PerformStarted(World(w.rows[j := w.rows[j].(state := Started)], w.waking), j, outcome);
    hide Enabled, Careful, Next, Legal, Run, GivesUp;
    ThreeSteps(w, Enqueue(j), Start(j), Perform(j, outcome));
  }

  lemma ThreeSteps(w: World, a: Event, b: Event, c: Event)
    requires Enabled(w, a) && Careful(w, a)
    requires var w1 := Next(w, a); Enabled(w1, b) && Careful(w1, b)
    requires var w2 := Next(Next(w, a), b); Enabled(w2, c) && Careful(w2, c)
    ensures Legal(w, [a, b, c]) && Run(w, [a, b, c]) == Next(Next(Next(w, a), b), c)
  {
    var w1 := Next(w, a);
    var w2 := Next(w1, b);
    hide Enabled, Careful, Next;
    StepThen(w2, c, []);
    StepThen(w1, b, [c]);
    StepThen(w, a, [b, c]);
    assert [c] + [] == [c] && [b] + [c] == [b, c] && [a] + [b, c] == [a, b, c];
  }

  lemma EnqueueThenStart(w: World, j: Uuid)
    requires Ready(w, j)
    ensures Enabled(w, Enqueue(j)) && Careful(w, Enqueue(j))
    ensures Enabled(Next(w, Enqueue(j)), Start(j)) && Careful(Next(w, Enqueue(j)), Start(j))
    ensures Next(Next(w, Enqueue(j)), Start(j)) == World(w.rows[j := w.rows[j].(state := Started)], w.waking)
  {
  }

  lemma PerformStarted(w: World, j: Uuid, outcome: Outcome)
    requires j in w.rows && w.rows[j].state == Started && AllParentsDone(w.rows, j) && j !in w.rows[j].dependsOn
    requires outcome == AsksRetry(false) || outcome.Conflict?
    ensures Enabled(w, Perform(j, outcome)) && Careful(w, Perform(j, outcome))
    ensures Next(w, Perform(j, outcome)) == World(w.rows[j := w.rows[j].(
              state := if GivesUp(w.rows[j], outcome) then Failed else Pending,
              retry := w.rows[j].retry + 1)], w.waking)
  {
    assert AllParentsDone(w.rows[j := w.rows[j].(retry := w.rows[j].retry + 1)], j);
  }

  /** A job that keeps asking for a retry fails on attempt number maxRetries and not before;
      with maxRetries 0 it never does. */
  lemma {:induction false} RetriesAreExhausted(w: World, j: Uuid, n: nat)
    requires Ready(w, j) && (w.rows[j].maxRetries == 0 || w.rows[j].retry + n <= w.rows[j].maxRetries)
    ensures var es := Attempts(j, AsksRetry(false), n);
            Legal(w, es) && Run(w, es).rows == w.rows[j := w.rows[j].(
              state := if n > 0 && w.rows[j].retry + n == w.rows[j].maxRetries then Failed else Pending,
              retry := w.rows[j].retry + n)]
    decreases n
  {
    if n == 0 {
      assert w.rows[j := w.rows[j].(state := Pending, retry := w.rows[j].retry)] == w.rows;
    } else {
      var first := [Enqueue(j), Start(j), Perform(j, AsksRetry(false))];
      OneAttempt(w, j, AsksRetry(false));
      var w1 := Run(w, first);
      hide Legal, Run;
      if n == 1 {
        assert Attempts(j, AsksRetry(false), 1) == first + Attempts(j, AsksRetry(false), 0) == first;
      } else {
        assert AllParentsDone(w1.rows, j);
        RetriesAreExhausted(w1, j, n - 1);
        RunAppend(w, first, Attempts(j, AsksRetry(false), n - 1));
      }
    }
  }

  /** A job that keeps meeting conflicts is tried again however often it was, whatever its limit. */
  lemma {:induction false} ConflictsNeverFail(w: World, j: Uuid, n: nat)
    requires Ready(w, j)
    ensures Legal(w, Attempts(j, Conflict, n))
    ensures Run(w, Attempts(j, Conflict, n)).rows ==
            w.rows[j := w.rows[j].(state := Pending, retry := w.rows[j].retry + n)]
    decreases n
  {
    if n == 0 {
      assert w.rows[j := w.rows[j].(state := Pending, retry := w.rows[j].retry)] == w.rows;
    } else {
      var first := [Enqueue(j), Start(j), Perform(j, Conflict)];
      OneAttempt(w, j, Conflict);
      var w1 := Run(w, first);
      hide Legal, Run;
      assert AllParentsDone(w1.rows, j);
      ConflictsNeverFail(w1, j, n - 1);
      RunAppend(w, first, Attempts(j, Conflict, n - 1));
    }
  }

  // ---- the gap between commit and wakeup ----

  /** `c` waits although every parent is done and none of them owes a wakeup. */
  predicate Stranded(w: World, c: Uuid) {
    && c in w.rows && w.rows[c].state == WaitDependencies
    && forall p :: p in w.rows[c].dependsOn ==> p in w.rows && w.rows[p].state == Done && p !in w.waking
  }

  /** Losing a wakeup keeps the protocol exactly when every waiting child has another reason to wait, and strands
      exactly the children that have none. */
  lemma LostWakeupIsExact(w: World, j: Uuid)
    requires Inv(w) && j in w.waking
    ensures Inv(World(w.rows, w.waking - {j})) <==>
            forall c {:trigger OtherReason(w, c, j)} ::
              c in w.rows && j in w.rows[c].dependsOn && w.rows[c].state == WaitDependencies ==> OtherReason(w, c, j)
    ensures forall c :: Stranded(World(w.rows, w.waking - {j}), c) <==>
              c in w.rows && j in w.rows[c].dependsOn && w.rows[c].state == WaitDependencies && !OtherReason(w, c, j)
  {
    StepIsExact(w, WakeupLost(j));
    assert Next(w, WakeupLost(j)) == World(w.rows, w.waking - {j});
    forall c | c in w.rows && w.rows[c].state == WaitDependencies
      ensures Stranded(World(w.rows, w.waking - {j}), c) <==> j in w.rows[c].dependsOn && !OtherReason(w, c, j)
    {
      assert HasReasonToWait(w, c);
    }
  }

  /** What happens without anybody pressing a button or the runner acting on an outdated view. */
  predicate Unattended(w: World, e: Event) {
    && !e.ButtonDone? && !e.ButtonCancelled? && !e.Requeue?
    && (e.Enqueue? && e.job in w.rows ==> w.rows[e.job].state == Pending)
  }

  ghost predicate UnattendedRun(w: World, es: seq<Event>)
    requires Possible(w, es)
    decreases |es|
  {
    es == [] || (Unattended(w, es[0]) && UnattendedRun(Next(w, es[0]), es[1..]))
  }

  lemma StrandedStays(w: World, e: Event, c: Uuid)
    requires Mirrored(w.rows) && Stranded(w, c) && Enabled(w, e) && Unattended(w, e)
    ensures Stranded(Next(w, e), c)
  {
    if e.EnqueueWaiting? && e.job in w.rows {
      SelectedMeans(w.rows, e.job, Done, c);
    }
  }

  /** A stranded job stays stranded in every unattended run. */
  lemma {:induction false} StrandedForever(w: World, es: seq<Event>, c: Uuid)
    requires Mirrored(w.rows) && Stranded(w, c) && Possible(w, es) && UnattendedRun(w, es)
    ensures Stranded(Run(w, es), c)
    decreases |es|
  {
    if es != [] {
      StrandedStays(w, es[0], c);
      if es[0].Delay? {
        DelayMirrored(w, es[0]);
      } else {
        NextKeepsShape(w, es[0]);
        ShapeKeepsMirrored(w.rows, Next(w, es[0]).rows);
      }
      StrandedForever(Next(w, es[0]), es[1..], c);
    }
  }

  /** The process dies after committing DONE and before `enqueue_waiting`: the child of the job is stranded, and
      nothing but a new batch moves without a button. */
  lemma {:induction false} CrashStrandsChild() returns (es: seq<Event>)
    ensures Possible(NoJobs(), es) && UnattendedRun(NoJobs(), es) && Stranded(Run(NoJobs(), es), 1)
    ensures forall e :: Enabled(Run(NoJobs(), es), e) && Unattended(Run(NoJobs(), es), e) ==> e.Delay?
  {
    var e := CrashBatch();
    CrashBatchStored();
    hide CrashBatch, Next;
    var rest := [Enqueue(0), Start(0), Perform(0, Succeeds), WakeupLost(0)];
    DyingRun(Next(NoJobs(), e));
    es := [e] + rest;
    assert es[0] == e && es[1..] == rest;
  }

  function CrashBatch(): Event {
    Delay(GraphUuid(7), map[0 := {}, 1 := {0}], map[0 := 5, 1 := 5])
  }

  lemma {:induction false} CrashBatchStored()
    ensures Enabled(NoJobs(), CrashBatch()) && Unattended(NoJobs(), CrashBatch())
    ensures var w := Next(NoJobs(), CrashBatch());
            && w.rows.Keys == {0, 1} && w.rows[0].state == Pending && w.rows[1].state == WaitDependencies
            && w.rows[1].dependsOn == {0} && w.waking == {}
  {
    var e := CrashBatch();
    assert Next(NoJobs(), e).rows[0] == NewRow(e.graph, e.parents, e.limits, 0);
    assert Next(NoJobs(), e).rows[1] == NewRow(e.graph, e.parents, e.limits, 1);
  }

  lemma {:induction false} DyingRun(w: World)
    requires w.rows.Keys == {0, 1} && w.rows[0].state == Pending && w.rows[1].state == WaitDependencies
    requires w.rows[1].dependsOn == {0} && w.waking == {}
    ensures var es := [Enqueue(0), Start(0), Perform(0, Succeeds), WakeupLost(0)];
            && Possible(w, es) && UnattendedRun(w, es) && Stranded(Run(w, es), 1)
            && forall e :: Enabled(Run(w, es), e) && Unattended(Run(w, es), e) ==> e.Delay?
  {
    var es := [Enqueue(0), Start(0), Perform(0, Succeeds), WakeupLost(0)];
    var w1 := Next(w, es[0]);
    var w2 := Next(w1, es[1]);
    var w3 := Next(w2, es[2]);
    var w4 := Next(w3, es[3]);
    assert es[1..] == [es[1], es[2], es[3]] && es[1..][1..] == [es[2], es[3]] && es[1..][1..][1..] == [es[3]];
    assert es[1..][1..][1..][1..] == [];
    assert w4.waking == {};
    assert Run(w, es) == w4;
  }
}
