/** The stored jobs of crose/queue_job/job.py and the transitions that share their table. */
module JobQueue {
  import opened Digraph

  type Uuid = nat

  datatype State = WaitDependencies | Pending | Enqueued | Started | Done | Cancelled | Failed

  /** One row of queue_job. A single job has no graph, which no other row's graph equals. */
  datatype Row = Row(state: State, graph: Graph, dependsOn: set<Uuid>, reverseDependsOn: set<Uuid>,
                     retry: nat, maxRetries: nat)

  datatype Graph = NoGraph | GraphUuid(id: Uuid)

  type Table = map<Uuid, Row>

  /** The rows, and the jobs whose transaction has committed DONE but whose
      `enqueue_waiting` has not run yet. */
  datatype World = World(rows: Table, waking: set<Uuid>)

  /** How one execution ends; a conflict is a concurrency error of the database, in the job or at its commit. */
  datatype Outcome = Succeeds | AsksRetry(ignoreRetry: bool) | Conflict | Raises

  /** `Enqueue` is the runner's UPDATE, which acts on what the runner remembers and tests no state.
      `WakeupLost` is a process that dies between its two transactions, or gives up the second. */
  datatype Event =
    | Delay(graph: Graph, parents: map<Uuid, set<Uuid>>, limits: map<Uuid, nat>)
    | Enqueue(job: Uuid)
    | Start(job: Uuid)
    | Perform(job: Uuid, outcome: Outcome)
    | EnqueueWaiting(job: Uuid)
    | WakeupLost(job: Uuid)
    | FoundDead(job: Uuid)
    | ButtonDone(job: Uuid)
    | ButtonCancelled(job: Uuid)
    | Requeue(job: Uuid)

  predicate SameGraph(a: Row, b: Row) {
    a.graph.GraphUuid? && a.graph == b.graph
  }

  /** The parent rows that the query joins to `child`. */
  function JoinedParents(t: Table, job: Uuid, child: Uuid): set<Uuid>
    requires job in t && child in t
  {
    set p | p in t[child].dependsOn && p in t && SameGraph(t[p], t[job])
  }

  /** The children the shared UPDATE touches. */
  predicate Selected(t: Table, job: Uuid, required: State, child: Uuid) {
    && job in t && child in t && child in t[job].reverseDependsOn && SameGraph(t[child], t[job])
    && t[child].state == WaitDependencies
    && JoinedParents(t, job, child) != {}
    && forall p :: p in JoinedParents(t, job, child) ==> t[p].state == required
  }

  function UpdateDependents(t: Table, job: Uuid, required: State, target: State): Table {
    map k | k in t :: if Selected(t, job, required, k) then t[k].(state := target) else t[k]
  }

  predicate AllParentsDone(t: Table, job: Uuid)
    requires job in t
  {
    forall p :: p in t[job].dependsOn && p in t ==> t[p].state == Done
  }

  /** `set_pending`: back to waiting unless every parent is done. */
  function SetPending(t: Table, job: Uuid, resetRetry: bool): Table
    requires job in t
  {
    t[job := t[job].(state := if AllParentsDone(t, job) then Pending else WaitDependencies,
                     retry := if resetRetry then 0 else t[job].retry)]
  }

  /** `perform`: the retry count it leaves, and whether the error raised is the final one. */
  function RetryAfter(r: Row, outcome: Outcome): nat {
    if outcome == AsksRetry(true) then r.retry else r.retry + 1
  }

  predicate GivesUp(r: Row, outcome: Outcome) {
    || outcome.Raises?
    || (outcome == AsksRetry(false) && r.maxRetries != 0 && r.retry + 1 >= r.maxRetries)
  }

  predicate Active(s: State) {
    s == Pending || s == Enqueued || s == Started
  }

  predicate Enabled(w: World, e: Event) {
    match e
    case Delay(graph, parents, limits) =>
      && limits.Keys == parents.Keys
      && (forall c :: c in parents ==> c !in w.rows && c !in parents[c] && parents[c] <= parents.Keys)
      && (graph == NoGraph ==> forall c :: c in parents ==> parents[c] == {})
    case Enqueue(j) => j in w.rows
    case Start(j) => j in w.rows && w.rows[j].state == Enqueued
    case Perform(j, _) => j in w.rows && w.rows[j].state == Started
    case EnqueueWaiting(j) => j in w.waking
    case WakeupLost(j) => j in w.waking
    case FoundDead(j) => j in w.rows && w.rows[j].state in {Enqueued, Started}
    case ButtonDone(j) => j in w.rows && w.rows[j].state in {WaitDependencies, Pending, Enqueued, Failed}
    case ButtonCancelled(j) => j in w.rows && w.rows[j].state in {WaitDependencies, Pending, Enqueued, Failed}
    case Requeue(j) => j in w.rows && w.rows[j].state in {Failed, Done, Cancelled}
  }

  function NewRow(graph: Graph, parents: map<Uuid, set<Uuid>>, limits: map<Uuid, nat>, c: Uuid): Row
    requires c in parents && c in limits
  {
    Row(if parents[c] == {} then Pending else WaitDependencies, graph, parents[c],
        set k | k in parents && c in parents[k], 0, limits[c])
  }

  function Next(w: World, e: Event): World
    requires Enabled(w, e)
  {
    match e
    case Delay(graph, parents, limits) =>
      World(w.rows + NewRows(graph, parents, limits), w.waking)
    case Enqueue(j) => World(w.rows[j := w.rows[j].(state := Enqueued)], w.waking)
    case Start(j) => World(w.rows[j := w.rows[j].(state := Started)], w.waking)
    case Perform(j, outcome) => Performed(w, j, outcome)
    case EnqueueWaiting(j) => World(UpdateDependents(w.rows, j, Done, Pending), w.waking - {j})
    case WakeupLost(j) => World(w.rows, w.waking - {j})
    case FoundDead(j) =>
      var r := w.rows[j];
      World(w.rows[j := r.(state := if r.maxRetries != 0 && r.retry > r.maxRetries then Failed else Pending,
                           retry := if r.state == Started then r.retry + 1 else r.retry)], w.waking)
    case ButtonDone(j) =>
      World(UpdateDependents(w.rows[j := w.rows[j].(state := Done)], j, Done, Pending), w.waking)
    case ButtonCancelled(j) =>
      World(UpdateDependents(w.rows[j := w.rows[j].(state := Cancelled)], j, Cancelled, Cancelled), w.waking)
    case Requeue(j) => World(SetPending(w.rows, j, true), w.waking)
  }

  function Performed(w: World, j: Uuid, outcome: Outcome): World
    requires j in w.rows
  {
    var r := w.rows[j].(retry := RetryAfter(w.rows[j], outcome));
    if outcome.Succeeds? then World(w.rows[j := r.(state := Done)], w.waking + {j})
    else if GivesUp(w.rows[j], outcome) then World(w.rows[j := r.(state := Failed)], w.waking)
    else World(SetPending(w.rows[j := r], j, false), w.waking)
  }

  /** Dependency lists point to stored rows of the same graph and mirror each other. */
  predicate Mirrored(t: Table) {
    && (forall c, p :: c in t && p in t[c].dependsOn ==>
          p in t && c != p && SameGraph(t[p], t[c]) && c in t[p].reverseDependsOn)
    && (forall p, c :: p in t && c in t[p].reverseDependsOn ==> c in t && p in t[c].dependsOn)
  }

  /** A job that may run has all its parents done. */
  predicate Safe(t: Table) {
    forall c, p :: c in t && Active(t[c].state) && p in t[c].dependsOn && p in t ==> t[p].state == Done
  }

  /** A waiting job has a parent that is not done or that is about to wake it. */
  predicate NoLostWakeup(w: World) {
    forall c {:trigger HasReasonToWait(w, c)} ::
      c in w.rows && w.rows[c].state == WaitDependencies ==> HasReasonToWait(w, c)
  }

  predicate HasReasonToWait(w: World, c: Uuid)
    requires c in w.rows
  {
    exists p :: p in w.rows[c].dependsOn && p in w.rows && (w.rows[p].state != Done || p in w.waking)
  }

  predicate Inv(w: World) {
    Mirrored(w.rows) && Safe(w.rows) && NoLostWakeup(w)
  }

  predicate NoActiveChild(t: Table, j: Uuid)
    requires j in t
  {
    forall c :: c in t[j].reverseDependsOn && c in t ==> !Active(t[c].state)
  }

  /** `c` has a reason to wait other than the wakeup that `j` owes. */
  predicate OtherReason(w: World, c: Uuid, j: Uuid)
    requires c in w.rows
  {
    exists p :: p in w.rows[c].dependsOn && p in w.rows && (w.rows[p].state != Done || (p in w.waking && p != j))
  }

  /** A DONE job goes back only while no child runs on its result, a job is enqueued only when its parents are
      done, and a wakeup is lost only when every child that waits has another reason to. */
  predicate Careful(w: World, e: Event) {
    match e
    case Requeue(j) => j in w.rows && w.rows[j].state == Done ==> NoActiveChild(w.rows, j)
    case Enqueue(j) =>
      j in w.rows ==> AllParentsDone(w.rows, j) && (w.rows[j].state == Done ==> NoActiveChild(w.rows, j))
    case WakeupLost(j) =>
      forall c {:trigger OtherReason(w, c, j)} ::
        c in w.rows && j in w.rows[c].dependsOn && w.rows[c].state == WaitDependencies ==> OtherReason(w, c, j)
    case _ => true
  }

  ghost predicate SameShape(t: Table, t': Table) {
    && t.Keys == t'.Keys
    && forall k :: k in t ==> t'[k].graph == t[k].graph && t'[k].dependsOn == t[k].dependsOn &&
                              t'[k].reverseDependsOn == t[k].reverseDependsOn && t'[k].maxRetries == t[k].maxRetries
  }

  lemma SelectedMeans(t: Table, job: Uuid, required: State, child: Uuid)
    requires Mirrored(t) && job in t
    ensures Selected(t, job, required, child) <==>
      child in t && job in t[child].dependsOn && t[child].state == WaitDependencies &&
      forall p :: p in t[child].dependsOn ==> t[p].state == required
  {
    if child in t && job in t[child].dependsOn {
      assert JoinedParents(t, job, child) == t[child].dependsOn;
    }
  }

  lemma ShapeKeepsMirrored(t: Table, t': Table)
    requires Mirrored(t) && SameShape(t, t')
    ensures Mirrored(t')
  {
  }

  function NewRows(graph: Graph, parents: map<Uuid, set<Uuid>>, limits: map<Uuid, nat>): (t: Table)
    requires parents.Keys <= limits.Keys
    ensures t.Keys == parents.Keys
  {
    map c | c in parents :: NewRow(graph, parents, limits, c)
  }

  lemma NewRowsMirrored(w: World, e: Event)
    requires e.Delay? && Enabled(w, e)
    ensures Mirrored(NewRows(e.graph, e.parents, e.limits))
  {
  }

  lemma UnionMirrored(a: Table, b: Table)
    requires Mirrored(a) && Mirrored(b) && a.Keys !! b.Keys
    ensures Mirrored(a + b)
  {
  }

  lemma {:induction false} DelayMirrored(w: World, e: Event)
    requires Mirrored(w.rows) && e.Delay? && Enabled(w, e)
    ensures Mirrored(Next(w, e).rows)
    ensures forall k :: k in w.rows ==> Next(w, e).rows[k] == w.rows[k]
  {
    NewRowsMirrored(w, e);
    UnionMirrored(w.rows, NewRows(e.graph, e.parents, e.limits));
  }

  /** Replacing the state of one job that was not done, or has no active child. */
  lemma SetStateKeeps(w: World, j: Uuid, r: Row, waking: set<Uuid>)
    requires Mirrored(w.rows) && Safe(w.rows) && NoLostWakeup(w)
    requires j in w.rows && r == w.rows[j].(state := r.state, retry := r.retry) && w.waking <= waking
    requires w.rows[j].state == Done ==> forall c :: c in w.rows[j].reverseDependsOn ==> !Active(w.rows[c].state)
    requires Active(r.state) ==> AllParentsDone(w.rows, j)
    requires r.state == WaitDependencies ==> HasReasonToWait(w, j)
    requires r.state == Done ==> j in waking
    ensures var w' := World(w.rows[j := r], waking);
            Mirrored(w'.rows) && Safe(w'.rows) && NoLostWakeup(w')
  {
    var w' := World(w.rows[j := r], waking);
    assert SameShape(w.rows, w'.rows);
    ShapeKeepsMirrored(w.rows, w'.rows);
    forall c {:trigger HasReasonToWait(w', c)} | c in w'.rows && w'.rows[c].state == WaitDependencies
      ensures HasReasonToWait(w', c)
    {
      assert HasReasonToWait(w, c);
      var p :| p in w.rows[c].dependsOn && p in w.rows && (w.rows[p].state != Done || p in w.waking);
      assert w'.rows[p].state != Done || p in w'.waking;
    }
  }

  lemma WakeSafe(t: Table, j: Uuid)
    requires Mirrored(t) && Safe(t)
    ensures Mirrored(UpdateDependents(t, j, Done, Pending)) && Safe(UpdateDependents(t, j, Done, Pending))
  {
    var t' := UpdateDependents(t, j, Done, Pending);
    assert SameShape(t, t');
    ShapeKeepsMirrored(t, t');
    forall c, p | c in t' && Active(t'[c].state) && p in t'[c].dependsOn && p in t'
      ensures t'[p].state == Done
    {
      if Selected(t, j, Done, c) { SelectedMeans(t, j, Done, c); }
    }
  }

  /** The shared UPDATE wakes exactly the waiting children whose parents are all done. */
  lemma WakesExactly(w: World, j: Uuid, c: Uuid)
    requires Mirrored(w.rows) && j in w.rows && c in w.rows
    ensures UpdateDependents(w.rows, j, Done, Pending)[c] ==
            if j in w.rows[c].dependsOn && w.rows[c].state == WaitDependencies && AllParentsDone(w.rows, c)
            then w.rows[c].(state := Pending) else w.rows[c]
  {
    SelectedMeans(w.rows, j, Done, c);
  }

  /** The shared UPDATE after `job` is done: no waiting child of it is left behind. */
  lemma WakeKeeps(w: World, j: Uuid)
    requires Mirrored(w.rows) && Safe(w.rows) && NoLostWakeup(w)
    ensures var w' := World(UpdateDependents(w.rows, j, Done, Pending), w.waking - {j});
            Mirrored(w'.rows) && Safe(w'.rows) && NoLostWakeup(w')
  {
    WakeSafe(w.rows, j);
    var w' := World(UpdateDependents(w.rows, j, Done, Pending), w.waking - {j});
    forall c {:trigger HasReasonToWait(w', c)} | c in w'.rows && w'.rows[c].state == WaitDependencies
      ensures HasReasonToWait(w', c)
    {
      WakeLeavesReason(w, j, c);
    }
  }

  lemma WakeLeavesReason(w: World, j: Uuid, c: Uuid)
    requires Mirrored(w.rows) && NoLostWakeup(w) && c in w.rows
    requires UpdateDependents(w.rows, j, Done, Pending)[c].state == WaitDependencies
    ensures HasReasonToWait(World(UpdateDependents(w.rows, j, Done, Pending), w.waking - {j}), c)
  {
    assert HasReasonToWait(w, c);
    var p :| p in w.rows[c].dependsOn && p in w.rows && (w.rows[p].state != Done || p in w.waking);
    if w.rows[p].state == Done && p == j {
      SelectedMeans(w.rows, j, Done, c);
      var q :| q in w.rows[c].dependsOn && w.rows[q].state != Done;
      StillNotDone(w.rows, j, q);
    } else if w.rows[p].state != Done {
      StillNotDone(w.rows, j, p);
    }
  }

  lemma StillNotDone(t: Table, j: Uuid, q: Uuid)
    requires q in t && t[q].state != Done
    ensures UpdateDependents(t, j, Done, Pending)[q].state != Done
    ensures UpdateDependents(t, j, Cancelled, Cancelled)[q].state != Done
  {
  }

  /** The shared UPDATE after `job` is cancelled. */
  lemma CancelKeeps(w: World, j: Uuid)
    requires Mirrored(w.rows) && Safe(w.rows) && NoLostWakeup(w)
    ensures var w' := World(UpdateDependents(w.rows, j, Cancelled, Cancelled), w.waking);
            Mirrored(w'.rows) && Safe(w'.rows) && NoLostWakeup(w')
  {
    var w' := World(UpdateDependents(w.rows, j, Cancelled, Cancelled), w.waking);
    assert SameShape(w.rows, w'.rows);
    ShapeKeepsMirrored(w.rows, w'.rows);
    forall c {:trigger HasReasonToWait(w', c)} | c in w'.rows && w'.rows[c].state == WaitDependencies
      ensures HasReasonToWait(w', c)
    {
      assert HasReasonToWait(w, c);
      var p :| p in w.rows[c].dependsOn && p in w.rows && (w.rows[p].state != Done || p in w.waking);
      if w.rows[p].state != Done { StillNotDone(w.rows, j, p); }
    }
  }

  lemma NotDoneHasNoActiveChild(t: Table, j: Uuid)
    requires Mirrored(t) && Safe(t) && j in t && t[j].state != Done
    ensures forall c :: c in t[j].reverseDependsOn ==> !Active(t[c].state)
  {
  }

  /** Every careful step keeps the dependency protocol. */
  lemma NextKeepsInv(w: World, e: Event)
    requires Inv(w) && Enabled(w, e) && Careful(w, e)
    ensures Inv(Next(w, e))
  {
    if e.Delay? {
      DelayKeeps(w, e);
    } else if e.EnqueueWaiting? {
      WakeKeeps(w, e.job);
    } else if e.WakeupLost? {
      LosingKeeps(w, e.job);
    } else {
      ChangeKeeps(w, e);
      hide Mirrored, Safe, NoLostWakeup, UpdateDependents, SetPending, AllParentsDone;
      var w1 := Changed(w, e);
      if e.ButtonDone? {
        WakeKeeps(w1, e.job);
        MoreWaking(World(UpdateDependents(w1.rows, e.job, Done, Pending), w1.waking - {e.job}), w.waking);
      } else if e.ButtonCancelled? {
        CancelKeeps(w1, e.job);
      }
    }
  }

  lemma LosingKeeps(w: World, j: Uuid)
    requires Inv(w) && Careful(w, WakeupLost(j))
    ensures NoLostWakeup(World(w.rows, w.waking - {j}))
  {
    var w' := World(w.rows, w.waking - {j});
    forall c {:trigger HasReasonToWait(w', c)} | c in w.rows && w.rows[c].state == WaitDependencies
      ensures HasReasonToWait(w', c)
    {
      assert HasReasonToWait(w, c);
      if j in w.rows[c].dependsOn { assert OtherReason(w, c, j); }
    }
  }

  /** A step keeps the protocol exactly when it is careful. */
  lemma StepIsExact(w: World, e: Event)
    requires Inv(w) && Enabled(w, e)
    ensures Inv(Next(w, e)) <==> Careful(w, e)
  {
    if Careful(w, e) {
      NextKeepsInv(w, e);
    } else if e.WakeupLost? {
      LostWakeupBreaks(w, e.job);
    } else {
      CarelessBreaks(w, e);
    }
  }

  /** A lost wakeup breaks the protocol when a child waits for nothing else. */
  lemma LostWakeupBreaks(w: World, j: Uuid)
    requires !Careful(w, WakeupLost(j))
    ensures !NoLostWakeup(World(w.rows, w.waking - {j}))
  {
    var w' := World(w.rows, w.waking - {j});
    var c :| c in w.rows && j in w.rows[c].dependsOn && w.rows[c].state == WaitDependencies && !OtherReason(w, c, j);
    assert !HasReasonToWait(w', c);
  }

  lemma CarelessBreaks(w: World, e: Event)
    requires Inv(w) && Enabled(w, e) && !Careful(w, e) && !e.WakeupLost?
    ensures !Safe(Next(w, e).rows)
  {
    var j, t' := e.job, Next(w, e).rows;
    if w.rows[j].state == Done && !NoActiveChild(w.rows, j) {
      var c :| c in w.rows[j].reverseDependsOn && c in w.rows && Active(w.rows[c].state);
      assert t'[c].state == w.rows[c].state && t'[j].state != Done && j in t'[c].dependsOn;
    } else {
      var p :| p in w.rows[j].dependsOn && p in w.rows && w.rows[p].state != Done;
      assert Active(t'[j].state) && t'[p].state != Done;
    }
  }

  /** The change of the job's own row, before any UPDATE of dependents. */
  function Changed(w: World, e: Event): World
    requires !e.Delay? && !e.EnqueueWaiting? && !e.WakeupLost? && Enabled(w, e)
  {
    match e
    case ButtonDone(j) => World(w.rows[j := w.rows[j].(state := Done)], w.waking + {j})
    case ButtonCancelled(j) => World(w.rows[j := w.rows[j].(state := Cancelled)], w.waking)
    case _ => Next(w, e)
  }

  lemma ChangeKeeps(w: World, e: Event)
    requires Mirrored(w.rows) && Safe(w.rows) && NoLostWakeup(w)
    requires !e.Delay? && !e.EnqueueWaiting? && !e.WakeupLost? && Enabled(w, e) && Careful(w, e)
    ensures var w1 := Changed(w, e); Mirrored(w1.rows) && Safe(w1.rows) && NoLostWakeup(w1)
  {
    var j, w1 := e.job, Changed(w, e);
    if w.rows[j].state != Done {
      NotDoneHasNoActiveChild(w.rows, j);
    }
    ChangedRow(w, e);
    hide Safe, NoLostWakeup, Next, Changed;
    SetStateKeeps(w, j, w1.rows[j], w1.waking);
  }

  lemma ChangedRow(w: World, e: Event)
    requires Mirrored(w.rows) && Safe(w.rows) && !e.Delay? && !e.EnqueueWaiting? && !e.WakeupLost?
    requires Enabled(w, e) && Careful(w, e)
    ensures var w1, r := Changed(w, e), Changed(w, e).rows[e.job];
            && w1.rows == w.rows[e.job := r] && r == w.rows[e.job].(state := r.state, retry := r.retry)
            && w.waking <= w1.waking
            && (Active(r.state) ==> AllParentsDone(w.rows, e.job))
            && (r.state == WaitDependencies ==> HasReasonToWait(w, e.job))
            && (r.state == Done ==> e.job in w1.waking)
  {
    if e.Perform? {
      var r := w.rows[e.job].(retry := RetryAfter(w.rows[e.job], e.outcome));
      assert AllParentsDone(w.rows[e.job := r], e.job) == AllParentsDone(w.rows, e.job);
    }
    assert !AllParentsDone(w.rows, e.job) ==> HasReasonToWait(w, e.job);
  }

  lemma MoreWaking(w: World, waking: set<Uuid>)
    requires NoLostWakeup(w) && w.waking <= waking
    ensures NoLostWakeup(World(w.rows, waking))
  {
    forall c {:trigger HasReasonToWait(World(w.rows, waking), c)} | c in w.rows && w.rows[c].state == WaitDependencies
      ensures HasReasonToWait(World(w.rows, waking), c)
    {
      assert HasReasonToWait(w, c);
    }
  }

  lemma {:induction false} DelayKeeps(w: World, e: Event)
    requires Mirrored(w.rows) && Safe(w.rows) && NoLostWakeup(w) && e.Delay? && Enabled(w, e)
    ensures Mirrored(Next(w, e).rows) && Safe(Next(w, e).rows) && NoLostWakeup(Next(w, e))
  {
    DelayMirrored(w, e);
    var w' := Next(w, e);
    assert Safe(w'.rows) by { hide NoLostWakeup; }
    hide Mirrored, Safe;
    forall c {:trigger HasReasonToWait(w', c)} | c in w'.rows && w'.rows[c].state == WaitDependencies
      ensures HasReasonToWait(w', c)
    {
      if c in w.rows {
        assert HasReasonToWait(w, c);
        var p :| p in w.rows[c].dependsOn && p in w.rows && (w.rows[p].state != Done || p in w.waking);
        assert w'.rows[p] == w.rows[p];
      } else {
        var p :| p in e.parents[c];
        assert w'.rows[p] == NewRow(e.graph, e.parents, e.limits, p);
      }
    }
  }

  // ---- whole runs ----

  ghost predicate Possible(w: World, es: seq<Event>)
    decreases |es|
  {
    es == [] || (Enabled(w, es[0]) && Possible(Next(w, es[0]), es[1..]))
  }

  ghost predicate Legal(w: World, es: seq<Event>): (legal: bool)
    ensures legal ==> Possible(w, es)
    decreases |es|
  {
    es == [] || (Enabled(w, es[0]) && Careful(w, es[0]) && Legal(Next(w, es[0]), es[1..]))
  }

  ghost function Run(w: World, es: seq<Event>): World
    requires Possible(w, es)
    decreases |es|
  {
    if es == [] then w else Run(Next(w, es[0]), es[1..])
  }

  /** Safety and no lost wakeup over every run from the empty table. */
  lemma {:induction false} RunKeepsInv(w: World, es: seq<Event>)
    requires Inv(w) && Legal(w, es)
    ensures Inv(Run(w, es))
    decreases |es|
  {
    if es != [] {
      NextKeepsInv(w, es[0]);
      RunKeepsInv(Next(w, es[0]), es[1..]);
    }
  }

  ghost predicate InvThroughout(w: World, es: seq<Event>)
    requires Possible(w, es)
    decreases |es|
  {
    Inv(w) && (es == [] || InvThroughout(Next(w, es[0]), es[1..]))
  }

  /** A run of whatever steps keeps the protocol in all its states exactly when every step is careful. */
  lemma {:induction false} RunIsExact(w: World, es: seq<Event>)
    requires Inv(w) && Possible(w, es)
    ensures InvThroughout(w, es) <==> Legal(w, es)
    decreases |es|
  {
    if es != [] {
      StepIsExact(w, es[0]);
      hide Inv, Careful, Enabled;
      if Inv(Next(w, es[0])) {
        RunIsExact(Next(w, es[0]), es[1..]);
      } else {
        NotThroughout(Next(w, es[0]), es[1..]);
      }
    }
  }

  lemma NotThroughout(w: World, es: seq<Event>)
    requires Possible(w, es) && !Inv(w)
    ensures !InvThroughout(w, es)
  {
  }

  function NoJobs(): World {
    World(map[], {})
  }

  /** In every run from the empty table a job that may run has all parents done, and once no
      wakeup is under way a waiting job has a parent that is not. */
  lemma {:induction false} EveryRunIsSafe(es: seq<Event>)
    requires Legal(NoJobs(), es)
    ensures var w := Run(NoJobs(), es);
            && (forall c, p :: c in w.rows && Active(w.rows[c].state) && p in w.rows[c].dependsOn ==>
                  p in w.rows && w.rows[p].state == Done)
            && (w.waking == {} ==> forall c :: c in w.rows && w.rows[c].state == WaitDependencies ==>
                  !AllParentsDone(w.rows, c))
  {
    hide Legal, Run, Safe, Mirrored, NoLostWakeup;
    NoJobsInv();
    RunKeepsInv(NoJobs(), es);
    InvMeans(Run(NoJobs(), es));
  }

  lemma NoJobsInv()
    ensures Inv(NoJobs())
  {
  }

  lemma InvMeans(w: World)
    requires Inv(w)
    ensures forall c, p :: c in w.rows && Active(w.rows[c].state) && p in w.rows[c].dependsOn ==>
              p in w.rows && w.rows[p].state == Done
    ensures w.waking == {} ==> forall c :: c in w.rows && w.rows[c].state == WaitDependencies ==>
              !AllParentsDone(w.rows, c)
  {
    forall c | c in w.rows && w.rows[c].state == WaitDependencies && w.waking == {}
      ensures !AllParentsDone(w.rows, c)
    {
      assert HasReasonToWait(w, c);
    }
  }

  /** Requeuing a finished job keeps the protocol exactly when no child of it is active. */
  lemma RequeueDoneIsExact(w: World, j: Uuid)
    requires Inv(w) && j in w.rows && w.rows[j].state == Done
    ensures Inv(Next(w, Requeue(j))) <==> forall c :: c in w.rows[j].reverseDependsOn ==> !Active(w.rows[c].state)
  {
    StepIsExact(w, Requeue(j));
  }

  // ---- the retry count ----

  /** No job runs on beyond one attempt more than allowed. */
  predicate RetryBounded(t: Table) {
    forall c :: c in t && (Active(t[c].state) || t[c].state == WaitDependencies) && t[c].maxRetries != 0 ==>
      t[c].retry <= t[c].maxRetries + 1
  }

  /** A conflict is counted and never compared with the limit, and the runner's UPDATE can bring back a job
      that ended beyond it. */
  predicate OverLimit(w: World, e: Event) {
    match e
    case Perform(j, outcome) =>
      outcome.Conflict? && j in w.rows && w.rows[j].maxRetries != 0 && w.rows[j].retry > w.rows[j].maxRetries
    case Enqueue(j) => j in w.rows && w.rows[j].maxRetries != 0 && w.rows[j].retry > w.rows[j].maxRetries + 1
    case _ => false
  }

  /** A step keeps the bound exactly when it does not take a job over its limit. */
  lemma RetryBoundIsExact(w: World, e: Event)
    requires RetryBounded(w.rows) && Enabled(w, e)
    ensures RetryBounded(Next(w, e).rows) <==> !OverLimit(w, e)
  {
    if OverLimit(w, e) {
      var r := Next(w, e).rows[e.job];
      assert r.retry > r.maxRetries + 1 && (Active(r.state) || r.state == WaitDependencies);
    }
  }

  ghost predicate NeverOverLimit(w: World, es: seq<Event>)
    requires Possible(w, es)
    decreases |es|
  {
    es == [] || (!OverLimit(w, es[0]) && NeverOverLimit(Next(w, es[0]), es[1..]))
  }

  ghost predicate BoundedThroughout(w: World, es: seq<Event>)
    requires Possible(w, es)
    decreases |es|
  {
    RetryBounded(w.rows) && (es == [] || BoundedThroughout(Next(w, es[0]), es[1..]))
  }

  /** A run stays within the bound exactly when none of its steps takes a job over its limit. */
  lemma {:induction false} RunBoundIsExact(w: World, es: seq<Event>)
    requires RetryBounded(w.rows) && Possible(w, es)
    ensures BoundedThroughout(w, es) <==> NeverOverLimit(w, es)
    decreases |es|
  {
    if es != [] {
      RetryBoundIsExact(w, es[0]);
      hide RetryBounded, OverLimit;
      if !OverLimit(w, es[0]) {
        RunBoundIsExact(Next(w, es[0]), es[1..]);
      } else {
        NotBounded(Next(w, es[0]), es[1..]);
      }
    }
  }

  lemma NotBounded(w: World, es: seq<Event>)
    requires Possible(w, es) && !RetryBounded(w.rows)
    ensures !BoundedThroughout(w, es)
  {
  }

  // ---- progress ----

  /** Parent to child. */
  function DependencyGraph(t: Table): map<Uuid, set<Uuid>> {
    map p | p in t :: t[p].reverseDependsOn
  }

  ghost predicate NoneFailed(t: Table) {
    forall j :: j in t ==> t[j].state != Failed && t[j].state != Cancelled
  }

  ghost function Unfinished(t: Table): set<Uuid> {
    set j | j in t && t[j].state != Done
  }

  /** With acyclic dependencies and nothing failed, work remains only if some job can move. */
  lemma NoDeadlock(w: World) returns (j: Uuid)
    requires Inv(w) && Acyclic(DependencyGraph(w.rows)) && NoneFailed(w.rows) && Unfinished(w.rows) != {}
    ensures j in w.waking || (j in w.rows && Active(w.rows[j].state))
  {
    var t := w.rows;
    j := AcyclicHasSource(DependencyGraph(t), Unfinished(t));
    if t[j].state == WaitDependencies {
      assert HasReasonToWait(w, j);
      var p :| p in t[j].dependsOn && p in t && (t[p].state != Done || p in w.waking);
      if t[p].state != Done {
        assert p in Unfinished(t) && Edge(DependencyGraph(t), p, j);
      }
      j := p;
    }
  }

  lemma SetStateKeepsGraph(t: Table, t': Table)
    requires SameShape(t, t')
    ensures DependencyGraph(t') == DependencyGraph(t)
  {
  }

  /** The events that finish one active job. */
  function FinishEvents(s: State, j: Uuid): seq<Event> {
    match s
    case Pending => [Enqueue(j), Start(j), Perform(j, Succeeds)]
    case Enqueued => [Start(j), Perform(j, Succeeds)]
    case _ => [Perform(j, Succeeds)]
  }

  lemma {:induction false} FinishOne(w: World, j: Uuid)
    requires j in w.rows && Active(w.rows[j].state) && AllParentsDone(w.rows, j) && j !in w.rows[j].dependsOn
    ensures var es := FinishEvents(w.rows[j].state, j);
            Legal(w, es) && SameShape(w.rows, Run(w, es).rows) &&
            Unfinished(Run(w, es).rows) == Unfinished(w.rows) - {j} &&
            (forall k :: k in w.rows && k != j ==> Run(w, es).rows[k] == w.rows[k]) &&
            (NoneFailed(w.rows) ==> NoneFailed(Run(w, es).rows))
    decreases match w.rows[j].state case Pending => 2 case Enqueued => 1 case _ => 0
  {
    var es := FinishEvents(w.rows[j].state, j);
    var w1 := Next(w, es[0]);
    if w.rows[j].state == Started {
      assert es[1..] == [];
      assert Run(w, es) == w1;
    } else {
      FinishOne(w1, j);
      assert es[1..] == FinishEvents(w1.rows[j].state, j);
    }
  }

  lemma {:induction false} RunAppend(w: World, a: seq<Event>, b: seq<Event>)
    requires Possible(w, a) && Possible(Run(w, a), b)
    ensures Possible(w, a + b) && Run(w, a + b) == Run(Run(w, a), b)
    ensures Legal(w, a) && Legal(Run(w, a), b) ==> Legal(w, a + b)
    decreases |a|
  {
    if a == [] {
      assert a + b == b;
    } else {
      RunAppend(Next(w, a[0]), a[1..], b);
      assert (a + b)[0] == a[0] && (a + b)[1..] == a[1..] + b;
    }
  }

  /** From every such state a run that only performs, wakes and finishes jobs reaches all-done;
      each finished job strictly shrinks the unfinished set. */
  lemma {:induction false} CanFinish(w: World) returns (es: seq<Event>)
    requires Inv(w) && Acyclic(DependencyGraph(w.rows)) && NoneFailed(w.rows)
    ensures Legal(w, es) && Unfinished(Run(w, es).rows) == {}
    decreases |Unfinished(w.rows)|, |w.waking|
  {
    if Unfinished(w.rows) == {} {
      es := [];
    } else {
      var j := NoDeadlock(w);
      var first := if j in w.waking then [EnqueueWaiting(j)] else FinishEvents(w.rows[j].state, j);
      if j in w.waking {
        WakeOne(w, j);
      } else {
        FinishOne(w, j);
        assert j in Unfinished(w.rows);
      }
      var w1 := Run(w, first);
      RunKeepsInv(w, first);
      SetStateKeepsGraph(w.rows, w1.rows);
      var rest := CanFinish(w1);
      RunAppend(w, first, rest);
      es := first + rest;
    }
  }

  lemma WakeOne(w: World, j: Uuid)
    requires j in w.waking
    ensures var es := [EnqueueWaiting(j)];
            Legal(w, es) && SameShape(w.rows, Run(w, es).rows) &&
            (forall k :: k in w.rows ==> Run(w, es).rows[k].state in {w.rows[k].state, Pending}) &&
            (NoneFailed(w.rows) ==> NoneFailed(Run(w, es).rows)) &&
            Unfinished(Run(w, es).rows) == Unfinished(w.rows) && Run(w, es).waking == w.waking - {j} &&
            |Run(w, es).waking| < |w.waking|
  {
    var es := [EnqueueWaiting(j)];
    assert es[1..] == [];
    assert Run(w, es) == Next(w, es[0]);
    assert w.waking == (w.waking - {j}) + {j};
  }
}
