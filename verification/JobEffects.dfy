/** What each transition of crose/queue_job changes, row by row, and how jobs come to the states they end in. */
module JobEffects {
  import opened JobQueue

  /** `k` waits, and all its parents but `j`, which is one of them, are in state `s`. */
  predicate WaitsOnlyFor(t: Table, k: Uuid, j: Uuid, s: State)
    requires k in t
  {
    && t[k].state == WaitDependencies && j in t[k].dependsOn
    && forall p :: p in t[k].dependsOn && p in t && p != j ==> t[p].state == s
  }

  /** A job set to done by hand wakes its children that wait for nothing else. */
  lemma ButtonDoneExactly(w: World, j: Uuid)
    requires Mirrored(w.rows) && Enabled(w, ButtonDone(j))
    ensures var w' := Next(w, ButtonDone(j));
            && w'.waking == w.waking && w'.rows.Keys == w.rows.Keys
            && forall k :: k in w.rows ==> w'.rows[k] == w.rows[k].(state :=
                 if k == j then Done else if WaitsOnlyFor(w.rows, k, j, Done) then Pending else w.rows[k].state)
  {
    ChildrenExactly(w.rows, j, Done, Pending);
  }

  /** A cancelled job cancels its children whose other parents are all cancelled, and no further job. */
  lemma ButtonCancelledExactly(w: World, j: Uuid)
    requires Mirrored(w.rows) && Enabled(w, ButtonCancelled(j))
    ensures var w' := Next(w, ButtonCancelled(j));
            && w'.waking == w.waking && w'.rows.Keys == w.rows.Keys
            && forall k :: k in w.rows ==> w'.rows[k] == w.rows[k].(state :=
                 if k == j || WaitsOnlyFor(w.rows, k, j, Cancelled) then Cancelled else w.rows[k].state)
  {
    ChildrenExactly(w.rows, j, Cancelled, Cancelled);
  }

  lemma ChildrenExactly(t: Table, j: Uuid, s: State, target: State)
    requires Mirrored(t) && j in t && s != WaitDependencies
    ensures var t' := UpdateDependents(t[j := t[j].(state := s)], j, s, target);
            && t'.Keys == t.Keys
            && forall k :: k in t ==> t'[k] == t[k].(state :=
                 if k == j then s else if WaitsOnlyFor(t, k, j, s) then target else t[k].state)
  {
    var t1 := t[j := t[j].(state := s)];
    ShapeKeepsMirrored(t, t1);
    forall k | k in t
      ensures Selected(t1, j, s, k) <==> k != j && WaitsOnlyFor(t, k, j, s)
    {
      SelectedMeans(t1, j, s, k);
    }
  }

  /** A wakeup makes the waiting children of a job that is done pending when they wait for nothing else. */
  lemma WakeupExactly(w: World, j: Uuid)
    requires Mirrored(w.rows) && j in w.waking && j in w.rows
    ensures var w' := Next(w, EnqueueWaiting(j));
            && w'.waking == w.waking - {j} && w'.rows.Keys == w.rows.Keys
            && forall k :: k in w.rows ==> w'.rows[k] == w.rows[k].(state :=
                 if w.rows[j].state == Done && WaitsOnlyFor(w.rows, k, j, Done) then Pending else w.rows[k].state)
  {
    forall k | k in w.rows
      ensures Selected(w.rows, j, Done, k) <==> w.rows[j].state == Done && WaitsOnlyFor(w.rows, k, j, Done)
    {
      SelectedMeans(w.rows, j, Done, k);
    }
  }

  /** Requeuing starts the retry count again and waits for the parents that are not done. */
  lemma RequeueExactly(w: World, j: Uuid)
    requires Enabled(w, Requeue(j))
    ensures var w', r := Next(w, Requeue(j)), w.rows[j];
            && w'.waking == w.waking && w'.rows.Keys == w.rows.Keys
            && (forall k :: k in w.rows && k != j ==> w'.rows[k] == w.rows[k])
            && w'.rows[j] == r.(state := w'.rows[j].state, retry := 0)
            && w'.rows[j].state == if forall p :: p in r.dependsOn && p in w.rows ==> w.rows[p].state == Done
                                   then Pending else WaitDependencies
  {
  }

  /** The steps of the runner: enqueueing, starting, and bringing back a job whose process died. */
  lemma RunnerStepsExactly(w: World, e: Event)
    requires (e.Enqueue? || e.Start? || e.FoundDead?) && Enabled(w, e)
    ensures var w', r, r' := Next(w, e), w.rows[e.job], Next(w, e).rows[e.job];
            && w'.waking == w.waking && w'.rows.Keys == w.rows.Keys
            && (forall k :: k in w.rows && k != e.job ==> w'.rows[k] == w.rows[k])
            && r' == r.(state := r'.state, retry := r'.retry)
            && (e.Enqueue? ==> r'.state == Enqueued && r'.retry == r.retry)
            && (e.Start? ==> r'.state == Started && r'.retry == r.retry)
            && (e.FoundDead? ==>
                  && (r'.state == Failed <==> 0 < r.maxRetries < r.retry)
                  && (r'.state != Failed ==> r'.state == Pending)
                  && r'.retry - r.retry == if r.state == Started then 1 else 0)
  {
  }

  /** A stored graph: new rows without retries that mirror the given parents, in its own graph. */
  lemma DelayExactly(w: World, graph: Graph, parents: map<Uuid, set<Uuid>>, limits: map<Uuid, nat>)
    requires Enabled(w, Delay(graph, parents, limits))
    ensures var w' := Next(w, Delay(graph, parents, limits));
            && w'.waking == w.waking && w'.rows.Keys == w.rows.Keys + parents.Keys
            && (forall k :: k in w.rows ==> w'.rows[k] == w.rows[k])
            && forall c :: c in parents ==>
                 && w'.rows[c].graph == graph && w'.rows[c].retry == 0 && w'.rows[c].maxRetries == limits[c]
                 && w'.rows[c].dependsOn == parents[c]
                 && (forall k :: k in w'.rows[c].reverseDependsOn <==> k in parents && c in parents[k])
                 && w'.rows[c].state == if parents[c] == {} then Pending else WaitDependencies
  {
  }

  /** An event of the run itself explains the state a job ended in. */
  ghost predicate Explained(t: Table, es: seq<Event>, j: Uuid)
    requires j in t
  {
    match t[j].state
    case Done => Perform(j, Succeeds) in es || ButtonDone(j) in es
    case Failed => FoundDead(j) in es || Perform(j, Raises) in es || Perform(j, AsksRetry(false)) in es
    case Cancelled => ButtonCancelled(j) in es || exists p :: p in t[j].dependsOn && ButtonCancelled(p) in es
    case Enqueued => Enqueue(j) in es
    case Started => Start(j) in es
    case _ => true
  }

  lemma {:induction false} StepKeepsParents(w: World, e: Event)
    requires Mirrored(w.rows) && Enabled(w, e)
    ensures Mirrored(Next(w, e).rows) && w.rows.Keys <= Next(w, e).rows.Keys
    ensures forall k :: k in w.rows ==> Next(w, e).rows[k].dependsOn == w.rows[k].dependsOn
  {
    if e.Delay? {
      DelayMirrored(w, e);
    } else {
      StepKeepsShape(w, e);
      ShapeKeepsMirrored(w.rows, Next(w, e).rows);
      hide Mirrored, Next;
    }
  }

  lemma StepKeepsShape(w: World, e: Event)
    requires Enabled(w, e) && !e.Delay?
    ensures SameShape(w.rows, Next(w, e).rows)
  {
  }

  lemma {:induction false} StepExplains(w: World, e: Event, j: Uuid)
    requires Mirrored(w.rows) && Enabled(w, e) && j in Next(w, e).rows
    ensures Explained(Next(w, e).rows, [e], j) || (j in w.rows && Next(w, e).rows[j].state == w.rows[j].state)
  {
    if e.ButtonDone? {
      ButtonDoneExactly(w, e.job);
    } else if e.ButtonCancelled? {
      ButtonCancelledExactly(w, e.job);
    } else if e.Delay? {
      DelayExactly(w, e.graph, e.parents, e.limits);
    }
    hide Mirrored;
  }

  lemma ExplainedLater(t: Table, es: seq<Event>, t': Table, es': seq<Event>, j: Uuid)
    requires j in t && j in t' && t[j].state == t'[j].state && t[j].dependsOn == t'[j].dependsOn
    requires Explained(t, es, j) && forall e :: e in es ==> e in es'
    ensures Explained(t', es', j)
  {
  }

  lemma {:induction false} RunExplains(w: World, es: seq<Event>, j: Uuid)
    requires Mirrored(w.rows) && Possible(w, es)
    ensures j in w.rows ==> j in Run(w, es).rows && Run(w, es).rows[j].dependsOn == w.rows[j].dependsOn
    ensures j in Run(w, es).rows ==>
      Explained(Run(w, es).rows, es, j) || (j in w.rows && Run(w, es).rows[j].state == w.rows[j].state)
    decreases |es|
  {
    if es != [] {
      var w1, w2 := Next(w, es[0]), Run(w, es);
      StepKeepsParents(w, es[0]);
      RunExplains(w1, es[1..], j);
      if j in w1.rows { StepExplains(w, es[0], j); }
      hide Explained, Next, Enabled, Mirrored;
      if j in w2.rows && Explained(w2.rows, es[1..], j) {
        ExplainedLater(w2.rows, es[1..], w2.rows, es, j);
      } else if j in w1.rows && Explained(w1.rows, [es[0]], j) {
        ExplainedLater(w1.rows, [es[0]], w2.rows, es, j);
      }
    }
  }

  lemma {:induction false} WakeupsAreEarned(w: World, es: seq<Event>, j: Uuid)
    requires Possible(w, es) && j in Run(w, es).waking
    ensures j in w.waking || Perform(j, Succeeds) in es
    decreases |es|
  {
    if es != [] {
      WakeupsAreEarned(Next(w, es[0]), es[1..], j);
    }
  }

  /** In every possible run from the empty table a job is DONE only by an execution of it that succeeded or by
      hand, FAILED only by its own errors, cancelled only with itself or a parent, and owes a wakeup only for
      an execution that succeeded. */
  lemma {:induction false} StatesAreEarned(es: seq<Event>, j: Uuid)
    requires Possible(NoJobs(), es)
    ensures j in Run(NoJobs(), es).rows ==> Explained(Run(NoJobs(), es).rows, es, j)
    ensures j in Run(NoJobs(), es).waking ==> Perform(j, Succeeds) in es
  {
    RunExplains(NoJobs(), es, j);
    if j in Run(NoJobs(), es).waking { WakeupsAreEarned(NoJobs(), es, j); }
  }
}
