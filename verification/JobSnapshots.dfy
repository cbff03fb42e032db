/** Transactions of crose/queue_job under snapshot isolation: each reads the table as it was when the transaction
    began, and commits if no row it writes was changed since. */
module JobSnapshots {
  import opened Digraph
  import opened JobQueue
  import opened JobRuns
  import opened JobOrder

  /** `seen` is the table as it was earlier: lists and limits never change once a job is stored. */
  ghost predicate Earlier(seen: Table, t: Table) {
    && Mirrored(seen) && seen.Keys <= t.Keys
    && forall k :: k in seen ==> t[k] == seen[k].(state := t[k].state, retry := t[k].retry)
  }

  /** What the transaction makes of the table it sees. */
  function Outcomes(w: World, seen: Table, e: Event): World
    requires Enabled(World(seen, w.waking), e)
  {
    Next(World(seen, w.waking), e)
  }

  ghost predicate CanCommit(w: World, seen: Table, e: Event) {
    && !e.Delay? && !e.WakeupLost? && e.job in w.rows && Earlier(seen, w.rows) && Enabled(World(seen, w.waking), e)
    && (e.EnqueueWaiting? || seen[e.job] == w.rows[e.job])
    && forall k :: k in seen && Outcomes(w, seen, e).rows[k] != seen[k] ==> w.rows[k] == seen[k]
  }

  ghost function Commit(w: World, seen: Table, e: Event): World
    requires CanCommit(w, seen, e)
  {
    var after := Outcomes(w, seen, e);
    World(map k | k in w.rows :: if k in seen && after.rows[k] != seen[k] then after.rows[k] else w.rows[k],
          after.waking)
  }

  /** A transaction that sees the current table is a step of the protocol. */
  lemma CurrentIsNext(w: World, e: Event)
    requires Mirrored(w.rows) && Enabled(w, e) && !e.Delay? && !e.WakeupLost? && e.job in w.rows
    ensures CanCommit(w, w.rows, e) && Commit(w, w.rows, e) == Next(w, e)
  {
    assert World(w.rows, w.waking) == w;
    NextKeepsShape(w, e);
    assert Commit(w, w.rows, e).rows == Next(w, e).rows;
  }

  /** The table in which `e` asks for the dependents of its job. */
  function Asking(t: Table, e: Event): Table
    requires e.ButtonDone? ==> e.job in t
  {
    if e.ButtonDone? then t[e.job := t[e.job].(state := Done)] else t
  }

  /** Each child that the snapshot wakes has all parents done now, and each other waiting child of the job still has a
      reason to wait. */
  ghost predicate RightlyWoken(t: Table, seen: Table, j: Uuid, waking: set<Uuid>) {
    forall c {:trigger c in t} :: c in t && t[c].state == WaitDependencies && j in t[c].dependsOn ==>
      if Selected(seen, j, Done, c) then AllParentsDone(t, c) else HasReasonToWait(World(t, waking), c)
  }

  function Remaining(w: World, e: Event): set<Uuid> {
    if e.EnqueueWaiting? then w.waking - {e.job} else w.waking
  }

  ghost predicate WakesRightly(w: World, seen: Table, e: Event)
    requires e.EnqueueWaiting? || (e.ButtonDone? && e.job in seen && e.job in w.rows)
  {
    RightlyWoken(Asking(w.rows, e), Asking(seen, e), e.job, Remaining(w, e))
  }

  /** What the parents looked like decides between waiting and pending, and must still be true. */
  predicate PostponesRightly(w: World, seen: Table, j: Uuid)
    requires j in seen && j in w.rows
  {
    if AllParentsDone(seen, j) then AllParentsDone(w.rows, j) else HasReasonToWait(w, j)
  }

  predicate Postpones(w: World, e: Event) {
    || e.Requeue?
    || (e.Perform? && e.job in w.rows && !e.outcome.Succeeds? && !GivesUp(w.rows[e.job], e.outcome))
  }

  ghost predicate CarefulCommit(w: World, seen: Table, e: Event)
    requires CanCommit(w, seen, e)
  {
    if e.EnqueueWaiting? || e.ButtonDone? then WakesRightly(w, seen, e)
    else if Postpones(w, e) then Careful(w, e) && PostponesRightly(w, seen, e.job)
    else Careful(w, e)
  }

  // ---- the UPDATE of the dependents ----

  ghost function Woken(t: Table, seen: Table, j: Uuid): Table {
    map k | k in t :: if Selected(seen, j, Done, k) then t[k].(state := Pending) else t[k]
  }

  /** The UPDATE of a snapshot keeps the protocol exactly when it wakes rightly; `waking` is what remains to wake. */
  lemma WokenIsExact(w: World, seen: Table, j: Uuid, waking: set<Uuid>)
    requires Inv(w) && j in w.rows && w.waking - {j} <= waking <= w.waking
    requires Mirrored(seen) && forall c :: Selected(seen, j, Done, c) ==>
      c in w.rows && w.rows[c].state == WaitDependencies && j in w.rows[c].dependsOn
    ensures Inv(World(Woken(w.rows, seen, j), waking)) <==> RightlyWoken(w.rows, seen, j, waking)
  {
    var t, t' := w.rows, Woken(w.rows, seen, j);
    var w' := World(t', waking);
    assert SameShape(t, t');
    ShapeKeepsMirrored(t, t');
    WokenSafe(w, seen, j);
    WokenWaits(w, seen, j, waking);
    hide Selected, AllParentsDone, HasReasonToWait, Mirrored, Safe, NoLostWakeup, Woken;
  }

  lemma WokenSafe(w: World, seen: Table, j: Uuid)
    requires Mirrored(w.rows) && Safe(w.rows)
    requires forall c :: Selected(seen, j, Done, c) ==> c in w.rows && w.rows[c].state == WaitDependencies
    ensures Safe(Woken(w.rows, seen, j)) <==>
            forall c :: Selected(seen, j, Done, c) ==> AllParentsDone(w.rows, c)
  {
    var t, t' := w.rows, Woken(w.rows, seen, j);
    if forall c :: Selected(seen, j, Done, c) ==> AllParentsDone(t, c) {
      forall c, p | c in t' && Active(t'[c].state) && p in t'[c].dependsOn && p in t' ensures t'[p].state == Done {
        assert t[p].state == Done;
      }
    } else {
      var c :| Selected(seen, j, Done, c) && !AllParentsDone(t, c);
      var p :| p in t[c].dependsOn && p in t && t[p].state != Done;
      assert t'[c].state == Pending && t'[p].state != Done;
    }
  }

  lemma WokenWaits(w: World, seen: Table, j: Uuid, waking: set<Uuid>)
    requires NoLostWakeup(w) && w.waking - {j} <= waking
    requires forall c :: Selected(seen, j, Done, c) ==> c in w.rows && w.rows[c].state == WaitDependencies
    ensures NoLostWakeup(World(Woken(w.rows, seen, j), waking)) <==>
      forall c {:trigger c in w.rows} ::
        c in w.rows && w.rows[c].state == WaitDependencies && j in w.rows[c].dependsOn &&
        !Selected(seen, j, Done, c) ==>
        HasReasonToWait(World(w.rows, waking), c)
  {
    var t, t' := w.rows, Woken(w.rows, seen, j);
    var w' := World(t', waking);
    forall c | c in t ensures HasReasonToWait(World(t, waking), c) <==> HasReasonToWait(w', c) {}
    forall c | c in t && t[c].state == WaitDependencies && j !in t[c].dependsOn
      ensures HasReasonToWait(World(t, waking), c)
    {
      assert HasReasonToWait(w, c);
    }
    hide HasReasonToWait, Selected;
  }

  /** A snapshot selects only children that are still waiting when the transaction can commit. */
  lemma SelectedIsCurrent(w: World, seen: Table, e: Event)
    requires CanCommit(w, seen, e) && (e.EnqueueWaiting? || e.ButtonDone?) && Mirrored(w.rows) && e.job in w.rows
    ensures var s := Asking(seen, e);
            && Mirrored(s)
            && forall c :: Selected(s, e.job, Done, c) ==>
              c in w.rows && c != e.job && w.rows[c] == seen[c] && seen[c].state == WaitDependencies &&
              e.job in w.rows[c].dependsOn
  {
    var s := Asking(seen, e);
    if e.job in seen {
      assert SameShape(seen, s);
      ShapeKeepsMirrored(seen, s);
      OutcomesWake(w, seen, e);
      hide Mirrored, Outcomes, SameShape;
      forall c | Selected(s, e.job, Done, c)
        ensures c in w.rows && c != e.job && w.rows[c] == seen[c] && seen[c].state == WaitDependencies
        ensures e.job in w.rows[c].dependsOn
      {
        SelectedMeans(s, e.job, Done, c);
        assert Outcomes(w, seen, e).rows[c].state == Pending;
      }
    }
  }

  /** What the snapshot becomes. */
  lemma OutcomesWake(w: World, seen: Table, e: Event)
    requires Enabled(World(seen, w.waking), e) && (e.EnqueueWaiting? || e.ButtonDone?)
    ensures Outcomes(w, seen, e) == World(Woken(Asking(seen, e), Asking(seen, e), e.job),
                                          Remaining(w, e))
  {
    hide Selected;
  }

  lemma MergedRow(t: Table, seen: Table, e: Event, k: Uuid)
    requires (e.EnqueueWaiting? || e.ButtonDone?) && seen.Keys <= t.Keys && k in t && (e.ButtonDone? ==> e.job in seen)
    requires e.ButtonDone? ==> seen[e.job] == t[e.job] && t[e.job].state != Done
    requires forall c :: Selected(Asking(seen, e), e.job, Done, c) ==>
      c in seen && c != e.job && t[c] == seen[c] && seen[c].state == WaitDependencies
    ensures var s := Asking(seen, e);
            var after := Woken(s, s, e.job);
            (if k in seen && after[k] != seen[k] then after[k] else t[k]) == Woken(Asking(t, e), s, e.job)[k]
  {
    hide Selected;
  }

  lemma CommitWakes(w: World, seen: Table, e: Event)
    requires Mirrored(w.rows) && CanCommit(w, seen, e) && (e.EnqueueWaiting? || e.ButtonDone?) && e.job in w.rows
    ensures Commit(w, seen, e) ==
            World(Woken(Asking(w.rows, e), Asking(seen, e), e.job),
                  Remaining(w, e))
  {
    SelectedIsCurrent(w, seen, e);
    OutcomesWake(w, seen, e);
    CommitFacts(w, seen, e);
    var c, rows := Commit(w, seen, e), Woken(Asking(w.rows, e), Asking(seen, e), e.job);
    hide *;
    forall k | k in w.rows ensures c.rows[k] == rows[k] {
      MergedRow(w.rows, seen, e, k);
    }
  }

  lemma CommitFacts(w: World, seen: Table, e: Event)
    requires CanCommit(w, seen, e) && (e.EnqueueWaiting? || e.ButtonDone?) && e.job in w.rows
    ensures var c, after := Commit(w, seen, e), Outcomes(w, seen, e);
            && seen.Keys <= w.rows.Keys && c.rows.Keys == w.rows.Keys && c.waking == after.waking
            && (forall k :: k in w.rows ==>
                  c.rows[k] == if k in seen && after.rows[k] != seen[k] then after.rows[k] else w.rows[k])
            && (e.ButtonDone? ==> e.job in seen && seen[e.job] == w.rows[e.job] && w.rows[e.job].state != Done)
            && Woken(Asking(w.rows, e), Asking(seen, e), e.job).Keys == w.rows.Keys
  {
    hide Outcomes, Selected, Mirrored;
  }

  lemma WakingIsExact(w: World, seen: Table, e: Event)
    requires Inv(w) && CanCommit(w, seen, e) && (e.EnqueueWaiting? || e.ButtonDone?)
    ensures Inv(Commit(w, seen, e)) <==> WakesRightly(w, seen, e)
  {
    SelectedStillWaits(w, seen, e);
    assert WakesRightly(w, seen, e) == RightlyWoken(Asking(w.rows, e), Asking(seen, e), e.job, Remaining(w, e));
    hide *;
    CommitWakes(w, seen, e);
    WokenIsExact(AskingWorld(w, e), Asking(seen, e), e.job, Remaining(w, e));
  }

  lemma SelectedStillWaits(w: World, seen: Table, e: Event)
    requires Inv(w) && CanCommit(w, seen, e) && (e.EnqueueWaiting? || e.ButtonDone?)
    ensures var w1, s, j := AskingWorld(w, e), Asking(seen, e), e.job;
            && Mirrored(w.rows) && j in w.rows && Inv(w1) && Mirrored(s)
            && w1.rows == Asking(w.rows, e) && j in w1.rows && w1.waking - {j} <= Remaining(w, e) <= w1.waking
            && forall c :: Selected(s, j, Done, c) ==>
                 c in w1.rows && w1.rows[c].state == WaitDependencies && j in w1.rows[c].dependsOn
  {
    SelectedIsCurrent(w, seen, e);
    CommitFacts(w, seen, e);
    hide Selected, CanCommit, Inv;
    AskingInv(w, e);
  }

  ghost function AskingWorld(w: World, e: Event): World
    requires e.EnqueueWaiting? || (e.ButtonDone? && e.job in w.rows)
  {
    World(Asking(w.rows, e), if e.ButtonDone? then w.waking + {e.job} else w.waking)
  }

  lemma AskingInv(w: World, e: Event)
    requires (e.EnqueueWaiting? || e.ButtonDone?) && e.job in w.rows && Inv(w)
    requires e.ButtonDone? ==> w.rows[e.job].state != Done
    ensures Inv(AskingWorld(w, e))
  {
    if e.ButtonDone? {
      NotDoneHasNoActiveChild(w.rows, e.job);
      SetStateKeeps(w, e.job, w.rows[e.job].(state := Done), w.waking + {e.job});
    } else {
      assert AskingWorld(w, e) == w;
    }
  }

  // ---- the other transactions ----

  lemma CommitOwnRow(w: World, seen: Table, e: Event, r: Row)
    requires CanCommit(w, seen, e) && e.job in seen && seen[e.job] == w.rows[e.job]
    requires Outcomes(w, seen, e).rows == seen[e.job := r]
    ensures Commit(w, seen, e) == World(w.rows[e.job := r], Outcomes(w, seen, e).waking)
  {
    hide Outcomes;
    assert Commit(w, seen, e).rows == w.rows[e.job := r];
  }

  predicate ReadsOwnRow(w: World, e: Event) {
    e.Enqueue? || e.Start? || e.FoundDead? || (e.Perform? && !Postpones(w, e))
  }

  lemma OwnRowIsNext(w: World, seen: Table, e: Event)
    requires CanCommit(w, seen, e) && ReadsOwnRow(w, e)
    ensures Enabled(w, e) && Commit(w, seen, e) == Next(w, e)
  {
    CommitOwnRow(w, seen, e, Next(w, e).rows[e.job]);
  }

  /** A row set to waiting or pending by what the parents looked like. */
  lemma PostponedIsExact(w: World, seen: Table, e: Event)
    requires Inv(w) && CanCommit(w, seen, e) && Postpones(w, e)
    ensures Inv(Commit(w, seen, e)) <==> Careful(w, e) && PostponesRightly(w, seen, e.job)
  {
    var r := PostponedRow(w, seen, e);
    hide CanCommit, Commit, Postpones;
    OwnRowIsExact(w, e.job, r);
  }

  /** Setting a job to waiting or pending keeps the protocol exactly when the new state is right and, if the job was
      done, no child runs. */
  lemma OwnRowIsExact(w: World, j: Uuid, r: Row)
    requires Inv(w) && j in w.rows && r == w.rows[j].(state := r.state, retry := r.retry)
    requires r.state == Pending || r.state == WaitDependencies
    ensures Inv(World(w.rows[j := r], w.waking)) <==>
      && (if r.state == Pending then AllParentsDone(w.rows, j) else HasReasonToWait(w, j))
      && (w.rows[j].state == Done ==> NoActiveChild(w.rows, j))
  {
    var w' := World(w.rows[j := r], w.waking);
    if w.rows[j].state != Done { NotDoneHasNoActiveChild(w.rows, j); }
    if r.state == Pending && !AllParentsDone(w.rows, j) {
      PendingTooEarly(w, j, r);
    } else if r.state == WaitDependencies && !HasReasonToWait(w, j) {
      WaitsForNothing(w, j, r);
    } else if w.rows[j].state == Done && !NoActiveChild(w.rows, j) {
      ChildStillRuns(w, j, r);
    } else {
      SetStateKeeps(w, j, r, w.waking);
    }
  }

  lemma ChildStillRuns(w: World, j: Uuid, r: Row)
    requires Inv(w) && j in w.rows && r == w.rows[j].(state := r.state, retry := r.retry) && r.state != Done
    requires !NoActiveChild(w.rows, j)
    ensures !Inv(World(w.rows[j := r], w.waking))
  {
    var t' := w.rows[j := r];
    var c :| c in w.rows[j].reverseDependsOn && c in w.rows && Active(w.rows[c].state);
    assert c != j && j in w.rows[c].dependsOn;
    assert Active(t'[c].state) && j in t'[c].dependsOn && t'[j].state != Done;
  }

  lemma PendingTooEarly(w: World, j: Uuid, r: Row)
    requires Inv(w) && j in w.rows && r == w.rows[j].(state := Pending, retry := r.retry) && !AllParentsDone(w.rows, j)
    ensures !Inv(World(w.rows[j := r], w.waking))
  {
    var p :| p in w.rows[j].dependsOn && p in w.rows && w.rows[p].state != Done;
    var t' := w.rows[j := r];
    assert Active(t'[j].state) && p in t'[j].dependsOn && t'[p].state != Done;
  }

  lemma WaitsForNothing(w: World, j: Uuid, r: Row)
    requires Inv(w) && j in w.rows && r == w.rows[j].(state := WaitDependencies, retry := r.retry)
    requires !HasReasonToWait(w, j)
    ensures !Inv(World(w.rows[j := r], w.waking))
  {
    var w' := World(w.rows[j := r], w.waking);
    assert !HasReasonToWait(w', j);
  }

  lemma PostponedRow(w: World, seen: Table, e: Event) returns (r: Row)
    requires CanCommit(w, seen, e) && Postpones(w, e)
    ensures e.job in seen && Commit(w, seen, e) == World(w.rows[e.job := r], w.waking)
    ensures r == w.rows[e.job].(state := r.state, retry := r.retry)
    ensures r.state == if AllParentsDone(seen, e.job) then Pending else WaitDependencies
  {
    var j := e.job;
    r := Outcomes(w, seen, e).rows[j];
    if e.Perform? {
      var s := seen[j := seen[j].(retry := RetryAfter(seen[j], e.outcome))];
      assert AllParentsDone(s, j) == AllParentsDone(seen, j);
    }
    CommitOwnRow(w, seen, e, r);
  }

  lemma StaleCancelKeeps(w: World, seen: Table, e: Event)
    requires Inv(w) && CanCommit(w, seen, e) && e.ButtonCancelled?
    ensures Inv(Commit(w, seen, e))
  {
    CancelledRows(w, seen, e);
    CancelledKeeps(w, Commit(w, seen, e));
  }

  ghost predicate SomeCancelled(t: Table, t': Table) {
    && t'.Keys == t.Keys
    && forall k :: k in t ==> t'[k] == t[k] || (t'[k] == t[k].(state := Cancelled) && t[k].state != Done)
  }

  lemma CancelledKeeps(w: World, w': World)
    requires Inv(w) && SomeCancelled(w.rows, w'.rows) && w'.waking == w.waking
    ensures Inv(w')
  {
    assert SameShape(w.rows, w'.rows);
    ShapeKeepsMirrored(w.rows, w'.rows);
    assert Safe(w'.rows) by { hide NoLostWakeup; }
    hide Mirrored, Safe;
    forall c {:trigger HasReasonToWait(w', c)} | c in w'.rows && w'.rows[c].state == WaitDependencies
      ensures HasReasonToWait(w', c)
    {
      assert HasReasonToWait(w, c);
      var p :| p in w.rows[c].dependsOn && p in w.rows && (w.rows[p].state != Done || p in w.waking);
      assert w'.rows[p].state != Done || p in w'.waking;
    }
  }

  lemma CancelledRows(w: World, seen: Table, e: Event)
    requires CanCommit(w, seen, e) && e.ButtonCancelled?
    ensures SomeCancelled(w.rows, Commit(w, seen, e).rows) && Commit(w, seen, e).waking == w.waking
  {
  }

  /** A transaction that commits on a table it did not see keeps the protocol exactly when it is careful. */
  lemma CommitIsExact(w: World, seen: Table, e: Event)
    requires Inv(w) && CanCommit(w, seen, e)
    ensures Inv(Commit(w, seen, e)) <==> CarefulCommit(w, seen, e)
  {
    hide Inv, Commit, Careful, WakesRightly, PostponesRightly;
    if e.EnqueueWaiting? || e.ButtonDone? {
      WakingIsExact(w, seen, e);
    } else if Postpones(w, e) {
      PostponedIsExact(w, seen, e);
    } else if e.ButtonCancelled? {
      StaleCancelKeeps(w, seen, e);
      CancelIsCareful(w, e);
    } else {
      OwnRowIsNext(w, seen, e);
      StepIsExact(w, e);
    }
  }

  lemma CancelIsCareful(w: World, e: Event)
    requires e.ButtonCancelled?
    ensures Careful(w, e)
  {
  }

  // ---- two buttons at once ----

  /** The rows after the done button, in terms of the table it saw. */
  lemma ButtonRow(t: Table, waking: set<Uuid>, j: Uuid, k: Uuid)
    requires Mirrored(t) && Enabled(World(t, waking), ButtonDone(j)) && k in t
    ensures Next(World(t, waking), ButtonDone(j)).rows[k] ==
            if k == j then t[k].(state := Done)
            else if t[k].state == WaitDependencies && j in t[k].dependsOn &&
                    (forall p :: p in t[k].dependsOn && p != j ==> t[p].state == Done)
            then t[k].(state := Pending) else t[k]
  {
    var t' := t[j := t[j].(state := Done)];
    assert SameShape(t, t');
    ShapeKeepsMirrored(t, t');
    SelectedMeans(t', j, Done, k);
    hide Selected, Mirrored;
  }

  ghost predicate Merged(w: World, seen: Table, after: World, w': World) {
    && w'.rows.Keys == w.rows.Keys && w'.waking == after.waking
    && forall k :: k in w.rows ==>
         w'.rows[k] == if k in seen && k in after.rows && after.rows[k] != seen[k] then after.rows[k] else w.rows[k]
  }

  lemma CommitMerges(w: World, seen: Table, e: Event)
    requires CanCommit(w, seen, e)
    ensures Merged(w, seen, Outcomes(w, seen, e), Commit(w, seen, e))
  {
    NextKeepsShape(World(seen, w.waking), e);
    assert Outcomes(w, seen, e).rows.Keys == seen.Keys;
    hide Outcomes;
  }

  /** The same after the commit. */
  lemma MergedButtonRow(w: World, seen: Table, j: Uuid, k: Uuid, w': World)
    requires Mirrored(seen) && k in seen && k in w.rows && (k == j ==> w.rows[k] == seen[k])
    requires Enabled(World(seen, w.waking), ButtonDone(j)) && Merged(w, seen, Outcomes(w, seen, ButtonDone(j)), w')
    ensures w'.waking == w.waking
    ensures k == j ==> w'.rows[k] == seen[k].(state := Done)
    ensures k != j && (exists p :: p in seen[k].dependsOn && p != j && seen[p].state != Done) ==>
              w'.rows[k] == w.rows[k]
    ensures k != j && j !in seen[k].dependsOn ==> w'.rows[k] == w.rows[k]
  {
    ButtonRow(seen, w.waking, j, k);
    hide Mirrored, UpdateDependents;
  }

  predicate DoneTogether(w: World, p: Uuid, q: Uuid) {
    && p != q && Enabled(w, ButtonDone(p)) && Enabled(w, ButtonDone(q))
    && p !in w.rows[q].dependsOn && q !in w.rows[p].dependsOn
  }

  lemma SecondCanCommit(w: World, p: Uuid, q: Uuid, w1: World)
    requires Mirrored(w.rows) && DoneTogether(w, p, q) && w1 == Next(w, ButtonDone(p))
    ensures CanCommit(w1, w.rows, ButtonDone(q))
  {
    NextKeepsShape(w, ButtonDone(p));
    forall k | k in w.rows
      ensures w1.rows[k] == w.rows[k].(state := w1.rows[k].state, retry := w1.rows[k].retry)
      ensures k == q || Outcomes(w1, w.rows, ButtonDone(q)).rows[k] != w.rows[k] ==> w1.rows[k] == w.rows[k]
    {
      assert World(w.rows, w.waking) == w;
      ButtonRow(w.rows, w.waking, p, k);
      ButtonRow(w.rows, w1.waking, q, k);
      hide Mirrored, UpdateDependents;
    }
    hide Mirrored, UpdateDependents, SameShape;
  }

  /** Two parents are marked done at the same time, each by a transaction that sees the other one not done: both can
      commit, and a child that waits for just these two is stranded. */
  lemma TwoButtonsStrand(w: World, p: Uuid, q: Uuid, c: Uuid) returns (w1: World, w2: World)
    requires Inv(w) && DoneTogether(w, p, q) && p !in w.waking && q !in w.waking
    requires c in w.rows && w.rows[c].state == WaitDependencies && w.rows[c].dependsOn == {p, q}
    ensures CanCommit(w, w.rows, ButtonDone(p)) && w1 == Commit(w, w.rows, ButtonDone(p))
    ensures CanCommit(w1, w.rows, ButtonDone(q)) && w2 == Commit(w1, w.rows, ButtonDone(q))
    ensures Stranded(w2, c)
  {
    CurrentIsNext(w, ButtonDone(p));
    w1 := Next(w, ButtonDone(p));
    SecondCanCommit(w, p, q, w1);
    w2 := Commit(w1, w.rows, ButtonDone(q));
    CommitMerges(w, w.rows, ButtonDone(p));
    CommitMerges(w1, w.rows, ButtonDone(q));
    assert w1.rows[q] == w.rows[q] && w1.rows.Keys == w.rows.Keys && w1.waking == w.waking;
    assert World(w.rows, w.waking) == w && World(w.rows, w1.waking) == w;
    assert c != p && c != q && w.rows[p].state != Done && w.rows[q].state != Done && Mirrored(w.rows);
    hide *;
    FirstButton(w, p, q, c, w1);
    SecondButton(w, p, q, c, w1, w2);
  }

  lemma FirstButton(w: World, p: Uuid, q: Uuid, c: Uuid, w1: World)
    requires Mirrored(w.rows) && Enabled(World(w.rows, w.waking), ButtonDone(p))
    requires Merged(w, w.rows, Outcomes(w, w.rows, ButtonDone(p)), w1)
    requires p in w.rows && q in w.rows && c in w.rows && p != q && c != p && p !in w.rows[q].dependsOn
    requires w.rows[c].dependsOn == {p, q} && w.rows[q].state != Done
    ensures p in w1.rows && q in w1.rows && c in w1.rows && w1.waking == w.waking
    ensures w1.rows[p].state == Done && w1.rows[q] == w.rows[q] && w1.rows[c] == w.rows[c]
  {
    hide Outcomes, Mirrored, Enabled;
    MergedButtonRow(w, w.rows, p, p, w1);
    MergedButtonRow(w, w.rows, p, q, w1);
    MergedButtonRow(w, w.rows, p, c, w1);
    assert q in w.rows[c].dependsOn;
  }

  lemma SecondButton(w: World, p: Uuid, q: Uuid, c: Uuid, w1: World, w2: World)
    requires Mirrored(w.rows) && Enabled(World(w.rows, w1.waking), ButtonDone(q))
    requires Merged(w1, w.rows, Outcomes(w1, w.rows, ButtonDone(q)), w2) && w2.rows.Keys == w.rows.Keys
    requires p in w.rows && q in w.rows && c in w.rows && p != q && c != q && q !in w.rows[p].dependsOn
    requires w.rows[c].dependsOn == {p, q} && w.rows[p].state != Done && w.rows[c].state == WaitDependencies
    requires p in w1.rows && q in w1.rows && c in w1.rows && p !in w1.waking && q !in w1.waking
    requires w1.rows[p].state == Done && w1.rows[c] == w.rows[c] && w1.rows[q] == w.rows[q]
    ensures Stranded(w2, c)
  {
    hide Outcomes, Mirrored, Enabled;
    MergedButtonRow(w1, w.rows, q, p, w2);
    MergedButtonRow(w1, w.rows, q, q, w2);
    MergedButtonRow(w1, w.rows, q, c, w2);
    assert p in w.rows[c].dependsOn;
  }
}
