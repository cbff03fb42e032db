/** Why a wakeup has its own transaction: whole runs in which wakeups act on outdated views of the table. */
module JobStaleRuns {
  import opened JobQueue
  import opened JobRuns
  import opened JobOrder
  import opened JobSnapshots

  /** The protocol and, for each wakeup whose transaction has begun, the table it sees. */
  datatype Live = Live(w: World, open: map<Uuid, Table>)

  datatype Move = Plain(e: Event) | Begin(job: Uuid) | Deliver(job: Uuid)

  /** Nobody completes jobs by hand or takes finished ones back; a wakeup begins after its job's own transaction and
      is delivered whenever nothing that it writes was changed since. */
  ghost predicate Allowed(s: Live, m: Move) {
    match m
    case Plain(e) =>
      && !e.EnqueueWaiting? && !e.WakeupLost?
      && Enabled(s.w, e) && Careful(s.w, e) && Automatic(s.w, e)
    case Begin(j) => j in s.w.waking
    case Deliver(j) => j in s.open && CanCommit(s.w, s.open[j], EnqueueWaiting(j))
  }

  ghost function Moved(s: Live, m: Move): Live
    requires Allowed(s, m)
  {
    match m
    case Plain(e) => Live(Next(s.w, e), s.open)
    case Begin(j) => Live(s.w, s.open[j := s.w.rows])
    case Deliver(j) => Live(Commit(s.w, s.open[j], EnqueueWaiting(j)), s.open - {j})
  }

  ghost predicate WillWake(seen: Table, p: Uuid, c: Uuid) {
    Selected(seen, p, Done, c)
  }

  /** A parent that is not done, or that owes a wakeup which has not begun or will wake the child. */
  ghost predicate WillBeWoken(s: Live, c: Uuid)
    requires c in s.w.rows
  {
    exists p :: p in s.w.rows[c].dependsOn && p in s.w.rows &&
      (s.w.rows[p].state != Done || (p in s.w.waking && (p in s.open ==> WillWake(s.open[p], p, c))))
  }

  ghost predicate DoneStays(seen: Table, t: Table) {
    forall k :: k in seen && seen[k].state == Done ==> k in t && t[k].state == Done
  }

  ghost predicate OpenOk(s: Live) {
    forall j :: j in s.open ==> j in s.w.waking && Earlier(s.open[j], s.w.rows) && DoneStays(s.open[j], s.w.rows)
  }

  ghost predicate WakingDone(w: World) {
    forall j :: j in w.waking ==> j in w.rows && w.rows[j].state == Done
  }

  ghost predicate Waits(s: Live) {
    forall c {:trigger WillBeWoken(s, c)} ::
      c in s.w.rows && s.w.rows[c].state == WaitDependencies ==> WillBeWoken(s, c)
  }

  ghost predicate LiveInv(s: Live) {
    Inv(s.w) && WakingDone(s.w) && OpenOk(s) && Waits(s)
  }

  // ---- ordinary steps ----

  lemma {:induction false} PlainRows(w: World, e: Event)
    requires Inv(w) && Enabled(w, e) && Careful(w, e) && Automatic(w, e) && !e.EnqueueWaiting? && !e.WakeupLost?
    ensures DoneStays(w.rows, Next(w, e).rows) && w.waking <= Next(w, e).waking
    ensures forall k :: k in Next(w, e).rows && Next(w, e).rows[k].state == Done ==>
              k in Next(w, e).waking || (k in w.rows && w.rows[k].state == Done)
    ensures forall k :: k in Next(w, e).waking && k !in w.waking ==>
              k in w.rows && w.rows[k].state != Done && Next(w, e).rows[k].state == Done
    ensures forall k :: k in w.rows ==> k in Next(w, e).rows && Next(w, e).rows[k].dependsOn == w.rows[k].dependsOn
  {
    if e.Delay? {
      DelayMirrored(w, e);
      DelayStates(w, e);
      hide *;
    } else {
      hide Inv, UpdateDependents;
    }
  }

  lemma {:induction false} DelayStates(w: World, e: Event)
    requires e.Delay? && Enabled(w, e)
    ensures forall k :: k in Next(w, e).rows && k !in w.rows ==> Next(w, e).rows[k].state != Done
  {
    forall k | k in Next(w, e).rows && k !in w.rows ensures Next(w, e).rows[k].state != Done {
      assert Next(w, e).rows[k] == NewRow(e.graph, e.parents, e.limits, k);
    }
  }

  /** A job that begins to wait has a parent that is not done. */
  lemma {:induction false} BeginsToWait(w: World, e: Event, c: Uuid)
    requires Inv(w) && Enabled(w, e) && Careful(w, e) && Automatic(w, e) && !e.EnqueueWaiting? && !e.WakeupLost?
    requires c in Next(w, e).rows && Next(w, e).rows[c].state == WaitDependencies
    requires c in w.rows ==> w.rows[c].state != WaitDependencies
    ensures exists p :: p in Next(w, e).rows[c].dependsOn && p in Next(w, e).rows && Next(w, e).rows[p].state != Done
  {
    var t' := Next(w, e).rows;
    if e.Delay? {
      DelayMirrored(w, e);
      assert t'[c] == NewRow(e.graph, e.parents, e.limits, c);
      var p :| p in e.parents[c];
      assert t'[p] == NewRow(e.graph, e.parents, e.limits, p);
      assert p in t'[c].dependsOn && t'[p].state != Done;
    } else {
      NextKeepsShape(w, e);
      WaitsByOwnRow(w, e, c);
    }
  }

  lemma WaitsByOwnRow(w: World, e: Event, c: Uuid)
    requires Mirrored(w.rows) && Enabled(w, e) && !e.Delay? && !e.EnqueueWaiting? && !e.WakeupLost?
    requires c in w.rows && Next(w, e).rows[c].state == WaitDependencies && w.rows[c].state != WaitDependencies
    ensures exists p :: p in Next(w, e).rows[c].dependsOn && p in Next(w, e).rows && Next(w, e).rows[p].state != Done
  {
    assert c == e.job && (e.Perform? || e.Requeue?);
    var p :| p in w.rows[c].dependsOn && p in w.rows && w.rows[p].state != Done;
    assert Next(w, e).rows[p].state == w.rows[p].state;
    assert p in Next(w, e).rows[c].dependsOn;
  }

  lemma {:induction false} LaterStill(seen: Table, w: World, e: Event)
    requires Mirrored(w.rows) && Earlier(seen, w.rows) && Enabled(w, e)
    ensures Earlier(seen, Next(w, e).rows)
  {
    if e.Delay? {
      DelayMirrored(w, e);
    } else {
      NextKeepsShape(w, e);
      hide Next, Enabled;
    }
    hide Mirrored;
  }

  lemma {:induction false} PlainKeeps(s: Live, e: Event)
    requires LiveInv(s) && Allowed(s, Plain(e))
    ensures LiveInv(Moved(s, Plain(e)))
  {
    NextKeepsInv(s.w, e);
    PlainOpen(s, e);
    PlainWaits(s, e);
  }

  lemma {:induction false} PlainOpen(s: Live, e: Event)
    requires LiveInv(s) && Allowed(s, Plain(e))
    ensures WakingDone(Next(s.w, e)) && OpenOk(Moved(s, Plain(e)))
  {
    PlainRows(s.w, e);
    forall j | j in s.open ensures Earlier(s.open[j], Next(s.w, e).rows) { LaterStill(s.open[j], s.w, e); }
    hide Inv, Next, Earlier, Careful, Automatic, Enabled, Waits;
  }

  lemma {:induction false} PlainWaits(s: Live, e: Event)
    requires LiveInv(s) && Allowed(s, Plain(e))
    ensures Waits(Moved(s, Plain(e)))
  {
    var w, s' := s.w, Moved(s, Plain(e));
    hide Inv, Next, Earlier, Careful, Automatic, Enabled, WakingDone, OpenOk;
    forall c {:trigger WillBeWoken(s', c)} | c in s'.w.rows && s'.w.rows[c].state == WaitDependencies
      ensures WillBeWoken(s', c)
    {
      if c in w.rows && w.rows[c].state == WaitDependencies {
        assert WillBeWoken(s, c);
        StillWoken(s, e, c);
      } else {
        BeginsToWait(w, e, c);
      }
    }
  }

  lemma {:induction false} StillWoken(s: Live, e: Event, c: Uuid)
    requires LiveInv(s) && Allowed(s, Plain(e)) && c in s.w.rows && WillBeWoken(s, c)
    requires c in Next(s.w, e).rows
    ensures WillBeWoken(Live(Next(s.w, e), s.open), c)
  {
    var w, w' := s.w, Next(s.w, e);
    PlainRows(w, e);
    hide Inv, Next, Earlier, Careful, Automatic, Enabled, WillWake;
    var p :| p in w.rows[c].dependsOn && p in w.rows &&
      (w.rows[p].state != Done || (p in w.waking && (p in s.open ==> WillWake(s.open[p], p, c))));
    if w.rows[p].state != Done {
      assert p !in s.open;
    }
    assert p in w'.rows && p in w'.rows[c].dependsOn;
  }

  // ---- beginning and delivering a wakeup ----

  lemma {:induction false} BeginKeeps(s: Live, j: Uuid)
    requires LiveInv(s) && Allowed(s, Begin(j))
    ensures LiveInv(Moved(s, Begin(j)))
  {
    var w, s' := s.w, Moved(s, Begin(j));
    assert Earlier(w.rows, w.rows);
    forall c {:trigger WillBeWoken(s', c)} | c in w.rows && w.rows[c].state == WaitDependencies
      ensures WillBeWoken(s', c)
    {
      assert WillBeWoken(s, c);
      var p :| p in w.rows[c].dependsOn && p in w.rows &&
        (w.rows[p].state != Done || (p in w.waking && (p in s.open ==> WillWake(s.open[p], p, c))));
      if p == j {
        SelectedMeans(w.rows, j, Done, c);
      }
    }
  }

  /** A wakeup acts on a table in which the parents it sees done are still done. */
  lemma {:induction false} DeliverIsCareful(s: Live, j: Uuid)
    requires LiveInv(s) && Allowed(s, Deliver(j))
    ensures WakesRightly(s.w, s.open[j], EnqueueWaiting(j))
  {
    var w, seen := s.w, s.open[j];
    SelectedIsCurrent(w, seen, EnqueueWaiting(j));
    forall c {:trigger c in w.rows} | c in w.rows && w.rows[c].state == WaitDependencies && j in w.rows[c].dependsOn
      ensures if Selected(seen, j, Done, c) then AllParentsDone(w.rows, c)
              else HasReasonToWait(World(w.rows, w.waking - {j}), c)
    {
      if Selected(seen, j, Done, c) {
        SelectedMeans(seen, j, Done, c);
      } else {
        assert WillBeWoken(s, c);
      }
    }
    hide Selected, AllParentsDone, HasReasonToWait, LiveInv, Allowed;
  }

  lemma {:induction false} DeliverKeeps(s: Live, j: Uuid)
    requires LiveInv(s) && Allowed(s, Deliver(j))
    ensures LiveInv(Moved(s, Deliver(j)))
  {
    var w, seen, s' := s.w, s.open[j], Moved(s, Deliver(j));
    DeliverIsCareful(s, j);
    WakingIsExact(w, seen, EnqueueWaiting(j));
    SelectedIsCurrent(w, seen, EnqueueWaiting(j));
    CommitWakes(w, seen, EnqueueWaiting(j));
    assert s'.w.rows == Woken(w.rows, seen, j) && s'.w.waking == w.waking - {j};
    DeliveredOpen(s, j, s');
    DeliveredWaits(s, j, s');
  }

  lemma {:induction false} DeliveredOpen(s: Live, j: Uuid, s': Live)
    requires LiveInv(s) && j in s.open && s'.open == s.open - {j}
    requires s'.w == World(Woken(s.w.rows, s.open[j], j), s.w.waking - {j})
    requires forall c :: Selected(s.open[j], j, Done, c) ==> c in s.w.rows && s.w.rows[c].state == WaitDependencies
    ensures WakingDone(s'.w) && OpenOk(s')
  {
    hide Inv, Selected, Mirrored, Waits;
  }

  lemma {:induction false} DeliveredWaits(s: Live, j: Uuid, s': Live)
    requires LiveInv(s) && j in s.open && s'.open == s.open - {j}
    requires s'.w == World(Woken(s.w.rows, s.open[j], j), s.w.waking - {j})
    requires forall c :: Selected(s.open[j], j, Done, c) ==> c in s.w.rows && s.w.rows[c].state == WaitDependencies
    ensures Waits(s')
  {
    hide Inv, Selected, Mirrored, OpenOk;
    forall c {:trigger WillBeWoken(s', c)} | c in s'.w.rows && s'.w.rows[c].state == WaitDependencies
      ensures WillBeWoken(s', c)
    {
      assert WillBeWoken(s, c);
      var p :| p in s.w.rows[c].dependsOn && p in s.w.rows &&
        (s.w.rows[p].state != Done || (p in s.w.waking && (p in s.open ==> WillWake(s.open[p], p, c))));
      assert p in s'.w.rows[c].dependsOn && (s.w.rows[p].state != Done ==> s'.w.rows[p].state != Done);
    }
  }

  // ---- whole runs ----

  ghost predicate Lively(s: Live, ms: seq<Move>)
    decreases |ms|
  {
    ms == [] || (Allowed(s, ms[0]) && Lively(Moved(s, ms[0]), ms[1..]))
  }

  ghost function After(s: Live, ms: seq<Move>): Live
    requires Lively(s, ms)
    decreases |ms|
  {
    if ms == [] then s else After(Moved(s, ms[0]), ms[1..])
  }

  lemma {:induction false} LivelyKeepsInv(s: Live, ms: seq<Move>)
    requires LiveInv(s) && Lively(s, ms)
    ensures LiveInv(After(s, ms))
    decreases |ms|
  {
    hide LiveInv, Allowed, Moved;
    if ms != [] {
      match ms[0] {
        case Plain(e) => PlainKeeps(s, e);
        case Begin(j) => BeginKeeps(s, j);
        case Deliver(j) => DeliverKeeps(s, j);
      }
      LivelyKeepsInv(Moved(s, ms[0]), ms[1..]);
    }
  }

  /** However outdated the tables are that the wakeups see, no run of them and of automatic steps starts a job too
      early or loses a wakeup. */
  lemma {:induction false} WakeupsSurvive(ms: seq<Move>)
    requires Lively(Live(NoJobs(), map[]), ms)
    ensures Inv(After(Live(NoJobs(), map[]), ms).w)
    ensures var w := After(Live(NoJobs(), map[]), ms).w; forall c :: !Stranded(w, c)
  {
    LivelyKeepsInv(Live(NoJobs(), map[]), ms);
    hide Lively, After, Mirrored, Safe;
    NotStranded(After(Live(NoJobs(), map[]), ms).w);
  }

  lemma NotStranded(w: World)
    requires NoLostWakeup(w)
    ensures forall c :: !Stranded(w, c)
  {
    forall c | c in w.rows && w.rows[c].state == WaitDependencies ensures !Stranded(w, c) {
      assert HasReasonToWait(w, c);
    }
  }
}
