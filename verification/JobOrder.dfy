/** In which order stored jobs run, as far as nobody interferes. */
module JobOrder {
  import opened Digraph
  import opened JobQueue
  import opened JobRuns

  /** Everything but marking jobs done by hand and taking finished ones back. */
  predicate Automatic(w: World, e: Event) {
    !e.ButtonDone? && ((e.Requeue? || e.Enqueue?) && e.job in w.rows ==> w.rows[e.job].state != Done)
  }

  ghost predicate AutomaticRun(w: World, es: seq<Event>)
    requires Legal(w, es)
    decreases |es|
  {
    es == [] || (Automatic(w, es[0]) && AutomaticRun(Next(w, es[0]), es[1..]))
  }

  /** A finished job has all its parents finished. */
  predicate DoneBelow(t: Table) {
    forall c, p :: c in t && t[c].state == Done && p in t[c].dependsOn && p in t ==> t[p].state == Done
  }

  lemma {:induction false} AutomaticKeepsDoneBelow(w: World, e: Event)
    requires Mirrored(w.rows) && Safe(w.rows) && DoneBelow(w.rows) && Enabled(w, e) && Automatic(w, e)
    ensures DoneBelow(Next(w, e).rows)
  {
    var t, t' := w.rows, Next(w, e).rows;
    if e.Delay? {
      DelayMirrored(w, e);
    } else {
      NextKeepsShape(w, e);
      DoneOnlyByPerform(w, e);
      hide Next, Enabled, Automatic, NoLostWakeup, Mirrored;
      forall c, p | c in t' && t'[c].state == Done && p in t'[c].dependsOn && p in t' ensures t'[p].state == Done {
        assert t[p].state == Done;
      }
    }
  }

  lemma DoneOnlyByPerform(w: World, e: Event)
    requires Enabled(w, e) && Automatic(w, e) && !e.Delay?
    ensures forall k :: k in w.rows && w.rows[k].state == Done ==> Next(w, e).rows[k].state == Done
    ensures forall k :: k in w.rows && Next(w, e).rows[k].state == Done ==>
              w.rows[k].state == Done || w.rows[k].state == Started
  {
  }

  lemma {:induction false} AutomaticRunKeepsDoneBelow(w: World, es: seq<Event>)
    requires Inv(w) && DoneBelow(w.rows) && Legal(w, es) && AutomaticRun(w, es)
    ensures Inv(Run(w, es)) && DoneBelow(Run(w, es).rows)
    decreases |es|
  {
    if es != [] {
      NextKeepsInv(w, es[0]);
      AutomaticKeepsDoneBelow(w, es[0]);
      AutomaticRunKeepsDoneBelow(Next(w, es[0]), es[1..]);
    }
  }

  predicate Reached(t: Table, j: Uuid) {
    j in t && (Active(t[j].state) || t[j].state == Done)
  }

  /** A job that may run, or ran, has all its ancestors finished. */
  lemma AncestorsDone(w: World, x: Uuid, y: Uuid)
    requires Inv(w) && DoneBelow(w.rows) && Reaches(DependencyGraph(w.rows), x, y) && Reached(w.rows, y)
    ensures x in w.rows && w.rows[x].state == Done
  {
    var t, g := w.rows, DependencyGraph(w.rows);
    forall u, v | Edge(g, u, v) ensures OnlyAfter(t, u, v) {
      assert u in t[v].dependsOn;
    }
    var p :| WalkBetween(g, p, x, y);
    WalkInduction(g, p, (u, v) => OnlyAfter(t, u, v));
  }

  predicate OnlyAfter(t: Table, u: Uuid, v: Uuid) {
    Reached(t, v) ==> u in t && t[u].state == Done
  }

  ghost predicate SameLists(t: Table, t': Table) {
    forall k :: k in t ==>
      k in t' && t'[k].dependsOn == t[k].dependsOn && t'[k].reverseDependsOn == t[k].reverseDependsOn
  }

  lemma {:induction false} RunKeepsLists(w: World, es: seq<Event>)
    requires Legal(w, es)
    ensures SameLists(w.rows, Run(w, es).rows)
    decreases |es|
  {
    if es != [] {
      if !es[0].Delay? { NextKeepsShape(w, es[0]); }
      RunKeepsLists(Next(w, es[0]), es[1..]);
    }
  }

  // ---- a job can run as soon as its ancestors have ----

  ghost function Ancestors(t: Table, y: Uuid): set<Uuid> {
    set p | p in t && Reaches(DependencyGraph(t), p, y)
  }

  ghost predicate Broken(t: Table, k: Uuid) {
    k in t && (t[k].state == Failed || t[k].state == Cancelled)
  }

  /** Something moves on the way to `y`: an ancestor, or a wakeup. */
  lemma Mover(w: World, y: Uuid) returns (j: Uuid)
    requires Inv(w) && Acyclic(DependencyGraph(w.rows)) && y in w.rows && w.rows[y].state == WaitDependencies
    requires forall k :: k in Ancestors(w.rows, y) ==> !Broken(w.rows, k)
    ensures j in w.waking || (j in Ancestors(w.rows, y) && j in w.rows && Active(w.rows[j].state))
  {
    var s := Ancestors(w.rows, y) * Unfinished(w.rows);
    hide Inv, Acyclic, DependencyGraph, Reaches;
    if s == {} {
      j := WaitsFor(w, y, y);
      assert w.rows[j].state != Done ==> j in s;
    } else {
      j := AcyclicHasSource(DependencyGraph(w.rows), s);
      if w.rows[j].state == WaitDependencies {
        var p := WaitsFor(w, j, y);
        assert w.rows[p].state != Done ==> p in s;
        j := p;
      } else {
        assert !Broken(w.rows, j);
      }
    }
  }

  lemma WaitsFor(w: World, c: Uuid, y: Uuid) returns (p: Uuid)
    requires Inv(w) && c in w.rows && w.rows[c].state == WaitDependencies
    requires c == y || Reaches(DependencyGraph(w.rows), c, y)
    ensures p in w.rows && Edge(DependencyGraph(w.rows), p, c) && Reaches(DependencyGraph(w.rows), p, y)
    ensures w.rows[p].state != Done || p in w.waking
  {
    assert HasReasonToWait(w, c);
    p :| p in w.rows[c].dependsOn && p in w.rows && (w.rows[p].state != Done || p in w.waking);
    EdgeReaches(DependencyGraph(w.rows), p, c);
    if c != y { ReachesTrans(DependencyGraph(w.rows), p, c, y); }
  }

  lemma {:induction false} FinishIsAutomatic(w: World, j: Uuid)
    requires j in w.rows && Active(w.rows[j].state) && Legal(w, FinishEvents(w.rows[j].state, j))
    ensures AutomaticRun(w, FinishEvents(w.rows[j].state, j))
    decreases match w.rows[j].state case Pending => 2 case Enqueued => 1 case _ => 0
  {
    var es := FinishEvents(w.rows[j].state, j);
    var w1 := Next(w, es[0]);
    if w.rows[j].state != Started {
      assert es[1..] == FinishEvents(w1.rows[j].state, j);
      FinishIsAutomatic(w1, j);
    }
  }

  lemma {:induction false} AutomaticAppend(w: World, a: seq<Event>, b: seq<Event>)
    requires Legal(w, a) && Legal(Run(w, a), b) && AutomaticRun(w, a) && AutomaticRun(Run(w, a), b)
    ensures Legal(w, a + b) && Run(w, a + b) == Run(Run(w, a), b) && AutomaticRun(w, a + b)
    decreases |a|
  {
    RunAppend(w, a, b);
    if a == [] {
      assert a + b == b;
    } else {
      assert (a + b)[0] == a[0] && (a + b)[1..] == a[1..] + b;
      AutomaticAppend(Next(w, a[0]), a[1..], b);
    }
  }

  /** One job less is unfinished once an active one is finished. */
  lemma {:induction false} FinishOn(w: World, j: Uuid)
    requires Inv(w) && j in w.rows && Active(w.rows[j].state)
    ensures var es := FinishEvents(w.rows[j].state, j);
            && Legal(w, es) && AutomaticRun(w, es) && SameShape(w.rows, Run(w, es).rows)
            && (forall k :: Broken(Run(w, es).rows, k) ==> Broken(w.rows, k))
            && Unfinished(Run(w, es).rows) == Unfinished(w.rows) - {j}
            && |Unfinished(Run(w, es).rows)| < |Unfinished(w.rows)|
  {
    FinishOne(w, j);
    FinishIsAutomatic(w, j);
    hide FinishEvents, Legal, Run, AutomaticRun, Inv;
    assert j in Unfinished(w.rows);
  }

  /** One move towards `y`, which finishes an ancestor or delivers a wakeup. */
  lemma {:induction false} MoveOn(w: World, y: Uuid) returns (es: seq<Event>)
    requires Inv(w) && Acyclic(DependencyGraph(w.rows)) && y in w.rows && w.rows[y].state == WaitDependencies
    requires forall k :: k in Ancestors(w.rows, y) ==> !Broken(w.rows, k)
    ensures Legal(w, es) && AutomaticRun(w, es)
    ensures var w1 := Run(w, es);
            && w1.rows.Keys == w.rows.Keys && DependencyGraph(w1.rows) == DependencyGraph(w.rows)
            && (forall k :: Broken(w1.rows, k) ==> Broken(w.rows, k))
            && Unfinished(w.rows) - Ancestors(w.rows, y) <= Unfinished(w1.rows)
            && (|Unfinished(w1.rows)| < |Unfinished(w.rows)|
                || (|Unfinished(w1.rows)| == |Unfinished(w.rows)| && |w1.waking| < |w.waking|))
  {
    var j := Mover(w, y);
    if j in w.waking {
      es := [EnqueueWaiting(j)];
      WakeOne(w, j);
      assert es[1..] == [];
    } else {
      es := FinishEvents(w.rows[j].state, j);
      FinishOn(w, j);
    }
    hide Legal, Run, Enabled, Careful, Inv, Acyclic, Ancestors, DependencyGraph, FinishEvents, Next, UpdateDependents;
    SetStateKeepsGraph(w.rows, Run(w, es).rows);
  }

  lemma SameAncestors(t: Table, t': Table, y: Uuid)
    requires t'.Keys == t.Keys && DependencyGraph(t') == DependencyGraph(t)
    ensures Ancestors(t', y) == Ancestors(t, y)
  {
  }

  /** A job becomes pending in some automatic run in which only its ancestors finish. */
  lemma {:induction false} FinishAncestors(w: World, y: Uuid) returns (es: seq<Event>)
    requires Inv(w) && Acyclic(DependencyGraph(w.rows)) && y in w.rows && !Broken(w.rows, y)
    requires forall k :: k in Ancestors(w.rows, y) ==> !Broken(w.rows, k)
    ensures Legal(w, es) && AutomaticRun(w, es) && Reached(Run(w, es).rows, y)
    ensures Unfinished(w.rows) - Ancestors(w.rows, y) <= Unfinished(Run(w, es).rows)
    decreases |Unfinished(w.rows)|, |w.waking|
  {
    if w.rows[y].state != WaitDependencies {
      es := [];
    } else {
      var first := MoveOn(w, y);
      hide *;
      RunKeepsInv(w, first);
      var w1 := Run(w, first);
      SameAncestors(w.rows, w1.rows, y);
      var rest := FinishAncestors(w1, y);
      AutomaticAppend(w, first, rest);
      es := first + rest;
    }
  }
}
