/** Copying a package and its dependencies from staging to production (crose_nr_package.py). */
module PackageCopy {
  import opened Digraph

  datatype Pkg = Pkg(name: string, version: string)

  type Content = int

  /** What the versions entry of a package.json holds; `payload` stands for the rest of it. */
  datatype VersionData = VersionData(dependencies: set<string>, payload: int)

  /** `dirs` maps a package directory to the sub-directories in it. */
  datatype Staging = Staging(dirs: map<string, set<string>>, tgz: map<Pkg, Content>, versions: map<Pkg, VersionData>)

  datatype Prod = Prod(tgz: map<Pkg, Content>, versions: map<Pkg, VersionData>)

  function Key(p: Pkg): string {
    p.name + "@" + p.version
  }

  /** The part after the last slash. */
  function BaseName(name: string): string
    decreases |name|
  {
    if name == "" then ""
    else if name[|name| - 1] == '/' then ""
    else BaseName(name[..|name| - 1]) + [name[|name| - 1]]
  }

  /** The base name is what follows the last slash, or all of a name without one. */
  lemma {:induction false} BaseIsLastPart(name: string)
    ensures '/' !in BaseName(name)
    ensures name == BaseName(name) || exists front: string :: name == front + "/" + BaseName(name)
    decreases |name|
  {
    if name != "" && name[|name| - 1] != '/' {
      var init, last := name[..|name| - 1], name[|name| - 1];
      BaseIsLastPart(init);
      assert name == init + [last];
      if init != BaseName(init) {
        var front: string :| init == front + "/" + BaseName(init);
        assert name == front + "/" + BaseName(name);
      }
    } else if name != "" {
      assert name == name[..|name| - 1] + "/" + "";
    }
  }

  lemma {:induction false} BaseOfScoped(scope: string, base: string)
    requires '/' !in base
    ensures BaseName(scope + "/" + base) == base
    decreases |base|
  {
    var name := scope + "/" + base;
    if base == "" {
      assert name[|name| - 1] == '/';
    } else {
      BaseOfScoped(scope, base[..|base| - 1]);
      assert name[..|name| - 1] == scope + "/" + base[..|base| - 1] && name[|name| - 1] == base[|base| - 1];
    }
  }

  function VersionPrefix(dep: string): string {
    BaseName(dep) + "-"
  }

  predicate StartsWith(s: string, prefix: string) {
    prefix <= s
  }

  function Dependencies(s: Staging, p: Pkg): set<string> {
    if p in s.versions then s.versions[p].dependencies else {}
  }

  /** The versions of one dependency that staging keeps a directory for. */
  function StoredVersions(s: Staging, dep: string): set<Pkg> {
    if dep in s.dirs then
      set item | item in s.dirs[dep] && StartsWith(item, VersionPrefix(dep)) ::
        Pkg(dep, item[|VersionPrefix(dep)|..])
    else {}
  }

  function Successors(s: Staging, p: Pkg): set<Pkg> {
    set dep, q | dep in Dependencies(s, p) && q in StoredVersions(s, dep) :: q
  }

  /** A package leads to a version of one of its dependencies exactly when the dependency's directory lists the base
      name and that version. */
  lemma SuccessorsAreListed(s: Staging, p: Pkg, q: Pkg)
    ensures q in Successors(s, p) <==>
              p in s.versions && q.name in s.versions[p].dependencies && q.name in s.dirs &&
              BaseName(q.name) + "-" + q.version in s.dirs[q.name]
  {
    hide BaseName;
    var item := BaseName(q.name) + "-" + q.version;
    assert item[|VersionPrefix(q.name)|..] == q.version && StartsWith(item, VersionPrefix(q.name));
    assert q in Successors(s, p) <==> q.name in Dependencies(s, p) && q in StoredVersions(s, q.name);
    assert q in StoredVersions(s, q.name) <==> q.name in s.dirs && item in s.dirs[q.name] by {
      if q in StoredVersions(s, q.name) {
        var i :| i in s.dirs[q.name] && StartsWith(i, VersionPrefix(q.name)) &&
                 i[|VersionPrefix(q.name)|..] == q.version;
        assert i == item;
      }
    }
  }

  /** A dependency in a scope is listed under its name without the scope, a plain one under its name. */
  lemma ScopedDependency(s: Staging, p: Pkg, scope: string, base: string, version: string)
    requires '/' !in base
    ensures var dep := scope + "/" + base;
            Pkg(dep, version) in Successors(s, p) <==>
              dep in Dependencies(s, p) && dep in s.dirs && base + "-" + version in s.dirs[dep]
    ensures Pkg(base, version) in Successors(s, p) <==>
              base in Dependencies(s, p) && base in s.dirs && base + "-" + version in s.dirs[base]
  {
    BaseOfScoped(scope, base);
    BaseOfPlain(base);
    SuccessorsAreListed(s, p, Pkg(scope + "/" + base, version));
    SuccessorsAreListed(s, p, Pkg(base, version));
    hide BaseName, Successors;
  }

  /** Every package the search can come to. */
  function Universe(s: Staging, root: Pkg): set<Pkg> {
    {root} + set dep, q | dep in s.dirs && q in StoredVersions(s, dep) :: q
  }

  function DependencyGraph(s: Staging, root: Pkg): map<Pkg, set<Pkg>> {
    map p | p in Universe(s, root) :: Successors(s, p)
  }

  /** An edge leads from a package to a stored version of a dependency of it. */
  lemma EdgeIsDependency(s: Staging, root: Pkg, p: Pkg, q: Pkg)
    requires p in DependencyGraph(s, root)
    ensures root in DependencyGraph(s, root)
    ensures Edge(DependencyGraph(s, root), p, q) <==>
              p in s.versions && q.name in s.versions[p].dependencies && q.name in s.dirs &&
              BaseName(q.name) + "-" + q.version in s.dirs[q.name]
  {
    SuccessorsAreListed(s, p, q);
    hide Successors, BaseName;
  }

  /** The directory and the tarball a copy needs. */
  predicate Present(s: Staging, p: Pkg) {
    p.name in s.dirs && p in s.tgz
  }

  predicate KeysDistinct(ps: set<Pkg>) {
    forall p, q :: p in ps && q in ps && Key(p) == Key(q) ==> p == q
  }

  /** Versions without an at sign make the visited keys unambiguous. */
  lemma PlainVersionsHaveDistinctKeys(p: Pkg, q: Pkg)
    requires '@' !in p.version && '@' !in q.version && Key(p) == Key(q)
    ensures p == q
  {
    var k := Key(p);
    AtSplits(k, p);
    AtSplits(k, q);
    assert k[..|p.name|] == p.name && k[..|q.name|] == q.name;
    assert k[|p.name| + 1..] == p.version && k[|q.name| + 1..] == q.version;
  }

  lemma AtSplits(k: string, p: Pkg)
    requires k == Key(p) && '@' !in p.version
    ensures |p.name| < |k| && k[|p.name|] == '@' && forall m :: |p.name| < m < |k| ==> k[m] != '@'
  {
    forall m | |p.name| < m < |k| ensures k[m] != '@' {
      assert k[m] == p.version[m - |p.name| - 1];
    }
  }

  /** Two packages share a key exactly when an at sign of the key can end either name. */
  lemma KeysCollideExactly(p: Pkg, q: Pkg)
    requires |p.name| <= |q.name|
    ensures Key(p) == Key(q) && p != q <==>
            exists x: string :: q.name == p.name + "@" + x && p.version == x + "@" + q.version
  {
    if Key(p) == Key(q) && p != q {
      NamesBegin(p, q);
      var x := q.name[|p.name| + 1..];
      assert q.name == p.name + "@" + x && p.version == x + "@" + q.version;
    }
    if x: string :| q.name == p.name + "@" + x && p.version == x + "@" + q.version {
      assert Key(p) == p.name + "@" + (x + "@" + q.version) == (p.name + "@" + x) + "@" + q.version;
    }
  }

  lemma NamesBegin(p: Pkg, q: Pkg)
    requires Key(p) == Key(q) && p != q && |p.name| <= |q.name|
    ensures |p.name| < |q.name| && q.name == p.name + "@" + q.name[|p.name| + 1..]
    ensures p.version == q.name[|p.name| + 1..] + "@" + q.version
  {
    var k, m, n := Key(p), |p.name|, |q.name|;
    assert k[..m] == p.name && k[..n] == q.name && k[m + 1..] == p.version && k[n + 1..] == q.version;
    assert k[..n][..m] == k[..m];
    if m < n {
      assert k[m] == '@' && k[n] == '@';
      assert k[m + 1..] == k[m + 1..n] + [k[n]] + k[n + 1..];
      assert q.name[m + 1..] == k[m + 1..n];
    }
  }

  lemma GraphIsClosed(s: Staging, root: Pkg)
    ensures Closed(DependencyGraph(s, root))
  {
    forall u, v | Edge(DependencyGraph(s, root), u, v) ensures v in DependencyGraph(s, root) {
      var dep :| dep in Dependencies(s, u) && v in StoredVersions(s, dep);
      assert dep in s.dirs;
    }
  }

  function CopyOne(s: Staging, prod: Prod, p: Pkg): Prod
    requires Present(s, p)
  {
    Prod(prod.tgz[p := s.tgz[p]], if p in s.versions then prod.versions[p := s.versions[p]] else prod.versions)
  }

  ghost predicate AllPresent(s: Staging, ps: seq<Pkg>) {
    forall p :: p in ps ==> Present(s, p)
  }

  /** Production after the copies: the copied packages as in staging, everything else untouched. */
  ghost predicate Copied(s: Staging, before: Prod, ps: set<Pkg>, after: Prod) {
    && (forall p :: p in after.tgz <==> p in before.tgz || p in ps)
    && (forall p :: p in after.tgz ==>
          if p in ps then p in s.tgz && after.tgz[p] == s.tgz[p] else after.tgz[p] == before.tgz[p])
    && (forall p :: p in after.versions <==> p in before.versions || (p in ps && p in s.versions))
    && (forall p :: p in after.versions ==>
          if p in ps && p in s.versions then after.versions[p] == s.versions[p]
          else p in before.versions && after.versions[p] == before.versions[p])
  }

  /** The key of p was seen. */
  predicate Visited(done: seq<Pkg>, p: Pkg) {
    exists q :: q in done && Key(q) == Key(p)
  }

  /** All dependencies were visited, from position `from` on. */
  ghost predicate Finished(g: map<Pkg, set<Pkg>>, done: seq<Pkg>, from: nat) {
    forall i :: from <= i < |done| && done[i] in g ==> forall q :: q in g[done[i]] ==> Visited(done, q)
  }

  ghost function Reachable(g: map<Pkg, set<Pkg>>, p: Pkg): set<Pkg> {
    set q | q in g && ReachesOrIs(g, p, q)
  }

  lemma ReachableMeans(s: Staging, root: Pkg)
    ensures forall q ::
              q in Reachable(DependencyGraph(s, root), root) <==> ReachesOrIs(DependencyGraph(s, root), root, q)
  {
    var g := DependencyGraph(s, root);
    GraphIsClosed(s, root);
    hide DependencyGraph;
    forall q | ReachesOrIs(g, root, q) ensures q in g {
      if q != root {
        var u := LastStep(g, root, q);
      } else {
        RootIsVertex(s, root);
      }
    }
  }

  lemma RootIsVertex(s: Staging, root: Pkg)
    ensures root in DependencyGraph(s, root)
  {
  }

  ghost predicate ReachedFrom(g: map<Pkg, set<Pkg>>, p: Pkg, done: seq<Pkg>, from: nat) {
    forall i :: from <= i < |done| ==> ReachesOrIs(g, p, done[i])
  }

  lemma StepThenReach(g: map<Pkg, set<Pkg>>, p: Pkg, c: Pkg, q: Pkg)
    requires Edge(g, p, c) && ReachesOrIs(g, c, q)
    ensures ReachesOrIs(g, p, q)
  {
    EdgeReaches(g, p, c);
    if c != q { ReachesTrans(g, p, c, q); }
  }

  /** A search that visited all dependencies copied everything reachable exactly when no two reachable packages
      share a key. */
  lemma FinishedIsExact(g: map<Pkg, set<Pkg>>, done: seq<Pkg>, p: Pkg)
    requires Closed(g) && p in g && Finished(g, done, 0) && ReachedFrom(g, p, done, 0) && p in done
    requires KeysDistinct(Elems(done)) && Elems(done) <= g.Keys
    ensures Elems(done) <= Reachable(g, p)
    ensures Elems(done) == Reachable(g, p) <==> KeysDistinct(Reachable(g, p))
  {
    forall q | q in done ensures q in Reachable(g, p) {
      var i :| 0 <= i < |done| && done[i] == q;
      assert q in Elems(done);
    }
    if KeysDistinct(Reachable(g, p)) {
      forall u, v | Edge(g, u, v) && u in done ensures v in done {
        var i :| 0 <= i < |done| && done[i] == u;
        assert Visited(done, v);
        var w :| w in done && Key(w) == Key(v);
        assert u in Reachable(g, p) && w in Reachable(g, p);
        StepFromReached(g, p, u, v);
      }
      forall q | q in Reachable(g, p) ensures q in done {
        ClosedHoldsReachable(g, done, p, q);
      }
    }
  }

  lemma StepFromReached(g: map<Pkg, set<Pkg>>, p: Pkg, u: Pkg, v: Pkg)
    requires Closed(g) && ReachesOrIs(g, p, u) && Edge(g, u, v)
    ensures v in Reachable(g, p)
  {
    EdgeReaches(g, u, v);
    if p != u { ReachesTrans(g, p, u, v); }
  }

  /** A dependency-closed set that holds the root holds everything reachable from it. */
  lemma ClosedHoldsReachable(g: map<Pkg, set<Pkg>>, done: seq<Pkg>, p: Pkg, q: Pkg)
    requires (forall u, v :: Edge(g, u, v) && u in done ==> v in done) && p in done && ReachesOrIs(g, p, q)
    ensures q in done
  {
    if p != q {
      forall u, v | Edge(g, u, v) ensures Carries(done, u, v) {}
      var w :| WalkBetween(g, w, p, q);
      WalkInduction(g, w, (u, v) => Carries(done, u, v));
    }
  }

  predicate Carries(done: seq<Pkg>, u: Pkg, v: Pkg) {
    u in done ==> v in done
  }

  ghost predicate MissingBelow(s: Staging, g: map<Pkg, set<Pkg>>, p: Pkg) {
    exists q :: ReachesOrIs(g, p, q) && !Present(s, q)
  }

  /** What one part of the search below p did: appended packages reached from p, all present, all
      copied, and with all their dependencies visited unless a package was missing. */
  ghost predicate Progress(s: Staging, g: map<Pkg, set<Pkg>>, p: Pkg, before: seq<Pkg>, prod: Prod,
                           after: seq<Pkg>, prod': Prod, ok: bool) {
    && before <= after && NoDup(after)
    && ReachedFrom(g, p, after, |before|) && AllPresent(s, after[|before|..])
    && (if ok then Finished(g, after, |before|) else MissingBelow(s, g, p))
    && Copied(s, prod, Elems(after[|before|..]), prod')
  }

  lemma NoProgress(s: Staging, g: map<Pkg, set<Pkg>>, p: Pkg, done: seq<Pkg>, prod: Prod)
    requires NoDup(done)
    ensures Progress(s, g, p, done, prod, done, prod, true)
    ensures MissingBelow(s, g, p) ==> Progress(s, g, p, done, prod, done, prod, false)
  {
    assert done[|done|..] == [];
    assert Elems<Pkg>([]) == {};
  }

  lemma {:induction false} ProgressTrans(s: Staging, g: map<Pkg, set<Pkg>>, p: Pkg, a: seq<Pkg>, pa: Prod,
                                         b: seq<Pkg>, pb: Prod, c: seq<Pkg>, pc: Prod, ok: bool)
    requires Progress(s, g, p, a, pa, b, pb, true) && Progress(s, g, p, b, pb, c, pc, ok)
    ensures Progress(s, g, p, a, pa, c, pc, ok)
  {
    assert c[|a|..] == b[|a|..] + c[|b|..];
    assert Elems(c[|a|..]) == Elems(b[|a|..]) + Elems(c[|b|..]);
    CopiedTrans(s, pa, Elems(b[|a|..]), pb, Elems(c[|b|..]), pc);
    hide Copied;
    forall i | |a| <= i < |c| ensures ReachesOrIs(g, p, c[i]) {
      if i < |b| { assert c[i] == b[i]; }
    }
    if ok {
      forall i, q | |a| <= i < |c| && c[i] in g && q in g[c[i]] ensures Visited(c, q) {
        if i < |b| { VisitedGrows(b, c, q); }
      }
    }
  }

  lemma VisitedGrows(b: seq<Pkg>, c: seq<Pkg>, q: Pkg)
    requires b <= c
    ensures Visited(b, q) ==> Visited(c, q)
  {
    if Visited(b, q) {
      var p :| p in b && Key(p) == Key(q);
      assert p in c;
    }
  }

  predicate AllVisited(done: seq<Pkg>, qs: set<Pkg>) {
    forall q :: q in qs ==> Visited(done, q)
  }

  lemma AllVisitedGrows(b: seq<Pkg>, c: seq<Pkg>, qs: set<Pkg>)
    requires b <= c && AllVisited(b, qs)
    ensures AllVisited(c, qs)
  {
    forall q | q in qs ensures Visited(c, q) {
      VisitedGrows(b, c, q);
    }
  }

  lemma CopiedTrans(s: Staging, a: Prod, ps: set<Pkg>, b: Prod, qs: set<Pkg>, c: Prod)
    requires Copied(s, a, ps, b) && Copied(s, b, qs, c)
    ensures Copied(s, a, ps + qs, c)
  {
  }

  lemma ProgressBelow(s: Staging, g: map<Pkg, set<Pkg>>, p: Pkg, c: Pkg, a: seq<Pkg>, pa: Prod, b: seq<Pkg>, pb: Prod,
                      ok: bool)
    requires Edge(g, p, c) && Progress(s, g, c, a, pa, b, pb, ok)
    ensures Progress(s, g, p, a, pa, b, pb, ok)
  {
    forall i | |a| <= i < |b| ensures ReachesOrIs(g, p, b[i]) {
      StepThenReach(g, p, c, b[i]);
    }
    if !ok {
      var q :| ReachesOrIs(g, c, q) && !Present(s, q);
      StepThenReach(g, p, c, q);
    }
  }

  /** Copying p itself, before its dependencies. */
  lemma ProgressFirst(s: Staging, g: map<Pkg, set<Pkg>>, p: Pkg, done: seq<Pkg>, prod: Prod,
                      after: seq<Pkg>, prod': Prod, ok: bool)
    requires Present(s, p) && NoDup(done) && p !in done && p in g
    requires Progress(s, g, p, done + [p], CopyOne(s, prod, p), after, prod', ok)
    requires ok ==> forall q :: q in g[p] ==> Visited(after, q)
    ensures Progress(s, g, p, done, prod, after, prod', ok) && p in after
  {
    var mid := done + [p];
    assert after[|done|] == mid[|done|] == p;
    assert after[|done|..] == [p] + after[|mid|..];
    assert Elems(after[|done|..]) == {p} + Elems(after[|mid|..]);
    assert Copied(s, prod, {p}, CopyOne(s, prod, p));
    CopiedTrans(s, prod, {p}, CopyOne(s, prod, p), Elems(after[|mid|..]), prod');
  }

  class Copier {
    const staging: Staging
    ghost const root: Pkg
    var prod: Prod
    var copied: set<string>
    /** The packages behind `copied`, in the order they were copied. */
    ghost var done: seq<Pkg>

    constructor (staging: Staging, prod: Prod, ghost root: Pkg)
      ensures this.staging == staging && this.prod == prod && this.root == root && copied == {} && done == []
    {
      this.staging, this.prod, this.root, copied, done := staging, prod, root, {}, [];
    }

    ghost function G(): map<Pkg, set<Pkg>> {
      DependencyGraph(staging, root)
    }

    ghost predicate Valid()
      reads this
    {
      && KeysDistinct(Elems(done)) && NoDup(done) && Elems(done) <= Universe(staging, root)
      && copied == set p | p in done :: Key(p)
    }

    lemma KeySeen(p: Pkg)
      requires Valid()
      ensures Key(p) in copied <==> Visited(done, p)
      ensures p in done ==> Visited(done, p)
    {
    }

    ghost function Remaining(ps: seq<Pkg>): nat {
      |Universe(staging, root) - Elems(ps)|
    }

    /** How many packages are not copied yet. */
    ghost function Left(): nat
      reads this
    {
      Remaining(done)
    }

    lemma LeftShrinks(before: seq<Pkg>)
      requires before <= done
      ensures Left() <= Remaining(before)
    {
      assert Elems(before) <= Elems(done);
      SubsetCard(Universe(staging, root) - Elems(done), Universe(staging, root) - Elems(before));
    }

    lemma SuccessorInUniverse(p: Pkg, q: Pkg)
      requires p in Universe(staging, root) && q in Successors(staging, p)
      ensures q in Universe(staging, root) && Edge(G(), p, q)
    {
      var dep :| dep in Dependencies(staging, p) && q in StoredVersions(staging, dep);
      assert dep in staging.dirs;
    }

    /** The depth-first copy with the shared visited set; false stands for the UserError. */
    method CopyPackage(p: Pkg) returns (ok: bool)
      requires Valid() && p in Universe(staging, root)
      modifies this
      ensures Valid() && Progress(staging, G(), p, old(done), old(prod), done, prod, ok)
      ensures ok ==> Visited(done, p)
      ensures ok && !Visited(old(done), p) ==> p in done
      decreases Left(), 0
    {
      KeySeen(p);
      NoProgress(staging, G(), p, done, prod);
      if Key(p) in copied {
        return true;
      }
      if p.name !in staging.dirs || p !in staging.tgz {
        assert ReachesOrIs(G(), p, p) && !Present(staging, p);
        return false;
      }
      Mark(p);
      ok := CopyDependencies(p);
      ProgressFirst(staging, G(), p, old(done), old(prod), done, prod, ok);
    }

    /** Copies the files of p and marks it copied. */
    method Mark(p: Pkg)
      requires Valid() && p in Universe(staging, root) && Present(staging, p) && Key(p) !in copied
      modifies this
      ensures Valid() && done == old(done) + [p] && prod == CopyOne(staging, old(prod), p)
      ensures Left() < old(Left())
    {
      KeySeen(p);
      MarkedKeys(p);
      hide KeysDistinct, Universe;
      ghost var u := Universe(staging, root);
      assert Elems(done + [p]) == Elems(done) + {p};
      assert u - Elems(done) == (u - Elems(done + [p])) + {p};
      prod := CopyOne(staging, prod, p);
      copied := copied + {Key(p)};
      done := done + [p];
    }

    lemma MarkedKeys(p: Pkg)
      requires Valid() && !Visited(done, p)
      ensures KeysDistinct(Elems(done + [p])) && p !in done
      ensures (set q | q in done + [p] :: Key(q)) == copied + {Key(p)}
    {
      assert forall q :: q in done + [p] <==> q in done || q == p;
      assert forall q :: q in Elems(done) ==> Key(q) != Key(p);
    }

    method CopyDependencies(p: Pkg) returns (ok: bool)
      requires Valid() && p in Universe(staging, root)
      modifies this
      ensures Valid() && Progress(staging, G(), p, old(done), old(prod), done, prod, ok)
      ensures ok ==> AllVisited(done, Successors(staging, p))
      decreases Left(), 3
    {
      var deps := Dependencies(staging, p);
      NoProgress(staging, G(), p, done, prod);
      ghost var visited: set<string> := {};
      hide Progress, Valid, Universe, G, Remaining, AllVisited, Visited, DepsVisited, Dependencies, Successors;
      NoDepVisited();
      while deps != {}
        invariant visited + deps == Dependencies(staging, p)
        invariant Valid() && old(done) <= done && DepsVisited(done, visited)
        invariant Progress(staging, G(), p, old(done), old(prod), done, prod, true)
        decreases deps
      {
        var dep :| dep in deps;
        deps := deps - {dep};
        ghost var mid, midProd := done, prod;
        LeftShrinks(old(done));
        ok := CopyVersions(p, dep);
        ProgressTrans(staging, G(), p, old(done), old(prod), mid, midProd, done, prod, ok);
        if !ok {
          return;
        }
        OneMoreDep(mid, visited, dep);
        visited := visited + {dep};
      }
      assert visited == Dependencies(staging, p);
      AllSuccessors(p);
      ok := true;
    }

    ghost predicate DepsVisited(ps: seq<Pkg>, deps: set<string>) {
      forall dep :: dep in deps ==> AllVisited(ps, StoredVersions(staging, dep))
    }

    lemma NoDepVisited()
      ensures DepsVisited(done, {})
    {
    }

    lemma OneMoreDep(before: seq<Pkg>, deps: set<string>, dep: string)
      requires before <= done && DepsVisited(before, deps) && AllVisited(done, StoredVersions(staging, dep))
      ensures DepsVisited(done, deps + {dep})
    {
      forall d | d in deps ensures AllVisited(done, StoredVersions(staging, d)) {
        AllVisitedGrows(before, done, StoredVersions(staging, d));
      }
    }

    lemma AllSuccessors(p: Pkg)
      requires DepsVisited(done, Dependencies(staging, p))
      ensures AllVisited(done, Successors(staging, p))
    {
      hide StoredVersions, Visited;
    }

    method CopySuccessor(p: Pkg, q: Pkg) returns (ok: bool)
      requires Valid() && p in Universe(staging, root) && q in Successors(staging, p)
      modifies this
      ensures Valid() && old(done) <= done && (ok ==> Visited(done, q))
      ensures Progress(staging, G(), p, old(done), old(prod), done, prod, ok)
      decreases Left(), 1
    {
      SuccessorInUniverse(p, q);
      ok := CopyPackage(q);
      ProgressBelow(staging, G(), p, q, old(done), old(prod), done, prod, ok);
    }

    /** The directory listing of one dependency. */
    method CopyVersions(p: Pkg, dep: string) returns (ok: bool)
      requires Valid() && p in Universe(staging, root) && dep in Dependencies(staging, p)
      modifies this
      ensures Valid() && old(done) <= done
      ensures Progress(staging, G(), p, old(done), old(prod), done, prod, ok)
      ensures ok ==> AllVisited(done, StoredVersions(staging, dep))
      decreases Left(), 2
    {
      NoProgress(staging, G(), p, done, prod);
      if dep !in staging.dirs {
        return true;
      }
      var items := staging.dirs[dep];
      ghost var listed: set<string> := {};
      hide Progress, Valid, Universe, G, Remaining, AllVisited, Visited, ItemsVisited, StoredVersions, Successors;
      NoItemVisited(dep);
      while items != {}
        invariant listed + items == staging.dirs[dep]
        invariant Valid() && old(done) <= done && ItemsVisited(done, dep, listed)
        invariant Progress(staging, G(), p, old(done), old(prod), done, prod, true)
        decreases items
      {
        var item :| item in items;
        items := items - {item};
        ghost var mid, midProd := done, prod;
        if StartsWith(item, VersionPrefix(dep)) {
          ListedVersion(p, dep, item);
          LeftShrinks(old(done));
          ok := CopySuccessor(p, Pkg(dep, item[|VersionPrefix(dep)|..]));
          ProgressTrans(staging, G(), p, old(done), old(prod), mid, midProd, done, prod, ok);
          if !ok {
            return;
          }
        }
        OneMoreItem(mid, dep, listed, item);
        listed := listed + {item};
      }
      assert listed == staging.dirs[dep];
      AllItems(dep);
      ok := true;
    }

    ghost predicate ItemsVisited(ps: seq<Pkg>, dep: string, items: set<string>) {
      forall item :: item in items && StartsWith(item, VersionPrefix(dep)) ==>
        Visited(ps, Pkg(dep, item[|VersionPrefix(dep)|..]))
    }

    lemma NoItemVisited(dep: string)
      ensures ItemsVisited(done, dep, {})
    {
    }

    lemma OneMoreItem(before: seq<Pkg>, dep: string, items: set<string>, item: string)
      requires before <= done && ItemsVisited(before, dep, items)
      requires StartsWith(item, VersionPrefix(dep)) ==> Visited(done, Pkg(dep, item[|VersionPrefix(dep)|..]))
      ensures ItemsVisited(done, dep, items + {item})
    {
      hide Visited;
      forall i | i in items && StartsWith(i, VersionPrefix(dep))
        ensures Visited(done, Pkg(dep, i[|VersionPrefix(dep)|..]))
      {
        VisitedGrows(before, done, Pkg(dep, i[|VersionPrefix(dep)|..]));
      }
    }

    lemma AllItems(dep: string)
      requires dep in staging.dirs && ItemsVisited(done, dep, staging.dirs[dep])
      ensures AllVisited(done, StoredVersions(staging, dep))
    {
      hide Visited;
    }

    lemma ListedVersion(p: Pkg, dep: string, item: string)
      requires dep in Dependencies(staging, p) && dep in staging.dirs && item in staging.dirs[dep]
      requires StartsWith(item, VersionPrefix(dep))
      ensures Pkg(dep, item[|VersionPrefix(dep)|..]) in Successors(staging, p)
    {
      assert Pkg(dep, item[|VersionPrefix(dep)|..]) in StoredVersions(staging, dep);
    }

    /** Started with an empty set: fails only if a reachable package is not stored in staging. Otherwise it copied
        reachable packages only, each once, and all of them exactly when their keys differ. */
    method CopyRoot(p: Pkg) returns (ok: bool)
      requires p == root && copied == {} && done == []
      modifies this
      ensures var all := Reachable(G(), root);
              && (!ok ==> exists q :: q in all && (q.name !in staging.dirs || q !in staging.tgz))
              && (ok ==> NoDup(done) && Elems(done) <= all && KeysDistinct(Elems(done)))
              && (ok ==> forall q :: q in done ==> q.name in staging.dirs && q in staging.tgz)
              && (ok ==> (Elems(done) == all <==> KeysDistinct(all)))
              && (KeysDistinct(all) ==> (ok <==> forall q :: q in all ==> q.name in staging.dirs && q in staging.tgz))
      ensures ok ==> copied == (set q | q in done :: Key(q)) && Copied(staging, old(prod), Elems(done), prod)
    {
      ok := CopyPackage(p);
      assert done[0..] == done;
      ReachableMeans(staging, root);
      GraphIsClosed(staging, root);
      if ok {
        FinishedIsExact(G(), done, root);
      }
    }
  }

  /** Two dependencies whose only stored versions share the key "a@@c". */
  const COLLIDING := Staging(
    map["r" := {}, "a" := {"a-@c"}, "a@" := {"a@-c"}],
    map[Pkg("r", "1") := 0, Pkg("a", "@c") := 1, Pkg("a@", "c") := 2],
    map[Pkg("r", "1") := VersionData({"a", "a@"}, 0)])

  lemma IsSuccessor(s: Staging, p: Pkg, dep: string, version: string)
    requires dep in Dependencies(s, p) && dep in s.dirs && VersionPrefix(dep) + version in s.dirs[dep]
    ensures Pkg(dep, version) in Successors(s, p)
  {
    var item := VersionPrefix(dep) + version;
    assert item[|VersionPrefix(dep)|..] == version;
    assert Pkg(dep, version) in StoredVersions(s, dep);
  }

  lemma {:induction false} BaseOfPlain(name: string)
    requires '/' !in name
    ensures BaseName(name) == name
    decreases |name|
  {
    if name != "" { BaseOfPlain(name[..|name| - 1]); }
  }

  lemma CollidingSuccessors()
    ensures Pkg("a", "@c") in Successors(COLLIDING, Pkg("r", "1"))
    ensures Pkg("a@", "c") in Successors(COLLIDING, Pkg("r", "1"))
  {
    hide BaseName, Successors, StoredVersions;
    BaseOfPlain("a");
    BaseOfPlain("a@");
    assert "a" + "-" + "@c" == "a-@c" && "a@" + "-" + "c" == "a@-c";
    IsSuccessor(COLLIDING, Pkg("r", "1"), "a", "@c");
    IsSuccessor(COLLIDING, Pkg("r", "1"), "a@", "c");
  }

  /** Everything the root package needs is stored, and yet whatever a search that keeps keys apart copies, it skips
      a package the root depends on. */
  lemma AtSignsSkip(copies: set<Pkg>) returns (skipped: Pkg)
    requires KeysDistinct(copies)
    ensures skipped in Successors(COLLIDING, Pkg("r", "1")) && Present(COLLIDING, skipped) && skipped !in copies
  {
    CollidingSuccessors();
    var p, q := Pkg("a", "@c"), Pkg("a@", "c");
    assert Key(p) == "a@@c" == Key(q);
    skipped := if p in copies then q else p;
  }
}
