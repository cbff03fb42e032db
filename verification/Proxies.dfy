/** Proxies of frp/server/control.go and the global registry of frp/server/proxy/proxy.go. */
module Proxies {
  type ControlId = nat

  /** A proxy object; `ports` is what `GetUsedPortsNum` returns. */
  datatype Proxy = Proxy(name: string, owner: ControlId, ports: nat)

  /** The registry, and the proxies that listen: `Run` succeeded and `Close` was not called yet. */
  datatype Shared = Shared(pxys: map<string, Proxy>, running: set<Proxy>)

  /** Where a control's message loop stands between two locked sections. */
  datatype Phase =
    | Idle
    | Reserved(p: Proxy)
    | Checked(p: Proxy)
    | Ran(p: Proxy)
    | Added(p: Proxy)
    | AddFailed(p: Proxy)
    | Unreserving(p: Proxy)
    | Closing(p: Proxy)
    | Closed(p: Proxy)
    | TearingDown(rest: map<string, Proxy>, stopped: set<string>)
    | Dead

  datatype ControlState = ControlState(proxies: map<string, Proxy>, portsUsed: int, phase: Phase)

  /** The locked sections, in the order of `RegisterProxy`, `CloseProxy` and the end of `worker`. */
  datatype Action =
    | Reserve(p: Proxy)
    | CheckExist
    | Run(ok: bool)
    | AddGlobal
    | Store
    | CloseFailed
    | Unreserve
    | Remove(name: string)
    | Stop
    | DelGlobal
    | Teardown
    | TearStop(name: string)
    | TearDel(name: string)
    | Finish

  function Step(limit: int, c: ControlId, g: Shared, k: ControlState, a: Action): (Shared, ControlState) {
    match a
    case Reserve(p) =>
      if !k.phase.Idle? || p.owner != c then (g, k)
      else if limit <= 0 then (g, k.(phase := Reserved(p)))
      else if k.portsUsed + p.ports > limit then (g, k)
      else (g, k.(portsUsed := k.portsUsed + p.ports, phase := Reserved(p)))
    case CheckExist =>
      if !k.phase.Reserved? then (g, k)
      else (g, k.(phase := if k.phase.p.name in g.pxys then Unreserving(k.phase.p) else Checked(k.phase.p)))
    case Run(ok) =>
      if !k.phase.Checked? then (g, k)
      else if ok then (g.(running := g.running + {k.phase.p}), k.(phase := Ran(k.phase.p)))
      else (g, k.(phase := Unreserving(k.phase.p)))
    case AddGlobal =>
      if !k.phase.Ran? then (g, k)
      else if k.phase.p.name in g.pxys then (g, k.(phase := AddFailed(k.phase.p)))
      else (g.(pxys := g.pxys[k.phase.p.name := k.phase.p]), k.(phase := Added(k.phase.p)))
    case Store =>
      if !k.phase.Added? then (g, k)
      else (g, k.(proxies := k.proxies[k.phase.p.name := k.phase.p], phase := Idle))
    case CloseFailed =>
      if !k.phase.AddFailed? then (g, k)
      else (g.(running := g.running - {k.phase.p}), k.(phase := Unreserving(k.phase.p)))
    case Unreserve =>
      if !k.phase.Unreserving? then (g, k)
      else (g, k.(portsUsed := if limit > 0 then k.portsUsed - k.phase.p.ports else k.portsUsed, phase := Idle))
    case Remove(name) =>
      if !k.phase.Idle? || name !in k.proxies then (g, k)
      else
        (g, k.(proxies := k.proxies - {name}, phase := Closing(k.proxies[name]),
               portsUsed := if limit > 0 then k.portsUsed - k.proxies[name].ports else k.portsUsed))
    case Stop =>
      if !k.phase.Closing? then (g, k)
      else (g.(running := g.running - {k.phase.p}), k.(phase := Closed(k.phase.p)))
    case DelGlobal =>
      if !k.phase.Closed? then (g, k)
      else (g.(pxys := g.pxys - {k.phase.p.name}), k.(phase := Idle))
    case Teardown =>
      if !k.phase.Idle? then (g, k)
      else (g, k.(proxies := map[], phase := TearingDown(k.proxies, {})))
    case TearStop(name) =>
      if !k.phase.TearingDown? || name !in k.phase.rest then (g, k)
      else
        (g.(running := g.running - {k.phase.rest[name]}),
         k.(phase := TearingDown(k.phase.rest, k.phase.stopped + {name})))
    case TearDel(name) =>
      if !k.phase.TearingDown? || name !in k.phase.stopped then (g, k)
      else (g.(pxys := g.pxys - {name}), k.(phase := TearingDown(k.phase.rest - {name}, k.phase.stopped - {name})))
    case Finish =>
      if k.phase.TearingDown? && k.phase.rest == map[] then (g, k.(phase := Dead)) else (g, k)
  }

  predicate In(m: map<string, Proxy>, p: Proxy) {
    p.name in m && m[p.name] == p
  }

  /** The control answers for the entry of `p` in the registry. */
  predicate Holds(k: ControlState, p: Proxy) {
    || In(k.proxies, p)
    || ((k.phase.Added? || k.phase.Closing? || k.phase.Closed?) && k.phase.p == p)
    || (k.phase.TearingDown? && In(k.phase.rest, p))
  }

  /** The control answers for the listener of `p`. */
  predicate Listens(k: ControlState, p: Proxy) {
    || In(k.proxies, p)
    || ((k.phase.Ran? || k.phase.Added? || k.phase.AddFailed? || k.phase.Closing?) && k.phase.p == p)
    || (k.phase.TearingDown? && In(k.phase.rest, p) && p.name !in k.phase.stopped)
  }

  /** The ports of all proxies of a control. */
  ghost function Sum(m: map<string, Proxy>): int
    decreases |m|
  {
    if m == map[] then 0
    else
      var name :| name in m;
      m[name].ports + Sum(m - {name})
  }

  /** The ports reserved for the proxy that is being registered. */
  function InFlight(phase: Phase): int {
    if phase.Reserved? || phase.Checked? || phase.Ran? || phase.Added? || phase.AddFailed? || phase.Unreserving?
    then phase.p.ports else 0
  }

  predicate Over(phase: Phase) {
    phase.TearingDown? || phase.Dead?
  }

  ghost predicate PortsExact(limit: int, k: ControlState) {
    if limit > 0 then k.portsUsed <= limit && (!Over(k.phase) ==> k.portsUsed == Sum(k.proxies) + InFlight(k.phase))
    else k.portsUsed == 0
  }

  ghost predicate Named(c: ControlId, m: map<string, Proxy>) {
    forall name :: name in m ==> m[name].name == name && m[name].owner == c
  }

  ghost predicate PhaseOk(c: ControlId, k: ControlState) {
    && Named(c, k.proxies)
    && (Over(k.phase) ==> k.proxies == map[])
    && (k.phase.TearingDown? ==> Named(c, k.phase.rest) && k.phase.stopped <= k.phase.rest.Keys)
    && (!k.phase.Idle? && !Over(k.phase) ==> k.phase.p.owner == c)
    && (k.phase.Checked? || k.phase.Ran? || k.phase.Added? || k.phase.AddFailed? || k.phase.Closing? ||
        k.phase.Closed? ==>
          k.phase.p.name !in k.proxies)
  }

  /** What concerns one control: it accounts for exactly the entries and listeners it owns. */
  ghost predicate Accounts(c: ControlId, g: Shared, k: ControlState) {
    EntriesExact(c, g, k) && ListenersExact(c, g, k)
  }

  ghost predicate EntriesExact(c: ControlId, g: Shared, k: ControlState) {
    forall p: Proxy :: p.owner == c ==> (In(g.pxys, p) <==> Holds(k, p))
  }

  ghost predicate ListenersExact(c: ControlId, g: Shared, k: ControlState) {
    forall p: Proxy :: p.owner == c ==> (p in g.running <==> Listens(k, p))
  }

  ghost predicate ControlInv(limit: int, c: ControlId, g: Shared, k: ControlState) {
    PhaseOk(c, k) && PortsExact(limit, k) && Accounts(c, g, k)
  }

  lemma {:induction false} SumRemove(m: map<string, Proxy>, name: string)
    requires name in m
    ensures Sum(m) == m[name].ports + Sum(m - {name})
    decreases |m|
  {
    var first :| first in m && Sum(m) == m[first].ports + Sum(m - {first});
    if first != name {
      SumRemove(m - {first}, name);
      SumRemove(m - {name}, first);
      assert m - {first} - {name} == m - {name} - {first};
    }
  }

  lemma SumAdd(m: map<string, Proxy>, name: string, p: Proxy)
    requires name !in m
    ensures Sum(m[name := p]) == Sum(m) + p.ports
  {
    SumRemove(m[name := p], name);
    assert m[name := p] - {name} == m;
  }

  lemma {:induction false} SumNonNegative(m: map<string, Proxy>)
    ensures Sum(m) >= 0
    decreases |m|
  {
    if m != map[] {
      var name :| name in m;
      SumRemove(m, name);
      SumNonNegative(m - {name});
    }
  }

  lemma StepKeepsPorts(limit: int, c: ControlId, g: Shared, k: ControlState, a: Action)
    requires PhaseOk(c, k) && PortsExact(limit, k)
    ensures PortsExact(limit, Step(limit, c, g, k, a).1)
  {
    if a.Store? && k.phase.Added? {
      SumAdd(k.proxies, k.phase.p.name, k.phase.p);
    }
    if a.Remove? && k.phase.Idle? && a.name in k.proxies {
      SumRemove(k.proxies, a.name);
    }
    SumNonNegative(k.proxies);
    hide Sum, Named;
  }

  lemma StepKeepsPhase(limit: int, c: ControlId, g: Shared, k: ControlState, a: Action)
    requires PhaseOk(c, k) && Accounts(c, g, k)
    ensures PhaseOk(c, Step(limit, c, g, k, a).1)
  {
    if a.CheckExist? && k.phase.Reserved? && k.phase.p.name in k.proxies {
      assert Holds(k, k.proxies[k.phase.p.name]);
      assert In(g.pxys, k.proxies[k.phase.p.name]);
    }
  }

  lemma StepKeepsEntries(limit: int, c: ControlId, g: Shared, k: ControlState, a: Action)
    requires PhaseOk(c, k) && EntriesExact(c, g, k)
    ensures EntriesExact(c, Step(limit, c, g, k, a).0, Step(limit, c, g, k, a).1)
  {
  }

  lemma StepKeepsListeners(limit: int, c: ControlId, g: Shared, k: ControlState, a: Action)
    requires PhaseOk(c, k) && Accounts(c, g, k)
    ensures ListenersExact(c, Step(limit, c, g, k, a).0, Step(limit, c, g, k, a).1)
  {
  }

  /** A step leaves the entries and listeners of the other controls alone. */
  lemma StepSparesOthers(limit: int, c: ControlId, g: Shared, k: ControlState, a: Action, p: Proxy)
    requires PhaseOk(c, k) && Accounts(c, g, k) && p.owner != c
    ensures In(Step(limit, c, g, k, a).0.pxys, p) <==> In(g.pxys, p)
    ensures p in Step(limit, c, g, k, a).0.running <==> p in g.running
  {
  }

  datatype State = State(g: Shared, controls: map<ControlId, ControlState>)

  datatype Event = Login(c: ControlId) | Act(c: ControlId, a: Action)

  const Empty := State(Shared(map[], {}), map[])

  function After(limit: int, s: State, e: Event): State {
    match e
    case Login(c) =>
      if c in s.controls then s else s.(controls := s.controls[c := ControlState(map[], 0, Idle)])
    case Act(c, a) =>
      if c !in s.controls then s
      else
        var (g, k) := Step(limit, c, s.g, s.controls[c], a);
        State(g, s.controls[c := k])
  }

  ghost predicate Inv(limit: int, s: State) {
    && (forall c :: c in s.controls ==> ControlInv(limit, c, s.g, s.controls[c]))
    && (forall name :: name in s.g.pxys ==> s.g.pxys[name].name == name && s.g.pxys[name].owner in s.controls)
    && (forall p :: p in s.g.running ==> p.owner in s.controls)
  }

  lemma OthersKeepInv(limit: int, c: ControlId, g: Shared, k: ControlState, a: Action, d: ControlId,
                      other: ControlState)
    requires PhaseOk(c, k) && Accounts(c, g, k) && c != d && ControlInv(limit, d, g, other)
    ensures ControlInv(limit, d, Step(limit, c, g, k, a).0, other)
  {
    var g' := Step(limit, c, g, k, a).0;
    forall p: Proxy | p.owner == d
      ensures (In(g'.pxys, p) <==> In(g.pxys, p)) && (p in g'.running <==> p in g.running)
    {
      StepSparesOthers(limit, c, g, k, a, p);
    }
    hide Step, Holds, Listens, PhaseOk, PortsExact, In;
  }

  lemma OwnersStay(limit: int, c: ControlId, g: Shared, k: ControlState, a: Action, owners: set<ControlId>)
    requires PhaseOk(c, k) && c in owners
    requires forall name :: name in g.pxys ==> g.pxys[name].name == name && g.pxys[name].owner in owners
    requires forall p :: p in g.running ==> p.owner in owners
    ensures var g' := Step(limit, c, g, k, a).0;
            && (forall name :: name in g'.pxys ==> g'.pxys[name].name == name && g'.pxys[name].owner in owners)
            && (forall p :: p in g'.running ==> p.owner in owners)
  {
  }

  lemma {:induction false} AfterKeepsInv(limit: int, s: State, e: Event)
    requires Inv(limit, s)
    ensures Inv(limit, After(limit, s, e))
  {
    if e.Login? {
      LoginKeepsInv(limit, s, e.c);
    } else if e.c in s.controls {
      var c, k := e.c, s.controls[e.c];
      StepKeepsPorts(limit, c, s.g, k, e.a);
      StepKeepsPhase(limit, c, s.g, k, e.a);
      StepKeepsEntries(limit, c, s.g, k, e.a);
      StepKeepsListeners(limit, c, s.g, k, e.a);
      OwnersStay(limit, c, s.g, k, e.a, s.controls.Keys);
      forall d | d in s.controls && d != c ensures ControlInv(limit, d, Step(limit, c, s.g, k, e.a).0, s.controls[d]) {
        OthersKeepInv(limit, c, s.g, k, e.a, d, s.controls[d]);
      }
      hide Step, PhaseOk, PortsExact, EntriesExact, ListenersExact;
    }
  }

  lemma LoginKeepsInv(limit: int, s: State, c: ControlId)
    requires Inv(limit, s)
    ensures Inv(limit, After(limit, s, Login(c)))
  {
    if c !in s.controls {
      var k := ControlState(map[], 0, Idle);
      assert PortsExact(limit, k) by { SumNonNegative(map[]); }
      forall p: Proxy | p.owner == c ensures !In(s.g.pxys, p) && p !in s.g.running && !Holds(k, p) && !Listens(k, p) {}
      assert ControlInv(limit, c, s.g, k);
    }
    hide ControlInv;
  }

  function At(limit: int, events: seq<Event>): State
    decreases |events|
  {
    if events == [] then Empty else After(limit, At(limit, events[..|events| - 1]), events[|events| - 1])
  }

  /** Over any history of logins, registrations that fail at any point, closes and teardowns, interleaved
      in any way, every control accounts for its ports, its registry entries and its listeners. */
  lemma {:induction false} EveryRunKeepsInv(limit: int, events: seq<Event>)
    ensures Inv(limit, At(limit, events))
    decreases |events|
  {
    if events != [] {
      EveryRunKeepsInv(limit, events[..|events| - 1]);
      AfterKeepsInv(limit, At(limit, events[..|events| - 1]), events[|events| - 1]);
    }
  }

  /** The registry is the disjoint union of what the controls hold. */
  lemma RegistryIsUnion(limit: int, events: seq<Event>, p: Proxy)
    ensures var s := At(limit, events);
            In(s.g.pxys, p) <==> exists c :: c in s.controls && Holds(s.controls[c], p)
    ensures var s := At(limit, events);
            forall c, d :: c in s.controls && d in s.controls && Holds(s.controls[c], p) && Holds(s.controls[d], p) ==>
              c == d
  {
    EveryRunKeepsInv(limit, events);
    var s := At(limit, events);
    forall c | c in s.controls && Holds(s.controls[c], p) ensures p.owner == c {
      HeldIsOwn(c, s.controls[c], p);
    }
  }

  lemma HeldIsOwn(c: ControlId, k: ControlState, p: Proxy)
    requires PhaseOk(c, k) && Holds(k, p)
    ensures p.owner == c
  {
  }

  /** No proxy name is held by two controls. */
  lemma NamesAreUnique(limit: int, events: seq<Event>, p: Proxy, q: Proxy)
    requires p.name == q.name
    requires exists c :: c in At(limit, events).controls && Holds(At(limit, events).controls[c], p)
    requires exists c :: c in At(limit, events).controls && Holds(At(limit, events).controls[c], q)
    ensures p == q
  {
    RegistryIsUnion(limit, events, p);
    RegistryIsUnion(limit, events, q);
  }

  predicate Quiet(s: State) {
    forall c :: c in s.controls ==> s.controls[c].phase.Idle? || s.controls[c].phase.Dead?
  }

  /** Between operations the registry is exactly the union of the controls' own maps, nothing else listens,
      and with a limit each live control's count is the sum of its proxies' ports and within the limit. */
  lemma QuietStateIsExact(limit: int, events: seq<Event>)
    requires Quiet(At(limit, events))
    ensures var s := At(limit, events);
            && (forall p: Proxy :: In(s.g.pxys, p) <==> p.owner in s.controls && In(s.controls[p.owner].proxies, p))
            && (forall p: Proxy :: p in s.g.running <==> In(s.g.pxys, p))
            && (forall c :: c in s.controls && limit > 0 && s.controls[c].phase.Idle? ==>
                  s.controls[c].portsUsed == Sum(s.controls[c].proxies) <= limit)
  {
    EveryRunKeepsInv(limit, events);
    var s := At(limit, events);
    hide Sum, At, PhaseOk;
    forall p: Proxy
      ensures In(s.g.pxys, p) <==> p.owner in s.controls && In(s.controls[p.owner].proxies, p)
      ensures p in s.g.running <==> In(s.g.pxys, p)
    {
      if p.owner in s.controls {
        assert ControlInv(limit, p.owner, s.g, s.controls[p.owner]);
      }
    }
  }

  /** A control that is torn down leaves no entry and no listener behind. */
  lemma DeadLeavesNothing(limit: int, events: seq<Event>, c: ControlId, p: Proxy)
    requires c in At(limit, events).controls && At(limit, events).controls[c].phase.Dead? && p.owner == c
    ensures !In(At(limit, events).g.pxys, p) && p !in At(limit, events).g.running
  {
    EveryRunKeepsInv(limit, events);
    var s := At(limit, events);
    assert ControlInv(limit, c, s.g, s.controls[c]);
  }

  /** Several locked sections of one control in a row; a section that does not apply changes nothing. */
  function Steps(limit: int, c: ControlId, g: Shared, k: ControlState, actions: seq<Action>): (Shared, ControlState)
    decreases |actions|
  {
    if actions == [] then (g, k)
    else
      var (g1, k1) := Step(limit, c, g, k, actions[0]);
      Steps(limit, c, g1, k1, actions[1..])
  }

  /** The sections of `RegisterProxy`; `others` is what other controls do to the registry while `Run` is under way. */
  function Registration(limit: int, c: ControlId, g: Shared, k: ControlState, p: Proxy, ok: bool,
                        others: Shared -> Shared): (Shared, ControlState) {
    var (g1, k1) := Steps(limit, c, g, k, [Reserve(p), CheckExist, Run(ok)]);
    if k1.phase.Ran? then Steps(limit, c, others(g1), k1, [AddGlobal, CloseFailed, Unreserve, Store])
    else Steps(limit, c, g1, k1, [Unreserve])
  }

  /** A registration ends idle: it either adds exactly this proxy or restores the control as it was. */
  lemma RegistrationIsAllOrNothing(limit: int, c: ControlId, g: Shared, k: ControlState, p: Proxy, ok: bool,
                                   others: Shared -> Shared)
    requires k.phase.Idle? && p.owner == c
    ensures var (g', k') := Registration(limit, c, g, k, p, ok, others);
            var ran := others(g.(running := g.running + {p}));
            if (limit > 0 && k.portsUsed + p.ports > limit) || p.name in g.pxys || !ok then g' == g && k' == k
            else if p.name in ran.pxys then g' == ran.(running := ran.running - {p}) && k' == k
            else
              && g' == ran.(pxys := ran.pxys[p.name := p])
              && k' == ControlState(k.proxies[p.name := p],
                                    if limit > 0 then k.portsUsed + p.ports else k.portsUsed, Idle)
  {
    FirstSteps(limit, c, g, k, p, ok);
    var (g1, k1) := Steps(limit, c, g, k, [Reserve(p), CheckExist, Run(ok)]);
    if k1.phase.Ran? {
      LastSteps(limit, c, others(g1), k1);
    } else {
      OneStep(limit, c, g1, k1, Unreserve);
    }
    hide Steps;
  }

  lemma OneStep(limit: int, c: ControlId, g: Shared, k: ControlState, a: Action)
    ensures Steps(limit, c, g, k, [a]) == Step(limit, c, g, k, a)
  {
    assert [a][1..] == [];
  }

  lemma FirstSteps(limit: int, c: ControlId, g: Shared, k: ControlState, p: Proxy, ok: bool)
    requires k.phase.Idle? && p.owner == c
    ensures var (g1, k1) := Steps(limit, c, g, k, [Reserve(p), CheckExist, Run(ok)]);
            var reserved := k.(portsUsed := if limit > 0 then k.portsUsed + p.ports else k.portsUsed);
            if limit > 0 && k.portsUsed + p.ports > limit then g1 == g && k1 == k
            else if p.name in g.pxys || !ok then g1 == g && k1 == reserved.(phase := Unreserving(p))
            else g1 == g.(running := g.running + {p}) && k1 == reserved.(phase := Ran(p))
  {
    var all := [Reserve(p), CheckExist, Run(ok)];
    assert all[1..] == [CheckExist, Run(ok)] && [CheckExist, Run(ok)][1..] == [Run(ok)];
    var (g1, k1) := Step(limit, c, g, k, Reserve(p));
    var (g2, k2) := Step(limit, c, g1, k1, CheckExist);
    OneStep(limit, c, g2, k2, Run(ok));
  }

  lemma LastSteps(limit: int, c: ControlId, g: Shared, k: ControlState)
    requires k.phase.Ran?
    ensures var (g', k') := Steps(limit, c, g, k, [AddGlobal, CloseFailed, Unreserve, Store]);
            var p := k.phase.p;
            if p.name in g.pxys then
              && g' == g.(running := g.running - {p})
              && k' == k.(portsUsed := if limit > 0 then k.portsUsed - p.ports else k.portsUsed, phase := Idle)
            else g' == g.(pxys := g.pxys[p.name := p]) && k' == k.(proxies := k.proxies[p.name := p], phase := Idle)
  {
    var all := [AddGlobal, CloseFailed, Unreserve, Store];
    assert all[1..] == [CloseFailed, Unreserve, Store] && [CloseFailed, Unreserve, Store][1..] == [Unreserve, Store];
    assert [Unreserve, Store][1..] == [Store];
    var (g1, k1) := Step(limit, c, g, k, AddGlobal);
    var (g2, k2) := Step(limit, c, g1, k1, CloseFailed);
    var (g3, k3) := Step(limit, c, g2, k2, Unreserve);
    OneStep(limit, c, g3, k3, Store);
  }

  datatype Outcome = Registered | TooManyPorts | AlreadyExists | RunFailed | NameTaken

  /** `proxy.Manager`, with the listeners of the proxies beside it. */
  class Manager {
    var pxys: map<string, Proxy>
    var running: set<Proxy>

    function Value(): Shared
      reads this
    {
      Shared(pxys, running)
    }

    constructor ()
      ensures Value() == Shared(map[], {})
    {
      pxys, running := map[], {};
    }

    method Add(name: string, pxy: Proxy) returns (ok: bool)
      modifies this`pxys
      ensures ok == (name !in old(pxys)) && pxys == if ok then old(pxys)[name := pxy] else old(pxys)
    {
      if name in pxys {
        return false;
      }
      pxys := pxys[name := pxy];
      return true;
    }

    method Exist(name: string) returns (ok: bool)
      ensures ok == (name in pxys)
    {
      ok := name in pxys;
    }

    method Del(name: string)
      modifies this`pxys
      ensures pxys == old(pxys) - {name}
    {
      pxys := pxys - {name};
    }

    method RunProxy(pxy: Proxy, succeeds: bool)
      modifies this`running
      ensures running == if succeeds then old(running) + {pxy} else old(running)
    {
      if succeeds {
        running := running + {pxy};
      }
    }

    method StopProxy(pxy: Proxy)
      modifies this`running
      ensures running == old(running) - {pxy}
    {
      running := running - {pxy};
    }

    /** What the other controls do to the registry. */
    method Others(others: Shared -> Shared)
      modifies this
      ensures Value() == others(old(Value()))
    {
      var g := others(Value());
      pxys, running := g.pxys, g.running;
    }
  }

  class Control {
    const id: ControlId
    const maxPorts: int
    const pm: Manager
    var proxies: map<string, Proxy>
    var portsUsedNum: int

    function Value(): ControlState
      reads this
    {
      ControlState(proxies, portsUsedNum, Idle)
    }

    constructor (id: ControlId, maxPorts: int, pm: Manager)
      ensures this.id == id && this.maxPorts == maxPorts && this.pm == pm && Value() == ControlState(map[], 0, Idle)
    {
      this.id, this.maxPorts, this.pm, proxies, portsUsedNum := id, maxPorts, pm, map[], 0;
    }

    /** `succeeds` tells whether `pxy.Run` does. */
    method RegisterProxy(pxy: Proxy, succeeds: bool, others: Shared -> Shared) returns (outcome: Outcome)
      requires pxy.owner == id
      modifies this, pm
      ensures (pm.Value(), Value()) == Registration(maxPorts, id, old(pm.Value()), old(Value()), pxy, succeeds, others)
      ensures !outcome.Registered? ==> Value() == old(Value())
      ensures outcome.Registered? ==> In(pm.pxys, pxy) && proxies == old(proxies)[pxy.name := pxy]
      ensures outcome.TooManyPorts? <==> maxPorts > 0 && old(portsUsedNum) + pxy.ports > maxPorts
      ensures outcome.AlreadyExists? <==> !outcome.TooManyPorts? && pxy.name in old(pm.pxys)
      ensures outcome.RunFailed? <==> !outcome.TooManyPorts? && !outcome.AlreadyExists? && !succeeds
      ensures !outcome.Registered? && maxPorts > 0 ==> portsUsedNum == old(portsUsedNum)
      ensures outcome.Registered? ==>
        portsUsedNum == old(portsUsedNum) + if maxPorts > 0 then pxy.ports else 0
    {
      RegistrationIsAllOrNothing(maxPorts, id, pm.Value(), Value(), pxy, succeeds, others);
      hide Registration;
      if maxPorts > 0 {
        if portsUsedNum + pxy.ports > maxPorts {
          return TooManyPorts;
        }
        portsUsedNum := portsUsedNum + pxy.ports;
      }
      var exist := pm.Exist(pxy.name);
      if exist {
        Rollback(pxy);
        return AlreadyExists;
      }
      pm.RunProxy(pxy, succeeds);
      if !succeeds {
        Rollback(pxy);
        return RunFailed;
      }
      pm.Others(others);
      var ok := pm.Add(pxy.name, pxy);
      if !ok {
        pm.StopProxy(pxy);
        Rollback(pxy);
        return NameTaken;
      }
      proxies := proxies[pxy.name := pxy];
      return Registered;
    }

    /** The deferred block that gives the reserved ports back. */
    method Rollback(pxy: Proxy)
      modifies this`portsUsedNum
      ensures portsUsedNum == if maxPorts > 0 then old(portsUsedNum) - pxy.ports else old(portsUsedNum)
    {
      if maxPorts > 0 {
        portsUsedNum := portsUsedNum - pxy.ports;
      }
    }

    method CloseProxyObject(pxy: Proxy)
      modifies pm
      ensures pm.Value() == Shared(old(pm.pxys) - {pxy.name}, old(pm.running) - {pxy})
    {
      pm.StopProxy(pxy);
      pm.Del(pxy.name);
    }

    method CloseProxy(name: string)
      requires forall n :: n in proxies ==> proxies[n].name == n
      modifies this, pm
      ensures (pm.Value(), Value()) ==
              Steps(maxPorts, id, old(pm.Value()), old(Value()), [Remove(name), Stop, DelGlobal])
      ensures name !in proxies
      ensures name in old(proxies) ==> name !in pm.pxys && old(proxies)[name] !in pm.running
    {
      CloseSteps(maxPorts, id, pm.Value(), Value(), name);
      hide Steps;
      if name !in proxies {
        return;
      }
      var pxy := proxies[name];
      if maxPorts > 0 {
        portsUsedNum := portsUsedNum - pxy.ports;
      }
      proxies := proxies - {name};
      CloseProxyObject(pxy);
    }

    /** The end of `worker`: every proxy the control still has is closed, in the order of `names`. */
    method TearDown() returns (ghost names: seq<string>)
      requires forall n :: n in proxies ==> proxies[n].name == n
      modifies this, pm
      ensures proxies == map[] && portsUsedNum == old(portsUsedNum)
      ensures PartlyClosed(old(proxies), map[], old(pm.Value()), pm.Value())
      ensures (forall n :: n in names <==> n in old(proxies))
      ensures (pm.Value(), Value().(phase := Dead)) ==
              Steps(maxPorts, id, old(pm.Value()), old(Value()), [Teardown] + Tears(names) + [Finish])
    {
      ghost var g, k := pm.Value(), ControlState(map[], portsUsedNum, TearingDown(proxies, {}));
      ghost var before := Value();
      var left := proxies;
      proxies, names := map[], [];
      hide Steps, Tears, Step, PartlyClosed;
      NothingTorn(maxPorts, id, g, k);
      NothingClosed(before.proxies, g);
      while left != map[]
        invariant forall n :: n in left ==> n in before.proxies && left[n].name == n
        invariant forall n :: n in names <==> n in before.proxies && n !in left
        invariant Steps(maxPorts, id, g, k, Tears(names)) == (pm.Value(), k.(phase := TearingDown(left, {})))
        invariant PartlyClosed(before.proxies, left, g, pm.Value())
        invariant proxies == map[] && portsUsedNum == old(portsUsedNum)
        decreases |left|
      {
        var name :| name in left;
        OneMoreClosed(before.proxies, left, g, pm.Value(), name);
        OneMoreTorn(maxPorts, id, g, k, names, name, pm.Value(), left);
        CloseProxyObject(left[name]);
        left := left - {name};
        names := names + [name];
      }
      AllTorn(maxPorts, id, g, before, names, pm.Value());
    }
  }

  /** Of the proxies in `all`, those no longer in `left` are out of the registry and silent; nothing else changed. */
  ghost predicate PartlyClosed(all: map<string, Proxy>, left: map<string, Proxy>, before: Shared, now: Shared) {
    && (forall n :: n in left ==> n in all && left[n] == all[n])
    && (forall n :: n in now.pxys <==> n in before.pxys && !(n in all && n !in left))
    && (forall n :: n in now.pxys ==> now.pxys[n] == before.pxys[n])
    && (forall p: Proxy :: p in now.running <==> p in before.running && !(In(all, p) && p.name !in left))
  }

  lemma NothingClosed(all: map<string, Proxy>, g: Shared)
    ensures PartlyClosed(all, all, g, g)
  {
  }

  lemma OneMoreClosed(all: map<string, Proxy>, left: map<string, Proxy>, before: Shared, now: Shared, name: string)
    requires PartlyClosed(all, left, before, now) && name in left && (forall n :: n in all ==> all[n].name == n)
    ensures PartlyClosed(all, left - {name}, before, Shared(now.pxys - {left[name].name}, now.running - {left[name]}))
  {
  }

  /** The sections of a teardown. */
  function Tears(names: seq<string>): seq<Action>
    decreases |names|
  {
    if names == [] then []
    else Tears(names[..|names| - 1]) + [TearStop(names[|names| - 1]), TearDel(names[|names| - 1])]
  }

  lemma {:induction false} StepsAppend(limit: int, c: ControlId, g: Shared, k: ControlState, a: seq<Action>,
                                       b: seq<Action>)
    ensures Steps(limit, c, g, k, a + b) ==
            Steps(limit, c, Steps(limit, c, g, k, a).0, Steps(limit, c, g, k, a).1, b)
    decreases |a|
  {
    if a == [] {
      assert a + b == b;
    } else {
      var (g1, k1) := Step(limit, c, g, k, a[0]);
      assert (a + b)[0] == a[0] && (a + b)[1..] == a[1..] + b;
      StepsAppend(limit, c, g1, k1, a[1..], b);
    }
  }

  lemma NothingTorn(limit: int, c: ControlId, g: Shared, k: ControlState)
    ensures Steps(limit, c, g, k, Tears([])) == (g, k)
  {
  }

  lemma OneMoreTorn(limit: int, c: ControlId, g: Shared, k: ControlState, names: seq<string>, name: string,
                    now: Shared, left: map<string, Proxy>)
    requires Steps(limit, c, g, k, Tears(names)) == (now, k.(phase := TearingDown(left, {}))) && name in left
    ensures Steps(limit, c, g, k, Tears(names + [name])) ==
            (Shared(now.pxys - {name}, now.running - {left[name]}), k.(phase := TearingDown(left - {name}, {})))
  {
    var last := [TearStop(name), TearDel(name)];
    assert (names + [name])[..|names|] == names;
    assert Tears(names + [name]) == Tears(names) + last;
    StepsAppend(limit, c, g, k, Tears(names), last);
    hide Tears, Steps;
    TornOne(limit, c, now, k.(phase := TearingDown(left, {})), name);
  }

  lemma TornOne(limit: int, c: ControlId, g: Shared, k: ControlState, name: string)
    requires k.phase.TearingDown? && k.phase.stopped == {} && name in k.phase.rest
    ensures Steps(limit, c, g, k, [TearStop(name), TearDel(name)]) ==
            (Shared(g.pxys - {name}, g.running - {k.phase.rest[name]}),
             k.(phase := TearingDown(k.phase.rest - {name}, {})))
  {
    var (g1, k1) := Step(limit, c, g, k, TearStop(name));
    assert [TearStop(name), TearDel(name)][1..] == [TearDel(name)];
    OneStep(limit, c, g1, k1, TearDel(name));
    assert k1.phase.stopped - {name} == {};
  }

  lemma AllTorn(limit: int, c: ControlId, g: Shared, k: ControlState, names: seq<string>, now: Shared)
    requires k.phase.Idle?
    requires var k1 := ControlState(map[], k.portsUsed, TearingDown(k.proxies, {}));
             Steps(limit, c, g, k1, Tears(names)) == (now, k1.(phase := TearingDown(map[], {})))
    ensures Steps(limit, c, g, k, [Teardown] + Tears(names) + [Finish]) == (now, ControlState(map[], k.portsUsed, Dead))
  {
    var k1 := ControlState(map[], k.portsUsed, TearingDown(k.proxies, {}));
    var k2 := k1.(phase := TearingDown(map[], {}));
    OneStep(limit, c, g, k, Teardown);
    OneStep(limit, c, now, k2, Finish);
    StepsAppend(limit, c, g, k, [Teardown], Tears(names));
    StepsAppend(limit, c, g, k, [Teardown] + Tears(names), [Finish]);
    hide Steps, Tears;
  }

  lemma CloseSteps(limit: int, c: ControlId, g: Shared, k: ControlState, name: string)
    requires k.phase.Idle?
    ensures var (g', k') := Steps(limit, c, g, k, [Remove(name), Stop, DelGlobal]);
            if name !in k.proxies then g' == g && k' == k
            else
              var p := k.proxies[name];
              && g' == Shared(g.pxys - {p.name}, g.running - {p})
              && k' == ControlState(k.proxies - {name}, if limit > 0 then k.portsUsed - p.ports else k.portsUsed, Idle)
  {
    var all := [Remove(name), Stop, DelGlobal];
    assert all[1..] == [Stop, DelGlobal] && [Stop, DelGlobal][1..] == [DelGlobal];
    var (g1, k1) := Step(limit, c, g, k, Remove(name));
    var (g2, k2) := Step(limit, c, g1, k1, Stop);
    OneStep(limit, c, g2, k2, DelGlobal);
  }

  /** A call on the control manager. */
  datatype Call = AddCall(runID: string, c: ControlId) | DelCall(runID: string, c: ControlId)

  function ByRunID(calls: seq<Call>): map<string, ControlId>
    decreases |calls|
  {
    if calls == [] then map[]
    else
      var m, last := ByRunID(calls[..|calls| - 1]), calls[|calls| - 1];
      match last
      case AddCall(runID, c) => m[runID := c]
      case DelCall(runID, c) => if runID in m && m[runID] == c then m - {runID} else m
  }

  /** `c` was added last for the run id and did not delete itself since. */
  ghost predicate Current(calls: seq<Call>, runID: string, c: ControlId) {
    exists i :: 0 <= i < |calls| && calls[i] == AddCall(runID, c) && Undisturbed(calls, i + 1, runID, c)
  }

  predicate Undisturbed(calls: seq<Call>, from: nat, runID: string, c: ControlId) {
    forall j :: from <= j < |calls| ==> calls[j] != DelCall(runID, c) && !(calls[j].AddCall? && calls[j].runID == runID)
  }

  /** A control that is gone never removes the control that replaced it. */
  lemma {:induction false} LatestControlStays(calls: seq<Call>, runID: string, c: ControlId)
    ensures runID in ByRunID(calls) && ByRunID(calls)[runID] == c <==> Current(calls, runID, c)
    decreases |calls|
  {
    if calls != [] {
      var init, last := calls[..|calls| - 1], calls[|calls| - 1];
      LatestControlStays(init, runID, c);
      if Current(init, runID, c) && last != DelCall(runID, c) && !(last.AddCall? && last.runID == runID) {
        var i :| 0 <= i < |init| && init[i] == AddCall(runID, c) && Undisturbed(init, i + 1, runID, c);
        assert calls[i] == AddCall(runID, c) && Undisturbed(calls, i + 1, runID, c);
      }
      if last == AddCall(runID, c) {
        assert Undisturbed(calls, |calls|, runID, c);
      }
      if Current(calls, runID, c) {
        var i :| 0 <= i < |calls| && calls[i] == AddCall(runID, c) && Undisturbed(calls, i + 1, runID, c);
        assert i < |init| ==> init[i] == AddCall(runID, c) && Undisturbed(init, i + 1, runID, c);
      }
    }
  }

  /** The controls whose connection was closed because another took their run id, in order. */
  function Replaced(calls: seq<Call>): seq<ControlId>
    decreases |calls|
  {
    if calls == [] then []
    else
      var m, last := ByRunID(calls[..|calls| - 1]), calls[|calls| - 1];
      Replaced(calls[..|calls| - 1]) + if last.AddCall? && last.runID in m then [m[last.runID]] else []
  }

  /** Every control that logged in is the current one of its run id, was closed as replaced, or deleted itself. */
  lemma {:induction false} EveryControlIsAccounted(calls: seq<Call>, runID: string, c: ControlId)
    requires AddCall(runID, c) in calls
    ensures || (runID in ByRunID(calls) && ByRunID(calls)[runID] == c)
            || c in Replaced(calls) || DelCall(runID, c) in calls
    decreases |calls|
  {
    var init, last := calls[..|calls| - 1], calls[|calls| - 1];
    assert calls == init + [last];
    if last != AddCall(runID, c) {
      EveryControlIsAccounted(init, runID, c);
    }
  }

  class ControlManager {
    var ctlsByRunID: map<string, ControlId>
    var closed: seq<ControlId>
    ghost var calls: seq<Call>

    ghost predicate Valid()
      reads this
    {
      ctlsByRunID == ByRunID(calls) && closed == Replaced(calls)
    }

    constructor ()
      ensures Valid() && calls == []
    {
      ctlsByRunID, closed, calls := map[], [], [];
    }

    /** `replaced` is the control that had the run id before; its connection is closed. */
    method Add(runID: string, ctl: ControlId) returns (found: bool, replaced: ControlId)
      requires Valid()
      modifies this
      ensures Valid() && calls == old(calls) + [AddCall(runID, ctl)]
      ensures found <==> runID in old(ctlsByRunID)
      ensures found ==> replaced == old(ctlsByRunID)[runID]
      ensures closed == old(closed) + if found then [replaced] else []
    {
      found := runID in ctlsByRunID;
      replaced := 0;
      if found {
        replaced := ctlsByRunID[runID];
        closed := closed + [replaced];
      }
      ctlsByRunID := ctlsByRunID[runID := ctl];
      calls := calls + [AddCall(runID, ctl)];
    }

    method Del(runID: string, ctl: ControlId)
      requires Valid()
      modifies this
      ensures Valid() && calls == old(calls) + [DelCall(runID, ctl)] && closed == old(closed)
      ensures runID in ctlsByRunID <==> runID in old(ctlsByRunID) && old(ctlsByRunID)[runID] != ctl
      ensures ctlsByRunID - {runID} == old(ctlsByRunID) - {runID}
    {
      if runID in ctlsByRunID && ctlsByRunID[runID] == ctl {
        ctlsByRunID := ctlsByRunID - {runID};
      }
      calls := calls + [DelCall(runID, ctl)];
    }
  }
}
