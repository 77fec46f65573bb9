/** Runs of the library under any clients. A client may start and cancel calls at any
    time, also from inside a callback; `busy` is the set of calls whose callbacks are
    running. */
module ServiceCallRuns {
  import opened Options
  import opened ServiceCalls
  import opened ServiceCallSafety

  datatype Event =
    | Started(m: Path, kind: Kind, bus: Bus)
    | StartedClir(manager: bool, bus: Bus)
    | Answered(a: nat)
    | Returned(a: nat)
    | Cancelled(id: nat, bus: Bus)
    | Proxied(m: Path, created: bool)
    | AddedModem(m: Path, i: Interface)
    | RemovedModem(m: Path)
    | RemovedSups(m: Path)
    | Used(bus: Bus, registered: bool)

  datatype System = System(lib: Lib, busy: set<nat>)

  /** What a caller can cancel: an id that is not live or already at the bus, or a parked
      call, unless that call's own callback is running; never a caller-identity request. */
  predicate MayCancel(l: Lib, busy: set<nat>, id: nat) {
    id in Table(l) ==>
      var a := Table(l)[id];
      a in l.cancellables || (a in l.records && l.records[a].kind != GetClir && a !in busy)
  }

  // No call of this modem is outstanding
  ghost predicate Quiet(l: Lib, m: Path) {
    forall a :: a in l.records && l.records[a].kind != GetClir ==> l.records[a].modem != m
  }

  // What can happen next
  ghost predicate Enabled(s: System, e: Event) {
    var l := s.lib;
    match e
    case Started(_, kind, _) => kind != GetClir
    case StartedClir(_, _) => true
    case Answered(a) => a in l.inFlight
    case Returned(a) => a in s.busy
    case Cancelled(id, _) => MayCancel(l, s.busy, id)
    case Proxied(m, _) => l.initialized && m in l.modems && (l.modems[m].Some? ==> !l.modems[m].value.proxy)
    case AddedModem(m, _) => l.initialized && m !in l.modems
    case RemovedModem(m) => Quiet(l, m)
    case RemovedSups(m) => Quiet(l, m)
    case Used(_, _) => true
  }

  // The records it touches have not been freed, and the context is there
  predicate Defined(s: System, e: Event) {
    var l := s.lib;
    match e
    case Answered(a) => a in l.records && a < |l.delivered|
    case Returned(a) => a in l.records && l.initialized
    case Cancelled(id, _) => id in Table(l) ==> Table(l)[id] in l.records && Table(l)[id] < |l.delivered|
    case Proxied(m, _) => m in l.modems
    case _ => true
  }

  function Step(s: System, e: Event): System
    requires Defined(s, e)
  {
    var l := s.lib;
    match e
    case Started(m, kind, bus) => s.(lib := Start(l, m, kind, bus).0)
    case StartedClir(manager, bus) => s.(lib := StartClir(l, manager, bus).0)
    case Answered(a) => System(Answer(l, a), s.busy + {a})
    case Returned(a) => System(Finish(l, l.records[a].id), s.busy - {a})
    case Cancelled(id, bus) => AfterCancel(s.busy, Cancel(l, id, bus))
    case Proxied(m, created) => s.(lib := ProxyAppears(l, m, created))
    case AddedModem(m, i) => s.(lib := ModemAdded(l, m, i))
    case RemovedModem(m) => s.(lib := ModemRemoved(l, m))
    case RemovedSups(m) => s.(lib := SupsRemoved(l, m))
    case Used(bus, registered) => s.(lib := Use(l, bus, registered))
  }

  function AfterCancel(busy: set<nat>, r: (Lib, Option<nat>)): System {
    System(r.0, if r.1.Some? then busy + {r.1.value} else busy)
  }

  lemma LiveIds(l: Lib, busy: set<nat>, id: nat)
    requires Inv(l, busy)
    ensures id in Table(l) ==>
      && Table(l)[id] in l.records && Table(l)[id] < |l.delivered|
      && l.records[Table(l)[id]].id == id && id != 0 && l.initialized
  {
    hide ModemsOk, PlacesOk, SubmittedOk;
  }

  lemma CancelAtBusKeeps(l: Lib, a: nat, busy: set<nat>)
    requires Inv(l, busy) && a in l.cancellables
    ensures Inv(CancelAtBus(l, a), busy) && a in l.records
  {
    hide TableOk, ModemsOk, PlacesOk, DeliveredOk, Command;
  }

  lemma UnsubmittedIsParked(l: Lib, a: nat, busy: set<nat>)
    requires Inv(l, busy) && a in l.records && a !in busy && a !in l.cancellables
    ensures l.records[a].kind != GetClir ==> IsParked(l.modems, l.records[a], a)
    ensures l.records[a].kind == GetClir ==> a in l.inFlight
  {
    hide TableOk, DeliveredOk, Command;
  }

  /** Cancelling is safe exactly then. Otherwise the callback of a cancelled call runs a
      second time, or a record is freed that the bus or a callback still uses. */
  lemma CancelSafeIff(l: Lib, id: nat, bus: Bus, busy: set<nat>)
    requires Inv(l, busy)
    ensures id in Table(l) ==> Table(l)[id] in l.records && Table(l)[id] < |l.delivered|
    ensures
      var n := AfterCancel(busy, Cancel(l, id, bus));
      Inv(n.lib, n.busy) <==> MayCancel(l, busy, id)
  {
    LiveIds(l, busy, id);
    GetKeeps(l, bus, busy);
    if id in Table(l) {
      var a := Table(l)[id];
      if a in l.cancellables {
        CancelAtBusKeeps(l, a, busy);
        DestroyKeeps(CancelAtBus(l, a), busy);
      } else if l.records[a].kind != GetClir {
        if a in busy {
          CalledTwice(l, a, busy);
        } else {
          UnsubmittedIsParked(l, a, busy);
          UnparkKeeps(l, a, busy);
        }
      } else {
        FreedInUse(l, a, busy);
      }
    } else if Get(l, bus).Some? {
      DestroyKeeps(Get(l, bus).value, busy);
    }
  }

  lemma CalledTwice(l: Lib, a: nat, busy: set<nat>)
    requires Inv(l, busy) && a in busy
    ensures a in l.records && a < |l.delivered| && !Inv(Called(Unpark(l, a), a), busy + {a})
  {
    assert Called(Unpark(l, a), a).delivered[a] == 2;
  }

  lemma FreedInUse(l: Lib, a: nat, busy: set<nat>)
    requires Inv(l, busy) && a in l.records && l.records[a].kind == GetClir && a !in l.cancellables
    ensures !Inv(Destroy(Remove(l, l.records[a].id)), busy)
  {
    LiveEntry(l, a);
    if a !in busy {
      UnsubmittedIsParked(l, a, busy);
    }
    var n := Destroy(Remove(l, l.records[a].id));
    assert a !in n.records;
    assert !SubmittedOk(n.records, n.cancellables, n.inFlight, busy);
  }

  // ----------------------------------------------- modems come and go

  lemma AddedModemParked(l: Lib, m: Path, i: Interface)
    requires m !in l.modems
    ensures forall k :: ParkedAt(ModemAdded(l, m, i).modems, k) == ParkedAt(l.modems, k)
  {
  }

  lemma AddedModemProxied(l: Lib, m: Path, i: Interface)
    requires m !in l.modems
    ensures forall k :: HasProxy(l.modems, k) ==> HasProxy(ModemAdded(l, m, i).modems, k)
  {
  }

  lemma AddedModemKeeps(l: Lib, m: Path, i: Interface, busy: set<nat>)
    requires Inv(l, busy) && l.initialized && m !in l.modems
    ensures Inv(ModemAdded(l, m, i), busy)
  {
    AddedModemParked(l, m, i);
    AddedModemProxied(l, m, i);
    var n := ModemAdded(l, m, i);
    hide TableOk, DeliveredOk, SubmittedOk, PlacesOk, ParkedAt, ProxiedOk, HasProxy;
    ProxiedKept(l.modems, n.modems, l.records, l.inFlight.Keys, l.inFlight.Keys);
    SameParkedKeeps(l, ModemAdded(l, m, i).modems, busy);
  }

  lemma QuietParksNothing(l: Lib, m: Path)
    requires ModemsOk(l.modems, l.records) && Quiet(l, m)
    ensures ParkedAt(l.modems, m) == map[]
  {
    assert forall id :: id !in ParkedAt(l.modems, m);
  }

  lemma RemovedParked(l: Lib, m: Path)
    requires ParkedAt(l.modems, m) == map[]
    ensures forall k :: ParkedAt(ModemRemoved(l, m).modems, k) == ParkedAt(l.modems, k)
    ensures forall k :: ParkedAt(SupsRemoved(l, m).modems, k) == ParkedAt(l.modems, k)
  {
  }

  lemma RemovedHomes(l: Lib, m: Path, busy: set<nat>)
    requires Inv(l, busy) && Quiet(l, m)
    ensures ProxiesOk(ModemRemoved(l, m).modems) && Homes(ModemRemoved(l, m).modems, l.records)
    ensures ProxiesOk(SupsRemoved(l, m).modems) && Homes(SupsRemoved(l, m).modems, l.records)
    ensures ParkedAt(l.modems, m) == map[] && (!l.initialized ==> l.modems == map[])
  {
    hide TableOk, DeliveredOk, SubmittedOk, PlacesOk, ProxiedOk;
    QuietParksNothing(l, m);
    hide ParkedAt;
  }

  lemma RemovedProxied(l: Lib, m: Path)
    requires ProxiedOk(l.modems, l.records, l.inFlight.Keys) && Quiet(l, m)
    ensures ProxiedOk(ModemRemoved(l, m).modems, l.records, l.inFlight.Keys)
    ensures ProxiedOk(SupsRemoved(l, m).modems, l.records, l.inFlight.Keys)
  {
    assert forall k :: k != m && HasProxy(l.modems, k) ==>
      HasProxy(ModemRemoved(l, m).modems, k) && HasProxy(SupsRemoved(l, m).modems, k);
    hide HasProxy;
  }

  lemma RemovalKeeps(l: Lib, m: Path, busy: set<nat>)
    requires Inv(l, busy) && Quiet(l, m)
    ensures Inv(ModemRemoved(l, m), busy) && Inv(SupsRemoved(l, m), busy)
  {
    RemovedHomes(l, m, busy);
    RemovedProxied(l, m);
    hide Inv, ParkedAt, ProxiesOk, ProxiedOk, Homes, Quiet;
    RemovedParked(l, m);
    SameParkedKeeps(l, ModemRemoved(l, m).modems, busy);
    SameParkedKeeps(l, SupsRemoved(l, m).modems, busy);
  }

  /** Removing a modem's data is safe exactly when none of its calls is outstanding. */
  lemma RemovalSafeIff(l: Lib, m: Path, busy: set<nat>)
    requires Inv(l, busy)
    ensures Inv(ModemRemoved(l, m), busy) <==> Quiet(l, m)
    ensures Inv(SupsRemoved(l, m), busy) <==> Quiet(l, m)
  {
    if Quiet(l, m) {
      RemovalKeeps(l, m, busy);
    } else {
      assert !ModemsOk(ModemRemoved(l, m).modems, l.records);
      assert !ModemsOk(SupsRemoved(l, m).modems, l.records);
    }
  }

  lemma UseKeeps(l: Lib, bus: Bus, registered: bool, busy: set<nat>)
    requires Inv(l, busy)
    ensures Inv(Use(l, bus, registered), busy)
  {
    GetKeeps(l, bus, busy);
    if Get(l, bus).Some? {
      hide TableOk, ModemsOk, PlacesOk, SubmittedOk, DeliveredOk;
      DestroyKeeps(Get(l, bus).value.(registered := registered), busy);
    }
  }

  /** What happens elsewhere: modems and their data come and go as the events say, and
      nothing else changes. */
  lemma ElsewhereEffects(s: System, m: Path, i: Interface)
    ensures
      var n := Step(s, AddedModem(m, i)).lib;
      && m in n.modems && (n.modems[m].Some? <==> i != Missing) && (HasProxy(n.modems, m) <==> i == Ready)
      && ParkedAt(n.modems, m) == map[] && n == s.lib.(modems := s.lib.modems[m := n.modems[m]])
    ensures
      var n := Step(s, RemovedModem(m)).lib;
      && n.modems.Keys == s.lib.modems.Keys - {m} && n == s.lib.(modems := s.lib.modems - {m})
    ensures
      var n := Step(s, RemovedSups(m)).lib;
      && n.modems.Keys == s.lib.modems.Keys && (m in n.modems ==> n.modems[m].None?)
      && forall k :: k in n.modems && k != m ==> n.modems[k] == s.lib.modems[k]
  {
  }

  /** A context that others use stays while they are registered, and goes when neither they
      nor a call needs it. */
  lemma UseEffects(s: System, bus: Bus, registered: bool)
    ensures Get(s.lib, bus).Some? && registered ==>
      var n := Step(s, Used(bus, registered)).lib;
      n.initialized && n.registered && n.records == s.lib.records
    ensures Get(s.lib, bus).Some? && !registered && s.lib.table.None? ==>
      !Step(s, Used(bus, registered)).lib.initialized
  {
  }

  // ------------------------------------------------------------- runs

  /** Whatever can happen next touches no freed record and keeps the invariant. */
  lemma StepKeeps(s: System, e: Event)
    requires Inv(s.lib, s.busy) && Enabled(s, e)
    ensures Defined(s, e) && Inv(Step(s, e).lib, Step(s, e).busy)
  {
    var l, busy := s.lib, s.busy;
    hide Inv, Start, StartClir, Answer, Finish, Cancel, ProxyAppears, ModemAdded, ModemRemoved, SupsRemoved, Use, Quiet;
    match e
    case Started(m, kind, bus) => StartKeeps(l, m, kind, bus, busy);
    case StartedClir(manager, bus) => StartClirKeeps(l, manager, bus, busy);
    case Answered(a) => AnswerKeeps(l, a, busy);
    case Returned(a) => FinishKeeps(l, a, busy); LiveContext(l, a, busy);
    case Cancelled(id, bus) => CancelSafeIff(l, id, bus, busy);
    case Proxied(m, created) => ProxyKeeps(l, m, created, busy);
    case AddedModem(m, i) => AddedModemKeeps(l, m, i, busy);
    case RemovedModem(m) => RemovalSafeIff(l, m, busy);
    case RemovedSups(m) => RemovalSafeIff(l, m, busy);
    case Used(bus, registered) => UseKeeps(l, bus, registered, busy);
  }

  lemma LiveContext(l: Lib, a: nat, busy: set<nat>)
    requires Inv(l, busy) && a in l.records
    ensures l.initialized
  {
    LiveEntry(l, a);
  }

  const START := System(Lib(false, false, map[], None, 0, map[], map[], map[], []), {})

  ghost predicate IsRun(s: System, es: seq<Event>)
    decreases |es|
  {
    es == [] || (Enabled(s, es[0]) && (Defined(s, es[0]) ==> IsRun(Step(s, es[0]), es[1..])))
  }

  // No step of the run touches a freed record
  predicate NeverDangles(s: System, es: seq<Event>)
    decreases |es|
  {
    es == [] || (Defined(s, es[0]) && NeverDangles(Step(s, es[0]), es[1..]))
  }

  function End(s: System, es: seq<Event>): System
    requires NeverDangles(s, es)
    decreases |es|
  {
    if es == [] then s else End(Step(s, es[0]), es[1..])
  }

  lemma {:induction false} RunKeeps(s: System, es: seq<Event>)
    requires Inv(s.lib, s.busy) && IsRun(s, es)
    ensures NeverDangles(s, es) && Inv(End(s, es).lib, End(s, es).busy)
    decreases |es|
  {
    hide Inv, Enabled, Defined, Step;
    if es != [] {
      StepKeeps(s, es[0]);
      RunKeeps(Step(s, es[0]), es[1..]);
    }
  }

  /** Safety of every run from the start, for any clients: no freed record is touched;
      no callback ever runs twice, and it has run exactly once for every accepted call
      that is no longer live; every live call is in the table under its own id, which no
      other has, and in exactly one place; the context is there as long as one lives. */
  lemma LibraryIsSafe(es: seq<Event>)
    requires IsRun(START, es)
    ensures NeverDangles(START, es)
    ensures
      var System(l, busy) := End(START, es);
      && (forall a :: 0 <= a < |l.delivered| ==> l.delivered[a] == if a in l.records && a !in busy then 0 else 1)
      && (forall a :: a in l.records ==>
            && a < |l.delivered| && l.initialized
            && 1 <= l.records[a].id <= l.counter
            && l.records[a].id in Table(l) && Table(l)[l.records[a].id] == a
            && (if a in busy then !IsParked(l.modems, l.records[a], a) && a !in l.inFlight
                else IsParked(l.modems, l.records[a], a) <==> a !in l.inFlight)
            && (a in l.inFlight && l.records[a].kind != GetClir ==> HasProxy(l.modems, l.records[a].modem))
            && (IsParked(l.modems, l.records[a], a) ==> !HasProxy(l.modems, l.records[a].modem)))
      && (forall id :: id in Table(l) ==> Table(l)[id] in l.records && l.records[Table(l)[id]].id == id)
      && (l.records == map[] ==> l.table.None? && l.counter == 0 && l.inFlight == map[])
      && (l.table.Some? ==> l.table.value != map[])
  {
    assert Inv(START.lib, START.busy);
    RunKeeps(START, es);
    hide End, NeverDangles, IsRun;
    Consequences(End(START, es).lib, End(START, es).busy);
  }

  lemma Consequences(l: Lib, busy: set<nat>)
    requires Inv(l, busy)
    ensures forall a :: a in l.records ==> l.initialized && 1 <= l.records[a].id <= l.counter
    ensures l.records == map[] ==> l.table.None? && l.counter == 0 && l.inFlight == map[]
    ensures forall a :: a in l.records && IsParked(l.modems, l.records[a], a) ==> !HasProxy(l.modems, l.records[a].modem)
  {
    forall a | a in l.records && IsParked(l.modems, l.records[a], a)
      ensures !HasProxy(l.modems, l.records[a].modem)
    {
      ParkedCounter(l, l.records[a].modem, busy);
    }
    forall a | a in l.records ensures l.initialized {
      LiveContext(l, a, busy);
    }
    hide ModemsOk, PlacesOk, DeliveredOk;
    if l.table.Some? {
      assert exists id :: id in l.table.value;
    }
  }
}
