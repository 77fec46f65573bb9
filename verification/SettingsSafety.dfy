/** What every event keeps in the settings dialog and in the library under it. */
module SettingsSafety {
  import opened Options
  import opened ServiceCalls
  import opened ServiceCallSafety
  import opened SettingsProtocol
  import Runs = ServiceCallRuns

  lemma AcceptedCounts(l: Lib, n: Lib, id: nat, kind: Kind, m: Path, a: nat)
    requires Accepted(l, n, id, kind, m) && a in l.records
    ensures |n.records.Keys| == |l.records.Keys| + 1
    ensures a in n.records && n.records[a] == l.records[a]
    ensures IsGet(kind) ==> SvcOk(n, id, {a})
  {
    assert n.records.Keys == l.records.Keys + {Next(l)};
  }

  lemma SvcIsGet(l: Lib, a: nat, id: nat)
    requires a in l.records && !IsGet(l.records[a].kind) && SvcOk(l, id, {})
    ensures SvcOk(l, id, {a})
  {
  }

  lemma SomeoneWaits(w: World, a: nat)
    requires Entered(w, a)
    ensures a in w.lib.records && w.settings.pending > 0
  {
    hide Inv, SvcOk;
    BusyLive(w.lib, a, {a});
    assert a in w.lib.records.Keys;
  }

  // A call is started from inside the callback of call a
  lemma StartInside(l: Lib, m: Path, a: nat, bus: Bus)
    requires Inv(l, {a}) && a in l.records
    ensures
      var (n, id) := Start(l, m, GetForwarding, bus);
      && Inv(n, {a}) && a in n.records && n.records[a] == l.records[a]
      && |n.records.Keys| == |l.records.Keys| + (if id == 0 then 0 else 1)
      && SvcOk(n, id, {a})
  {
    hide Inv, Start, SvcOk, Accepted, Get;
    StartKeeps(l, m, GetForwarding, bus, {a});
    var (n, id) := Start(l, m, GetForwarding, bus);
    if id == 0 {
      NoCall(n, {a});
    } else {
      AcceptedCounts(l, n, id, GetForwarding, m, a);
    }
  }

  lemma WaitingUnfolds(w: World, m: Path, r: Reply, bus: Bus)
    requires w.settings.pending > 0
    ensures
      var n := WaitingCallback(w, m, r, bus);
      && n.setClirs == w.setClirs
      && if r == Failed(true) then
           n.lib == w.lib && n.settings.svcCallId == 0 && n.settings.pending == w.settings.pending - 1
         else
           && (n.lib, n.settings.svcCallId) == Start(w.lib, m, GetForwarding, bus)
           && n.settings.pending == w.settings.pending - (if n.settings.svcCallId == 0 then 1 else 0)
  {
    hide Start;
  }

  // The next request takes over the place of the one that is done
  lemma WaitingKeeps(w: World, a: nat, m: Path, r: Reply, bus: Bus)
    requires Entered(w, a) && a in w.lib.records
    ensures
      var n := WaitingCallback(w, m, r, bus);
      Left(n, a) && a in n.lib.records && n.lib.records[a] == w.lib.records[a]
  {
    SomeoneWaits(w, a);
    hide Inv, Start, SvcOk, Table, WaitingCallback;
    NoCall(w.lib, {a});
    WaitingUnfolds(w, m, r, bus);
    if r != Failed(true) {
      StartInside(w.lib, m, a, bus);
    }
  }

  lemma NoCall(l: Lib, done: set<nat>)
    ensures SvcOk(l, 0, done)
  {
  }

  /** Inside the callback of a call the client gives up its own place in `pending`, or
      hands it to the request it starts there; the call it would cancel is another one. */
  lemma CallbackKeeps(w: World, a: nat, r: Reply, bus: Bus)
    requires Entered(w, a)
    ensures a in w.lib.records
    ensures var c := w.lib.records[a];
      var n := Callback(w, c, r, bus);
      && Left(n, a) && a in n.lib.records && n.lib.records[a] == c
  {
    SomeoneWaits(w, a);
    hide Inv, WaitingCallback, SvcOk;
    var c := w.lib.records[a];
    NoCall(w.lib, {a});
    match c.kind
    case GetWaiting => WaitingKeeps(w, a, c.modem, r, bus);
    case GetForwarding =>
    case GetClir => SvcIsGet(w.lib, a, w.settings.svcCallId);
    case SetWaiting(_) => SvcIsGet(w.lib, a, w.settings.svcCallId);
  }

  // Its place in the table is given up as well
  lemma FinishCounts(w: World, a: nat)
    requires Left(w, a)
    ensures a in w.lib.records
    ensures WorldInv(w.(lib := Finish(w.lib, w.lib.records[a].id)))
  {
    hide Inv, Finish;
    BusyLive(w.lib, a, {a});
    var n := Finish(w.lib, w.lib.records[a].id);
    FinishKeeps(w.lib, a, {a});
    assert {a} - {a} == {};
    assert n.records.Keys == w.lib.records.Keys - {a};
    var id := w.settings.svcCallId;
    if id != 0 {
      var b := Table(w.lib)[id];
      LiveId(w.lib, id, {a});
      StillThere(n, b);
    }
  }

  lemma StillThere(n: Lib, b: nat)
    requires Inv(n, {}) && b in n.records
    ensures n.records[b].id in Table(n) && Table(n)[n.records[b].id] == b
  {
    hide ModemsOk, PlacesOk, SubmittedOk, DeliveredOk;
    LiveEntry(n, b);
  }

  lemma LiveId(l: Lib, id: nat, busy: set<nat>)
    requires Inv(l, busy) && id in Table(l)
    ensures Table(l)[id] in l.records && l.records[Table(l)[id]].id == id
  {
  }

  // ------------------------------------------------------- new requests

  lemma SvcKept(l: Lib, n: Lib, id: nat)
    requires Inv(l, {}) && Inv(n, {}) && SvcOk(l, id, {})
    requires forall a :: a in l.records ==> a in n.records && n.records[a] == l.records[a]
    ensures SvcOk(n, id, {})
  {
    if id != 0 {
      var b := Table(l)[id];
      LiveId(l, id, {});
      hide Inv;
      StillThere(n, b);
    }
  }

  // A request from outside any callback
  lemma StartOutside(l: Lib, m: Path, kind: Kind, bus: Bus, svc: nat)
    requires Inv(l, {}) && kind != GetClir && SvcOk(l, svc, {})
    ensures
      var (n, id) := Start(l, m, kind, bus);
      && Inv(n, {}) && SvcOk(n, svc, {}) && (IsGet(kind) ==> SvcOk(n, id, {}))
      && |n.records.Keys| == |l.records.Keys| + (if id == 0 then 0 else 1)
  {
    hide Inv, Start, SvcOk, Get;
    StartKeeps(l, m, kind, bus, {});
    var (n, id) := Start(l, m, kind, bus);
    SvcKept(l, n, svc);
    if id == 0 {
      NoCall(n, {});
    } else {
      AcceptedSvc(l, n, id, kind, m);
    }
  }

  lemma AcceptedSvc(l: Lib, n: Lib, id: nat, kind: Kind, m: Path)
    requires Accepted(l, n, id, kind, m)
    ensures |n.records.Keys| == |l.records.Keys| + 1
    ensures IsGet(kind) ==> SvcOk(n, id, {})
  {
    assert n.records.Keys == l.records.Keys + {Next(l)};
  }

  lemma StartClirOutside(l: Lib, manager: bool, bus: Bus, svc: nat)
    requires Inv(l, {}) && SvcOk(l, svc, {})
    ensures
      var (n, ok) := StartClir(l, manager, bus);
      && Inv(n, {}) && SvcOk(n, svc, {})
      && |n.records.Keys| == |l.records.Keys| + (if ok then 1 else 0)
  {
    hide Inv, StartClir, SvcOk, Get;
    StartClirKeeps(l, manager, bus, {});
    var (n, ok) := StartClir(l, manager, bus);
    SvcKept(l, n, svc);
    if ok {
      AcceptedSvc(l, n, n.counter, GetClir, "");
    }
  }

  lemma ShowKeeps(w: World, m: Path, manager: bool, clirBus: Bus, bus: Bus)
    requires WorldInv(w)
    ensures WorldInv(ShowCalls(w, m, manager, clirBus, bus))
  {
    hide Inv, Start, StartClir, SvcOk;
    StartClirOutside(w.lib, manager, clirBus, w.settings.svcCallId);
    var (l1, ok) := StartClir(w.lib, manager, clirBus);
    StartOutside(l1, m, GetWaiting, bus, w.settings.svcCallId);
  }

  lemma ApplyKeeps(w: World, m: Path, enabled: bool, bus: Bus)
    requires WorldInv(w)
    ensures WorldInv(Apply(w, m, enabled, bus))
  {
    hide Inv, Start, SvcOk;
    StartOutside(w.lib, m, SetWaiting(enabled), bus, w.settings.svcCallId);
  }

  // -------------------------------------------------- answers and cancelling

  // Entering a callback changes no record
  lemma EnteredFrom(w: World, l: Lib, a: nat)
    requires WorldInv(w) && Inv(l, {a})
    requires l.records == w.lib.records && Table(l) == Table(w.lib)
    ensures Entered(w.(lib := l), a)
  {
    hide Inv;
  }

  lemma RepliedKeeps(w: World, a: nat, r: Reply, bus: Bus)
    requires WorldInv(w) && a in w.lib.inFlight
    ensures a in w.lib.records && a < |w.lib.delivered| && WorldInv(CompleteCall(w, a, r, bus))
  {
    AnswerKeeps(w.lib, a, {});
    hide WorldInv, Inv, Callback, Entered, Left, Finish;
    var e := w.(lib := Answer(w.lib, a));
    assert {} + {a} == {a};
    WorldHasInv(w);
    EnteredFrom(w, e.lib, a);
    CallbackKeeps(e, a, r, bus);
    FinishCounts(Callback(e, w.lib.records[a], r, bus), a);
  }

  lemma WorldHasInv(w: World)
    requires WorldInv(w)
    ensures Inv(w.lib, {})
  {
  }

  lemma CancelUnfolds(l: Lib, id: nat, bus: Bus)
    requires l.initialized && l.table.Some? && id in Table(l) && id != 0
    requires Table(l)[id] in l.records && Table(l)[id] < |l.delivered| && l.records[Table(l)[id]].kind != GetClir
    ensures
      var a := Table(l)[id];
      && ServiceCalls.Cancel(l, id, bus)
         == (if a in l.cancellables then (CancelAtBus(l, a), None) else (Called(Unpark(l, a), a), Some(a)))
      && (forall n :: n == CancelAtBus(l, a) || n == Called(Unpark(l, a), a) ==>
            n.records == l.records && Table(n) == Table(l) && n.inFlight == l.inFlight)
  {
  }

  // Cancelling the call the dialog knows calls back exactly if it was parked
  lemma CancelOutcome(l: Lib, id: nat, bus: Bus)
    requires Inv(l, {}) && id in Table(l)
    ensures Table(l)[id] in l.records && Table(l)[id] < |l.delivered|
    ensures l.records[Table(l)[id]].kind != GetClir ==>
      var a := Table(l)[id];
      var (n, called) := ServiceCalls.Cancel(l, id, bus);
      && n.records == l.records && Table(n) == Table(l)
      && called == (if IsParked(l.modems, l.records[a], a) then Some(a) else None)
      && Inv(n, if called.Some? then {a} else {})
      && (called == None ==> n == CancelAtBus(l, a) && a in n.inFlight)
  {
    hide Inv, ServiceCalls.Cancel, IsParked, Unpark, Called, CancelAtBus;
    Runs.LiveIds(l, {}, id);
    var a := Table(l)[id];
    if l.records[a].kind != GetClir {
      SubmittedOrParked(l, a);
      HasTable(l, a);
      CancelUnfolds(l, id, bus);
      if a in l.cancellables {
        Runs.CancelAtBusKeeps(l, a, {});
      } else {
        UnparkKeeps(l, a, {});
        assert {} + {a} == {a};
      }
    }
  }

  lemma HasTable(l: Lib, a: nat)
    requires Inv(l, {}) && a in l.records
    ensures l.table.Some?
  {
    LiveEntry(l, a);
  }

  lemma SubmittedOrParked(l: Lib, a: nat)
    requires Inv(l, {}) && a in l.records && l.records[a].kind != GetClir
    ensures IsParked(l.modems, l.records[a], a) <==> a !in l.cancellables
    ensures a in l.cancellables <==> a in l.inFlight
  {
    hide TableOk, DeliveredOk, ModemsOk;
  }

  lemma CancelKeeps(w: World, bus: Bus)
    requires WorldInv(w)
    ensures Defined(w, Event.Cancel(bus)) && WorldInv(CancelCall(w, bus))
  {
    hide WorldInv, Inv, Callback, Finish, ServiceCalls.Cancel, Destroy, IsParked, CancelAtBus, Table, IsGet;
    var id := w.settings.svcCallId;
    IdIsLive(w, id);
    WorldHasInv(w);
    if id != 0 {
      SvcLive(w);
      var a := Table(w.lib)[id];
      CancelOutcome(w.lib, id, bus);
      var (l, called) := ServiceCalls.Cancel(w.lib, id, bus);
      if called.Some? {
        CancelledKeeps(w, l, a, bus);
      } else {
        SameCallsKeep(w, l);
      }
    }
  }

  lemma SvcLive(w: World)
    requires WorldInv(w) && w.settings.svcCallId != 0
    ensures
      var id := w.settings.svcCallId;
      id in Table(w.lib) && Table(w.lib)[id] in w.lib.records
      && IsGet(w.lib.records[Table(w.lib)[id]].kind) && w.lib.records[Table(w.lib)[id]].kind != GetClir
  {
  }

  lemma SameCallsKeep(w: World, l: Lib)
    requires WorldInv(w) && Inv(l, {}) && l.records == w.lib.records && Table(l) == Table(w.lib)
    ensures WorldInv(w.(lib := l))
  {
    hide Inv;
  }

  lemma IdIsLive(w: World, id: nat)
    requires WorldInv(w)
    ensures id in Table(w.lib) ==> Table(w.lib)[id] in w.lib.records && Table(w.lib)[id] < |w.lib.delivered|
  {
    hide SvcOk, Outstanding;
    Runs.LiveIds(w.lib, {}, id);
  }

  // The callback of a parked call, its removal, and giving the context back
  lemma CancelledKeeps(w: World, l: Lib, a: nat, bus: Bus)
    requires WorldInv(w) && Inv(l, {a})
    requires l.records == w.lib.records && Table(l) == Table(w.lib) && a in l.records
    ensures
      var c := l.records[a];
      var n := Callback(w.(lib := l), c, Failed(true), bus);
      WorldInv(n.(lib := Destroy(Finish(n.lib, c.id))))
  {
    hide WorldInv, Inv, Callback, Entered, Left, Finish, Destroy;
    EnteredFrom(w, l, a);
    CallbackKeeps(w.(lib := l), a, Failed(true), bus);
    var n := Callback(w.(lib := l), l.records[a], Failed(true), bus);
    FinishCounts(n, a);
    DestroyWorld(n.(lib := Finish(n.lib, l.records[a].id)));
  }

  lemma DestroyWorld(w: World)
    requires WorldInv(w)
    ensures WorldInv(w.(lib := Destroy(w.lib)))
  {
    hide Inv, Destroy;
    DestroyKeeps(w.lib, {});
  }

  // ------------------------------------------------------- everything else

  lemma ElsewhereSameCalls(l: Lib, e: Runs.Event)
    requires IsElsewhere(e) && Runs.Defined(Runs.System(l, {}), e)
    ensures
      var s := Runs.Step(Runs.System(l, {}), e);
      s.lib.records == l.records && Table(s.lib) == Table(l) && s.busy == {}
  {
    hide ParkedAt, Flush, SupsOf;
    if e.Proxied? {
      ProxySameCalls(l, e.m, e.created);
    }
    hide ProxyAppears;
  }

  lemma ProxySameCalls(l: Lib, m: Path, created: bool)
    requires m in l.modems
    ensures var n := ProxyAppears(l, m, created); n.records == l.records && n.table == l.table
  {
    hide ParkedAt;
  }

  lemma ElsewhereKeeps(w: World, e: Runs.Event)
    requires IsElsewhere(e) && Runs.Enabled(Runs.System(w.lib, {}), e) && WorldInv(w)
    ensures Runs.Defined(Runs.System(w.lib, {}), e)
    ensures WorldInv(w.(lib := Runs.Step(Runs.System(w.lib, {}), e).lib))
  {
    hide Inv, Runs.Step, Runs.Enabled, Runs.Defined, IsElsewhere, SvcOk, Table;
    Runs.StepKeeps(Runs.System(w.lib, {}), e);
    ElsewhereSameCalls(w.lib, e);
    SameCallsKeep(w, Runs.Step(Runs.System(w.lib, {}), e).lib);
  }

  /** Whatever can happen next touches no freed record and keeps the invariant: `pending`
      is the number of requests whose last callback has not run. */
  lemma StepKeeps(w: World, e: Event)
    requires WorldInv(w) && Enabled(w, e)
    ensures Defined(w, e) && WorldInv(Step(w, e))
  {
    match e
    case Show(m, manager, clirBus, bus) => ShowKeeps(w, m, manager, clirBus, bus);
    case ApplyWaiting(m, enabled, bus) => ApplyKeeps(w, m, enabled, bus);
    case Cancel(bus) => CancelKeeps(w, bus);
    case Replied(a, reply, bus) => RepliedKeeps(w, a, reply, bus);
    case Elsewhere(e) => ElsewhereKeeps(w, e);
    case _ => hide Inv, SvcOk;
  }
}
