/** Runs of the settings dialog over the library: what its counter of pending requests
    means, what an answer ends, and what cancelling reaches. */
module SettingsRuns {
  import opened Options
  import opened ServiceCalls
  import opened ServiceCallSafety
  import opened SettingsProtocol
  import opened SettingsSafety
  import Runs = ServiceCallRuns

  const START := World(Runs.START.lib, Settings(0, 0, 0, false, false), 0)

  ghost predicate IsRun(w: World, es: seq<Event>)
    decreases |es|
  {
    es == [] || (Enabled(w, es[0]) && (Defined(w, es[0]) ==> IsRun(Step(w, es[0]), es[1..])))
  }

  predicate NeverDangles(w: World, es: seq<Event>)
    decreases |es|
  {
    es == [] || (Defined(w, es[0]) && NeverDangles(Step(w, es[0]), es[1..]))
  }

  function End(w: World, es: seq<Event>): World
    requires NeverDangles(w, es)
    decreases |es|
  {
    if es == [] then w else End(Step(w, es[0]), es[1..])
  }

  lemma {:induction false} RunKeeps(w: World, es: seq<Event>)
    requires WorldInv(w) && IsRun(w, es)
    ensures NeverDangles(w, es) && WorldInv(End(w, es))
    decreases |es|
  {
    hide WorldInv, Enabled, Defined, Step;
    if es != [] {
      SettingsSafety.StepKeeps(w, es[0]);
      RunKeeps(Step(w, es[0]), es[1..]);
    }
  }

  /** In every reachable state `pending` is the number of accepted requests whose final
      callback has not run: it never falls below zero, and at zero nothing is parked, in
      flight or cancellable. */
  lemma PendingIsConserved(es: seq<Event>)
    requires IsRun(START, es)
    ensures NeverDangles(START, es)
    ensures
      var w := End(START, es);
      && w.settings.pending == |w.lib.records.Keys| + w.setClirs
      && Inv(w.lib, {})
      && (w.settings.pending == 0 ==>
            && w.setClirs == 0 && w.lib.records == map[] && w.lib.inFlight == map[]
            && w.lib.table == None && w.lib.counter == 0 && w.settings.svcCallId == 0
            && forall a :: 0 <= a < |w.lib.delivered| ==> w.lib.delivered[a] == 1)
      && (w.settings.svcCallId != 0 ==>
            && w.settings.svcCallId in Table(w.lib) && Table(w.lib)[w.settings.svcCallId] in w.lib.records
            && IsGet(w.lib.records[Table(w.lib)[w.settings.svcCallId]].kind))
  {
    assert Inv(START.lib, {});
    RunKeeps(START, es);
    var w := End(START, es);
    hide End, NeverDangles, IsRun, TableOk, ModemsOk, PlacesOk, SubmittedOk, ContextOk;
    Runs.Consequences(w.lib, {});
    if w.settings.pending == 0 {
      assert w.lib.records.Keys == {};
    }
  }

  // ------------------------------------------------- what an answer ends

  predicate Chains(k: Kind, r: Reply) {
    k == GetWaiting && r != Failed(true)
  }

  // The calls after the callback of c, which may have started one more
  predicate CallsAfter(l: Lib, n: Lib, c: Call, r: Reply, id: nat) {
    if Chains(c.kind, r) then
      n.records == l.records[Next(l) := Call(id, GetForwarding, c.modem)] && n.delivered == l.delivered + [0]
      && Next(l) !in l.records
    else n.records == l.records && n.delivered == l.delivered
  }

  lemma ChainStarts(l: Lib, a: nat, c: Call, bus: Bus)
    requires Inv(l, {a}) && a in l.records && l.records[a] == c && c.kind == GetWaiting
    ensures
      var (n, id) := Start(l, c.modem, GetForwarding, bus);
      && id != 0 && CallsAfter(l, n, c, Value(0), id)
  {
    ModemIsThere(l, a);
    hide Inv, Start;
    GetKeeps(l, bus, {a});
    StartKeeps(l, c.modem, GetForwarding, bus, {a});
  }

  lemma ModemIsThere(l: Lib, a: nat)
    requires Inv(l, {a}) && a in l.records && l.records[a].kind != GetClir
    ensures l.records[a].modem in l.modems
  {
  }

  lemma CallbackOutcome(w: World, a: nat, r: Reply, bus: Bus)
    requires Entered(w, a) && a in w.lib.records
    ensures
      var c := w.lib.records[a];
      var n := Callback(w, c, r, bus);
      && CallsAfter(w.lib, n.lib, c, r, n.settings.svcCallId)
      && n.settings.pending == w.settings.pending - (if Chains(c.kind, r) then 0 else 1)
      && n.setClirs == w.setClirs
      && (Chains(c.kind, r) ==> n.settings.svcCallId != 0)
      && (IsGet(c.kind) && !Chains(c.kind, r) ==> n.settings.svcCallId == 0)
      && (!IsGet(c.kind) ==> n.settings.svcCallId == w.settings.svcCallId)
  {
    SomeoneWaits(w, a);
    hide Inv, SvcOk, CallsAfter, WaitingCallback, ForwardCallback, Table;
    var c := w.lib.records[a];
    if c.kind == GetWaiting {
      WaitingOutcome(w, a, c, r, bus);
    } else {
      NothingNew(w.lib, c, r);
      ForwardOutcome(w, r);
    }
  }

  lemma ForwardOutcome(w: World, r: Reply)
    requires w.settings.pending > 0
    ensures
      var n := ForwardCallback(w, r);
      && n.lib == w.lib && n.setClirs == w.setClirs
      && n.settings.pending == w.settings.pending - 1 && n.settings.svcCallId == 0
  {
  }

  lemma NothingNew(l: Lib, c: Call, r: Reply)
    requires !Chains(c.kind, r)
    ensures forall n, id :: n == l ==> CallsAfter(l, n, c, r, id)
  {
  }

  lemma WaitingOutcome(w: World, a: nat, c: Call, r: Reply, bus: Bus)
    requires Inv(w.lib, {a}) && a in w.lib.records && w.lib.records[a] == c && c.kind == GetWaiting
    ensures
      var n := WaitingCallback(w, c.modem, r, bus);
      && CallsAfter(w.lib, n.lib, c, r, n.settings.svcCallId)
      && n.settings.pending == w.settings.pending - (if Chains(c.kind, r) then 0 else 1)
      && n.setClirs == w.setClirs
      && (n.settings.svcCallId != 0 <==> Chains(c.kind, r))
  {
    hide Inv, Start;
    if r != Failed(true) {
      ChainStarts(w.lib, a, c, bus);
    }
  }

  /** An answer ends its call: the callback has then run exactly once, the record and its
      place in the table are gone, and no other call is touched. A call-waiting answer
      that is not a cancellation always hands its place in `pending` to a call-forwarding
      request at the same modem; any other gives it up. */
  lemma AnswerEndsCall(w: World, a: nat, r: Reply, bus: Bus)
    requires WorldInv(w) && a in w.lib.inFlight
    ensures a in w.lib.records && a < |w.lib.delivered|
    ensures
      var c := w.lib.records[a];
      var n := CompleteCall(w, a, r, bus);
      && n.lib.delivered == w.lib.delivered[a := 1] + (if Chains(c.kind, r) then [0] else [])
      && n.lib.records == (if Chains(c.kind, r)
           then (w.lib.records - {a})[Next(w.lib) := Call(n.settings.svcCallId, GetForwarding, c.modem)]
           else w.lib.records - {a})
      && n.settings.pending == w.settings.pending - (if Chains(c.kind, r) then 0 else 1)
      && n.setClirs == w.setClirs && Next(w.lib) !in w.lib.records
      && (IsGet(c.kind) && !Chains(c.kind, r) ==> n.settings.svcCallId == 0)
      && (!IsGet(c.kind) ==> n.settings.svcCallId == w.settings.svcCallId)
  {
    hide WorldInv, Inv, Callback, Entered, Left, Finish;
    WorldHasInv(w);
    AnswerKeeps(w.lib, a, {});
    NotYetCalled(w.lib, a);
    var c := w.lib.records[a];
    var e := w.(lib := Answer(w.lib, a));
    assert {} + {a} == {a};
    EnteredFrom(w, e.lib, a);
    CallbackKeeps(e, a, r, bus);
    CallbackOutcome(e, a, r, bus);
    LeftHasInv(Callback(e, c, r, bus), a);
    FinishKeeps(Callback(e, c, r, bus).lib, a, {a});
    assert e.lib.delivered == w.lib.delivered[a := 1];
  }

  lemma LeftHasInv(w: World, a: nat)
    requires Left(w, a)
    ensures Inv(w.lib, {a})
  {
  }

  lemma NotYetCalled(l: Lib, a: nat)
    requires Inv(l, {}) && a in l.records
    ensures a < |l.delivered| && l.delivered[a] == 0 && Next(l) !in l.records
  {
  }

  /** Cancelling ends a parked call at once, in the same way; a call in flight is only
      marked, and ends with its answer. */
  lemma CancelEndsOrMarks(w: World, bus: Bus)
    requires WorldInv(w) && w.settings.svcCallId != 0
    ensures Defined(w, Event.Cancel(bus))
    ensures
      var id := w.settings.svcCallId;
      && id in Table(w.lib) && Table(w.lib)[id] in w.lib.records
      && var a := Table(w.lib)[id];
         var n := CancelCall(w, bus);
         if IsParked(w.lib.modems, w.lib.records[a], a) then
           && a < |w.lib.delivered|
           && n.lib.delivered == w.lib.delivered[a := 1]
           && n.lib.records == w.lib.records - {a}
           && n.settings == w.settings.(pending := w.settings.pending - 1, svcCallId := 0)
           && n.setClirs == w.setClirs
         else a in w.lib.inFlight && n == w.(lib := CancelAtBus(w.lib, a))
  {
    hide WorldInv, Inv, Callback, Finish, ServiceCalls.Cancel, Destroy, IsParked, CancelAtBus, Table, IsGet;
    var id := w.settings.svcCallId;
    IdIsLive(w, id);
    WorldHasInv(w);
    SvcLive(w);
    var a := Table(w.lib)[id];
    CancelOutcome(w.lib, id, bus);
    var (l, called) := ServiceCalls.Cancel(w.lib, id, bus);
    if called.Some? {
      ParkedDelivered(w.lib, id, bus);
      ParkedEnds(w, l, a, bus);
    } else {
      CancelAtBusOnly(w.lib, a);
    }
  }

  lemma CancelAtBusOnly(l: Lib, a: nat)
    ensures CancelAtBus(l, a).inFlight == l.inFlight
  {
  }

  lemma ParkedDelivered(l: Lib, id: nat, bus: Bus)
    requires Inv(l, {}) && id in Table(l)
    ensures Table(l)[id] in l.records && Table(l)[id] < |l.delivered|
    ensures ServiceCalls.Cancel(l, id, bus).1 == Some(Table(l)[id]) ==>
      ServiceCalls.Cancel(l, id, bus).0.delivered == l.delivered[Table(l)[id] := 1]
  {
    hide Inv, Destroy;
    Runs.LiveIds(l, {}, id);
    NotYetCalled(l, Table(l)[id]);
  }

  // The callback of a parked call that was cancelled, and its removal
  lemma ParkedEnds(w: World, l: Lib, a: nat, bus: Bus)
    requires WorldInv(w) && Inv(l, {a})
    requires l.records == w.lib.records && Table(l) == Table(w.lib) && a in l.records
    requires IsGet(l.records[a].kind)
    ensures
      var c := l.records[a];
      var n := Callback(w.(lib := l), c, Failed(true), bus);
      var f := Destroy(Finish(n.lib, c.id));
      && f.delivered == l.delivered && f.records == l.records - {a}
      && n.settings == w.settings.(pending := w.settings.pending - 1, svcCallId := 0)
      && n.setClirs == w.setClirs
  {
    hide WorldInv, Inv, Entered, Left, Finish, Destroy;
    EnteredFrom(w, l, a);
    CallbackKeeps(w.(lib := l), a, Failed(true), bus);
    var n := Callback(w.(lib := l), l.records[a], Failed(true), bus);
    LeftHasInv(n, a);
    FinishKeeps(n.lib, a, {a});
    assert {a} - {a} == {};
    DestroyKeeps(Finish(n.lib, l.records[a].id), {});
  }

  // ---------------------------------------- what cancelling can reach

  // The dialog knows every call that it can cancel
  ghost predicate Tracked(w: World) {
    forall a :: a in w.lib.records && IsGet(w.lib.records[a].kind) ==> w.lib.records[a].id == w.settings.svcCallId
  }

  lemma OneTracked(w: World, a: nat, b: nat)
    requires Inv(w.lib, {}) && Tracked(w)
    requires a in w.lib.records && b in w.lib.records
    requires IsGet(w.lib.records[a].kind) && IsGet(w.lib.records[b].kind)
    ensures a == b
  {
    StillThere(w.lib, a);
    StillThere(w.lib, b);
  }

  lemma AnswerTracked(w: World, a: nat, r: Reply, bus: Bus)
    requires WorldInv(w) && Tracked(w) && a in w.lib.inFlight
    ensures a in w.lib.records && a < |w.lib.delivered| && Tracked(CompleteCall(w, a, r, bus))
  {
    hide WorldInv, Inv, CompleteCall;
    AnswerEndsCall(w, a, r, bus);
    WorldHasInv(w);
    forall b | b in w.lib.records && IsGet(w.lib.records[b].kind) && IsGet(w.lib.records[a].kind) ensures a == b {
      OneTracked(w, a, b);
    }
  }

  lemma ApplyTracked(w: World, m: Path, enabled: bool, bus: Bus)
    requires WorldInv(w) && Tracked(w)
    ensures Tracked(Apply(w, m, enabled, bus))
  {
    hide Inv, Start, Get;
    StartKeeps(w.lib, m, SetWaiting(enabled), bus, {});
  }

  lemma ShowTracked(w: World, m: Path, manager: bool, clirBus: Bus, bus: Bus)
    requires WorldInv(w) && w.settings.pending == 0
    ensures Tracked(ShowCalls(w, m, manager, clirBus, bus))
  {
    hide Inv, Start, StartClir, Get;
    assert w.lib.records.Keys == {};
    StartClirKeeps(w.lib, manager, clirBus, {});
    StartKeeps(StartClir(w.lib, manager, clirBus).0, m, GetWaiting, bus, {});
  }

  lemma CancelTracked(w: World, bus: Bus)
    requires WorldInv(w) && Tracked(w)
    ensures Defined(w, Event.Cancel(bus)) && Tracked(CancelCall(w, bus))
  {
    IdIsLive(w, w.settings.svcCallId);
    WorldHasInv(w);
    hide WorldInv, Inv, ServiceCalls.Cancel, Callback, Finish, Destroy, IsParked;
    if w.settings.svcCallId != 0 {
      CancelEndsOrMarks(w, bus);
      var a := Table(w.lib)[w.settings.svcCallId];
      LiveId(w.lib, w.settings.svcCallId, {});
      SvcLive(w);
      forall b | b in w.lib.records && IsGet(w.lib.records[b].kind) ensures b == a {
        OneTracked(w, a, b);
      }
    }
  }

  /** As long as a page is only shown when nothing is pending, for which the modem picker
      waits, the dialog keeps track of every call it can cancel. */
  lemma TrackedKept(w: World, e: Event)
    requires WorldInv(w) && Tracked(w) && Enabled(w, e) && (e.Show? ==> w.settings.pending == 0)
    ensures Defined(w, e) && Tracked(Step(w, e))
  {
    match e
    case Show(m, manager, clirBus, bus) => ShowTracked(w, m, manager, clirBus, bus);
    case ApplyWaiting(m, enabled, bus) => ApplyTracked(w, m, enabled, bus);
    case Cancel(bus) => CancelTracked(w, bus);
    case Replied(a, reply, bus) => AnswerTracked(w, a, reply, bus);
    case Elsewhere(e) =>
      hide Inv, Runs.Step;
      ElsewhereKeeps(w, e);
      ElsewhereSameCalls(w.lib, e);
    case _ => hide Inv, SvcOk;
  }

  /** Then cancelling reaches everything that can be cancelled: no call-waiting or
      call-forwarding request is left parked, and one in flight is marked. */
  lemma CancelReachesAll(w: World, bus: Bus)
    requires WorldInv(w) && Tracked(w)
    ensures Defined(w, Event.Cancel(bus))
    ensures
      var n := CancelCall(w, bus);
      forall a :: a in n.lib.records && IsGet(n.lib.records[a].kind) ==>
        a in n.lib.inFlight && a in n.lib.cancellables && n.lib.cancellables[a]
  {
    IdIsLive(w, w.settings.svcCallId);
    WorldHasInv(w);
    if w.settings.svcCallId == 0 {
      hide ModemsOk, PlacesOk, SubmittedOk, DeliveredOk;
    } else {
      hide WorldInv, Inv, CancelCall;
      CancelEndsOrMarks(w, bus);
      SvcLive(w);
      var a := Table(w.lib)[w.settings.svcCallId];
      forall b | b in w.lib.records && IsGet(w.lib.records[b].kind) ensures b == a {
        OneTracked(w, a, b);
      }
    }
  }

  // Every page of the run is shown when nothing is pending
  ghost predicate ShowsWhenIdle(w: World, es: seq<Event>)
    decreases |es|
  {
    es == [] || ((es[0].Show? ==> w.settings.pending == 0)
                 && (Defined(w, es[0]) ==> ShowsWhenIdle(Step(w, es[0]), es[1..])))
  }

  lemma {:induction false} TrackedRun(w: World, es: seq<Event>)
    requires WorldInv(w) && Tracked(w) && IsRun(w, es) && ShowsWhenIdle(w, es)
    ensures NeverDangles(w, es) && WorldInv(End(w, es)) && Tracked(End(w, es))
    decreases |es|
  {
    hide WorldInv, Tracked, Enabled, Defined, Step;
    if es != [] {
      TrackedKept(w, es[0]);
      SettingsSafety.StepKeeps(w, es[0]);
      TrackedRun(Step(w, es[0]), es[1..]);
    }
  }

  /** So after every such run, cancelling leaves nothing parked that could be cancelled
      and marks everything in flight. */
  lemma CancelAlwaysReachesAll(es: seq<Event>, bus: Bus)
    requires IsRun(START, es) && ShowsWhenIdle(START, es)
    ensures NeverDangles(START, es) && Defined(End(START, es), Event.Cancel(bus))
    ensures
      var n := CancelCall(End(START, es), bus);
      forall a :: a in n.lib.records && IsGet(n.lib.records[a].kind) ==>
        a in n.lib.inFlight && a in n.lib.cancellables && n.lib.cancellables[a]
  {
    assert Inv(START.lib, {});
    TrackedRun(START, es);
    hide End, NeverDangles, IsRun, CancelCall, WorldInv, Tracked, Inv;
    CancelReachesAll(End(START, es), bus);
  }

  // --------------------------------------------------- draining

  function Waiting(l: Lib): set<nat> {
    set a | a in l.records && l.records[a].kind == GetWaiting
  }

  // Answers that can still come: one for every request, two for call waiting
  function Owed(w: World): nat {
    |w.lib.records.Keys| + |Waiting(w.lib)| + w.setClirs
  }

  predicate IsAnswer(e: Event) {
    e.Replied? || e.SetClirReplied?
  }

  /** Every answer lowers what is owed, although one may start another request. */
  lemma AnswersDrain(w: World, e: Event)
    requires WorldInv(w) && Enabled(w, e) && IsAnswer(e)
    ensures Defined(w, e) && Owed(Step(w, e)) < Owed(w)
  {
    hide WorldInv, Inv, CompleteCall;
    if e.Replied? {
      AnswerEndsCall(w, e.a, e.reply, e.bus);
      var n := CompleteCall(w, e.a, e.reply, e.bus);
      if Chains(w.lib.records[e.a].kind, e.reply) {
        assert n.lib.records.Keys == (w.lib.records.Keys - {e.a}) + {Next(w.lib)};
      } else {
        assert n.lib.records.Keys == w.lib.records.Keys - {e.a};
      }
      assert Waiting(n.lib) == Waiting(w.lib) - {e.a};
    }
  }

  /** The wait for `pending` to reach zero sees at most that many answers, and zero is
      reached exactly when nothing is owed. */
  lemma {:induction false} DrainBound(w: World, es: seq<Event>)
    requires WorldInv(w) && IsRun(w, es) && forall e :: e in es ==> IsAnswer(e)
    ensures NeverDangles(w, es) && |es| + Owed(End(w, es)) <= Owed(w)
    ensures w.settings.pending == 0 <==> Owed(w) == 0
    decreases |es|
  {
    PendingIffOwed(w);
    hide WorldInv, Enabled, Defined, Step, Owed;
    if es != [] {
      assert es[0] in es;
      AnswersDrain(w, es[0]);
      SettingsSafety.StepKeeps(w, es[0]);
      DrainBound(Step(w, es[0]), es[1..]);
    }
  }

  lemma PendingIffOwed(w: World)
    requires WorldInv(w)
    ensures w.settings.pending == 0 <==> Owed(w) == 0
  {
    hide Inv;
    if w.lib.records.Keys == {} {
      assert Waiting(w.lib) == {};
    }
  }
}
