/** What the settings dialog does to be seen from outside: which requests each of its
    actions sends, and what it remembers of the answers. */
module SettingsEffects {
  import opened Options
  import opened ServiceCalls
  import opened ServiceCallSafety
  import opened SettingsProtocol
  import opened SettingsSafety
  import opened SettingsRuns

  // The context and the modem that a request needs
  predicate CanStart(l: Lib, m: Path, bus: Bus) {
    Get(l, bus).Some? && m in Get(l, bus).value.modems
  }

  /** A start changes the records by one, or by none if the context or the modem is not
      there. */
  lemma StartRecords(l: Lib, m: Path, kind: Kind, bus: Bus)
    ensures
      var (n, id) := Start(l, m, kind, bus);
      if CanStart(l, m, bus) then
        id == l.counter + 1 && n.records == l.records[Next(l) := Call(id, kind, m)] && n.delivered == l.delivered + [0]
      else id == 0 && n.records == l.records && n.delivered == l.delivered
  {
    GetRecords(l, bus);
    hide Get, DoCall;
    if CanStart(l, m, bus) {
      var l1 := Get(l, bus).value;
      WithSupsOnly(l1, m);
      hide WithSups;
      var l2 := Add(WithSups(l1, m), kind, m);
      DoCallOnly(l2, m, Next(l1));
      DestroyOnly(ServiceCalls.DoCall(l2, m, Next(l1)));
    } else if Get(l, bus).Some? {
      DestroyOnly(Get(l, bus).value);
    }
  }

  lemma GetRecords(l: Lib, bus: Bus)
    ensures Get(l, bus).Some? ==>
      var n := Get(l, bus).value;
      n.records == l.records && n.delivered == l.delivered && n.counter == l.counter && n.table == l.table
  {
  }

  lemma DoCallOnly(l: Lib, m: Path, a: nat)
    requires m in l.modems && l.modems[m].Some? && a in l.records
    ensures
      var n := ServiceCalls.DoCall(l, m, a);
      n.records == l.records && n.delivered == l.delivered && n.table == l.table && n.counter == l.counter
  {
  }

  // One more request of this kind at this modem, or the same requests
  predicate Sent(w: World, n: World, kind: Kind, m: Path) {
    && n.lib.delivered == w.lib.delivered + [0]
    && Next(w.lib) in n.lib.records
    && n.lib.records[Next(w.lib)].kind == kind && n.lib.records[Next(w.lib)].modem == m
    && n.lib.records == w.lib.records[Next(w.lib) := n.lib.records[Next(w.lib)]]
    && n.settings == w.settings.(pending := w.settings.pending + 1)
    && n.setClirs == w.setClirs
  }

  predicate NothingSent(w: World, n: World) {
    && n.lib.records == w.lib.records && n.lib.delivered == w.lib.delivered
    && n.settings == w.settings && n.setClirs == w.setClirs
  }

  /** Applying call waiting sends a change, and only a change: exactly one request with the
      new value, which is then waited for. */
  lemma ApplySends(w: World, m: Path, enabled: bool, bus: Bus)
    ensures enabled == w.settings.waiting ==> Apply(w, m, enabled, bus) == w
    ensures enabled != w.settings.waiting && CanStart(w.lib, m, bus) ==>
      Sent(w, Apply(w, m, enabled, bus), SetWaiting(enabled), m)
    ensures enabled != w.settings.waiting && !CanStart(w.lib, m, bus) ==> NothingSent(w, Apply(w, m, enabled, bus))
  {
    hide Start, CanStart;
    StartRecords(w.lib, m, SetWaiting(enabled), bus);
  }

  /** Applying caller identity likewise; its request is in no table. */
  lemma AnonymitySends(w: World, value: nat, manager: bool)
    ensures
      var n := Step(w, ApplyAnonymity(value, manager));
      && n.lib == w.lib
      && (value == w.settings.anonymity || !manager ==> n == w)
      && (value != w.settings.anonymity && manager ==>
            n.setClirs == w.setClirs + 1 && n.settings == w.settings.(pending := w.settings.pending + 1))
  {
  }

  /** Showing the page clears both flags and sends the two requests that its modem can take. */
  lemma ShowSends(w: World, m: Path, manager: bool, clirBus: Bus, bus: Bus)
    requires WorldInv(w)
    ensures
      var n := ShowCalls(w, m, manager, clirBus, bus);
      var clir := manager && Get(w.lib, clirBus).Some?;
      var l1 := StartClir(w.lib, manager, clirBus).0;
      && !n.settings.forward && !n.settings.waiting && n.settings.anonymity == w.settings.anonymity
      && n.setClirs == w.setClirs
      && (clir ==> Next(w.lib) in n.lib.records && n.lib.records[Next(w.lib)].kind == GetClir)
      && (n.settings.svcCallId != 0 <==> CanStart(l1, m, bus))
      && (CanStart(l1, m, bus) ==>
            Next(l1) in n.lib.records && n.lib.records[Next(l1)] == Call(n.settings.svcCallId, GetWaiting, m))
      && |n.lib.delivered| == |w.lib.delivered| + (if clir then 1 else 0) + (if CanStart(l1, m, bus) then 1 else 0)
      && n.settings.pending == w.settings.pending + |n.lib.delivered| - |w.lib.delivered|
      && forall a :: a in w.lib.records ==> a in n.lib.records && n.lib.records[a] == w.lib.records[a]
  {
    hide Inv, Start, StartClir, CanStart, Get;
    StartClirKeeps(w.lib, manager, clirBus, {});
    var l1 := StartClir(w.lib, manager, clirBus).0;
    StartRecords(l1, m, GetWaiting, bus);
    NextFree(w.lib);
    NextFree(l1);
  }

  lemma NextFree(l: Lib)
    requires Inv(l, {})
    ensures Next(l) !in l.records
  {
    hide ModemsOk, PlacesOk, ProxiedOk, SubmittedOk;
  }

  // ------------------------------------------------------ what is remembered

  // What the callbacks keep, one by one
  lemma WaitingStores(w: World, m: Path, r: Reply, bus: Bus)
    ensures
      var s, n := w.settings, WaitingCallback(w, m, r, bus).settings;
      && n.forward == s.forward && n.anonymity == s.anonymity
      && match r
         case Value(v) => n.waiting <==> v != 0
         case Failed(cancelled) => n.waiting == (cancelled && s.waiting)
  {
    hide Start;
  }

  lemma ForwardStores(w: World, r: Reply)
    ensures
      var s, n := w.settings, ForwardCallback(w, r).settings;
      && n.waiting == s.waiting && n.anonymity == s.anonymity
      && match r
         case Value(v) => n.forward <==> v != 0
         case Failed(cancelled) => n.forward == (cancelled && s.forward)
  {
  }

  // What is kept of an answer: the value of what was asked for, off after a failure, and
  // nothing new after a cancellation
  predicate Stored(k: Kind, r: Reply, s: Settings, n: Settings) {
    && (n.waiting <==> if k == GetWaiting && r != Failed(true) then r.Value? && r.n != 0 else s.waiting)
    && (n.forward <==> if k == GetForwarding && r != Failed(true) then r.Value? && r.n != 0 else s.forward)
    && n.anonymity == if k == GetClir then (if r.Value? then r.n else 0) else s.anonymity
  }

  lemma CallbackStores(w: World, c: Call, r: Reply, bus: Bus)
    ensures Stored(c.kind, r, w.settings, Callback(w, c, r, bus).settings)
  {
    hide WaitingCallback, ForwardCallback;
    WaitingStores(w, c.modem, r, bus);
    ForwardStores(w, r);
  }

  /** What the dialog remembers of an answer to a call. */
  lemma AnswerStores(w: World, a: nat, r: Reply, bus: Bus)
    requires WorldInv(w) && a in w.lib.inFlight
    ensures a in w.lib.records && a < |w.lib.delivered|
    ensures Stored(w.lib.records[a].kind, r, w.settings, CompleteCall(w, a, r, bus).settings)
  {
    WorldHasInv(w);
    hide WorldInv, Inv, Callback, Finish, Stored;
    AnswerKeeps(w.lib, a, {});
    CallbackStores(w.(lib := Answer(w.lib, a)), w.lib.records[a], r, bus);
  }

  /** Once a call-waiting answer is in, applying what it said sends nothing, and applying
      the opposite sends exactly that. */
  lemma AppliedAfterAnswer(w: World, a: nat, v: nat, m: Path, bus: Bus, applyBus: Bus)
    requires WorldInv(w) && a in w.lib.inFlight && a in w.lib.records && w.lib.records[a].kind == GetWaiting
    ensures a < |w.lib.delivered|
    ensures
      var n := CompleteCall(w, a, Value(v), bus);
      && Apply(n, m, v != 0, applyBus) == n
      && (CanStart(n.lib, m, applyBus) ==>
            Sent(n, Apply(n, m, v == 0, applyBus), SetWaiting(v == 0), m))
      && (!CanStart(n.lib, m, applyBus) ==> NothingSent(n, Apply(n, m, v == 0, applyBus)))
  {
    hide WorldInv, CompleteCall, Apply, CanStart, Sent, NothingSent;
    AnswerStores(w, a, Value(v), bus);
    var n := CompleteCall(w, a, Value(v), bus);
    ApplySends(n, m, v != 0, applyBus);
    ApplySends(n, m, v == 0, applyBus);
  }

  /** The same for caller identity. */
  lemma AnonymityAfterAnswer(w: World, a: nat, v: nat, bus: Bus, value: nat)
    requires WorldInv(w) && a in w.lib.inFlight && a in w.lib.records && w.lib.records[a].kind == GetClir
    ensures a < |w.lib.delivered|
    ensures
      var n := CompleteCall(w, a, Value(v), bus);
      Step(n, ApplyAnonymity(value, true)) == n <==> value == v
  {
    hide WorldInv, CompleteCall;
    AnswerStores(w, a, Value(v), bus);
    AnonymitySends(CompleteCall(w, a, Value(v), bus), value, true);
  }

  /** Without a call it knows, the dialog cancels nothing. */
  lemma NothingToCancel(w: World, bus: Bus)
    requires WorldInv(w) && w.settings.svcCallId == 0
    ensures Defined(w, Event.Cancel(bus)) && Step(w, Event.Cancel(bus)) == w
  {
    hide Inv;
    IdIsLive(w, 0);
  }
}
