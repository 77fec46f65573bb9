/** The settings dialog as the object it is (cpa/cellular-settings.h), with the callbacks
    that the library makes to it and the library's completion of its calls. Every method
    does what the function of SettingsProtocol with the same purpose says. */
module CellularSettings {
  import opened Options
  import opened ServiceCalls
  import opened SettingsProtocol
  import CellContext
  import Safety = SettingsSafety
  import Runs = ServiceCallRuns
  import opened SettingsRuns
  import opened SettingsEffects

  class Dialog {
    const ctx: CellContext.Context
    var pending: int
    var svcCallId: nat
    var anonymity: nat
    var waiting: bool
    var forward: bool
    var setClirs: nat

    function View(): World
      reads this, ctx
    {
      World(ctx.View(), Settings(pending, svcCallId, anonymity, waiting, forward), setClirs)
    }

    constructor (ctx: CellContext.Context)
      ensures this.ctx == ctx
      ensures View() == World(ctx.View(), Settings(0, 0, 0, false, false), 0)
    {
      this.ctx := ctx;
      pending, svcCallId, anonymity, waiting, forward, setClirs := 0, 0, 0, false, false, 0;
    }

    method StopProgressIndicator()
      modifies this
      ensures View() == old(View()).(settings := StopProgress(old(View()).settings))
    {
      if pending == 0 {
        return;
      }
      pending := pending - 1;
    }

    // ------------------------------------------------- client callbacks

    method GetClirCb(reply: Reply)
      modifies this
      ensures View() == old(View()).(settings := StopProgress(old(View()).settings.(anonymity := ValueOf(reply))))
    {
      anonymity := ValueOf(reply);
      StopProgressIndicator();
    }

    method GetCallForwardCb(reply: Reply)
      modifies this
      ensures View() == ForwardCallback(old(View()), reply)
      ensures forward == if reply == Failed(true) then old(forward) else reply.Value? && reply.n != 0
    {
      svcCallId := 0;
      if reply == Failed(true) {
        pending := pending - 1;
        return;
      }
      StopProgressIndicator();
      forward := ValueOf(reply) != 0;
    }

    /** The call-forwarding request takes over the place of the call-waiting one. */
    method GetCallWaitingCb(modem: Path, reply: Reply, bus: Bus)
      modifies this, ctx
      ensures View() == WaitingCallback(old(View()), modem, reply, bus)
      ensures waiting == if reply == Failed(true) then old(waiting) else reply.Value? && reply.n != 0
    {
      svcCallId := 0;
      if reply == Failed(true) {
        pending := pending - 1;
        return;
      }
      waiting := ValueOf(reply) != 0;
      svcCallId := ctx.SupsServiceCall(modem, GetForwarding, bus);
      if svcCallId == 0 {
        StopProgressIndicator();
      }
    }

    method SetCallWaitingCb()
      modifies this
      ensures View() == old(View()).(settings := old(View()).settings.(pending := old(pending) - 1))
    {
      pending := pending - 1;
    }

    method SetClirCb()
      requires setClirs > 0
      modifies this
      ensures View() == Step(old(View()), SetClirReplied)
    {
      setClirs := setClirs - 1;
      pending := pending - 1;
    }

    // The callback of a record, by the request it belongs to
    method RunCallback(c: Call, reply: Reply, bus: Bus)
      modifies this, ctx
      ensures View() == Callback(old(View()), c, reply, bus)
    {
      match c.kind {
        case GetClir => GetClirCb(reply);
        case GetWaiting => GetCallWaitingCb(c.modem, reply, bus);
        case SetWaiting(_) => SetCallWaitingCb();
        case GetForwarding => GetCallForwardCb(reply);
      }
    }

    // --------------------------------------- completion in the library

    method FinishCall(id: nat)
      modifies ctx
      ensures View() == old(View()).(lib := Finish(old(View()).lib, id))
      ensures forall a :: a in old(ctx.records) && old(ctx.records)[a].id == id && old(ctx.initialized) ==>
        ctx.View() == Runs.Step(Runs.System(old(ctx.View()), {a}), Runs.Returned(a)).lib
    {
      ctx.RemoveCall(id);
      ctx.Release();
    }

    /** _call_waiting_get_cb, _call_waiting_set_cb, _forwarding_get_cb and _cid_get_cb when
        an answer arrives: the callback, then the removal of the call. */
    method Complete(a: nat, reply: Reply, bus: Bus)
      requires a in ctx.records && a < |ctx.delivered|
      modifies this, ctx
      ensures View() == CompleteCall(old(View()), a, reply, bus)
      ensures View() == Step(old(View()), Replied(a, reply, bus))
    {
      hide Callback, Finish, Answer;
      var c := ctx.records[a];
      Receive(a);
      RunCallback(c, reply, bus);
      FinishCall(c.id);
    }

    // The answer is here
    method Receive(a: nat)
      requires a in ctx.records && a < |ctx.delivered|
      modifies ctx
      ensures ctx.View() == Runs.Step(Runs.System(old(ctx.View()), {}), Runs.Answered(a)).lib
      ensures View() == old(View()).(lib := Answer(old(View()).lib, a))
    {
      ctx.inFlight := ctx.inFlight - {a};
      ctx.delivered := ctx.delivered[a := ctx.delivered[a] + 1];
    }

    // _sups_check_cancelled without a result
    method LeaveParked(a: nat)
      requires a in ctx.records && a < |ctx.delivered|
      modifies ctx
      ensures View() == old(View()).(lib := Called(Unpark(old(View()).lib, a), a))
    {
      var c := ctx.records[a];
      if c.modem in ctx.modems && ctx.modems[c.modem].Some? {
        var sd := ctx.modems[c.modem].value;
        if sd.parked.Some? {
          ctx.modems := ctx.modems[c.modem := Some(sd.(parked := Some(sd.parked.value - {c.id})))];
        }
      }
      ctx.delivered := ctx.delivered[a := ctx.delivered[a] + 1];
    }

    /** connui_cell_cancel_service_call. */
    method CancelServiceCall(id: nat, bus: Bus)
      requires CanCancel(ctx.View(), id)
      modifies this, ctx
      ensures View() == CancelId(old(View()), id, bus)
    {
      hide Callback, Finish, Destroy;
      var ok := ctx.Get(bus);
      if !ok {
        return;
      }
      if ctx.serviceCalls.Some? && id != 0 {
        if id !in ctx.serviceCalls.value {
          return;
        }
        var a := ctx.serviceCalls.value[id];
        var c := ctx.records[a];
        if a in ctx.cancellables {
          ctx.cancellables := ctx.cancellables[a := true];
        } else if c.kind != GetClir {
          LeaveParked(a);
          RunCallback(c, Failed(true), bus);
          FinishCall(c.id);
        } else {
          ctx.RemoveCall(id);
        }
      }
      ctx.Release();
    }

    // ------------------------------------------------------- the page

    /** _call_show: two requests, each of which is waited for if it was accepted. */
    method CallShow(modem: Path, manager: bool, clirBus: Bus, bus: Bus)
      modifies this, ctx
      ensures View() == ShowCalls(old(View()), modem, manager, clirBus, bus)
      ensures View() == Step(old(View()), Show(modem, manager, clirBus, bus))
    {
      hide Start, StartClir;
      forward, waiting := false, false;
      var ok := ctx.GetCallerIdAnonymity(manager, clirBus);
      if ok {
        pending := pending + 1;
      }
      svcCallId := ctx.SupsServiceCall(modem, GetWaiting, bus);
      if svcCallId != 0 {
        pending := pending + 1;
      }
    }

    method CallApplyAnonymity(value: nat, manager: bool)
      modifies this
      ensures View() == Step(old(View()), ApplyAnonymity(value, manager))
      ensures value == old(anonymity) || !manager ==> View() == old(View())
      ensures value != old(anonymity) && manager ==> setClirs == old(setClirs) + 1 && pending == old(pending) + 1
    {
      if value != anonymity && manager {
        setClirs := setClirs + 1;
        pending := pending + 1;
      }
    }

    method CallApplyWaiting(modem: Path, enabled: bool, bus: Bus)
      modifies this, ctx
      ensures View() == Apply(old(View()), modem, enabled, bus)
      ensures View() == Step(old(View()), ApplyWaiting(modem, enabled, bus))
      ensures enabled == old(waiting) ==> View() == old(View())
      ensures enabled != old(waiting) && CanStart(old(ctx.View()), modem, bus) ==>
        && pending == old(pending) + 1 && ctx.delivered == old(ctx.delivered) + [0]
        && exists id :: ctx.records == old(ctx.records)[|old(ctx.delivered)| := Call(id, SetWaiting(enabled), modem)]
      ensures enabled != old(waiting) && !CanStart(old(ctx.View()), modem, bus) ==>
        pending == old(pending) && ctx.delivered == old(ctx.delivered) && ctx.records == old(ctx.records)
    {
      hide Start, CanStart;
      StartRecords(ctx.View(), modem, SetWaiting(enabled), bus);
      if enabled != waiting {
        var id := ctx.SupsServiceCall(modem, SetWaiting(enabled), bus);
        if id != 0 {
          pending := pending + 1;
        }
      }
    }

    method CallCancel(bus: Bus)
      requires CanCancel(ctx.View(), svcCallId)
      modifies this, ctx
      ensures View() == CancelCall(old(View()), bus)
      ensures View() == Step(old(View()), Event.Cancel(bus))
    {
      if svcCallId != 0 {
        CancelServiceCall(svcCallId, bus);
      }
    }
  
    // One turn of the main loop that brings an answer
    method Dispatch(e: Event)
      requires IsAnswer(e) && Defined(View(), e)
      modifies this, ctx
      ensures View() == Step(old(View()), e)
    {
      hide CompleteCall;
      if e.Replied? {
        Complete(e.a, e.reply, e.bus);
      } else {
        SetClirCb();
      }
    }

    /** cellular_settings_cancel_service_calls: cancel, then wait until nothing is pending.
        As long as answers come, at most `Owed` of them are waited for, and then nothing is
        outstanding. */
    method CancelServiceCalls(bus: Bus, answers: seq<Event>) returns (n: nat)
      requires WorldInv(View()) && Defined(View(), Event.Cancel(bus))
      requires IsRun(CancelCall(View(), bus), answers) && forall e :: e in answers ==> IsAnswer(e)
      modifies this, ctx
      ensures n <= |answers| && NeverDangles(CancelCall(old(View()), bus), answers[..n])
      ensures View() == End(CancelCall(old(View()), bus), answers[..n])
      ensures n <= Owed(CancelCall(old(View()), bus))
      ensures if pending == 0 then ctx.records == map[] && setClirs == 0 else n == |answers|
      ensures WorldInv(View())
    {
      hide WorldInv, CancelCall, Step, Enabled, Defined, CanCancel;
      CanCancelNow(View(), bus);
      Safety.CancelKeeps(View(), bus);
      CallCancel(bus);
      ghost var w := View();
      n := 0;
      assert answers[..0] == [] && answers[0..] == answers;
      while pending != 0 && n < |answers|
        invariant n <= |answers| && WorldInv(View())
        invariant NeverDangles(w, answers[..n]) && View() == End(w, answers[..n])
        invariant IsRun(View(), answers[n..])
        invariant n + Owed(View()) <= Owed(w)
        decreases |answers| - n
      {
        OneMore(w, answers, n);
        AnswersDrain(View(), answers[n]);
        Safety.StepKeeps(View(), answers[n]);
        Dispatch(answers[n]);
        n := n + 1;
      }
      PendingIffOwed(View());
      NothingOwed(View());
    }
  }

  lemma CanCancelNow(w: World, bus: Bus)
    requires WorldInv(w)
    ensures CanCancel(w.lib, w.settings.svcCallId)
  {
    Safety.IdIsLive(w, w.settings.svcCallId);
  }

  lemma NothingOwed(w: World)
    requires WorldInv(w)
    ensures Owed(w) == 0 ==> w.lib.records == map[] && w.setClirs == 0
  {
    hide WorldInv;
  }

  // One more event at the end of a run
  lemma OneMore(w: World, es: seq<Event>, n: nat)
    requires n < |es| && NeverDangles(w, es[..n]) && IsRun(End(w, es[..n]), es[n..])
    requires WorldInv(End(w, es[..n]))
    ensures
      var e := End(w, es[..n]);
      && Enabled(e, es[n]) && Defined(e, es[n])
      && NeverDangles(w, es[..n + 1]) && End(w, es[..n + 1]) == Step(e, es[n])
      && IsRun(Step(e, es[n]), es[n + 1..])
  {
    hide WorldInv, Enabled, Defined, Step;
    var e := End(w, es[..n]);
    assert es[n..][1..] == es[n + 1..];
    Safety.StepKeeps(e, es[n]);
    assert es[..n + 1] == es[..n] + [es[n]];
    EndSnoc(w, es[..n], es[n]);
  }

  lemma {:induction false} EndSnoc(w: World, es: seq<Event>, e: Event)
    requires NeverDangles(w, es) && Defined(End(w, es), e)
    ensures NeverDangles(w, es + [e]) && End(w, es + [e]) == Step(End(w, es), e)
    decreases |es|
  {
    hide Defined, Step;
    if es == [] {
      assert (es + [e])[1..] == [];
    } else {
      assert (es + [e])[1..] == es[1..] + [e];
      EndSnoc(Step(w, es[0]), es[1..], e);
    }
  }
}
