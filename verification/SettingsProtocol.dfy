/** The call page of the settings dialog (cpa/cellular-settings-call.c) as a client of the
    library: how many requests it waits for, which call it would cancel, and how the
    call-forwarding request takes over from the call-waiting one. */
module SettingsProtocol {
  import opened Options
  import opened ServiceCalls
  import opened ServiceCallSafety
  import Runs = ServiceCallRuns

  datatype Settings = Settings(pending: int, svcCallId: nat, anonymity: nat, waiting: bool, forward: bool)

  // setClirs counts the requests to change caller identity, which are in no table
  datatype World = World(lib: Lib, settings: Settings, setClirs: nat)

  datatype Reply = Value(n: nat) | Failed(cancelled: bool)

  datatype Event =
    | Show(m: Path, manager: bool, clirBus: Bus, bus: Bus)
    | ApplyAnonymity(value: nat, manager: bool)
    | ApplyWaiting(m: Path, enabled: bool, bus: Bus)
    | Cancel(bus: Bus)
    | Replied(a: nat, reply: Reply, bus: Bus)
    | SetClirReplied
    | Elsewhere(e: Runs.Event)

  function ValueOf(r: Reply): nat {
    match r
    case Value(n) => n
    case Failed(_) => 0
  }

  // cellular_settings_stop_progress_indicator
  function StopProgress(s: Settings): Settings {
    if s.pending == 0 then s else s.(pending := s.pending - 1)
  }

  // _get_call_waiting_cb: unless it was cancelled, the next request takes its place
  function WaitingCallback(w: World, m: Path, r: Reply, bus: Bus): World {
    var s := w.settings.(svcCallId := 0);
    if r == Failed(true) then w.(settings := s.(pending := s.pending - 1))
    else
      var (lib, id) := Start(w.lib, m, GetForwarding, bus);
      var t := s.(waiting := ValueOf(r) != 0, svcCallId := id);
      w.(lib := lib, settings := if id == 0 then StopProgress(t) else t)
  }

  // _get_call_forward_cb
  function ForwardCallback(w: World, r: Reply): World {
    var s := w.settings.(svcCallId := 0);
    if r == Failed(true) then w.(settings := s.(pending := s.pending - 1))
    else w.(settings := StopProgress(s).(forward := ValueOf(r) != 0))
  }

  function Callback(w: World, c: Call, r: Reply, bus: Bus): World {
    match c.kind
    case GetClir => w.(settings := StopProgress(w.settings.(anonymity := ValueOf(r))))
    case GetWaiting => WaitingCallback(w, c.modem, r, bus)
    case SetWaiting(_) => w.(settings := w.settings.(pending := w.settings.pending - 1))
    case GetForwarding => ForwardCallback(w, r)
  }

  // _call_show
  function ShowCalls(w: World, m: Path, manager: bool, clirBus: Bus, bus: Bus): World {
    var s := w.settings.(forward := false, waiting := false);
    var (l1, ok) := StartClir(w.lib, manager, clirBus);
    var (l2, id) := Start(l1, m, GetWaiting, bus);
    var n := s.pending + (if ok then 1 else 0) + (if id != 0 then 1 else 0);
    w.(lib := l2, settings := s.(pending := n, svcCallId := id))
  }

  function Apply(w: World, m: Path, enabled: bool, bus: Bus): World {
    if enabled == w.settings.waiting then w
    else
      var (l, id) := Start(w.lib, m, SetWaiting(enabled), bus);
      w.(lib := l, settings := if id != 0 then w.settings.(pending := w.settings.pending + 1) else w.settings)
  }

  // An answer, the callback, and the removal of the call
  function CompleteCall(w: World, a: nat, r: Reply, bus: Bus): World
    requires a in w.lib.records && a < |w.lib.delivered|
  {
    var c := w.lib.records[a];
    var n := Callback(w.(lib := Answer(w.lib, a)), c, r, bus);
    n.(lib := Finish(n.lib, c.id))
  }

  predicate CanCancel(l: Lib, id: nat) {
    id in Table(l) ==> Table(l)[id] in l.records && Table(l)[id] < |l.delivered|
  }

  // connui_cell_cancel_service_call; a parked call is called back at once
  function CancelId(w: World, id: nat, bus: Bus): World
    requires CanCancel(w.lib, id)
  {
    var (l, called) := ServiceCalls.Cancel(w.lib, id, bus);
    if called.None? || called.value !in l.records then w.(lib := l)
    else
      var c := l.records[called.value];
      var n := Callback(w.(lib := l), c, Failed(true), bus);
      n.(lib := Destroy(Finish(n.lib, c.id)))
  }

  // _call_cancel
  function CancelCall(w: World, bus: Bus): World
    requires CanCancel(w.lib, w.settings.svcCallId)
  {
    if w.settings.svcCallId == 0 then w else CancelId(w, w.settings.svcCallId, bus)
  }

  predicate IsElsewhere(e: Runs.Event) {
    e.Proxied? || e.AddedModem? || e.RemovedModem? || e.RemovedSups? || e.Used?
  }

  ghost predicate Enabled(w: World, e: Event) {
    match e
    case Replied(a, _, _) => a in w.lib.inFlight
    case SetClirReplied => w.setClirs > 0
    case Elsewhere(e) => IsElsewhere(e) && Runs.Enabled(Runs.System(w.lib, {}), e)
    case _ => true
  }

  // The records it touches have not been freed
  predicate Defined(w: World, e: Event) {
    match e
    case Replied(a, _, _) => a in w.lib.records && a < |w.lib.delivered|
    case Cancel(_) => CanCancel(w.lib, w.settings.svcCallId)
    case SetClirReplied => w.setClirs > 0
    case Elsewhere(e) => Runs.Defined(Runs.System(w.lib, {}), e)
    case _ => true
  }

  function Step(w: World, e: Event): World
    requires Defined(w, e)
  {
    match e
    case Show(m, manager, clirBus, bus) => ShowCalls(w, m, manager, clirBus, bus)
    case ApplyAnonymity(value, manager) =>
      if value == w.settings.anonymity || !manager then w
      else w.(settings := w.settings.(pending := w.settings.pending + 1), setClirs := w.setClirs + 1)
    case ApplyWaiting(m, enabled, bus) => Apply(w, m, enabled, bus)
    case Cancel(bus) => CancelCall(w, bus)
    case Replied(a, reply, bus) => CompleteCall(w, a, reply, bus)
    case SetClirReplied =>
      w.(settings := w.settings.(pending := w.settings.pending - 1), setClirs := w.setClirs - 1)
    case Elsewhere(e) => w.(lib := Runs.Step(Runs.System(w.lib, {}), e).lib)
  }

  // --------------------------------------------------------- the invariant

  predicate IsGet(k: Kind) {
    k == GetWaiting || k == GetForwarding
  }

  // The call that would be cancelled is live, and `done` is not it
  predicate SvcOk(l: Lib, id: nat, done: set<nat>) {
    id != 0 ==>
      && id in Table(l) && Table(l)[id] in l.records && Table(l)[id] !in done
      && IsGet(l.records[Table(l)[id]].kind)
  }

  function Outstanding(w: World): nat {
    |w.lib.records.Keys| + w.setClirs
  }

  ghost predicate WorldInv(w: World) {
    && Inv(w.lib, {})
    && w.settings.pending == Outstanding(w)
    && SvcOk(w.lib, w.settings.svcCallId, {})
  }

  // Inside the callback of call a, before and after what the client does there
  ghost predicate Entered(w: World, a: nat) {
    && Inv(w.lib, {a})
    && w.settings.pending == Outstanding(w)
    && SvcOk(w.lib, w.settings.svcCallId, {})
  }

  ghost predicate Left(w: World, a: nat) {
    && Inv(w.lib, {a})
    && w.settings.pending == Outstanding(w) - 1
    && SvcOk(w.lib, w.settings.svcCallId, {a})
  }
}
