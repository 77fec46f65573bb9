/** Service calls of the cellular library (lib/service-call.c, lib/sups.c and the context
    life cycle of lib/context.c) as functions of its state, and the invariant they keep.

    A record is known by its address, which is never used again; a call id is not: the
    counter goes back to 0 when the table empties. */
module ServiceCalls {
  import opened Options

  type Path = string

  datatype Kind = GetClir | GetWaiting | SetWaiting(enable: bool) | GetForwarding

  // What a service_call_data record is made with
  datatype Call = Call(id: nat, kind: Kind, modem: Path)

  // A sups_data record: calls parked until there is a proxy, by id
  datatype Sups = Sups(proxy: bool, parked: Option<map<nat, nat>>)

  datatype Lib = Lib(
    initialized: bool,
    registered: bool,                  // some callback list is not empty
    modems: map<Path, Option<Sups>>,
    table: Option<map<nat, nat>>,      // id to address
    counter: nat,
    records: map<nat, Call>,           // by address, until freed
    cancellables: map<nat, bool>,      // which records have one, and whether it was cancelled
    inFlight: map<nat, string>,        // requests not answered yet, by address
    delivered: seq<nat>)               // how often a record's callback was called

  // What the bus says when the context is created
  datatype Interface = Missing | Unreachable | Ready
  datatype Bus = Down | Up(found: map<Path, Interface>)

  const FREE_SUPS := Sups(false, Some(map[]))

  // ----------------------------------------------------------- the table

  function Table(l: Lib): map<nat, nat> {
    if l.table.Some? then l.table.value else map[]
  }

  function Next(l: Lib): nat {
    |l.delivered|
  }

  // service_call_add
  function Insert(l: Lib, id: nat, kind: Kind, modem: Path): Lib {
    l.(table := Some(Table(l)[id := Next(l)]),
       records := l.records[Next(l) := Call(id, kind, modem)],
       delivered := l.delivered + [0])
  }

  // service_call_next_id, then service_call_add
  function Add(l: Lib, kind: Kind, modem: Path): Lib {
    Insert(l.(counter := l.counter + 1), l.counter + 1, kind, modem)
  }

  function Take(l: Lib, id: nat): Lib {
    if id !in Table(l) then l
    else
      var rest := Table(l) - {id};
      if rest == map[] then l.(table := None, counter := 0) else l.(table := Some(rest))
  }

  function Remove(l: Lib, id: nat): Lib {
    if id !in Table(l) then l
    else
      var a := Table(l)[id];
      Take(l, id).(records := l.records - {a}, cancellables := l.cancellables - {a})
  }

  // --------------------------------------------------------- the context

  function SupsOf(i: Interface): Option<Sups> {
    match i
    case Missing => None
    case Unreachable => Some(FREE_SUPS)
    case Ready => Some(Sups(true, None))
  }

  function Get(l: Lib, bus: Bus): Option<Lib> {
    if l.initialized then Some(l)
    else
      match bus
      case Down => None
      case Up(found) =>
        Some(l.(initialized := true, registered := false,
                modems := map m | m in found :: SupsOf(found[m])))
  }

  function Destroy(l: Lib): Lib {
    if !l.initialized || l.registered || l.table.Some? then l
    else l.(initialized := false, modems := map[])
  }

  // ---------------------------------------------------------- one request

  function Command(k: Kind): string {
    match k
    case GetClir => ""
    case GetWaiting => "*#43#"
    case SetWaiting(enable) => if enable then "*43#" else "#43#"
    case GetForwarding => "*#004**11#"
  }

  function Submit(l: Lib, a: nat): Lib
    requires a in l.records
  {
    l.(cancellables := l.cancellables[a := false],
       inFlight := l.inFlight[a := Command(l.records[a].kind)])
  }

  // _do_call. Inserting into no table is refused by g_hash_table_insert.
  function DoCall(l: Lib, m: Path, a: nat): Lib
    requires m in l.modems && l.modems[m].Some? && a in l.records
  {
    if l.modems[m].value.proxy then Submit(l, a)
    else l.(modems := Park(l.modems, m, l.records[a].id, a))
  }

  function Park(modems: map<Path, Option<Sups>>, m: Path, id: nat, a: nat): map<Path, Option<Sups>>
    requires m in modems && modems[m].Some?
  {
    var sd := modems[m].value;
    if sd.parked.None? then modems else modems[m := Some(sd.(parked := Some(sd.parked.value[id := a])))]
  }

  // _sups_data_get for a modem that is there
  function WithSups(l: Lib, m: Path): Lib
    requires m in l.modems
  {
    if l.modems[m].Some? then l else l.(modems := l.modems[m := Some(FREE_SUPS)])
  }

  // _sups_service_call and the id it returns, 0 for a refusal
  function Start(l: Lib, m: Path, kind: Kind, bus: Bus): (Lib, nat) {
    match Get(l, bus)
    case None => (l, 0)
    case Some(l1) =>
      if m !in l1.modems then (Destroy(l1), 0)
      else
        var l2 := Add(WithSups(l1, m), kind, m);
        (Destroy(DoCall(l2, m, Next(l1))), l2.counter)
  }

  // connui_cell_net_get_caller_id_anonymity, which tells nobody the id
  function StartClir(l: Lib, manager: bool, bus: Bus): (Lib, bool) {
    match Get(l, bus)
    case None => (l, false)
    case Some(l1) =>
      if !manager then (Destroy(l1), false)
      else
        var l2 := Add(l1, GetClir, "");
        (Destroy(l2.(inFlight := l2.inFlight[Next(l1) := Command(GetClir)])), true)
  }

  // The answer arrives: its request is no longer in flight and the callback runs
  function Answer(l: Lib, a: nat): Lib
    requires a < |l.delivered|
  {
    Called(l.(inFlight := l.inFlight - {a}), a)
  }

  function Called(l: Lib, a: nat): Lib
    requires a < |l.delivered|
  {
    l.(delivered := l.delivered[a := l.delivered[a] + 1])
  }

  // _sups_check_cancelled of a parked call: it leaves the table of parked calls
  function Unpark(l: Lib, a: nat): Lib
    requires a in l.records
  {
    var c := l.records[a];
    if c.modem in l.modems && l.modems[c.modem].Some? && l.modems[c.modem].value.parked.Some? then
      var sd := l.modems[c.modem].value;
      l.(modems := l.modems[c.modem := Some(sd.(parked := Some(sd.parked.value - {c.id})))])
    else l
  }

  // _remove_call, after the callback
  function Finish(l: Lib, id: nat): Lib {
    Destroy(Remove(l, id))
  }

  // ----------------------------------------------------------- the proxy

  // connui_cell_modem_add_supplementary_services: all parked calls are submitted
  function ProxyAppears(l: Lib, m: Path, created: bool): Lib
    requires m in l.modems
  {
    var l1 := WithSups(l, m);
    if !created then l1
    else Flush(l1, ParkedAt(l1.modems, m).Values).(modems := l1.modems[m := Some(Sups(true, None))])
  }

  // The calls that wait for a modem's proxy
  function ParkedAt(modems: map<Path, Option<Sups>>, m: Path): map<nat, nat> {
    if m in modems && modems[m].Some? && modems[m].value.parked.Some?
    then modems[m].value.parked.value else map[]
  }

  // Submitting every record of a set
  function Flush(l: Lib, s: set<nat>): Lib {
    l.(cancellables := Cancellables(l.cancellables, s), inFlight := Requests(l.inFlight, l.records, s))
  }

  function Cancellables(c: map<nat, bool>, s: set<nat>): map<nat, bool> {
    map a | a in c.Keys + s :: a !in s && c[a]
  }

  function Requests(f: map<nat, string>, records: map<nat, Call>, s: set<nat>): map<nat, string> {
    map a | a in f.Keys + (s * records.Keys) :: if a in s && a in records then Command(records[a].kind) else f[a]
  }

  // ------------------------------------------------------ cancelling

  // g_cancellable_cancel: the answer is still to come
  function CancelAtBus(l: Lib, a: nat): Lib {
    l.(cancellables := l.cancellables[a := true])
  }

  // connui_cell_cancel_service_call as far as a callback it makes at once, and whose.
  // An unknown id returns without giving the context back.
  function Cancel(l: Lib, id: nat, bus: Bus): (Lib, Option<nat>)
    requires id in Table(l) ==> Table(l)[id] in l.records && Table(l)[id] < |l.delivered|
  {
    match Get(l, bus)
    case None => (l, None)
    case Some(n) =>
      if n.table.None? || id == 0 then (Destroy(n), None)
      else if id !in Table(n) then (n, None)
      else
        var a := Table(n)[id];
        if a in n.cancellables then (Destroy(CancelAtBus(n, a)), None)
        else if n.records[a].kind != GetClir then (Called(Unpark(n, a), a), Some(a))
        else (Destroy(Remove(n, id)), None)
  }

  // ------------------------------------- what else happens to the context

  function ModemAdded(l: Lib, m: Path, i: Interface): Lib {
    l.(modems := l.modems[m := SupsOf(i)])
  }

  function ModemRemoved(l: Lib, m: Path): Lib {
    l.(modems := l.modems - {m})
  }

  function SupsRemoved(l: Lib, m: Path): Lib {
    if m in l.modems then l.(modems := l.modems[m := None]) else l
  }

  // A function that registers or closes callbacks of another kind
  function Use(l: Lib, bus: Bus, registered: bool): Lib {
    match Get(l, bus)
    case None => l
    case Some(n) => Destroy(n.(registered := registered))
  }

  // --------------------------------------------------------- the invariant

  predicate IsParked(modems: map<Path, Option<Sups>>, c: Call, a: nat) {
    c.id in ParkedAt(modems, c.modem) && ParkedAt(modems, c.modem)[c.id] == a
  }

  /** Keys lie in 1..counter, and records and entries correspond one to one. */
  ghost predicate TableOk(table: map<nat, nat>, counter: nat, records: map<nat, Call>) {
    && (forall id :: id in table ==>
          1 <= id <= counter && table[id] in records && records[table[id]].id == id)
    && (forall a :: a in records ==> records[a].id in table && table[records[a].id] == a)
  }

  /** There is a table of parked calls exactly while there is no proxy, and what it holds
      are live calls of that modem. */
  ghost predicate ModemsOk(modems: map<Path, Option<Sups>>, records: map<nat, Call>) {
    && (forall m :: m in modems && modems[m].Some? ==>
          (modems[m].value.proxy <==> modems[m].value.parked.None?))
    && (forall m, id :: id in ParkedAt(modems, m) ==>
          var a := ParkedAt(modems, m)[id];
          a in records && records[a].id == id && records[a].modem == m && records[a].kind != GetClir)
    && (forall a :: a in records && records[a].kind != GetClir ==>
          records[a].modem in modems && modems[records[a].modem].Some?)
  }

  /** Every live call is in exactly one of three places: parked, in flight, or inside its
      callback (busy). */
  ghost predicate PlacesOk(modems: map<Path, Option<Sups>>, records: map<nat, Call>,
                           inFlight: set<nat>, busy: set<nat>) {
    forall a :: a in records ==>
      if a in busy then !IsParked(modems, records[a], a) && a !in inFlight
      else IsParked(modems, records[a], a) <==> a !in inFlight
  }

  predicate HasProxy(modems: map<Path, Option<Sups>>, m: Path) {
    m in modems && modems[m].Some? && modems[m].value.proxy
  }

  /** Nothing but a caller-identity request is in flight without a proxy to carry it. */
  ghost predicate ProxiedOk(modems: map<Path, Option<Sups>>, records: map<nat, Call>, inFlight: set<nat>) {
    forall a :: a in inFlight && a in records && records[a].kind != GetClir ==> HasProxy(modems, records[a].modem)
  }

  /** What is in flight is what was asked for, and exactly the calls submitted with a
      command can be cancelled at the bus. */
  ghost predicate SubmittedOk(records: map<nat, Call>, cancellables: map<nat, bool>,
                              inFlight: map<nat, string>, busy: set<nat>) {
    && busy <= records.Keys
    && inFlight.Keys <= records.Keys
    && cancellables.Keys <= records.Keys
    && (forall a :: a in inFlight ==> inFlight[a] == Command(records[a].kind))
    && (forall a :: a in records && a !in busy ==>
          (a in cancellables <==> a in inFlight && records[a].kind != GetClir))
  }

  /** No callback has run for a live call, exactly one for every other. */
  ghost predicate DeliveredOk(live: set<nat>, busy: set<nat>, delivered: seq<nat>) {
    && (forall a :: a in live ==> a < |delivered|)
    && (forall a :: 0 <= a < |delivered| ==> delivered[a] == if a in live && a !in busy then 0 else 1)
  }

  /** The table is NULL or not empty, and the context outlives every call. */
  ghost predicate ContextOk(l: Lib) {
    && (l.table.Some? ==> l.table.value != map[])
    && (l.table.None? ==> l.counter == 0)
    && (!l.initialized ==> l.table.None? && l.modems == map[])
  }

  ghost predicate Inv(l: Lib, busy: set<nat>) {
    && TableOk(Table(l), l.counter, l.records)
    && ModemsOk(l.modems, l.records)
    && PlacesOk(l.modems, l.records, l.inFlight.Keys, busy)
    && ProxiedOk(l.modems, l.records, l.inFlight.Keys)
    && SubmittedOk(l.records, l.cancellables, l.inFlight, busy)
    && DeliveredOk(l.records.Keys, busy, l.delivered)
    && ContextOk(l)
  }
}
