/** The library's context as the object it is (lib/context.h), updated in place by
    lib/service-call.c, lib/sups.c, lib/net.c and lib/context.c. Every method does what
    the function of ServiceCalls with the same purpose says. */
module CellContext {
  import opened Options
  import opened ServiceCalls
  import Runs = ServiceCallRuns

  lemma CancellablesOne(c: map<nat, bool>, s: set<nat>, a: nat)
    ensures Cancellables(c, s)[a := false] == Cancellables(c, s + {a})
  {
  }

  lemma RequestsOne(f: map<nat, string>, records: map<nat, Call>, s: set<nat>, a: nat)
    requires a in records
    ensures Requests(f, records, s)[a := Command(records[a].kind)] == Requests(f, records, s + {a})
  {
    hide Command;
  }

  /** Flushing call by call: one more record is submitted. */
  lemma FlushOne(l: Lib, s: set<nat>, a: nat)
    requires a in l.records
    ensures Submit(Flush(l, s), a) == Flush(l, s + {a})
  {
    hide Cancellables, Requests, Command;
    CancellablesOne(l.cancellables, s, a);
    RequestsOne(l.inFlight, l.records, s, a);
  }

  lemma FlushNothing(l: Lib)
    ensures Flush(l, {}) == l
  {
    assert Cancellables(l.cancellables, {}) == l.cancellables;
    assert Requests(l.inFlight, l.records, {}) == l.inFlight;
  }

  // What a flush leaves alone
  lemma FlushOnly(l: Lib, s: set<nat>)
    ensures var n := Flush(l, s); n.modems == l.modems && n.records == l.records
  {
  }

  lemma FlushElsewhere(l: Lib, s: set<nat>, modems: map<Path, Option<Sups>>)
    ensures Flush(l.(modems := modems), s) == Flush(l, s).(modems := modems)
  {
  }

  lemma WithSupsParks(l: Lib, m: Path)
    requires m in l.modems
    ensures ParkedAt(WithSups(l, m).modems, m) == ParkedAt(l.modems, m)
  {
  }

  lemma ParkedIs(modems: map<Path, Option<Sups>>, m: Path)
    requires m in modems && modems[m].Some?
    ensures
      var sd := modems[m].value;
      ParkedAt(modems, m) == if sd.parked.Some? then sd.parked.value else map[]
  {
  }

  lemma Overwritten<K, V>(m: map<K, V>, k: K, v: V, v': V)
    ensures m[k := v][k := v'] == m[k := v']
  {
  }

  lemma TakeOnly(l: Lib, id: nat)
    ensures var n := Take(l, id); n == l.(table := n.table, counter := n.counter)
    ensures id !in Table(l) ==> Take(l, id) == l
  {
  }

  class Context {
    var initialized: bool
    var registered: bool
    var modems: map<Path, Option<Sups>>
    var serviceCalls: Option<map<nat, nat>>
    var serviceCallId: nat
    var records: map<nat, Call>
    var cancellables: map<nat, bool>
    var inFlight: map<nat, string>
    var delivered: seq<nat>

    function View(): Lib
      reads this
    {
      Lib(initialized, registered, modems, serviceCalls, serviceCallId, records, cancellables, inFlight, delivered)
    }

    constructor ()
      ensures View() == Lib(false, false, map[], None, 0, map[], map[], map[], [])
    {
      initialized, registered, modems := false, false, map[];
      serviceCalls, serviceCallId := None, 0;
      records, cancellables, inFlight, delivered := map[], map[], map[], [];
    }

    // ------------------------------------------- lib/service-call.c

    method NextId() returns (id: nat)
      modifies this
      ensures id == old(serviceCallId) + 1 && View() == old(View()).(counter := id)
    {
      serviceCallId := serviceCallId + 1;
      id := serviceCallId;
    }

    /** A new record under an id, in a table that is made when there is none. */
    method AddCall(id: nat, kind: Kind, modem: Path) returns (a: nat)
      modifies this
      ensures a == Next(old(View()))
      ensures View() == Insert(old(View()), id, kind, modem)
    {
      a := |delivered|;
      records := records[a := Call(id, kind, modem)];
      delivered := delivered + [0];
      if serviceCalls.None? {
        serviceCalls := Some(map[]);
      }
      serviceCalls := Some(serviceCalls.value[id := a]);
    }

    /** The last call to go takes the table with it and resets the counter. */
    method TakeCall(id: nat) returns (a: Option<nat>)
      modifies this
      ensures View() == Take(old(View()), id)
      ensures a == if id in Table(old(View())) then Some(Table(old(View()))[id]) else None
    {
      if serviceCalls.None? || id !in serviceCalls.value {
        return None;
      }
      a := Some(serviceCalls.value[id]);
      serviceCalls := Some(serviceCalls.value - {id});
      if serviceCalls.value == map[] {
        serviceCallId := 0;
        serviceCalls := None;
      }
    }

    method RemoveCall(id: nat)
      modifies this
      ensures View() == Remove(old(View()), id)
    {
      hide Take;
      TakeOnly(View(), id);
      var a := TakeCall(id);
      if a.Some? {
        records := records - {a.value};
        cancellables := cancellables - {a.value};
      }
    }

    // ------------------------------------------------ lib/context.c

    method Get(bus: Bus) returns (ok: bool)
      modifies this
      ensures ok == ServiceCalls.Get(old(View()), bus).Some?
      ensures View() == if ok then ServiceCalls.Get(old(View()), bus).value else old(View())
    {
      if initialized {
        return true;
      }
      if bus.Down? {
        return false;
      }
      modems := map m | m in bus.found :: SupsOf(bus.found[m]);
      registered := false;
      initialized := true;
      ok := true;
    }

    method Release()
      modifies this
      ensures View() == Destroy(old(View()))
    {
      if !initialized || registered || serviceCalls.Some? {
        return;
      }
      modems := map[];
      initialized := false;
    }

    // --------------------------------------------------- lib/sups.c

    /** The supplementary-services data of a modem, made when it is first asked for. */
    method SupsDataGet(path: Path) returns (ok: bool)
      modifies this
      ensures ok == (path in old(modems))
      ensures View() == if ok then WithSups(old(View()), path) else old(View())
      ensures ok ==> path in modems && modems[path].Some?
    {
      if path !in modems {
        return false;
      }
      if modems[path].None? {
        modems := modems[path := Some(FREE_SUPS)];
      }
      ok := true;
    }

    /** Submitted if there is a proxy, parked if not. */
    method DoCall(path: Path, a: nat)
      requires path in modems && modems[path].Some? && a in records
      modifies this
      ensures View() == ServiceCalls.DoCall(old(View()), path, a)
      ensures old(HasProxy(modems, path)) ==>
        a in inFlight && inFlight == old(inFlight)[a := inFlight[a]] && modems == old(modems)
      ensures !old(HasProxy(modems, path)) ==> inFlight == old(inFlight) && cancellables == old(cancellables)
      ensures !old(HasProxy(modems, path)) && old(modems[path].value.parked.Some?) ==>
        ParkedAt(modems, path) == old(ParkedAt(modems, path))[records[a].id := a]
    {
      var sd := modems[path].value;
      if !sd.proxy {
        if sd.parked.Some? {
          sd := sd.(parked := Some(sd.parked.value[records[a].id := a]));
          modems := modems[path := Some(sd)];
        }
        return;
      }
      cancellables := cancellables[a := false];
      var command;
      match records[a].kind {
        case GetClir => command := "";
        case GetWaiting => command := "*#43#";
        case SetWaiting(enable) => command := if enable then "*43#" else "#43#";
        case GetForwarding => command := "*#004**11#";
      }
      inFlight := inFlight[a := command];
    }

    /** A request is accepted under a fresh id, or refused with 0. */
    method SupsServiceCall(path: Path, kind: Kind, bus: Bus) returns (id: nat)
      modifies this
      ensures (View(), id) == Start(old(View()), path, kind, bus)
      ensures View() == Runs.Step(Runs.System(old(View()), {}), Runs.Started(path, kind, bus)).lib
    {
      hide Destroy, ServiceCalls.Get, ServiceCalls.DoCall;
      var ok := Get(bus);
      if !ok {
        return 0;
      }
      ok := SupsDataGet(path);
      if !ok {
        Release();
        return 0;
      }
      id := NextId();
      var a := AddCall(id, kind, path);
      DoCall(path, a);
      Release();
    }

    /** connui_cell_modem_add_supplementary_services: once there is a proxy, every parked
        call is submitted, in whatever order the table gives them. */
    method AddSupplementaryServices(path: Path, created: bool)
      requires path in modems && (modems[path].Some? ==> !modems[path].value.proxy)
      requires ParkedAt(modems, path).Values <= records.Keys
      modifies this
      ensures View() == ProxyAppears(old(View()), path, created)
      ensures View() == Runs.Step(Runs.System(old(View()), {}), Runs.Proxied(path, created)).lib
    {
      hide Flush, ParkedAt;
      WithSupsParks(View(), path);
      var ok := SupsDataGet(path);
      if created {
        SetProxy(path);
      }
    }

    method SetProxy(path: Path)
      requires path in modems && modems[path].Some?
      requires ParkedAt(modems, path).Values <= records.Keys
      modifies this
      ensures View()
        == Flush(old(View()), ParkedAt(old(modems), path).Values).(modems := old(modems)[path := Some(Sups(true, None))])
    {
      hide Flush, ParkedAt;
      ghost var before := View();
      var sd := modems[path].value;
      var parked := if sd.parked.Some? then sd.parked.value else map[];
      ParkedIs(modems, path);
      Overwritten(modems, path, Some(sd.(proxy := true)), Some(Sups(true, None)));
      modems := modems[path := Some(sd.(proxy := true))];
      FlushElsewhere(before, parked.Values, modems);
      FlushParked(path, parked);
      modems := modems[path := Some(Sups(true, None))];
    }

    // The loop over the table of parked calls
    method FlushParked(path: Path, parked: map<nat, nat>)
      requires path in modems && modems[path].Some? && modems[path].value.proxy
      requires parked.Values <= records.Keys
      modifies this
      ensures View() == Flush(old(View()), parked.Values)
    {
      hide Flush, Command;
      ghost var flushing := View();
      FlushNothing(flushing);
      var todo := parked.Keys;
      ghost var done: set<nat> := {};
      while todo != {}
        invariant todo <= parked.Keys && done <= parked.Values
        invariant forall id :: id in parked ==> id in todo || parked[id] in done
        invariant View() == Flush(flushing, done)
        decreases |todo|
      {
        var id :| id in todo;
        FlushOnly(flushing, done);
        FlushOne(flushing, done, parked[id]);
        DoCall(path, parked[id]);
        done := done + {parked[id]};
        todo := todo - {id};
      }
      assert done == parked.Values;
    }

    // ---------------------------------------------------- lib/net.c

    method GetCallerIdAnonymity(manager: bool, bus: Bus) returns (ok: bool)
      modifies this
      ensures (View(), ok) == StartClir(old(View()), manager, bus)
      ensures View() == Runs.Step(Runs.System(old(View()), {}), Runs.StartedClir(manager, bus)).lib
    {
      ok := Get(bus);
      if !ok {
        return;
      }
      ok := manager;
      if manager {
        var id := NextId();
        var a := AddCall(id, GetClir, "");
        inFlight := inFlight[a := Command(GetClir)];
      }
      Release();
    }
  }
}
