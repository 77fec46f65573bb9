/** Every step of the library keeps the invariant of ServiceCalls, whatever its clients
    do, inside a callback or outside. */
module ServiceCallSafety {
  import opened Options
  import opened ServiceCalls

  // ------------------------------------------------- what every step keeps

  lemma LiveHasTable(l: Lib, a: nat)
    requires TableOk(Table(l), l.counter, l.records) && a in l.records
    ensures l.table.Some?
  {
  }

  lemma GetKeeps(l: Lib, bus: Bus, busy: set<nat>)
    requires Inv(l, busy)
    ensures Get(l, bus).Some? ==> Inv(Get(l, bus).value, busy) && Get(l, bus).value.initialized
    ensures Get(l, bus).Some? ==>
      var n := Get(l, bus).value;
      n.records == l.records && n.delivered == l.delivered && Table(n) == Table(l)
    ensures l.records != map[] ==> Get(l, bus) == Some(l)
  {
    hide SupsOf;
    if !l.initialized && bus.Up? {
      ContextMade(l, bus.found);
    }
  }

  /** A context that is made has exactly the modems that the bus names, each with a proxy,
      with a table for calls that wait for one, or with neither. */
  lemma ContextMade(l: Lib, found: map<Path, Interface>)
    requires !l.initialized
    ensures Get(l, Down) == None
    ensures
      var r := Get(l, Up(found));
      && r.Some?
      && var n := r.value;
         && n == l.(initialized := true, registered := false, modems := n.modems)
         && n.modems.Keys == found.Keys
         && forall m :: m in found ==>
              && (n.modems[m].Some? <==> found[m] != Missing)
              && (HasProxy(n.modems, m) <==> found[m] == Ready)
              && (n.modems[m].Some? ==> n.modems[m].value.parked == if found[m] == Ready then None else Some(map[]))
  {
  }

  lemma NoRecordsNoTable(l: Lib)
    requires TableOk(Table(l), l.counter, l.records) && ContextOk(l) && l.records == map[]
    ensures l.table.None?
  {
    assert forall id :: id !in Table(l);
  }

  /** The context is torn down exactly when no callback is registered and no call lives. */
  lemma DestroyKeeps(l: Lib, busy: set<nat>)
    requires Inv(l, busy)
    ensures Inv(Destroy(l), busy)
    ensures l.records != map[] ==> Destroy(l) == l
    ensures Destroy(l).records == l.records && Destroy(l).delivered == l.delivered
    ensures Table(Destroy(l)) == Table(l)
    ensures
      var n := Destroy(l);
      && (n.initialized <==> l.initialized && (l.registered || l.records != map[]))
      && n.modems == if n.initialized then l.modems else map[]
  {
    if l.records == map[] {
      NoRecordsNoTable(l);
    }
    forall a | a in l.records ensures l.table.Some? {
      LiveHasTable(l, a);
    }
    assert l.table.None? ==> l.records == map[];
  }

  ghost predicate ProxiesOk(modems: map<Path, Option<Sups>>) {
    forall k :: k in modems && modems[k].Some? ==> (modems[k].value.proxy <==> modems[k].value.parked.None?)
  }

  // The modems of live calls are there
  ghost predicate Homes(modems: map<Path, Option<Sups>>, records: map<nat, Call>) {
    forall a :: a in records && records[a].kind != GetClir ==>
      records[a].modem in modems && modems[records[a].modem].Some?
  }

  /** A change of the modems that moves no parked call. */
  lemma SameParkedKeeps(l: Lib, modems: map<Path, Option<Sups>>, busy: set<nat>)
    requires Inv(l, busy)
    requires forall k :: ParkedAt(modems, k) == ParkedAt(l.modems, k)
    requires ProxiesOk(modems) && Homes(modems, l.records)
    requires ProxiedOk(modems, l.records, l.inFlight.Keys)
    requires !l.initialized ==> modems == map[]
    ensures Inv(l.(modems := modems), busy)
  {
    hide ParkedAt, TableOk, DeliveredOk, SubmittedOk, ProxiedOk;
  }

  // A proxy that is there stays, and nothing is put in flight
  lemma ProxiedKept(before: map<Path, Option<Sups>>, after: map<Path, Option<Sups>>, records: map<nat, Call>,
                    inFlight: set<nat>, fewer: set<nat>)
    requires ProxiedOk(before, records, inFlight) && fewer <= inFlight
    requires forall k :: HasProxy(before, k) ==> HasProxy(after, k)
    ensures ProxiedOk(after, records, fewer)
  {
    hide HasProxy;
  }

  lemma WithSupsProxied(l: Lib, m: Path)
    requires m in l.modems
    ensures forall k :: HasProxy(WithSups(l, m).modems, k) <==> HasProxy(l.modems, k)
  {
  }

  lemma WithSupsParked(l: Lib, m: Path)
    requires m in l.modems
    ensures forall k :: ParkedAt(WithSups(l, m).modems, k) == ParkedAt(l.modems, k)
  {
  }

  lemma WithSupsKeeps(l: Lib, m: Path, busy: set<nat>)
    requires Inv(l, busy) && l.initialized && m in l.modems
    ensures Inv(WithSups(l, m), busy)
    ensures
      var n := WithSups(l, m);
      && n == l.(modems := n.modems) && m in n.modems && n.modems[m].Some?
  {
    hide ParkedAt, TableOk, DeliveredOk, SubmittedOk, PlacesOk, ProxiedOk, HasProxy;
    WithSupsParked(l, m);
    WithSupsProxied(l, m);
    ProxiedKept(l.modems, WithSups(l, m).modems, l.records, l.inFlight.Keys, l.inFlight.Keys);
    SameParkedKeeps(l, WithSups(l, m).modems, busy);
  }

  lemma RemoveTable(table: map<nat, nat>, counter: nat, records: map<nat, Call>, id: nat)
    requires TableOk(table, counter, records) && id in table
    ensures TableOk(table - {id}, counter, records - {table[id]})
  {
  }

  lemma RemoveModems(l: Lib, a: nat, busy: set<nat>)
    requires ModemsOk(l.modems, l.records) && PlacesOk(l.modems, l.records, l.inFlight.Keys, busy)
    requires ProxiedOk(l.modems, l.records, l.inFlight.Keys)
    requires a in busy && a in l.records
    ensures ProxiedOk(l.modems, l.records - {a}, l.inFlight.Keys)
    ensures ModemsOk(l.modems, l.records - {a})
    ensures PlacesOk(l.modems, l.records - {a}, l.inFlight.Keys, busy - {a})
  {
  }

  lemma RemoveSubmitted(l: Lib, a: nat, busy: set<nat>)
    requires SubmittedOk(l.records, l.cancellables, l.inFlight, busy)
    requires a in busy && a !in l.inFlight
    ensures SubmittedOk(l.records - {a}, l.cancellables - {a}, l.inFlight, busy - {a})
  {
  }

  lemma EmptyTable(counter: nat, records: map<nat, Call>)
    requires TableOk(map[], counter, records)
    ensures records == map[] && TableOk(map[], 0, records)
  {
    assert forall a :: a !in records;
  }

  lemma LiveEntry(l: Lib, a: nat)
    requires TableOk(Table(l), l.counter, l.records) && a in l.records
    ensures l.records[a].id in Table(l) && Table(l)[l.records[a].id] == a && l.table.Some?
  {
  }

  // Only the table and the counter
  lemma TakeKeeps(l: Lib, a: nat)
    requires TableOk(Table(l), l.counter, l.records) && a in l.records
    requires ContextOk(l)
    ensures
      var n := Take(l, l.records[a].id);
      && TableOk(Table(n), n.counter, l.records - {a})
      && ContextOk(n) && n == l.(table := n.table, counter := n.counter)
      && l.records[a].id !in Table(n)
  {
    var id := l.records[a].id;
    LiveEntry(l, a);
    RemoveTable(Table(l), l.counter, l.records, id);
    hide TableOk;
    var n := Take(l, id);
    assert Table(n) == Table(l) - {id};
    if Table(n) == map[] {
      EmptyTable(l.counter, l.records - {a});
    }
  }

  /** Removing a finished call: the id leaves the table, the record is freed. */
  lemma FinishKeeps(l: Lib, a: nat, busy: set<nat>)
    requires Inv(l, busy) && a in busy
    ensures a in l.records
    ensures var n := Finish(l, l.records[a].id);
      && Inv(n, busy - {a})
      && n.records == l.records - {a}
      && n.delivered == l.delivered
      && l.records[a].id !in Table(n)
      && n.inFlight == l.inFlight && n.cancellables == l.cancellables - {a}
      && (n.initialized <==> l.initialized && (l.registered || l.records != map[a := l.records[a]]))
  {
    BusyLive(l, a, busy);
    hide TableOk, ModemsOk, PlacesOk, ProxiedOk, SubmittedOk, ContextOk, Take, Destroy;
    LiveEntry(l, a);
    TakeKeeps(l, a);
    RemoveModems(l, a, busy);
    RemoveSubmitted(l, a, busy);
    var n := Remove(l, l.records[a].id);
    assert n.records == l.records - {a};
    assert n.records == map[] <==> l.records == map[a := l.records[a]];
    DestroyKeeps(n, busy - {a});
    DestroyOnly(n);
  }

  lemma BusyLive(l: Lib, a: nat, busy: set<nat>)
    requires Inv(l, busy) && a in busy
    ensures a in l.records && a !in l.inFlight
  {
  }

  lemma AnswerPlaces(l: Lib, a: nat, busy: set<nat>)
    requires PlacesOk(l.modems, l.records, l.inFlight.Keys, busy)
    requires SubmittedOk(l.records, l.cancellables, l.inFlight, busy) && a in l.inFlight
    ensures a in l.records && a !in busy
    ensures PlacesOk(l.modems, l.records, (l.inFlight - {a}).Keys, busy + {a})
    ensures SubmittedOk(l.records, l.cancellables, l.inFlight - {a}, busy + {a})
  {
    hide IsParked;
  }

  lemma CalledOnce(live: set<nat>, busy: set<nat>, delivered: seq<nat>, a: nat)
    requires DeliveredOk(live, busy, delivered) && a in live && a !in busy
    ensures a < |delivered| && delivered[a] == 0 && DeliveredOk(live, busy + {a}, delivered[a := delivered[a] + 1])
  {
  }

  /** An answer moves a call from in flight into its callback. */
  lemma AnswerKeeps(l: Lib, a: nat, busy: set<nat>)
    requires Inv(l, busy) && a in l.inFlight
    ensures a in l.records && a !in busy && a < |l.delivered|
    ensures Inv(Answer(l, a), busy + {a})
    ensures Answer(l, a) == l.(inFlight := l.inFlight - {a}, delivered := l.delivered[a := 1])
  {
    hide TableOk, ModemsOk, IsParked, PlacesOk, ProxiedOk, SubmittedOk, DeliveredOk;
    AnswerPlaces(l, a, busy);
    ProxiedKept(l.modems, l.modems, l.records, l.inFlight.Keys, (l.inFlight - {a}).Keys);
    CalledOnce(l.records.Keys, busy, l.delivered, a);
  }

  lemma UnparkModems(l: Lib, a: nat)
    requires ModemsOk(l.modems, l.records) && a in l.records && IsParked(l.modems, l.records[a], a)
    ensures var n := Unpark(l, a);
      && ModemsOk(n.modems, n.records)
      && forall b :: b in l.records ==>
           (IsParked(n.modems, l.records[b], b) <==> IsParked(l.modems, l.records[b], b) && b != a)
  {
    var n := Unpark(l, a);
    var c := l.records[a];
    assert ParkedAt(n.modems, c.modem) == ParkedAt(l.modems, c.modem) - {c.id};
    assert forall k :: k != c.modem ==> ParkedAt(n.modems, k) == ParkedAt(l.modems, k);
  }

  lemma UnparkPlaces(l: Lib, a: nat, busy: set<nat>)
    requires ModemsOk(l.modems, l.records) && a in l.records && IsParked(l.modems, l.records[a], a)
    requires PlacesOk(l.modems, l.records, l.inFlight.Keys, busy) && a !in busy
    requires SubmittedOk(l.records, l.cancellables, l.inFlight, busy)
    ensures PlacesOk(Unpark(l, a).modems, l.records, l.inFlight.Keys, busy + {a})
    ensures SubmittedOk(l.records, l.cancellables, l.inFlight, busy + {a})
  {
    hide ModemsOk, IsParked;
    UnparkModems(l, a);
  }

  lemma UnparkProxied(l: Lib, a: nat)
    requires a in l.records
    ensures forall k :: HasProxy(Unpark(l, a).modems, k) <==> HasProxy(l.modems, k)
  {
  }

  /** So does cancelling a parked call. */
  lemma UnparkKeeps(l: Lib, a: nat, busy: set<nat>)
    requires Inv(l, busy) && a in l.records && a !in busy && IsParked(l.modems, l.records[a], a)
    ensures a < |l.delivered| && Inv(Called(Unpark(l, a), a), busy + {a})
  {
    hide TableOk, ModemsOk, IsParked, PlacesOk, ProxiedOk, HasProxy, SubmittedOk, DeliveredOk;
    UnparkModems(l, a);
    UnparkProxied(l, a);
    ProxiedKept(l.modems, Unpark(l, a).modems, l.records, l.inFlight.Keys, l.inFlight.Keys);
    UnparkPlaces(l, a, busy);
    CalledOnce(l.records.Keys, busy, l.delivered, a);
  }

  // ------------------------------------------------------- a call is accepted

  lemma AddTable(table: map<nat, nat>, counter: nat, records: map<nat, Call>, a: nat, c: Call)
    requires TableOk(table, counter, records) && a !in records && c.id == counter + 1
    ensures c.id !in table && TableOk(table[c.id := a], counter + 1, records[a := c])
  {
  }

  lemma AddModems(modems: map<Path, Option<Sups>>, records: map<nat, Call>, a: nat, c: Call)
    requires ModemsOk(modems, records) && a !in records
    requires c.kind == GetClir || (c.modem in modems && modems[c.modem].Some?)
    ensures ModemsOk(modems, records[a := c])
    ensures !IsParked(modems, c, a)
  {
  }

  lemma AddDelivered(live: set<nat>, busy: set<nat>, delivered: seq<nat>)
    requires DeliveredOk(live, busy, delivered) && busy <= live
    ensures |delivered| !in live && DeliveredOk(live + {|delivered|}, busy, delivered + [0])
  {
  }

  // The new call is submitted
  lemma AddInFlight(l: Lib, a: nat, c: Call, busy: set<nat>)
    requires PlacesOk(l.modems, l.records, l.inFlight.Keys, busy)
    requires SubmittedOk(l.records, l.cancellables, l.inFlight, busy)
    requires a !in l.records && !IsParked(l.modems, c, a)
    requires ProxiedOk(l.modems, l.records, l.inFlight.Keys) && (c.kind != GetClir ==> HasProxy(l.modems, c.modem))
    ensures ProxiedOk(l.modems, l.records[a := c], (l.inFlight[a := Command(c.kind)]).Keys)
    ensures PlacesOk(l.modems, l.records[a := c], (l.inFlight[a := Command(c.kind)]).Keys, busy)
    ensures c.kind != GetClir ==>
      SubmittedOk(l.records[a := c], l.cancellables[a := false], l.inFlight[a := Command(c.kind)], busy)
    ensures c.kind == GetClir ==>
      SubmittedOk(l.records[a := c], l.cancellables, l.inFlight[a := Command(c.kind)], busy)
  {
    hide IsParked, Command, HasProxy;
  }

  // The new call is parked
  lemma ParkedAfterPark(modems: map<Path, Option<Sups>>, m: Path, id: nat, a: nat)
    requires m in modems && modems[m].Some? && modems[m].value.parked.Some?
    ensures
      var n := Park(modems, m, id, a);
      && ParkedAt(n, m) == ParkedAt(modems, m)[id := a]
      && (forall k :: k != m ==> ParkedAt(n, k) == ParkedAt(modems, k))
      && n.Keys == modems.Keys
      && (forall k :: k in n ==> (n[k].Some? <==> modems[k].Some?))
      && (forall k :: k in n && n[k].Some? ==>
            n[k].value.proxy == modems[k].value.proxy && (n[k].value.parked.None? <==> modems[k].value.parked.None?))
  {
  }

  lemma AddParkedModems(modems: map<Path, Option<Sups>>, records: map<nat, Call>, m: Path, a: nat, c: Call)
    requires ModemsOk(modems, records) && a in records && records[a] == c
    requires c.kind != GetClir && c.modem == m && m in modems && modems[m].Some? && modems[m].value.parked.Some?
    ensures ModemsOk(Park(modems, m, c.id, a), records)
  {
    ParkedAfterPark(modems, m, c.id, a);
    hide ParkedAt, Park;
  }

  lemma AddParkedPlaces(l: Lib, m: Path, a: nat, c: Call, busy: set<nat>)
    requires m in l.modems && l.modems[m].Some? && l.modems[m].value.parked.Some?
    requires c.modem == m && c.id !in Table(l) && a !in l.records && a !in busy && a !in l.inFlight
    requires TableOk(Table(l), l.counter, l.records)
    requires PlacesOk(l.modems, l.records, l.inFlight.Keys, busy)
    ensures PlacesOk(Park(l.modems, m, c.id, a), l.records[a := c], l.inFlight.Keys, busy)
  {
    ParkedAfterPark(l.modems, m, c.id, a);
    hide ParkedAt, Park;
  }

  lemma AddParkedSubmitted(l: Lib, a: nat, c: Call, busy: set<nat>)
    requires a !in l.records
    requires SubmittedOk(l.records, l.cancellables, l.inFlight, busy)
    ensures SubmittedOk(l.records[a := c], l.cancellables, l.inFlight, busy) && a !in busy && a !in l.inFlight
  {
    hide Command;
  }

  lemma AddParkedProxied(l: Lib, m: Path, a: nat, c: Call)
    requires ProxiedOk(l.modems, l.records, l.inFlight.Keys) && a !in l.records && a !in l.inFlight
    requires m in l.modems && l.modems[m].Some?
    ensures ProxiedOk(Park(l.modems, m, c.id, a), l.records[a := c], l.inFlight.Keys)
  {
    assert forall k :: HasProxy(Park(l.modems, m, c.id, a), k) <==> HasProxy(l.modems, k);
    hide HasProxy, Park;
  }

  // Where the call is put, and what that leaves alone
  lemma Placement(l: Lib, m: Path, kind: Kind)
    requires m in l.modems && l.modems[m].Some? && (l.modems[m].value.proxy <==> l.modems[m].value.parked.None?)
    ensures
      var a, id := Next(l), l.counter + 1;
      var n := Destroy(DoCall(Add(l, kind, m), m, a));
      if HasProxy(l.modems, m) then
        && n.inFlight == l.inFlight[a := Command(kind)] && n.modems == l.modems
        && n.cancellables == l.cancellables[a := false]
      else
        && n.inFlight == l.inFlight && n.cancellables == l.cancellables && !HasProxy(n.modems, m)
        && ParkedAt(n.modems, m) == ParkedAt(l.modems, m)[id := a]
        && forall k :: k != m ==> ParkedAt(n.modems, k) == ParkedAt(l.modems, k)
  {
    hide Command;
    if !HasProxy(l.modems, m) {
      ParkedAfterPark(l.modems, m, l.counter + 1, Next(l));
      hide ParkedAt;
    }
  }

  lemma ParkedCounter(l: Lib, m: Path, busy: set<nat>)
    requires Inv(l, busy)
    ensures l.counter + 1 !in ParkedAt(l.modems, m)
    ensures m in l.modems && l.modems[m].Some? ==> (l.modems[m].value.proxy <==> l.modems[m].value.parked.None?)
    ensures HasProxy(l.modems, m) ==> ParkedAt(l.modems, m) == map[]
  {
    hide PlacesOk, ProxiedOk, SubmittedOk, DeliveredOk;
  }

  // Where Start puts it, on the context as it is by then
  lemma PlacementInside(l: Lib, m: Path, kind: Kind, busy: set<nat>)
    requires Inv(l, busy) && l.initialized && m in l.modems
    ensures
      var n := Destroy(DoCall(Add(WithSups(l, m), kind, m), m, Next(l)));
      Placed(l, n, m, kind, l.counter + 1)
  {
    hide Inv, Destroy, DoCall, Command, WithSups, HasProxy, ParkedAt, Add;
    WithSupsKeeps(l, m, busy);
    WithSupsParked(l, m);
    WithSupsProxied(l, m);
    WithProxy(l, m);
    ParkedCounter(WithSups(l, m), m, busy);
    Placement(WithSups(l, m), m, kind);
  }

  // Submitted with its command if there was a proxy, parked if not; no other call moves
  ghost predicate Placed(l: Lib, n: Lib, m: Path, kind: Kind, id: nat) {
    if HasProxy(l.modems, m) then
      && n.inFlight == l.inFlight[Next(l) := Command(kind)] && n.modems == l.modems
      && n.cancellables == l.cancellables[Next(l) := false] && ParkedAt(n.modems, m) == map[]
    else
      && n.inFlight == l.inFlight && n.cancellables == l.cancellables && !HasProxy(n.modems, m)
      && id !in ParkedAt(l.modems, m) && ParkedAt(n.modems, m) == ParkedAt(l.modems, m)[id := Next(l)]
      && forall k :: k != m ==> ParkedAt(n.modems, k) == ParkedAt(l.modems, k)
  }

  /** An accepted call is submitted if its modem has a proxy, and parked if not. */
  lemma StartPlaces(l: Lib, m: Path, kind: Kind, bus: Bus, busy: set<nat>)
    requires Inv(l, busy) && Start(l, m, kind, bus).1 != 0
    ensures Get(l, bus).Some?
    ensures Placed(Get(l, bus).value, Start(l, m, kind, bus).0, m, kind, Start(l, m, kind, bus).1)
  {
    hide Inv, Get, Destroy, DoCall, WithSups, Placed, Start, Add;
    GetKeeps(l, bus, busy);
    StartUnfolds(l, m, kind, bus, busy);
    PlacementInside(Get(l, bus).value, m, kind, busy);
  }

  lemma StartUnfolds(l: Lib, m: Path, kind: Kind, bus: Bus, busy: set<nat>)
    requires Inv(l, busy) && Start(l, m, kind, bus).1 != 0
    ensures Get(l, bus).Some? && m in Get(l, bus).value.modems
    ensures
      var l1 := Get(l, bus).value;
      var l2 := WithSups(l1, m);
      && m in l2.modems && l2.modems[m].Some? && Next(l1) in Add(l2, kind, m).records
      && Start(l, m, kind, bus) == (Destroy(DoCall(Add(l2, kind, m), m, Next(l1))), l1.counter + 1)
  {
    hide Inv, Get, Destroy, DoCall;
    GetKeeps(l, bus, busy);
  }

  lemma GetInFlight(l: Lib, bus: Bus)
    ensures Get(l, bus).Some? ==>
      var n := Get(l, bus).value;
      && n.inFlight == l.inFlight && n.cancellables == l.cancellables
      && (!l.initialized ==> !n.registered)
    ensures Destroy(l).inFlight == l.inFlight
    ensures l.initialized ==> Get(l, bus) == Some(l)
    ensures forall n :: Get(l, bus) == Some(n) ==> Destroy(n).inFlight == l.inFlight
  {
  }

  lemma WithProxy(l: Lib, m: Path)
    requires m in l.modems
    ensures HasProxy(l.modems, m) ==> WithSups(l, m) == l
  {
  }

  lemma PlacedMeans(l0: Lib, l: Lib, n: Lib, m: Path, kind: Kind, id: nat, busy: set<nat>)
    requires Inv(l0, busy) && l.delivered == l0.delivered && l.inFlight == l0.inFlight
    requires Placed(l, n, m, kind, id)
    ensures Next(l) in n.inFlight <==> HasProxy(l.modems, m)
    ensures IsParked(n.modems, Call(id, kind, m), Next(l)) <==> !HasProxy(l.modems, m)
    ensures Next(l) in n.inFlight ==> n.inFlight[Next(l)] == Command(kind)
    ensures forall b :: b in l0.records ==> (b in n.inFlight <==> b in l0.inFlight)
  {
    NextIsFresh(l0, busy);
    hide TableOk, ModemsOk, PlacesOk, ProxiedOk, DeliveredOk, HasProxy, ParkedAt, Command;
  }

  /** An accepted call gets an id that no live call has and a record of its own; nothing
      happens to the others. It is refused exactly when there is no such modem. */
  lemma StartKeeps(l: Lib, m: Path, kind: Kind, bus: Bus, busy: set<nat>)
    requires Inv(l, busy) && kind != GetClir
    ensures
      var (n, id) := Start(l, m, kind, bus);
      && Inv(n, busy)
      && (id != 0 <==> Get(l, bus).Some? && m in Get(l, bus).value.modems)
      && if id == 0 then
           && n.records == l.records && n.delivered == l.delivered && n.inFlight == l.inFlight
           && (n.initialized ==> l.initialized)
         else
           && Accepted(l, n, id, kind, m)
           && (Next(l) in n.inFlight <==> HasProxy(Get(l, bus).value.modems, m))
           && (IsParked(n.modems, Call(id, kind, m), Next(l)) <==> !HasProxy(Get(l, bus).value.modems, m))
           && (Next(l) in n.inFlight ==> n.inFlight[Next(l)] == Command(kind))
           && forall b :: b in l.records ==> (b in n.inFlight <==> b in l.inFlight)
  {
    hide Inv, Get, Destroy, WithSups, DoCall, Placed, HasProxy, IsParked, Command;
    GetInFlight(l, bus);
    if Start(l, m, kind, bus).1 != 0 {
      StartPlaces(l, m, kind, bus, busy);
      GetKeeps(l, bus, busy);
      PlacedMeans(l, Get(l, bus).value, Start(l, m, kind, bus).0, m, kind, Start(l, m, kind, bus).1, busy);
    }
    GetKeeps(l, bus, busy);
    if Get(l, bus).Some? {
      var l1 := Get(l, bus).value;
      DestroyKeeps(l1, busy);
      if m in l1.modems {
        WithSupsKeeps(l1, m, busy);
        StartWithSups(WithSups(l1, m), m, kind, busy);
      }
    }
  }

  // What accepting means
  predicate Accepted(l: Lib, n: Lib, id: nat, kind: Kind, m: Path) {
    var a := Next(l);
    && id !in Table(l) && a !in l.records
    && id in Table(n) && Table(n)[id] == a
    && n.records == l.records[a := Call(id, kind, m)]
    && n.delivered == l.delivered + [0]
  }

  lemma StartWithSups(l: Lib, m: Path, kind: Kind, busy: set<nat>)
    requires Inv(l, busy) && kind != GetClir && l.initialized
    requires m in l.modems && l.modems[m].Some?
    ensures
      var l2 := Add(l, kind, m);
      var n := Destroy(DoCall(l2, m, Next(l)));
      Inv(n, busy) && Accepted(l, n, l2.counter, kind, m)
  {
    assert l.modems[m].value.proxy <==> l.modems[m].value.parked.None?;
    hide TableOk, ModemsOk, PlacesOk, ProxiedOk, SubmittedOk, DeliveredOk, IsParked, Command, Destroy, DoCall, Accepted;
    var l2 := Add(l, kind, m);
    if l.modems[m].value.proxy {
      SubmitKeeps(l, m, kind, busy);
    } else {
      ParkKeeps(l, m, kind, busy);
    }
    var n := DoCall(l2, m, Next(l));
    DestroyKeeps(n, busy);
    AcceptedByAdd(l, kind, m, busy);
  }

  lemma AcceptedByAdd(l: Lib, kind: Kind, m: Path, busy: set<nat>)
    requires Inv(l, busy) && m in l.modems && l.modems[m].Some?
    ensures
      var l2 := Add(l, kind, m);
      var n := DoCall(l2, m, Next(l));
      Accepted(l, n, l2.counter, kind, m) && n.records != map[]
  {
    hide ModemsOk, PlacesOk, ProxiedOk, SubmittedOk, DeliveredOk;
    NextIsFresh(l, busy);
    AddTable(Table(l), l.counter, l.records, Next(l), Call(l.counter + 1, kind, m));
  }

  lemma SubmitKeeps(l: Lib, m: Path, kind: Kind, busy: set<nat>)
    requires Inv(l, busy) && kind != GetClir && l.initialized
    requires m in l.modems && l.modems[m].Some? && l.modems[m].value.proxy
    ensures Inv(DoCall(Add(l, kind, m), m, Next(l)), busy)
  {
    hide TableOk, ModemsOk, PlacesOk, ProxiedOk, SubmittedOk, DeliveredOk, IsParked, Command;
    var a, c := Next(l), Call(l.counter + 1, kind, m);
    NextIsFresh(l, busy);
    AddTable(Table(l), l.counter, l.records, a, c);
    AddModems(l.modems, l.records, a, c);
    AddInFlight(l, a, c, busy);
  }

  lemma ParkKeeps(l: Lib, m: Path, kind: Kind, busy: set<nat>)
    requires Inv(l, busy) && kind != GetClir && l.initialized
    requires m in l.modems && l.modems[m].Some? && !l.modems[m].value.proxy && l.modems[m].value.parked.Some?
    ensures Inv(DoCall(Add(l, kind, m), m, Next(l)), busy)
  {
    hide TableOk, ModemsOk, PlacesOk, ProxiedOk, SubmittedOk, DeliveredOk, IsParked, Park, Command;
    var a, c := Next(l), Call(l.counter + 1, kind, m);
    NextIsFresh(l, busy);
    AddTable(Table(l), l.counter, l.records, a, c);
    AddModems(l.modems, l.records, a, c);
    AddParkedSubmitted(l, a, c, busy);
    AddParkedModems(l.modems, l.records[a := c], m, a, c);
    AddParkedPlaces(l, m, a, c, busy);
    AddParkedProxied(l, m, a, c);
  }

  lemma NextIsFresh(l: Lib, busy: set<nat>)
    requires Inv(l, busy)
    ensures Next(l) !in l.records
    ensures forall r :: r == l.records.Keys + {Next(l)} ==> DeliveredOk(r, busy, l.delivered + [0])
  {
    hide PlacesOk, ModemsOk, ProxiedOk;
    AddDelivered(l.records.Keys, busy, l.delivered);
  }

  /** The same for the request whose id nobody is told. */
  lemma StartClirKeeps(l: Lib, manager: bool, bus: Bus, busy: set<nat>)
    requires Inv(l, busy)
    ensures
      var (n, ok) := StartClir(l, manager, bus);
      && Inv(n, busy)
      && (ok <==> Get(l, bus).Some? && manager)
      && (if !ok then n.records == l.records && n.delivered == l.delivered
          else Accepted(l, n, n.counter, GetClir, ""))
      && n.inFlight == (if ok then l.inFlight[Next(l) := ""] else l.inFlight)
      && (!ok && n.initialized ==> l.initialized)
  {
    hide Inv, Get, Destroy, Accepted;
    GetInFlight(l, bus);
    GetKeeps(l, bus, busy);
    if Get(l, bus).Some? {
      var l1 := Get(l, bus).value;
      DestroyKeeps(l1, busy);
      if manager {
        ClirInFlight(l1, busy);
        var l2 := Add(l1, GetClir, "");
        DestroyKeeps(l2.(inFlight := l2.inFlight[Next(l1) := Command(GetClir)]), busy);
        DestroyOnly(l2.(inFlight := l2.inFlight[Next(l1) := Command(GetClir)]));
        AcceptedOnlyReads(l, l1, l2.(inFlight := l2.inFlight[Next(l1) := Command(GetClir)]));
      }
    }
  }

  lemma DestroyOnly(l: Lib)
    ensures var n := Destroy(l); n == l.(initialized := n.initialized, modems := n.modems)
  {
  }

  lemma AcceptedOnlyReads(l: Lib, l1: Lib, n: Lib)
    requires Accepted(l1, n, n.counter, GetClir, "") && n.table.Some?
    requires Table(l) == Table(l1) && l.records == l1.records && l.delivered == l1.delivered
    ensures Accepted(l, Destroy(n), Destroy(n).counter, GetClir, "")
  {
  }

  lemma ClirInFlight(l: Lib, busy: set<nat>)
    requires Inv(l, busy) && l.initialized
    ensures
      var l2 := Add(l, GetClir, "");
      var n := l2.(inFlight := l2.inFlight[Next(l) := Command(GetClir)]);
      Inv(n, busy) && Accepted(l, n, n.counter, GetClir, "")
  {
    hide TableOk, ModemsOk, PlacesOk, ProxiedOk, SubmittedOk, DeliveredOk, IsParked, Command;
    var a, c := Next(l), Call(l.counter + 1, GetClir, "");
    NextIsFresh(l, busy);
    AddTable(Table(l), l.counter, l.records, a, c);
    AddModems(l.modems, l.records, a, c);
    AddInFlight(l, a, c, busy);
  }

  // ------------------------------------------------------ the proxy appears

  lemma ParkedSet(l: Lib, m: Path)
    requires ModemsOk(l.modems, l.records) && TableOk(Table(l), l.counter, l.records)
    requires m in l.modems
    ensures forall a :: a in ParkedAt(l.modems, m).Values <==>
      a in l.records && l.records[a].modem == m && IsParked(l.modems, l.records[a], a)
  {
    forall a | a in ParkedAt(l.modems, m).Values
      ensures a in l.records && l.records[a].modem == m && IsParked(l.modems, l.records[a], a)
    {
      var id :| id in ParkedAt(l.modems, m) && ParkedAt(l.modems, m)[id] == a;
    }
  }

  lemma FlushPlaces(l: Lib, m: Path, busy: set<nat>)
    requires ModemsOk(l.modems, l.records) && TableOk(Table(l), l.counter, l.records)
    requires PlacesOk(l.modems, l.records, l.inFlight.Keys, busy) && m in l.modems
    ensures
      var s := ParkedAt(l.modems, m).Values;
      PlacesOk(l.modems[m := Some(Sups(true, None))], l.records, l.inFlight.Keys + s, busy)
  {
    ParkedSet(l, m);
    var modems := l.modems[m := Some(Sups(true, None))];
    assert ParkedAt(modems, m) == map[];
    assert forall k :: k != m ==> ParkedAt(modems, k) == ParkedAt(l.modems, k);
    hide TableOk, ModemsOk, ParkedAt;
  }

  lemma FlushProxied(l: Lib, m: Path)
    requires ModemsOk(l.modems, l.records) && ProxiedOk(l.modems, l.records, l.inFlight.Keys) && m in l.modems
    ensures
      var s := ParkedAt(l.modems, m).Values;
      ProxiedOk(l.modems[m := Some(Sups(true, None))], l.records, l.inFlight.Keys + s)
  {
    var modems := l.modems[m := Some(Sups(true, None))];
    assert forall k :: HasProxy(l.modems, k) ==> HasProxy(modems, k);
    assert HasProxy(modems, m);
    hide HasProxy, ParkedAt;
  }

  lemma FlushModems(l: Lib, m: Path)
    requires ModemsOk(l.modems, l.records) && m in l.modems
    ensures ModemsOk(l.modems[m := Some(Sups(true, None))], l.records)
  {
    var modems := l.modems[m := Some(Sups(true, None))];
    assert ParkedAt(modems, m) == map[];
    assert forall k :: k != m ==> ParkedAt(modems, k) == ParkedAt(l.modems, k);
    hide ParkedAt;
  }

  lemma FlushSubmitted(l: Lib, s: set<nat>, busy: set<nat>)
    requires SubmittedOk(l.records, l.cancellables, l.inFlight, busy)
    requires s <= l.records.Keys
    requires forall a :: a in s ==> l.records[a].kind != GetClir
    ensures var n := Flush(l, s); SubmittedOk(l.records, n.cancellables, n.inFlight, busy)
  {
    hide Command;
  }

  lemma FlushKeeps(l: Lib, m: Path, busy: set<nat>)
    requires Inv(l, busy) && l.initialized && m in l.modems
    ensures
      var s := ParkedAt(l.modems, m).Values;
      Inv(Flush(l, s).(modems := l.modems[m := Some(Sups(true, None))]), busy)
  {
    hide TableOk, DeliveredOk, PlacesOk, ProxiedOk, SubmittedOk, ModemsOk, ParkedAt, IsParked, Command;
    FlushProxied(l, m);
    var s := ParkedAt(l.modems, m).Values;
    ParkedSet(l, m);
    ParkedKinds(l, m);
    FlushPlaces(l, m, busy);
    FlushModems(l, m);
    FlushSubmitted(l, s, busy);
    assert Flush(l, s).inFlight.Keys == l.inFlight.Keys + s;
  }

  lemma ParkedKinds(l: Lib, m: Path)
    requires ModemsOk(l.modems, l.records) && m in l.modems
    ensures forall a :: a in ParkedAt(l.modems, m).Values ==> a in l.records && l.records[a].kind != GetClir
  {
  }

  /** When a proxy appears the invariant is kept, and no call but its modem's moves. */
  lemma ProxyKeeps(l: Lib, m: Path, created: bool, busy: set<nat>)
    requires Inv(l, busy) && l.initialized && m in l.modems
    ensures
      var n := ProxyAppears(l, m, created);
      && Inv(n, busy)
      && n == l.(modems := n.modems, cancellables := n.cancellables, inFlight := n.inFlight)
  {
    hide Inv, WithSups, ParkedAt;
    WithSupsKeeps(l, m, busy);
    FlushKeeps(WithSups(l, m), m, busy);
  }

  /** Exactly the modem's parked calls are submitted then, each with its own command. */
  lemma ProxySubmits(l: Lib, m: Path, busy: set<nat>, a: nat)
    requires Inv(l, busy) && l.initialized && m in l.modems && a in l.records
    ensures
      var n := ProxyAppears(l, m, true);
      && !IsParked(n.modems, Call(l.records[a].id, l.records[a].kind, m), a)
      && (a in n.inFlight <==> a in l.inFlight || (l.records[a].modem == m && IsParked(l.modems, l.records[a], a)))
      && (a in n.inFlight ==> n.inFlight[a] == Command(l.records[a].kind))
  {
    WithSupsParked(l, m);
    hide TableOk, PlacesOk, ParkedAt, Command;
    var l1 := WithSups(l, m);
    ParkedSet(l, m);
    assert ParkedAt(l1.modems, m) == ParkedAt(l.modems, m);
    assert ParkedAt(ProxyAppears(l, m, true).modems, m) == map[] by { NothingParked(l1.modems, m); }
  }

  /** What is submitted then can be cancelled at the bus and has not been. */
  lemma ProxyCancellables(l: Lib, m: Path, busy: set<nat>, a: nat)
    requires Inv(l, busy) && l.initialized && m in l.modems && a in l.records
    ensures
      var n := ProxyAppears(l, m, true);
      if l.records[a].modem == m && IsParked(l.modems, l.records[a], a)
      then a in n.cancellables && !n.cancellables[a]
      else (a in n.cancellables <==> a in l.cancellables)
           && (a in n.cancellables ==> n.cancellables[a] == l.cancellables[a])
  {
    WithSupsParked(l, m);
    hide TableOk, PlacesOk, ProxiedOk, ParkedAt, Requests, Inv;
    ParkedSetIn(l, m, busy);
    assert ParkedAt(WithSups(l, m).modems, m) == ParkedAt(l.modems, m);
  }

  lemma ParkedSetIn(l: Lib, m: Path, busy: set<nat>)
    requires Inv(l, busy) && m in l.modems
    ensures forall a :: a in ParkedAt(l.modems, m).Values <==>
      a in l.records && l.records[a].modem == m && IsParked(l.modems, l.records[a], a)
  {
    ParkedSet(l, m);
  }

  /** If no proxy can be made, calls stay where they are; if one is, the modem has it from
      then on. Other modems are left alone. */
  lemma ProxyOutcome(l: Lib, m: Path, created: bool)
    requires m in l.modems
    ensures
      var n := ProxyAppears(l, m, created);
      && (created ==> HasProxy(n.modems, m) && ParkedAt(n.modems, m) == map[])
      && n.modems.Keys == l.modems.Keys
      && (forall k :: k in l.modems && k != m ==> n.modems[k] == l.modems[k])
      && (!created ==>
            && (HasProxy(n.modems, m) <==> HasProxy(l.modems, m)) && ParkedAt(n.modems, m) == ParkedAt(l.modems, m)
            && n.inFlight == l.inFlight && n.cancellables == l.cancellables)
  {
    hide Flush, WithSups, ParkedAt;
    WithSupsParked(l, m);
    WithSupsProxied(l, m);
    WithSupsOnly(l, m);
    FlushModemsSame(WithSups(l, m), ParkedAt(WithSups(l, m).modems, m).Values);
    NothingParked(WithSups(l, m).modems, m);
  }

  lemma WithSupsOnly(l: Lib, m: Path)
    requires m in l.modems
    ensures
      var n := WithSups(l, m);
      && n == l.(modems := n.modems) && n.modems.Keys == l.modems.Keys
      && forall k :: k in l.modems && k != m ==> n.modems[k] == l.modems[k]
  {
  }

  lemma FlushModemsSame(l: Lib, s: set<nat>)
    ensures Flush(l, s).modems == l.modems
  {
  }

  lemma NothingParked(modems: map<Path, Option<Sups>>, m: Path)
    ensures ParkedAt(modems[m := Some(Sups(true, None))], m) == map[]
  {
  }

  // ------------------------------------------------------- what is sent

  // Section 6.5.2 of 3GPP TS 22.030: the prefix of a procedure, a service, its end
  datatype Procedure = Activation | Deactivation | Interrogation

  function Mmi(p: Procedure, service: string): string {
    (match p case Activation => "*" case Deactivation => "#" case Interrogation => "*#") + service + "#"
  }

  /** Call waiting is service 43; conditional call forwarding is 004, of which teleservice
      11 is asked for. Setting activates or deactivates, getting interrogates. */
  lemma CommandIsMmi(k: Kind)
    ensures k == GetWaiting ==> Command(k) == Mmi(Interrogation, "43")
    ensures k == SetWaiting(true) ==> Command(k) == Mmi(Activation, "43")
    ensures k == SetWaiting(false) ==> Command(k) == Mmi(Deactivation, "43")
    ensures k == GetForwarding ==> Command(k) == Mmi(Interrogation, "004" + "**" + "11")
  {
    assert Mmi(Interrogation, "43") == "*#43#" && Mmi(Activation, "43") == "*43#";
    assert Mmi(Deactivation, "43") == "#43#" && Mmi(Interrogation, "004" + "**" + "11") == "*#004**11#";
  }
}
