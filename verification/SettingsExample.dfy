/** One whole run, to see that runs park, flush, chain and finish calls. */
module SettingsExample {
  import opened Options
  import opened ServiceCalls
  import opened SettingsProtocol
  import opened SettingsRuns
  import Runs = ServiceCallRuns

  const WAITING := Value(1)
  const FORWARDING := Value(2)

  // The states after each of the five events
  function Ready(m: Path): World {
    START.(lib := START.lib.(initialized := true, registered := true, modems := map[m := Some(FREE_SUPS)]))
  }

  function Parked(m: Path): World {
    World(Ready(m).lib.(modems := map[m := Some(Sups(false, Some(map[1 := 0])))],
                        table := Some(map[1 := 0]), counter := 1,
                        records := map[0 := Call(1, GetWaiting, m)], delivered := [0]),
          Settings(1, 1, 0, false, false), 0)
  }

  function Submitted(m: Path): World {
    Parked(m).(lib := Parked(m).lib.(modems := map[m := Some(Sups(true, None))],
                                     cancellables := map[0 := false], inFlight := map[0 := "*#43#"]))
  }

  function Chained(m: Path): World {
    World(Submitted(m).lib.(table := Some(map[2 := 1]), counter := 2,
                            records := map[1 := Call(2, GetForwarding, m)], cancellables := map[1 := false],
                            inFlight := map[1 := "*#004**11#"], delivered := [1, 0]),
          Settings(1, 2, 0, true, false), 0)
  }

  function Finished(m: Path): World {
    World(Ready(m).lib.(modems := map[m := Some(Sups(true, None))], delivered := [1, 1]),
          Settings(0, 0, 0, true, true), 0)
  }

  function Events(m: Path): seq<Event> {
    [Elsewhere(Runs.Used(Up(map[m := Unreachable]), true)), Show(m, false, Down, Down),
     Elsewhere(Runs.Proxied(m, true)), Replied(0, WAITING, Down), Replied(1, FORWARDING, Down)]
  }

  lemma GetsReady(m: Path)
    ensures Enabled(START, Events(m)[0]) && Defined(START, Events(m)[0]) && Step(START, Events(m)[0]) == Ready(m)
  {
    var l := Get(START.lib, Up(map[m := Unreachable])).value;
    assert l.modems == map[m := Some(FREE_SUPS)];
  }

  lemma Parks(m: Path)
    ensures Enabled(Ready(m), Events(m)[1]) && Defined(Ready(m), Events(m)[1]) && Step(Ready(m), Events(m)[1]) == Parked(m)
  {
    var l := Add(Ready(m).lib, GetWaiting, m);
    assert l.table.value == map[1 := 0] && l.records == map[0 := Call(1, GetWaiting, m)];
    assert ServiceCalls.DoCall(l, m, 0).modems == Parked(m).lib.modems;
  }

  lemma Flushes(m: Path)
    ensures Enabled(Parked(m), Events(m)[2]) && Defined(Parked(m), Events(m)[2])
    ensures Step(Parked(m), Events(m)[2]) == Submitted(m)
  {
    var l := Parked(m).lib;
    assert ParkedAt(l.modems, m) == map[1 := 0];
    var p: map<nat, nat> := map[1 := 0];
    assert p[1] in p.Values && p.Values == {0};
    assert Cancellables(l.cancellables, {0}) == map[0 := false];
    assert Requests(l.inFlight, l.records, {0}) == map[0 := "*#43#"];
  }

  // Inside the callback of the first request, after the second was started
  function Inside(m: Path): Lib {
    Submitted(m).lib.(table := Some(map[1 := 0, 2 := 1]), counter := 2,
                      records := map[0 := Call(1, GetWaiting, m), 1 := Call(2, GetForwarding, m)],
                      cancellables := map[0 := false, 1 := false],
                      inFlight := map[1 := "*#004**11#"], delivered := [1, 0])
  }

  lemma StartsNext(m: Path)
    ensures Start(Answer(Submitted(m).lib, 0), m, GetForwarding, Down) == (Inside(m), 2)
  {
    var l := Answer(Submitted(m).lib, 0);
    assert l.inFlight == map[] && l.delivered == [1];
    var n := Start(l, m, GetForwarding, Down).0;
    assert n.table.value == map[1 := 0, 2 := 1];
    assert n.inFlight == map[1 := "*#004**11#"] && n.cancellables == map[0 := false, 1 := false];
    assert n.records == map[0 := Call(1, GetWaiting, m), 1 := Call(2, GetForwarding, m)];
    assert n.delivered == [1, 0];
  }

  lemma RemovesFirst(m: Path)
    ensures Finish(Inside(m), 1) == Chained(m).lib
  {
    var rest: map<nat, nat> := map[2 := 1];
    assert map[1 := 0, 2 := 1] - {1} == rest && 2 in rest;
    var f := Remove(Inside(m), 1);
    assert f.records == map[1 := Call(2, GetForwarding, m)] && f.cancellables == map[1 := false];
  }

  lemma Chains(m: Path)
    ensures Enabled(Submitted(m), Events(m)[3]) && Defined(Submitted(m), Events(m)[3])
    ensures Step(Submitted(m), Events(m)[3]) == Chained(m)
  {
    StartsNext(m);
    RemovesFirst(m);
    hide Start, Finish, Answer;
  }

  lemma Finishes(m: Path)
    ensures Enabled(Chained(m), Events(m)[4]) && Defined(Chained(m), Events(m)[4])
    ensures Step(Chained(m), Events(m)[4]) == Finished(m)
  {
    var l := Answer(Chained(m).lib, 1);
    assert l.inFlight == map[] && l.delivered == [1, 1];
    assert map[2 := 1] - {2} == map[];
    var f := Remove(l, 2);
    assert f.records == map[] && f.cancellables == map[];
  }

  /** A page shown before its modem has a proxy: the first request is parked, submitted
      when the proxy appears, and followed by the second; both flags are then known, both
      callbacks have run once, and nothing is pending. */
  lemma PageCompletes(m: Path)
    ensures IsRun(START, Events(m)) && NeverDangles(START, Events(m))
    ensures End(START, Events(m)) == Finished(m)
    ensures IsParked(Parked(m).lib.modems, Parked(m).lib.records[0], 0)
  {
    hide Enabled, Defined, Step, IsRun, NeverDangles, End;
    var es := Events(m);
    GetsReady(m);
    Parks(m);
    Flushes(m);
    Chains(m);
    Finishes(m);
    Runs5(START, Ready(m), Parked(m), Submitted(m), Chained(m), Finished(m), es);
  }

  lemma Runs5(w0: World, w1: World, w2: World, w3: World, w4: World, w5: World, es: seq<Event>)
    requires |es| == 5
    requires Enabled(w0, es[0]) && Defined(w0, es[0]) && Step(w0, es[0]) == w1
    requires Enabled(w1, es[1]) && Defined(w1, es[1]) && Step(w1, es[1]) == w2
    requires Enabled(w2, es[2]) && Defined(w2, es[2]) && Step(w2, es[2]) == w3
    requires Enabled(w3, es[3]) && Defined(w3, es[3]) && Step(w3, es[3]) == w4
    requires Enabled(w4, es[4]) && Defined(w4, es[4]) && Step(w4, es[4]) == w5
    ensures IsRun(w0, es) && NeverDangles(w0, es) && End(w0, es) == w5
  {
    hide Enabled, Defined, Step;
    assert es[1..][1..] == es[2..] && es[2..][1..] == es[3..] && es[3..][1..] == es[4..] && es[4..][1..] == [];
    Unwind(w4, es[4..]);
    Unwind(w3, es[3..]);
    Unwind(w2, es[2..]);
    Unwind(w1, es[1..]);
    Unwind(w0, es);
  }

  lemma Unwind(w: World, es: seq<Event>)
    requires es != [] && Enabled(w, es[0]) && Defined(w, es[0])
    requires IsRun(Step(w, es[0]), es[1..]) && NeverDangles(Step(w, es[0]), es[1..])
    ensures IsRun(w, es) && NeverDangles(w, es) && End(w, es) == End(Step(w, es[0]), es[1..])
  {
  }

  /** The same page given up before: the parked request is called back at once. */
  lemma PageGivenUp(m: Path)
    ensures Defined(Parked(m), Event.Cancel(Down))
    ensures
      Step(Parked(m), Event.Cancel(Down))
      == Ready(m).(lib := Ready(m).lib.(modems := map[m := Some(FREE_SUPS)], delivered := [1]))
  {
    var l := Called(Unpark(Parked(m).lib, 0), 0);
    assert map[1 := 0] - {1} == map[];
    assert l.modems == map[m := Some(FREE_SUPS)] && l.delivered == [1];
    var f := Remove(l, 1);
    assert f.records == map[] && f.cancellables == map[];
  }
}
