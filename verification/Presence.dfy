/** The presence state machine on values: what the handlers of the daemon do to
    the tracked stations, the debouncer's queue and the broker.

    Each handler is one atomic step; a timer takes two, expiring and running. */
module Presence {
  import opened Wrappers
  import opened Mac
  import opened Topics
  import opened Broker
  import opened Debounce

  datatype Station = Station(name: string, mac: MAC, connected: bool, bssid: string,
                             connectedAt: Time, disconnectedAt: Time)

  const ZERO_STATION := Station("", MAC(0, 0, 0, 0, 0, 0), false, "", ZeroTime, ZeroTime)

  datatype Settings = Settings(debounce: int, autodiscovery: bool)

  /** A MAC in the stations implies that the configuration tracks it. */
  datatype World = World(stations: map<MAC, Station>, queue: Queue, log: Log)

  predicate Announces(ts: seq<Timer>) {
    forall i :: 0 <= i < |ts| ==> ts[i].cb.AnnounceAway?
  }

  ghost predicate WorldOk(w: World) {
    && QueueOk(w.queue)
    && (forall m: MAC :: Announces(TimersOf(w.queue, m)))
    && (forall m :: m in w.stations ==> w.stations[m].mac == m)
  }

  function StationAt(stations: map<MAC, Station>, m: MAC): Station {
    if m in stations then stations[m] else ZERO_STATION
  }

  // ----- connect and disconnect events -----

  function HomeAttributes(sta: Station, ap: AccessPoint): Payload {
    Attributes(sta.name, sta.mac, true, ap.ssid, ap.bssid, Some(sta.connectedAt), None)
  }

  function Connect(w: World, ap: AccessPoint, m: MAC, now: int): World
    requires WorldOk(w)
  {
    if m !in w.stations then w
    else
      assert SlotOk(SlotOf(w.queue, m));
      var was := w.stations[m];
      var sta := was.(bssid := ap.bssid, connected := true, connectedAt := At(now));
      var w1 := World(w.stations[m := sta], Cancel(w.queue, m).0, w.log);
      if was.connected && was.bssid == ap.bssid then w1
      else w1.(log := Push(Push(w.log, State(m), Some(Home)), Attrs(m), Some(HomeAttributes(sta, ap))))
  }

  function AwayAttributes(sta: Station, ap: AccessPoint): Payload {
    Attributes(sta.name, sta.mac, false, ap.ssid, ap.bssid, None, Some(sta.disconnectedAt))
  }

  function Disconnect(settings: Settings, w: World, ap: AccessPoint, m: MAC, now: int): World {
    if m !in w.stations then w
    else if w.stations[m].connected && w.stations[m].bssid != ap.bssid then w
    else
      var sta := w.stations[m].(connected := false, disconnectedAt := At(now));
      World(w.stations[m := sta],
            Enqueue(w.queue, m, AnnounceAway(ap), now + settings.debounce).0,
            w.log)
  }

  /** What a connect event is for: a tracked station is now connected on that access
      point, nothing is queued for it, and the broker says that it is home unless it was
      connected there already; an untracked one is ignored. */
  predicate CameHome(was: World, w: World, ap: AccessPoint, m: MAC, at: int) {
    if m !in was.stations then w == was
    else
      && m in w.stations
      && w.stations[m] == was.stations[m].(connected := true, bssid := ap.bssid, connectedAt := At(at))
      && m !in w.queue.entries
      && (forall o :: o in was.stations && o != m ==> o in w.stations && w.stations[o] == was.stations[o])
      && if was.stations[m].connected && was.stations[m].bssid == ap.bssid then w.log == was.log
         else Retained(w.log, State(m)) == Some(Home)
  }

  /** What a disconnect event is for: a tracked station that is not connected elsewhere is
      now disconnected, and will be announced so after the debounce time, or when it would
      have been anyway; any other is ignored. The broker is told nothing yet. */
  predicate WentAway(debounce: int, was: World, w: World, ap: AccessPoint, m: MAC, at: int) {
    if m !in was.stations || (was.stations[m].connected && was.stations[m].bssid != ap.bssid) then w == was
    else
      && m in w.stations
      && w.stations[m] == was.stations[m].(connected := false, disconnectedAt := At(at))
      && w.log == was.log
      && m in w.queue.entries
      && (forall o :: o in was.stations && o != m ==> o in w.stations && w.stations[o] == was.stations[o])
      && if m in was.queue.entries then w.queue == was.queue
         else
           var (i, ts) := (w.queue.entries[m], TimersOf(w.queue, m));
           i < |ts| && ts[i] == Timer(at + debounce, Armed, AnnounceAway(ap))
  }

  lemma {:induction false} ConnectBringsHome(w: World, ap: AccessPoint, m: MAC, at: int)
    requires WorldOk(w)
    ensures CameHome(w, Connect(w, ap, m, at), ap, m, at)
  {
    if m in w.stations {
      CancelSlots(w.queue, m);
      var r := Connect(w, ap, m, at);
      assert SlotOf(r.queue, m).entry.None?;
    }
  }

  lemma {:induction false} DisconnectSendsAway(settings: Settings, w: World, ap: AccessPoint, m: MAC, at: int)
    requires WorldOk(w)
    ensures WentAway(settings.debounce, w, Disconnect(settings, w, ap, m, at), ap, m, at)
  {
  }

  // ----- timers -----

  predicate CanExpire(w: World, m: MAC, i: nat, now: int) {
    && i < |TimersOf(w.queue, m)|
    && TimersOf(w.queue, m)[i].phase.Armed?
    && TimersOf(w.queue, m)[i].deadline <= now
  }

  predicate CanRun(w: World, m: MAC, i: nat) {
    i < |TimersOf(w.queue, m)| && TimersOf(w.queue, m)[i].phase.Expired?
  }

  /** The goroutine of timer i: its section under the mutex, then its callback. */
  function RunTimer(w: World, m: MAC, i: nat): World
    requires CanRun(w, m, i)
  {
    var cb := TimersOf(w.queue, m)[i].cb;
    var (q, took) := Take(w.queue, m, i);
    if !took then w.(queue := q)
    else
      var w1 := w.(queue := Start(q, m, i));
      if cb.NoCallback? then w1
      else
        var said := Push(w.log, State(m), Some(NotHome));
        if m !in w.stations then w1.(log := said)
        else w1.(log := Push(said, Attrs(m), Some(AwayAttributes(w.stations[m], cb.ap))))
  }

  // ----- configuration -----

  datatype Device = Device(mac: MAC, name: string)

  datatype Change = NoChange | Removed | Added | Updated

  /** A station that an access point lists, and for how long it is connected. */
  datatype Link = Link(ap: AccessPoint, connectedFor: int)

  /** The answer to asking every access point for its stations. */
  datatype Snapshot =
    | Listing(links: map<MAC, Link>)
    | Unsupported  // an access point does not know the command
    | Failed

  datatype Diff = Diff(stations: map<MAC, Station>, changes: map<MAC, Change>, hasUpdates: bool)

  function DiffOne(d: Diff, dev: Device): Diff {
    var sta := StationAt(d.stations, dev.mac);
    var change := if dev.mac !in d.stations then Added
                  else if sta.name != dev.name then Updated
                  else NoChange;
    Diff(d.stations[dev.mac := sta.(name := dev.name, mac := dev.mac)],
         d.changes[dev.mac := change],
         d.hasUpdates || !change.NoChange?)
  }

  /** The first loop: it reads the map of stations that it writes. */
  function DiffAll(stations: map<MAC, Station>, devices: seq<Device>): Diff {
    if |devices| == 0 then Diff(stations, map[], false)
    else DiffOne(DiffAll(stations, devices[..|devices| - 1]), devices[|devices| - 1])
  }

  /** The second loop drops the stations that no device named. */
  function Plan(stations: map<MAC, Station>, devices: seq<Device>): Diff {
    var d := DiffAll(stations, devices);
    var gone := d.stations.Keys - d.changes.Keys;
    Diff(d.stations - gone, d.changes + (map m | m in gone :: Removed), d.hasUpdates)
  }

  function Links(plan: Diff, snapshot: Snapshot): map<MAC, Link> {
    if plan.hasUpdates && snapshot.Listing? then snapshot.links else map[]
  }

  function Register(settings: Settings, log: Log, sta: Station): Log {
    if settings.autodiscovery then Push(log, Discovery(sta.mac), Some(Tracker(sta.name, sta.mac))) else log
  }

  function Unregister(settings: Settings, log: Log, m: MAC): Log {
    if settings.autodiscovery then Push(log, Discovery(m), None) else log
  }

  /** One iteration of the third loop. */
  function ApplyChange(settings: Settings, w: World, m: MAC, change: Change, links: map<MAC, Link>, now: int): World
    requires WorldOk(w)
  {
    assert SlotOk(SlotOf(w.queue, m));
    var sta := StationAt(w.stations, m);
    match change
    case NoChange => w
    case Updated => w.(log := Register(settings, w.log, sta))
    case Added =>
      var registered := Register(settings, w.log, sta);
      if m !in links then
        w.(stations := w.stations[m := sta.(connected := false)],
           log := Push(registered, State(m), Some(NotHome)))
      else
        var link := links[m];
        var here := sta.(connected := true, connectedAt := At(now - link.connectedFor), bssid := link.ap.bssid);
        World(w.stations[m := here], Cancel(w.queue, m).0,
              Push(Push(registered, State(m), Some(Home)), Attrs(m), Some(HomeAttributes(here, link.ap))))
    case Removed =>
      World(w.stations, Cancel(w.queue, m).0, Unregister(settings, w.log, m))
  }

  lemma {:induction false} CancelKeepsOk(q: Queue, m: MAC)
    requires QueueOk(q)
    requires forall o: MAC :: Announces(TimersOf(q, o))
    ensures SlotOk(SlotOf(q, m)) && QueueOk(Cancel(q, m).0)
    ensures forall o: MAC :: Announces(TimersOf(Cancel(q, m).0, o))
  {
    CancelSlots(q, m);
    var r := Cancel(q, m).0;
    forall o: MAC ensures Announces(TimersOf(r, o)) {
      assert Announces(TimersOf(q, o));
      if o != m {
        assert SlotOf(r, o) == SlotOf(q, o);
      }
    }
  }

  lemma {:induction false} ApplyChangeOk(settings: Settings, w: World, m: MAC, change: Change, links: map<MAC, Link>,
                                         now: int)
    requires WorldOk(w) && (change.Added? ==> m in w.stations)
    ensures var r := ApplyChange(settings, w, m, change, links, now);
            WorldOk(r) && r.stations.Keys == w.stations.Keys
  {
    CancelKeepsOk(w.queue, m);
  }

  /** The third loop, over the changes in some order. */
  function ApplyAll(settings: Settings, w: World, changes: map<MAC, Change>, links: map<MAC, Link>, now: int,
                    order: seq<MAC>): (r: World)
    requires WorldOk(w)
    requires forall i :: 0 <= i < |order| ==> order[i] in changes
    requires forall i :: 0 <= i < |order| && changes[order[i]].Added? ==> order[i] in w.stations
    ensures WorldOk(r) && r.stations.Keys == w.stations.Keys
  {
    if |order| == 0 then w
    else
      var n := |order| - 1;
      var before := ApplyAll(settings, w, changes, links, now, order[..n]);
      ApplyChangeOk(settings, before, order[n], changes[order[n]], links, now);
      ApplyChange(settings, before, order[n], changes[order[n]], links, now)
  }

  /** An order of iteration over the keys of a map. */
  ghost predicate IsOrder(order: seq<MAC>, keys: set<MAC>) {
    && (forall i, j :: 0 <= i < j < |order| ==> order[i] != order[j])
    && (forall m :: m in order <==> m in keys)
  }

  /** No device registers with a blank name. */
  predicate NamesGiven(settings: Settings, plan: Diff) {
    settings.autodiscovery ==>
      forall m :: m in plan.changes && (plan.changes[m].Added? || plan.changes[m].Updated?) ==>
        StationAt(plan.stations, m).name != ""
  }

  /** Of these MACs, none registers with a blank name. */
  predicate NamedSoFar(settings: Settings, stations: map<MAC, Station>, changes: map<MAC, Change>, ms: seq<MAC>) {
    settings.autodiscovery ==>
      forall i :: 0 <= i < |ms| && ms[i] in changes && (changes[ms[i]].Added? || changes[ms[i]].Updated?) ==>
        StationAt(stations, ms[i]).name != ""
  }

  lemma {:induction false} NamedGrows(settings: Settings, stations: map<MAC, Station>, changes: map<MAC, Change>,
                                      ms: seq<MAC>, m: MAC)
    requires NamedSoFar(settings, stations, changes, ms) && m in changes
    requires settings.autodiscovery && (changes[m].Added? || changes[m].Updated?) ==> StationAt(stations, m).name != ""
    ensures NamedSoFar(settings, stations, changes, ms + [m])
  {
  }

  lemma {:induction false} AllNamed(settings: Settings, plan: Diff, order: seq<MAC>)
    requires IsOrder(order, plan.changes.Keys) && NamedSoFar(settings, plan.stations, plan.changes, order)
    ensures NamesGiven(settings, plan)
  {
    forall m | m in plan.changes ensures exists i :: 0 <= i < |order| && order[i] == m {
      assert m in order;
    }
  }

  lemma {:induction false} OrderGrows(order: seq<MAC>, keys: set<MAC>, m: MAC)
    requires IsOrder(order, keys) && m !in keys
    ensures IsOrder(order + [m], keys + {m})
  {
    assert m !in order;
  }

  lemma {:induction false} ApplyAllGrows(settings: Settings, w: World, changes: map<MAC, Change>, links: map<MAC, Link>,
                                         now: int, order: seq<MAC>, m: MAC)
    requires WorldOk(w) && m in changes && (changes[m].Added? ==> m in w.stations)
    requires forall i :: 0 <= i < |order| ==> order[i] in changes
    requires forall i :: 0 <= i < |order| && changes[order[i]].Added? ==> order[i] in w.stations
    ensures ApplyAll(settings, w, changes, links, now, order + [m]) ==
            ApplyChange(settings, ApplyAll(settings, w, changes, links, now, order), m, changes[m], links, now)
  {
    assert (order + [m])[..|order|] == order;
  }

  function MACsOf(devices: seq<Device>): set<MAC> {
    set i | 0 <= i < |devices| :: devices[i].mac
  }

  lemma {:induction false} DiffAllGrows(stations: map<MAC, Station>, devices: seq<Device>, dev: Device)
    ensures DiffAll(stations, devices + [dev]) == DiffOne(DiffAll(stations, devices), dev)
  {
    assert (devices + [dev])[..|devices|] == devices;
  }

  /** A device is not tracked yet, or under another name. */
  predicate IsNew(stations: map<MAC, Station>, dev: Device) {
    dev.mac !in stations || stations[dev.mac].name != dev.name
  }

  predicate SomethingNew(stations: map<MAC, Station>, devices: seq<Device>) {
    exists i :: 0 <= i < |devices| && IsNew(stations, devices[i])
  }

  lemma {:induction false} NothingNewKeepsNames(stations: map<MAC, Station>, devices: seq<Device>)
    ensures var d := DiffAll(stations, devices);
            && (d.hasUpdates <==> SomethingNew(stations, devices))
            && (!d.hasUpdates ==>
                  d.stations.Keys == stations.Keys &&
                  forall m :: m in stations ==> d.stations[m].name == stations[m].name)
  {
    if |devices| > 0 {
      var n := |devices| - 1;
      var init := devices[..n];
      NothingNewKeepsNames(stations, init);
      assert forall i :: 0 <= i < n ==> init[i] == devices[i];
      assert SomethingNew(stations, devices) <==> SomethingNew(stations, init) || IsNew(stations, devices[n]) by {
        if i :| 0 <= i < n && IsNew(stations, devices[i]) {
          assert IsNew(stations, init[i]);
        }
      }
    }
  }

  /** The access points are asked exactly if some device is new. */
  lemma {:induction false} HasUpdatesExactly(stations: map<MAC, Station>, devices: seq<Device>)
    ensures Plan(stations, devices).hasUpdates <==> SomethingNew(stations, devices)
  {
    NothingNewKeepsNames(stations, devices);
  }

  lemma {:induction false} DiffAllKeys(stations: map<MAC, Station>, devices: seq<Device>)
    ensures var d := DiffAll(stations, devices);
            d.changes.Keys == MACsOf(devices) && d.stations.Keys == stations.Keys + d.changes.Keys
  {
    if |devices| > 0 {
      var n := |devices| - 1;
      var init := devices[..n];
      DiffAllKeys(stations, init);
      forall m | m in MACsOf(devices) ensures m in MACsOf(init) + {devices[n].mac} {
        var i :| 0 <= i < |devices| && devices[i].mac == m;
        assert i < n ==> init[i].mac == m;
      }
      forall m | m in MACsOf(init) ensures m in MACsOf(devices) {
        var i :| 0 <= i < |init| && init[i].mac == m;
        assert devices[i].mac == m;
      }
      assert MACsOf(devices) == MACsOf(init) + {devices[n].mac};
    }
  }

  lemma {:induction false} DiffAllFacts(stations: map<MAC, Station>, devices: seq<Device>)
    ensures var d := DiffAll(stations, devices);
            && d.stations.Keys == stations.Keys + d.changes.Keys
            && (forall m :: m in d.changes ==> d.stations[m].mac == m && !d.changes[m].Removed?)
            && (forall m :: m in d.changes && d.changes[m].Added? ==> d.hasUpdates && m !in stations)
            && (forall m :: m in stations && m !in d.changes ==> d.stations[m] == stations[m])
  {
    DiffAllKeys(stations, devices);
    if |devices| > 0 {
      DiffAllFacts(stations, devices[..|devices| - 1]);
    }
  }

  /** After the two loops the stations are those of the configuration, and the
      changes speak of these and of the ones that went. */
  lemma {:induction false} PlanFacts(stations: map<MAC, Station>, devices: seq<Device>)
    requires forall m :: m in stations ==> stations[m].mac == m
    ensures var p := Plan(stations, devices);
            && p.stations.Keys == MACsOf(devices)
            && p.changes.Keys == stations.Keys + MACsOf(devices)
            && (forall m :: m in p.stations ==> p.stations[m].mac == m)
            && (forall m :: m in p.changes ==> (p.changes[m].Removed? <==> m !in p.stations))
            && (forall m :: m in p.changes && p.changes[m].Added? ==> p.hasUpdates && m !in stations)
  {
    DiffAllKeys(stations, devices);
    DiffAllFacts(stations, devices);
  }

  predicate ConfigAccepted(settings: Settings, w: World, devices: seq<Device>, snapshot: Snapshot) {
    var plan := Plan(w.stations, devices);
    !(plan.hasUpdates && snapshot.Failed?) && NamesGiven(settings, plan)
  }

  function Configure(settings: Settings, w: World, devices: seq<Device>, snapshot: Snapshot, order: seq<MAC>,
                     now: int): (r: World)
    requires WorldOk(w)
    requires IsOrder(order, Plan(w.stations, devices).changes.Keys)
    ensures WorldOk(r)
  {
    var plan := Plan(w.stations, devices);
    PlanFacts(w.stations, devices);
    ApplyAll(settings, w.(stations := plan.stations), plan.changes, Links(plan, snapshot), now, order)
  }

  // ----- steps and runs -----

  datatype Event =
    | Configured(devices: seq<Device>, snapshot: Snapshot, order: seq<MAC>)
    | Connected(ap: AccessPoint, mac: MAC)
    | Disconnected(ap: AccessPoint, mac: MAC)
    | Expires(mac: MAC, i: nat)
    | Runs(mac: MAC, i: nat)

  datatype Step = Step(event: Event, at: int)

  /** The steps that are possible and end without an error. */
  ghost predicate Enabled(settings: Settings, w: World, st: Step) {
    match st.event
    case Configured(devices, snapshot, order) =>
      && IsOrder(order, Plan(w.stations, devices).changes.Keys)
      && ConfigAccepted(settings, w, devices, snapshot)
    case Connected(_, _) => true
    case Disconnected(_, _) => true
    case Expires(m, i) => CanExpire(w, m, i, st.at)
    case Runs(m, i) => CanRun(w, m, i)
  }

  ghost function Next(settings: Settings, w: World, st: Step): World
    requires WorldOk(w) && Enabled(settings, w, st)
  {
    match st.event
    case Configured(devices, snapshot, order) => Configure(settings, w, devices, snapshot, order, st.at)
    case Connected(ap, m) => Connect(w, ap, m, st.at)
    case Disconnected(ap, m) => Disconnect(settings, w, ap, m, st.at)
    case Expires(m, i) => w.(queue := Expire(w.queue, m, i))
    case Runs(m, i) => RunTimer(w, m, i)
  }

  lemma {:induction false} ConnectOk(w: World, ap: AccessPoint, m: MAC, now: int)
    requires WorldOk(w)
    ensures WorldOk(Connect(w, ap, m, now))
  {
    CancelKeepsOk(w.queue, m);
  }

  lemma {:induction false} DisconnectOk(settings: Settings, w: World, ap: AccessPoint, m: MAC, now: int)
    requires WorldOk(w)
    ensures WorldOk(Disconnect(settings, w, ap, m, now))
  {
    var deadline := now + settings.debounce;
    EnqueueSlots(w.queue, m, AnnounceAway(ap), deadline);
    var q := Enqueue(w.queue, m, AnnounceAway(ap), deadline).0;
    forall o: MAC ensures Announces(TimersOf(q, o)) {
      assert Announces(TimersOf(w.queue, o));
    }
  }

  lemma {:induction false} RunTimerOk(w: World, m: MAC, i: nat)
    requires WorldOk(w) && CanRun(w, m, i)
    ensures WorldOk(RunTimer(w, m, i))
  {
    TakeSlots(w.queue, m, i);
    var (q, took) := Take(w.queue, m, i);
    if took {
      StartSlots(q, m, i);
    }
    var r := RunTimer(w, m, i);
    forall o: MAC ensures Announces(TimersOf(r.queue, o)) {
      assert Announces(TimersOf(w.queue, o));
    }
  }

  lemma {:induction false} ExpireOk(w: World, m: MAC, i: nat, now: int)
    requires WorldOk(w) && CanExpire(w, m, i, now)
    ensures WorldOk(w.(queue := Expire(w.queue, m, i)))
  {
    ExpireSlots(w.queue, m, i);
    var q := Expire(w.queue, m, i);
    forall o: MAC ensures Announces(TimersOf(q, o)) {
      assert Announces(TimersOf(w.queue, o));
    }
  }

  /** No step leads out of the worlds that are in order. */
  lemma {:induction false} NextOk(settings: Settings, w: World, st: Step)
    requires WorldOk(w) && Enabled(settings, w, st)
    ensures WorldOk(Next(settings, w, st))
  {
    match st.event
    case Configured(_, _, _) =>
    case Connected(ap, m) => ConnectOk(w, ap, m, st.at);
    case Disconnected(ap, m) => DisconnectOk(settings, w, ap, m, st.at);
    case Expires(m, i) => ExpireOk(w, m, i, st.at);
    case Runs(m, i) => RunTimerOk(w, m, i);
  }

  /** Step i is possible and leads to the next world. That the world is in order, as Next
      asks, is not part of it: it is proved of every run. */
  ghost predicate Follows(settings: Settings, ws: seq<World>, sts: seq<Step>, i: nat) {
    && i < |sts| && i + 1 < |ws|
    && Enabled(settings, ws[i], sts[i])
    && (WorldOk(ws[i]) ==> ws[i + 1] == Next(settings, ws[i], sts[i]))
  }

  /** A run from a start in which nothing is tracked and nothing is queued. The
      log may hold messages of earlier processes. */
  ghost predicate Run(settings: Settings, ws: seq<World>, sts: seq<Step>) {
    && |ws| == |sts| + 1
    && ws[0].stations == map[] && ws[0].queue == EMPTY_QUEUE
    && (forall i :: 0 <= i < |sts| ==> Follows(settings, ws, sts, i))
    && (forall i, j :: 0 <= i <= j < |sts| ==> sts[i].at <= sts[j].at)
  }

  /** Every world of a run is in order: the first is, and every step keeps it. */
  lemma {:induction false} RunStaysOk(settings: Settings, ws: seq<World>, sts: seq<Step>, n: nat)
    requires Run(settings, ws, sts) && n <= |sts|
    ensures WorldOk(ws[n])
  {
    if n > 0 {
      RunStaysOk(settings, ws, sts, n - 1);
      assert Follows(settings, ws, sts, n - 1);
      NextOk(settings, ws[n - 1], sts[n - 1]);
    }
  }
}
