/** What a configuration does: the difference it finds, that the order of
    iteration does not matter, and that applying it again does nothing. */
module Reconcile {
  import opened Wrappers
  import opened Mac
  import opened Topics
  import opened Broker
  import opened Debounce
  import opened Presence
  import opened OneStation
  import opened Agreement

  /** Nobody can tell two worlds apart: equal stations, equal queues and timers,
      and on every topic the same messages in the same order. */
  ghost predicate Same(a: World, b: World) {
    && a.stations == b.stations
    && a.queue.entries == b.queue.entries
    && (forall m: MAC :: TimersOf(a.queue, m) == TimersOf(b.queue, m))
    && (forall t: Topic :: Channel(a.log, t) == Channel(b.log, t))
  }

  lemma {:induction false} SameByCells(a: World, b: World)
    requires forall m: MAC :: Project(a, m) == Project(b, m)
    ensures Same(a, b)
  {
    forall m: MAC
      ensures m in a.stations <==> m in b.stations
      ensures m in a.stations ==> a.stations[m] == b.stations[m]
      ensures m in a.queue.entries <==> m in b.queue.entries
      ensures m in a.queue.entries ==> a.queue.entries[m] == b.queue.entries[m]
      ensures TimersOf(a.queue, m) == TimersOf(b.queue, m)
      ensures Channel(a.log, State(m)) == Channel(b.log, State(m))
    {
      assert Project(a, m) == Project(b, m);
    }
    assert a.stations == b.stations;
    assert a.queue.entries == b.queue.entries;
    forall t: Topic ensures Channel(a.log, t) == Channel(b.log, t) {
      assert Project(a, t.mac) == Project(b, t.mac);
    }
  }

  lemma {:induction false} SameIffCells(a: World, b: World)
    ensures Same(a, b) <==> forall m: MAC :: Project(a, m) == Project(b, m)
  {
    if forall m: MAC :: Project(a, m) == Project(b, m) {
      SameByCells(a, b);
    }
  }

  /** Whatever order the runtime iterates over the changes in, the stations, the
      queue, and what every topic retains come out the same. */
  lemma {:induction false} OrderDoesNotMatter(settings: Settings, w: World, devices: seq<Device>, snapshot: Snapshot,
                                              order1: seq<MAC>, order2: seq<MAC>, now: int)
    requires WorldOk(w)
    requires IsOrder(order1, Plan(w.stations, devices).changes.Keys)
    requires IsOrder(order2, Plan(w.stations, devices).changes.Keys)
    ensures var r1 := Configure(settings, w, devices, snapshot, order1, now);
            var r2 := Configure(settings, w, devices, snapshot, order2, now);
            Same(r1, r2) && forall t: Topic :: Retained(r1.log, t) == Retained(r2.log, t)
  {
    var r1 := Configure(settings, w, devices, snapshot, order1, now);
    var r2 := Configure(settings, w, devices, snapshot, order2, now);
    forall m: MAC ensures Project(r1, m) == Project(r2, m) {
      ConfigureAt(settings, w, devices, snapshot, order1, now, m);
      ConfigureAt(settings, w, devices, snapshot, order2, now, m);
    }
    SameByCells(r1, r2);
  }

  // ----- the difference -----

  ghost predicate Distinct(devices: seq<Device>) {
    forall i, j :: 0 <= i < j < |devices| ==> devices[i].mac != devices[j].mac
  }

  lemma {:induction false} NamesOfAbsent(devices: seq<Device>, m: MAC)
    requires forall i :: 0 <= i < |devices| ==> devices[i].mac != m
    ensures NamesOf(devices, m) == []
  {
    if |devices| > 0 {
      NamesOfAbsent(devices[..|devices| - 1], m);
    }
  }

  lemma {:induction false} NamesOfDistinct(devices: seq<Device>, i: nat)
    requires Distinct(devices) && i < |devices|
    ensures NamesOf(devices, devices[i].mac) == [devices[i].name]
  {
    var n := |devices| - 1;
    if i < n {
      NamesOfDistinct(devices[..n], i);
    } else {
      NamesOfAbsent(devices[..n], devices[i].mac);
    }
  }

  lemma {:induction false} ChangeOfDevice(stations: map<MAC, Station>, devices: seq<Device>, i: nat)
    requires Distinct(devices) && i < |devices|
    ensures var (p, m) := (Plan(stations, devices), devices[i].mac);
            && m in p.changes && m in p.stations
            && (m !in stations ==>
                  && p.changes[m] == Added
                  && p.stations[m] == ZERO_STATION.(name := devices[i].name, mac := m))
            && (m in stations ==>
                  && p.changes[m] == (if stations[m].name != devices[i].name then Updated else NoChange)
                  && p.stations[m] == stations[m].(name := devices[i].name, mac := m))
  {
    var m := devices[i].mac;
    NamesOfDistinct(devices, i);
    NamesInPlace(m, StationOf(stations, m), [devices[i].name]);
    PlanAt(stations, devices, m);
  }

  /** The change of each MAC, although the loop that finds it writes the map it
      compares with: what the configuration brings and the stations lack is added,
      what it lacks and they have is removed, what both have under different names
      is updated. */
  lemma {:induction false} DifferenceIsCorrect(stations: map<MAC, Station>, devices: seq<Device>, i: nat, m: MAC)
    requires Distinct(devices)
    ensures var p := Plan(stations, devices);
            && p.stations.Keys == MACsOf(devices)
            && p.changes.Keys == stations.Keys + MACsOf(devices)
            && (m in stations && m !in MACsOf(devices) ==> p.changes[m] == Removed)
            && (i < |devices| && devices[i].mac !in stations ==>
                  && p.changes[devices[i].mac] == Added
                  && p.stations[devices[i].mac] == ZERO_STATION.(name := devices[i].name, mac := devices[i].mac))
            && (i < |devices| && devices[i].mac in stations ==>
                  var was := stations[devices[i].mac];
                  && p.changes[devices[i].mac] == (if was.name != devices[i].name then Updated else NoChange)
                  && p.stations[devices[i].mac] == was.(name := devices[i].name, mac := devices[i].mac))
  {
    DiffAllKeys(stations, devices);
    if m in stations && m !in MACsOf(devices) {
      NamesOfAbsent(devices, m);
      PlanAt(stations, devices, m);
    }
    if i < |devices| {
      ChangeOfDevice(stations, devices, i);
    }
  }

  // ----- what becomes of the stations -----

  lemma {:induction false} ListedKept(settings: Settings, m: MAC, c: Cell, names: seq<string>, link: Option<Link>,
                                      now: int)
    requires CellOk(m, c) && c.sta.Some? && names != []
    ensures var r := CellListed(settings, m, c, names, link, now);
            && r.sta == Some(c.sta.value.(name := names[|names| - 1]))
            && r.slot == c.slot && r.state == c.state && r.attrs == c.attrs
  {
    NamesInPlace(m, c.sta, names);
  }

  /** A new station is looked up in the listing only if it is named once. */
  lemma {:induction false} ListedNew(settings: Settings, m: MAC, c: Cell, names: seq<string>, link: Option<Link>,
                                     now: int)
    requires CellOk(m, c) && c.sta.None? && names != []
    ensures var r := CellListed(settings, m, c, names, link, now);
            && r.sta.Some? && r.sta.value.name == names[|names| - 1]
            && (|names| == 1 ==>
                  && (r.sta.value.connected <==> link.Some?)
                  && (link.Some? ==> r.sta.value.bssid == link.value.ap.bssid
                                     && r.sta.value.connectedAt == At(now - link.value.connectedFor))
                  && r.state == c.state + [Some(if link.Some? then Home else NotHome)])
            && (|names| >= 2 ==> !r.sta.value.connected && r.state == c.state)
  {
    NamesInPlace(m, c.sta, names);
  }

  lemma {:induction false} NamedWhenTracked(settings: Settings, w: World, devices: seq<Device>, snapshot: Snapshot,
                                            order: seq<MAC>, now: int, m: MAC)
    requires WorldOk(w) && IsOrder(order, Plan(w.stations, devices).changes.Keys)
    ensures var r := Configure(settings, w, devices, snapshot, order, now);
            r.stations.Keys == MACsOf(devices) && (m in r.stations <==> NamesOf(devices, m) != [])
  {
    PlanFacts(w.stations, devices);
    PlanAt(w.stations, devices, m);
  }

  lemma {:induction false} KeptStation(settings: Settings, w: World, devices: seq<Device>, snapshot: Snapshot,
                                       order: seq<MAC>, now: int, m: MAC)
    requires WorldOk(w) && IsOrder(order, Plan(w.stations, devices).changes.Keys)
    requires NamesOf(devices, m) != [] && m in w.stations
    ensures var r := Configure(settings, w, devices, snapshot, order, now);
            var names := NamesOf(devices, m);
            && m in r.stations && r.stations[m] == w.stations[m].(name := names[|names| - 1])
            && SlotOf(r.queue, m) == SlotOf(w.queue, m)
            && Channel(r.log, State(m)) == Channel(w.log, State(m))
            && Channel(r.log, Attrs(m)) == Channel(w.log, Attrs(m))
  {
    var link := if snapshot.Listing? then LinkOf(snapshot.links, m) else None;
    ConfigureAt(settings, w, devices, snapshot, order, now, m);
    ListedKept(settings, m, Project(w, m), NamesOf(devices, m), link, now);
    var c, d := Project(w, m), Project(Configure(settings, w, devices, snapshot, order, now), m);
    assert d.slot == c.slot && d.state == c.state && d.attrs == c.attrs;
  }

  lemma {:induction false} NewStation(settings: Settings, w: World, devices: seq<Device>, snapshot: Snapshot,
                                      order: seq<MAC>, now: int, m: MAC)
    requires WorldOk(w) && IsOrder(order, Plan(w.stations, devices).changes.Keys)
    requires NamesOf(devices, m) != [] && m !in w.stations
    ensures var r := Configure(settings, w, devices, snapshot, order, now);
            var names := NamesOf(devices, m);
            && m in r.stations && r.stations[m].name == names[|names| - 1]
            && (|names| == 1 ==>
                  && (r.stations[m].connected <==> snapshot.Listing? && m in snapshot.links)
                  && (r.stations[m].connected ==>
                        && r.stations[m].bssid == snapshot.links[m].ap.bssid
                        && r.stations[m].connectedAt == At(now - snapshot.links[m].connectedFor))
                  && Retained(r.log, State(m)) == Some(if r.stations[m].connected then Home else NotHome))
            && (|names| >= 2 ==>
                  !r.stations[m].connected && Channel(r.log, State(m)) == Channel(w.log, State(m)))
  {
    var link := if snapshot.Listing? then LinkOf(snapshot.links, m) else None;
    ConfigureAt(settings, w, devices, snapshot, order, now, m);
    ListedNew(settings, m, Project(w, m), NamesOf(devices, m), link, now);
    var c, d := Project(w, m), Project(Configure(settings, w, devices, snapshot, order, now), m);
    assert d.sta == StationOf(Configure(settings, w, devices, snapshot, order, now).stations, m);
    assert c.state == Channel(w.log, State(m));
  }

  /** After a configuration exactly its MACs are tracked. A station that was tracked
      before keeps everything but its name, keeps its entry, and nothing is said about
      its state. A new one that is named once is connected as the access points list it,
      and announced so; one that is named again is not connected, and not announced. */
  lemma {:induction false} StationsAfterConfigure(settings: Settings, w: World, devices: seq<Device>,
                                                  snapshot: Snapshot, order: seq<MAC>, now: int, m: MAC)
    requires WorldOk(w) && IsOrder(order, Plan(w.stations, devices).changes.Keys)
    ensures var r := Configure(settings, w, devices, snapshot, order, now);
            var names := NamesOf(devices, m);
            && r.stations.Keys == MACsOf(devices)
            && (m in r.stations <==> names != [])
            && (names != [] && m in w.stations ==>
                  && r.stations[m] == w.stations[m].(name := names[|names| - 1])
                  && SlotOf(r.queue, m) == SlotOf(w.queue, m)
                  && Channel(r.log, State(m)) == Channel(w.log, State(m))
                  && Channel(r.log, Attrs(m)) == Channel(w.log, Attrs(m)))
            && (names != [] && m !in w.stations ==> r.stations[m].name == names[|names| - 1])
            && (|names| == 1 && m !in w.stations ==>
                  && (r.stations[m].connected <==> snapshot.Listing? && m in snapshot.links)
                  && (r.stations[m].connected ==>
                        && r.stations[m].bssid == snapshot.links[m].ap.bssid
                        && r.stations[m].connectedAt == At(now - snapshot.links[m].connectedFor))
                  && Retained(r.log, State(m)) == Some(if r.stations[m].connected then Home else NotHome))
            && (|names| >= 2 && m !in w.stations ==>
                  !r.stations[m].connected && Channel(r.log, State(m)) == Channel(w.log, State(m)))
  {
    NamedWhenTracked(settings, w, devices, snapshot, order, now, m);
    if NamesOf(devices, m) != [] {
      if m in w.stations {
        KeptStation(settings, w, devices, snapshot, order, now, m);
      } else {
        NewStation(settings, w, devices, snapshot, order, now, m);
      }
    }
  }

  /** A station that a configuration drops loses its entry, its discovery topic is cleared
      if discovery is on, and nothing else is published of it; a MAC that is neither
      tracked nor named is left alone. */
  lemma {:induction false} RemovedAfterConfigure(settings: Settings, w: World, devices: seq<Device>,
                                                 snapshot: Snapshot, order: seq<MAC>, now: int, m: MAC)
    requires WorldOk(w) && IsOrder(order, Plan(w.stations, devices).changes.Keys)
    requires NamesOf(devices, m) == []
    ensures var r := Configure(settings, w, devices, snapshot, order, now);
            && m !in r.stations
            && (m in w.stations ==> m !in r.queue.entries)
            && (m !in w.stations ==> SlotOf(r.queue, m) == SlotOf(w.queue, m))
            && Channel(r.log, State(m)) == Channel(w.log, State(m))
            && Channel(r.log, Attrs(m)) == Channel(w.log, Attrs(m))
            && Channel(r.log, Discovery(m)) ==
               Channel(w.log, Discovery(m)) + (if settings.autodiscovery && m in w.stations then [None] else [])
  {
    var link := if snapshot.Listing? then LinkOf(snapshot.links, m) else None;
    ConfigureAt(settings, w, devices, snapshot, order, now, m);
    var c, d := Project(w, m), Project(Configure(settings, w, devices, snapshot, order, now), m);
    assert d.sta == StationOf(Configure(settings, w, devices, snapshot, order, now).stations, m);
    assert d.slot == SlotOf(Configure(settings, w, devices, snapshot, order, now).queue, m);
    assert c.disc + [] == c.disc;
  }

  /** A newly tracked station is connected as listed, and the broker says so, exactly if
      it is named once, or it is not listed and the broker says already that it is not
      home. */
  lemma {:induction false} AnnouncedAsListedExactly(settings: Settings, w: World, devices: seq<Device>,
                                                    snapshot: Snapshot, order: seq<MAC>, now: int, m: MAC)
    requires WorldOk(w) && IsOrder(order, Plan(w.stations, devices).changes.Keys)
    requires m !in w.stations && NamesOf(devices, m) != []
    ensures m in Configure(settings, w, devices, snapshot, order, now).stations
    ensures var r := Configure(settings, w, devices, snapshot, order, now);
            var listed := snapshot.Listing? && m in snapshot.links;
            (&& (r.stations[m].connected <==> listed)
             && Retained(r.log, State(m)) == Some(if listed then Home else NotHome)) <==>
            |NamesOf(devices, m)| == 1 || (!listed && Retained(w.log, State(m)) == Some(NotHome))
  {
    StationsAfterConfigure(settings, w, devices, snapshot, order, now, m);
  }

  /** A station that ends disconnected with NotHome retained agrees with the broker. */
  lemma {:induction false} StaysAway(settings: Settings, w: World, st: Presence.Step, m: MAC)
    requires WorldOk(w) && Enabled(settings, w, st)
    requires var r := Next(settings, w, st);
             m in r.stations && !r.stations[m].connected && Retained(r.log, State(m)) == Some(NotHome)
    ensures Agrees(Project(Next(settings, w, st), m))
  {
    assert Project(Next(settings, w, st), m).state == Channel(Next(settings, w, st).log, State(m));
  }

  /** The failing input: a device that is named twice by the configuration that starts to
      track it stays not connected, although an access point lists it. Where the broker
      says so already, that is no disagreement between the two. */
  lemma {:induction false} RepeatedDeviceIsNotLookedUp(settings: Settings, m: MAC, ap: AccessPoint)
    returns (w: World, st: Presence.Step)
    ensures w == World(map[], EMPTY_QUEUE, Push(Empty, State(m), Some(NotHome)))
    ensures st.event == Configured(Twice(m), Listing(map[m := Link(ap, 0)]), [m])
    ensures WorldOk(w) && Enabled(settings, w, st)
    ensures var r := Next(settings, w, st);
            && m in r.stations && !r.stations[m].connected
            && Retained(r.log, State(m)) == Some(NotHome)
            && Agrees(Project(r, m))
  {
    w := World(map[], EMPTY_QUEUE, Push(Empty, State(m), Some(NotHome)));
    var snapshot := Listing(map[m := Link(ap, 0)]);
    st := Presence.Step(Configured(Twice(m), snapshot, [m]), 0);
    TwiceIsAccepted(settings, m, w.log, snapshot);
    StationsAfterConfigure(settings, w, Twice(m), snapshot, [m], 0, m);
    StaysAway(settings, w, st, m);
  }

  // ----- applying a configuration again -----

  /** The MAC ended under another name than the occurrence before the last. */
  predicate EndsRenaming(names: seq<string>) {
    |names| >= 2 && names[|names| - 2] != names[|names| - 1]
  }

  lemma {:induction false} ListedAgain(settings: Settings, m: MAC, c: Cell, names: seq<string>, link: Option<Link>,
                                       now: int, link': Option<Link>, now': int)
    requires CellOk(m, c)
    ensures var r := CellListed(settings, m, c, names, link, now);
            && CellOk(m, r)
            && (CellListed(settings, m, r, names, link', now') == r <==>
                !(settings.autodiscovery && EndsRenaming(names)))
  {
    var r := CellListed(settings, m, c, names, link, now);
    NamesInPlace(m, c.sta, names);
    NamesInPlace(m, r.sta, names);
    if names != [] {
      assert r.sta.Some? && r.sta.value.name == names[|names| - 1];
      var again := DiffNames(m, r.sta, names);
      assert again.1.value == if EndsRenaming(names) then Updated else NoChange;
      assert again.0 == r.sta;
      var r' := CellListed(settings, m, r, names, link', now');
      if settings.autodiscovery && EndsRenaming(names) {
        assert |r'.disc| == |r.disc| + 1;
      } else {
        assert r' == r;
      }
    }
  }

  lemma {:induction false} AgainAt(settings: Settings, w: World, devices: seq<Device>,
                                   snapshot: Snapshot, order: seq<MAC>, now: int,
                                   snapshot': Snapshot, order': seq<MAC>, now': int, m: MAC)
    requires WorldOk(w) && IsOrder(order, Plan(w.stations, devices).changes.Keys)
    requires IsOrder(order', Plan(Configure(settings, w, devices, snapshot, order, now).stations, devices).changes.Keys)
    ensures var r := Configure(settings, w, devices, snapshot, order, now);
            Project(Configure(settings, r, devices, snapshot', order', now'), m) == Project(r, m) <==>
            !(settings.autodiscovery && EndsRenaming(NamesOf(devices, m)))
  {
    var r := Configure(settings, w, devices, snapshot, order, now);
    var link := if snapshot.Listing? then LinkOf(snapshot.links, m) else None;
    var link' := if snapshot'.Listing? then LinkOf(snapshot'.links, m) else None;
    ConfigureAt(settings, w, devices, snapshot, order, now, m);
    ConfigureAt(settings, r, devices, snapshot', order', now', m);
    ListedAgain(settings, m, Project(w, m), NamesOf(devices, m), link, now, link', now');
  }

  /** Applying a configuration again, at any time and with any listing of the
      stations, changes nothing and publishes nothing exactly when no device is
      named differently by its last two occurrences, or discovery is off. */
  lemma {:induction false} AgainDoesNothing(settings: Settings, w: World, devices: seq<Device>,
                                            snapshot: Snapshot, order: seq<MAC>, now: int,
                                            snapshot': Snapshot, order': seq<MAC>, now': int)
    requires WorldOk(w) && IsOrder(order, Plan(w.stations, devices).changes.Keys)
    requires IsOrder(order', Plan(Configure(settings, w, devices, snapshot, order, now).stations, devices).changes.Keys)
    ensures var r := Configure(settings, w, devices, snapshot, order, now);
            Same(Configure(settings, r, devices, snapshot', order', now'), r) <==>
            !(settings.autodiscovery && exists m: MAC :: EndsRenaming(NamesOf(devices, m)))
  {
    var r := Configure(settings, w, devices, snapshot, order, now);
    var r' := Configure(settings, r, devices, snapshot', order', now');
    SameIffCells(r', r);
    if settings.autodiscovery && exists m: MAC :: EndsRenaming(NamesOf(devices, m)) {
      var m: MAC :| EndsRenaming(NamesOf(devices, m));
      AgainAt(settings, w, devices, snapshot, order, now, snapshot', order', now', m);
    } else {
      forall m: MAC ensures Project(r', m) == Project(r, m) {
        assert !(settings.autodiscovery && EndsRenaming(NamesOf(devices, m)));
        AgainAt(settings, w, devices, snapshot, order, now, snapshot', order', now', m);
      }
    }
  }

  /** The failing input: one device under two names. Applied again, the configuration
      renames it to the first name and back, and registers it again. */
  lemma {:induction false} TwoNamesAreRegisteredAgain(settings: Settings, m: MAC) returns (devices: seq<Device>)
    requires settings.autodiscovery
    ensures devices == [Device(m, "phone"), Device(m, "tablet")]
    ensures var w := World(map[], EMPTY_QUEUE, Empty);
            && WorldOk(w) && IsOrder([m], Plan(w.stations, devices).changes.Keys)
            && var r := Configure(settings, w, devices, Unsupported, [m], 0);
               && IsOrder([m], Plan(r.stations, devices).changes.Keys)
               && !Same(Configure(settings, r, devices, Unsupported, [m], 1), r)
  {
    devices := [Device(m, "phone"), Device(m, "tablet")];
    var w := World(map[], EMPTY_QUEUE, Empty);
    NamesOfTwo(m, "phone", "tablet");
    PlanFacts(w.stations, devices);
    var r := Configure(settings, w, devices, Unsupported, [m], 0);
    NamedWhenTracked(settings, w, devices, Unsupported, [m], 0, m);
    PlanFacts(r.stations, devices);
    assert EndsRenaming(["phone", "tablet"]);
    AgainDoesNothing(settings, w, devices, Unsupported, [m], 0, Unsupported, [m], 1);
  }
}
