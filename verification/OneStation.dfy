/** The machine of a single station, and that the daemon is many of them: every
    step of the daemon, seen at one MAC, is a step of that MAC's own machine. */
module OneStation {
  import opened Wrappers
  import opened Mac
  import opened Topics
  import opened Broker
  import opened Debounce
  import opened Presence

  /** One MAC: its station, its place in the debouncer, and what was published on
      each of its topics. */
  datatype Cell = Cell(sta: Option<Station>, slot: Slot,
                       state: seq<Option<Payload>>, attrs: seq<Option<Payload>>, disc: seq<Option<Payload>>)

  datatype CellEvent =
    | Listed(names: seq<string>, link: Option<Link>)  // the names a configuration gives the MAC
    | Joined(ap: AccessPoint)
    | Left(ap: AccessPoint)
    | TimerExpires(i: nat)
    | TimerRuns(i: nat)
    | Elsewhere

  datatype CellStep = CellStep(event: CellEvent, at: int)

  predicate CellOk(m: MAC, c: Cell) {
    SlotOk(c.slot) && Announces(c.slot.timers) && (c.sta.Some? ==> c.sta.value.mac == m)
  }

  function OldOrZero(sta: Option<Station>): Station {
    if sta.Some? then sta.value else ZERO_STATION
  }

  /** The first loop as one MAC sees it: each occurrence compares with what the
      previous one left. */
  function DiffNames(m: MAC, sta: Option<Station>, names: seq<string>): (r: (Option<Station>, Option<Change>))
    ensures names == [] <==> r.1.None?
    ensures names != [] ==> r.0 == Some(OldOrZero(sta).(name := names[|names| - 1], mac := m)) && r.1 != Some(Removed)
  {
    if |names| == 0 then (sta, None)
    else
      var before := DiffNames(m, sta, names[..|names| - 1]).0;
      var name := names[|names| - 1];
      (Some(OldOrZero(before).(name := name, mac := m)),
       Some(if before.None? then Added else if before.value.name != name then Updated else NoChange))
  }

  predicate CellEnabled(settings: Settings, m: MAC, c: Cell, st: CellStep) {
    match st.event
    case Listed(names, _) =>
      var (sta, change) := DiffNames(m, c.sta, names);
      settings.autodiscovery && (change == Some(Added) || change == Some(Updated)) ==> names[|names| - 1] != ""
    case TimerExpires(i) =>
      && i < |c.slot.timers| && c.slot.timers[i].phase.Armed? && c.slot.timers[i].deadline <= st.at
    case TimerRuns(i) => i < |c.slot.timers| && c.slot.timers[i].phase.Expired?
    case _ => true
  }

  function CellRegister(settings: Settings, disc: seq<Option<Payload>>, sta: Station): seq<Option<Payload>> {
    if settings.autodiscovery then disc + [Some(Tracker(sta.name, sta.mac))] else disc
  }

  function CellApply(settings: Settings, m: MAC, c: Cell, change: Change, link: Option<Link>, now: int): Cell
    requires CellOk(m, c)
  {
    var sta := OldOrZero(c.sta);
    match change
    case NoChange => c
    case Updated => c.(disc := CellRegister(settings, c.disc, sta))
    case Added =>
      var c1 := c.(disc := CellRegister(settings, c.disc, sta));
      if link.None?
      then c1.(sta := Some(sta.(connected := false)), state := c.state + [Some(NotHome)])
      else
        var l := link.value;
        var here := sta.(connected := true, connectedAt := At(now - l.connectedFor), bssid := l.ap.bssid);
        c1.(sta := Some(here), slot := SlotCancel(c.slot).0, state := c.state + [Some(Home)],
            attrs := c.attrs + [Some(HomeAttributes(here, l.ap))])
    case Removed =>
      c.(slot := SlotCancel(c.slot).0, disc := if settings.autodiscovery then c.disc + [None] else c.disc)
  }

  function CellListed(settings: Settings, m: MAC, c: Cell, names: seq<string>, link: Option<Link>, now: int): Cell
    requires CellOk(m, c)
  {
    var (sta, change) := DiffNames(m, c.sta, names);
    if change.Some? then CellApply(settings, m, c.(sta := sta), change.value, link, now)
    else if c.sta.Some? then CellApply(settings, m, c.(sta := None), Removed, link, now)
    else c
  }

  function CellJoined(m: MAC, c: Cell, ap: AccessPoint, now: int): Cell
    requires CellOk(m, c)
  {
    if c.sta.None? then c
    else
      var was := c.sta.value;
      var sta := was.(bssid := ap.bssid, connected := true, connectedAt := At(now));
      var c1 := c.(sta := Some(sta), slot := SlotCancel(c.slot).0);
      if was.connected && was.bssid == ap.bssid then c1
      else c1.(state := c.state + [Some(Home)], attrs := c.attrs + [Some(HomeAttributes(sta, ap))])
  }

  function CellLeft(settings: Settings, m: MAC, c: Cell, ap: AccessPoint, now: int): Cell
    requires CellOk(m, c)
  {
    if c.sta.None? || (c.sta.value.connected && c.sta.value.bssid != ap.bssid) then c
    else c.(sta := Some(c.sta.value.(connected := false, disconnectedAt := At(now))),
            slot := SlotEnqueue(c.slot, AnnounceAway(ap), now + settings.debounce).0)
  }

  function CellRuns(m: MAC, c: Cell, i: nat): Cell
    requires CellOk(m, c) && i < |c.slot.timers| && c.slot.timers[i].phase.Expired?
  {
    var (slot, took) := SlotTake(c.slot, i);
    if !took then c.(slot := slot)
    else
      var c1 := c.(slot := SlotStart(slot, i), state := c.state + [Some(NotHome)]);
      if c.sta.None? then c1
      else c1.(attrs := c.attrs + [Some(AwayAttributes(c.sta.value, c.slot.timers[i].cb.ap))])
  }

  function CellNext(settings: Settings, m: MAC, c: Cell, st: CellStep): (r: Cell)
    requires CellOk(m, c) && CellEnabled(settings, m, c, st)
    ensures CellOk(m, r)
  {
    match st.event
    case Listed(names, link) => CellListed(settings, m, c, names, link, st.at)
    case Joined(ap) => CellJoined(m, c, ap, st.at)
    case Left(ap) => CellLeft(settings, m, c, ap, st.at)
    case TimerExpires(i) => c.(slot := SlotExpire(c.slot, i))
    case TimerRuns(i) => CellRuns(m, c, i)
    case Elsewhere => c
  }

  // ----- the daemon seen at one MAC -----

  function StationOf(stations: map<MAC, Station>, m: MAC): Option<Station> {
    if m in stations then Some(stations[m]) else None
  }

  function Project(w: World, m: MAC): Cell {
    Cell(StationOf(w.stations, m), SlotOf(w.queue, m),
         Channel(w.log, State(m)), Channel(w.log, Attrs(m)), Channel(w.log, Discovery(m)))
  }

  function NamesOf(devices: seq<Device>, m: MAC): seq<string> {
    if |devices| == 0 then []
    else
      var before := NamesOf(devices[..|devices| - 1], m);
      if devices[|devices| - 1].mac == m then before + [devices[|devices| - 1].name] else before
  }

  function LinkOf(links: map<MAC, Link>, m: MAC): Option<Link> {
    if m in links then Some(links[m]) else None
  }

  function ProjectEvent(e: Event, m: MAC): CellEvent {
    match e
    case Configured(devices, snapshot, _) =>
      Listed(NamesOf(devices, m), if snapshot.Listing? then LinkOf(snapshot.links, m) else None)
    case Connected(ap, o) => if o == m then Joined(ap) else Elsewhere
    case Disconnected(ap, o) => if o == m then Left(ap) else Elsewhere
    case Expires(o, i) => if o == m then TimerExpires(i) else Elsewhere
    case Runs(o, i) => if o == m then TimerRuns(i) else Elsewhere
  }

  lemma {:induction false} ProjectOk(w: World, m: MAC)
    requires WorldOk(w)
    ensures CellOk(m, Project(w, m))
  {
    assert SlotOk(SlotOf(w.queue, m)) && Announces(TimersOf(w.queue, m));
  }

  lemma {:induction false} ConnectAt(w: World, ap: AccessPoint, o: MAC, now: int, m: MAC)
    requires WorldOk(w)
    ensures CellOk(m, Project(w, m))
    ensures Project(Connect(w, ap, o, now), m) ==
            if m == o then CellJoined(m, Project(w, m), ap, now) else Project(w, m)
  {
    ProjectOk(w, m);
    CancelSlots(w.queue, o);
  }

  lemma {:induction false} DisconnectAt(settings: Settings, w: World, ap: AccessPoint, o: MAC, now: int, m: MAC)
    requires WorldOk(w)
    ensures CellOk(m, Project(w, m))
    ensures Project(Disconnect(settings, w, ap, o, now), m) ==
            if m == o then CellLeft(settings, m, Project(w, m), ap, now) else Project(w, m)
  {
    ProjectOk(w, m);
    EnqueueSlots(w.queue, o, AnnounceAway(ap), now + settings.debounce);
  }

  lemma {:induction false} RunTimerAt(w: World, o: MAC, i: nat, m: MAC)
    requires WorldOk(w) && CanRun(w, o, i)
    ensures CellOk(m, Project(w, m))
    ensures Project(RunTimer(w, o, i), m) ==
            if m == o then CellRuns(m, Project(w, m), i) else Project(w, m)
  {
    ProjectOk(w, m);
    assert Announces(TimersOf(w.queue, o));
    TakeSlots(w.queue, o, i);
    var (q, took) := Take(w.queue, o, i);
    if took {
      StartSlots(q, o, i);
      var cb := TimersOf(w.queue, o)[i].cb;
      var said := Push(w.log, State(o), Some(NotHome));
      if o in w.stations {
        var all := Push(said, Attrs(o), Some(AwayAttributes(w.stations[o], cb.ap)));
        assert RunTimer(w, o, i) == World(w.stations, Start(q, o, i), all);
      } else {
        assert RunTimer(w, o, i) == World(w.stations, Start(q, o, i), said);
      }
    }
  }

  lemma {:induction false} AddedAt(settings: Settings, w: World, o: MAC, links: map<MAC, Link>, now: int, m: MAC)
    requires WorldOk(w) && CellOk(m, Project(w, m)) && o in w.stations
    ensures Project(ApplyChange(settings, w, o, Added, links, now), m) ==
            if m == o then CellApply(settings, m, Project(w, m), Added, LinkOf(links, m), now) else Project(w, m)
  {
    CancelSlots(w.queue, o);
    var sta := w.stations[o];
    var l1 := Register(settings, w.log, sta);
    assert sta.mac == o;
    assert Channel(l1, Discovery(m)) ==
           if m == o then CellRegister(settings, Channel(w.log, Discovery(m)), sta) else Channel(w.log, Discovery(m));
    assert Channel(l1, State(m)) == Channel(w.log, State(m)) && Channel(l1, Attrs(m)) == Channel(w.log, Attrs(m));
    if o in links {
      var here := sta.(connected := true, connectedAt := At(now - links[o].connectedFor), bssid := links[o].ap.bssid);
      var l2 := Push(l1, State(o), Some(Home));
      var l3 := Push(l2, Attrs(o), Some(HomeAttributes(here, links[o].ap)));
      assert ApplyChange(settings, w, o, Added, links, now) ==
             World(w.stations[o := here], Debounce.Cancel(w.queue, o).0, l3);
    } else {
      var l2 := Push(l1, State(o), Some(NotHome));
      assert ApplyChange(settings, w, o, Added, links, now) ==
             World(w.stations[o := sta.(connected := false)], w.queue, l2);
    }
  }

  lemma {:induction false} ApplyChangeAt(settings: Settings, w: World, o: MAC, change: Change, links: map<MAC, Link>,
                                         now: int, m: MAC)
    requires WorldOk(w) && ((change.Added? || change.Updated?) ==> o in w.stations)
    ensures CellOk(m, Project(w, m))
    ensures Project(ApplyChange(settings, w, o, change, links, now), m) ==
            if m == o then CellApply(settings, m, Project(w, m), change, LinkOf(links, m), now) else Project(w, m)
  {
    ProjectOk(w, m);
    match change
    case NoChange =>
    case Updated => assert w.stations[o].mac == o;
    case Added => AddedAt(settings, w, o, links, now, m);
    case Removed => CancelSlots(w.queue, o);
  }

  /** Whatever the order, each MAC gets its own change, once. */
  lemma {:induction false} ApplyAllAt(settings: Settings, w: World, changes: map<MAC, Change>, links: map<MAC, Link>,
                                      now: int, order: seq<MAC>, m: MAC)
    requires WorldOk(w)
    requires forall i :: 0 <= i < |order| ==> order[i] in changes
    requires forall i :: 0 <= i < |order| && (changes[order[i]].Added? || changes[order[i]].Updated?) ==>
               order[i] in w.stations
    requires forall i, j :: 0 <= i < j < |order| ==> order[i] != order[j]
    ensures CellOk(m, Project(w, m))
    ensures Project(ApplyAll(settings, w, changes, links, now, order), m) ==
            if m in order then CellApply(settings, m, Project(w, m), changes[m], LinkOf(links, m), now)
            else Project(w, m)
  {
    ProjectOk(w, m);
    if |order| > 0 {
      var n := |order| - 1;
      var init := order[..n];
      ApplyAllAt(settings, w, changes, links, now, init, m);
      var before := ApplyAll(settings, w, changes, links, now, init);
      ApplyChangeAt(settings, before, order[n], changes[order[n]], links, now, m);
      assert order == init + [order[n]];
    }
  }

  /** A station whose change is still to come is as it was. */
  lemma {:induction false} NotYetChanged(settings: Settings, w: World, changes: map<MAC, Change>, links: map<MAC, Link>,
                                         now: int, order: seq<MAC>, m: MAC)
    requires WorldOk(w) && m !in order
    requires forall i :: 0 <= i < |order| ==> order[i] in changes
    requires forall i :: 0 <= i < |order| && (changes[order[i]].Added? || changes[order[i]].Updated?) ==>
               order[i] in w.stations
    requires forall i, j :: 0 <= i < j < |order| ==> order[i] != order[j]
    ensures var r := ApplyAll(settings, w, changes, links, now, order);
            (m in r.stations <==> m in w.stations) && (m in w.stations ==> r.stations[m] == w.stations[m])
  {
    ApplyAllAt(settings, w, changes, links, now, order, m);
    var r := ApplyAll(settings, w, changes, links, now, order);
    assert Project(r, m).sta == Project(w, m).sta;
  }

  lemma {:induction false} DiffNamesGrow(m: MAC, sta: Option<Station>, before: seq<string>, name: string)
    ensures var was := DiffNames(m, sta, before).0;
            DiffNames(m, sta, before + [name]) ==
            (Some(OldOrZero(was).(name := name, mac := m)),
             Some(if was.None? then Added else if was.value.name != name then Updated else NoChange))
  {
    var names := before + [name];
    assert names[..|names| - 1] == before && names[|names| - 1] == name;
  }

  lemma {:induction false} DiffOneAt(d: Diff, dev: Device, m: MAC)
    ensures var (r, was) := (DiffOne(d, dev), StationOf(d.stations, m));
            if dev.mac == m
            then && StationOf(r.stations, m) == Some(OldOrZero(was).(name := dev.name, mac := m))
                 && m in r.changes
                 && r.changes[m] ==
                    (if was.None? then Added else if was.value.name != dev.name then Updated else NoChange)
            else && StationOf(r.stations, m) == was
                 && (m in r.changes <==> m in d.changes)
                 && (m in d.changes ==> r.changes[m] == d.changes[m])
  {
  }

  lemma {:induction false} DiffAllAt(stations: map<MAC, Station>, devices: seq<Device>, m: MAC)
    ensures var d := DiffAll(stations, devices);
            var r := DiffNames(m, StationOf(stations, m), NamesOf(devices, m));
            && StationOf(d.stations, m) == r.0
            && (if m in d.changes then r.1 == Some(d.changes[m]) else r.1.None?)
  {
    if |devices| > 0 {
      var n := |devices| - 1;
      var init, dev := devices[..n], devices[n];
      DiffAllAt(stations, init, m);
      DiffOneAt(DiffAll(stations, init), dev, m);
      if dev.mac == m {
        DiffNamesGrow(m, StationOf(stations, m), NamesOf(init, m), dev.name);
      }
    }
  }

  lemma {:induction false} PlanAt(stations: map<MAC, Station>, devices: seq<Device>, m: MAC)
    ensures var p := Plan(stations, devices);
            var r := DiffNames(m, StationOf(stations, m), NamesOf(devices, m));
            if r.1.Some? then m in p.changes && p.changes[m] == r.1.value && StationOf(p.stations, m) == r.0
            else m !in p.stations && (m in p.changes <==> m in stations) && (m in p.changes ==> p.changes[m] == Removed)
  {
    DiffAllAt(stations, devices, m);
    DiffAllKeys(stations, devices);
  }

  /** What a configuration does at a MAC, from its change; the listing of the stations
      counts only for a MAC that is added. */
  lemma {:induction false} ListedByChange(settings: Settings, m: MAC, c: Cell, names: seq<string>, link: Option<Link>,
                                          now: int, sta: Option<Station>, change: Option<Change>, asked: Option<Link>)
    requires CellOk(m, c)
    requires var r := DiffNames(m, c.sta, names);
             if r.1.Some? then change == r.1 && sta == r.0
             else sta.None? && change == if c.sta.Some? then Some(Removed) else None
    requires change == Some(Added) ==> asked == link
    ensures CellOk(m, c.(sta := sta))
    ensures CellListed(settings, m, c, names, link, now) ==
            if change.Some? then CellApply(settings, m, c.(sta := sta), change.value, asked, now) else c
  {
  }

  lemma {:induction false} ConfigureAt(settings: Settings, w: World, devices: seq<Device>, snapshot: Snapshot,
                                       order: seq<MAC>, now: int, m: MAC)
    requires WorldOk(w)
    requires IsOrder(order, Plan(w.stations, devices).changes.Keys)
    ensures CellOk(m, Project(w, m))
    ensures Project(Configure(settings, w, devices, snapshot, order, now), m) ==
            CellListed(settings, m, Project(w, m), NamesOf(devices, m),
                       if snapshot.Listing? then LinkOf(snapshot.links, m) else None, now)
  {
    ProjectOk(w, m);
    PlanFacts(w.stations, devices);
    PlanAt(w.stations, devices, m);
    var plan := Plan(w.stations, devices);
    var w1 := w.(stations := plan.stations);
    var links := Links(plan, snapshot);
    ApplyAllAt(settings, w1, plan.changes, links, now, order, m);
    var c, sta := Project(w, m), StationOf(plan.stations, m);
    assert Project(w1, m) == c.(sta := sta);
    ListedByChange(settings, m, c, NamesOf(devices, m), if snapshot.Listing? then LinkOf(snapshot.links, m) else None,
                   now, sta, if m in plan.changes then Some(plan.changes[m]) else None, LinkOf(links, m));
    assert m !in plan.changes ==> c.(sta := sta) == c;
  }

  /** One step of the daemon, seen at any MAC, is that MAC's own step. */
  lemma {:induction false} StepAt(settings: Settings, w: World, st: Presence.Step, m: MAC)
    requires WorldOk(w) && Enabled(settings, w, st)
    ensures var cst := CellStep(ProjectEvent(st.event, m), st.at);
            && CellOk(m, Project(w, m))
            && CellEnabled(settings, m, Project(w, m), cst)
            && Project(Next(settings, w, st), m) == CellNext(settings, m, Project(w, m), cst)
  {
    ProjectOk(w, m);
    match st.event
    case Configured(devices, snapshot, order) =>
      ConfigureAt(settings, w, devices, snapshot, order, st.at, m);
      PlanAt(w.stations, devices, m);
    case Connected(ap, o) => ConnectAt(w, ap, o, st.at, m);
    case Disconnected(ap, o) => DisconnectAt(settings, w, ap, o, st.at, m);
    case Expires(o, i) => ExpireSlots(w.queue, o, i);
    case Runs(o, i) => RunTimerAt(w, o, i, m);
  }

  // ----- runs -----

  ghost predicate CellFollows(settings: Settings, m: MAC, cs: seq<Cell>, sts: seq<CellStep>, i: nat) {
    && i < |sts| && i + 1 < |cs|
    && CellOk(m, cs[i]) && CellEnabled(settings, m, cs[i], sts[i])
    && cs[i + 1] == CellNext(settings, m, cs[i], sts[i])
  }

  ghost predicate CellRun(settings: Settings, m: MAC, cs: seq<Cell>, sts: seq<CellStep>) {
    && |cs| == |sts| + 1
    && cs[0].sta.None? && cs[0].slot == EMPTY_SLOT
    && (forall i :: 0 <= i < |sts| ==> CellFollows(settings, m, cs, sts, i))
    && (forall i, j :: 0 <= i <= j < |sts| ==> sts[i].at <= sts[j].at)
  }

  lemma {:induction false} CellStepOf(settings: Settings, m: MAC, cs: seq<Cell>, sts: seq<CellStep>, k: nat)
    requires CellRun(settings, m, cs, sts) && k < |sts|
    ensures CellOk(m, cs[k]) && CellEnabled(settings, m, cs[k], sts[k])
    ensures cs[k + 1] == CellNext(settings, m, cs[k], sts[k])
  {
    assert CellFollows(settings, m, cs, sts, k);
  }

  lemma {:induction false} CellStaysOk(settings: Settings, m: MAC, cs: seq<Cell>, sts: seq<CellStep>, n: nat)
    requires CellRun(settings, m, cs, sts) && n <= |sts|
    ensures CellOk(m, cs[n])
  {
    if n > 0 {
      CellStepOf(settings, m, cs, sts, n - 1);
    }
  }

  function CellsOf(ws: seq<World>, m: MAC): seq<Cell> {
    seq(|ws|, i requires 0 <= i < |ws| => Project(ws[i], m))
  }

  function StepsOf(sts: seq<Presence.Step>, m: MAC): seq<CellStep> {
    seq(|sts|, i requires 0 <= i < |sts| => CellStep(ProjectEvent(sts[i].event, m), sts[i].at))
  }

  /** Independence: seen at any MAC, a run of the daemon is a run of that MAC's
      machine, up to the steps that do not mention it. */
  lemma {:induction false} Independence(settings: Settings, ws: seq<World>, sts: seq<Presence.Step>, m: MAC)
    requires Run(settings, ws, sts)
    ensures CellRun(settings, m, CellsOf(ws, m), StepsOf(sts, m))
  {
    var cs, csts := CellsOf(ws, m), StepsOf(sts, m);
    forall i | 0 <= i < |csts| ensures CellFollows(settings, m, cs, csts, i) {
      RunStaysOk(settings, ws, sts, i);
      assert Follows(settings, ws, sts, i);
      StepAt(settings, ws[i], sts[i], m);
    }
  }

  // ----- only its own steps -----

  /** The steps that mention the MAC: its events and timers, and every configuration. */
  function Mentioning(sts: seq<CellStep>): seq<CellStep> {
    if |sts| == 0 then []
    else
      var before := Mentioning(sts[..|sts| - 1]);
      if sts[|sts| - 1].event.Elsewhere? then before else before + [sts[|sts| - 1]]
  }

  /** Where the machine of one MAC gets to by these steps; None if one is not possible. */
  function After(settings: Settings, m: MAC, c: Cell, sts: seq<CellStep>): Option<Cell> {
    if |sts| == 0 then Some(c)
    else
      var last := sts[|sts| - 1];
      match After(settings, m, c, sts[..|sts| - 1])
      case None => None
      case Some(d) =>
        if CellOk(m, d) && CellEnabled(settings, m, d, last) then Some(CellNext(settings, m, d, last)) else None
  }

  lemma {:induction false} AfterGrows(settings: Settings, m: MAC, c: Cell, sts: seq<CellStep>, d: Cell, st: CellStep,
                                      next: Cell)
    requires After(settings, m, c, sts) == Some(d)
    requires CellOk(m, d) && CellEnabled(settings, m, d, st) && next == CellNext(settings, m, d, st)
    ensures After(settings, m, c, sts + [st]) == Some(next)
  {
    assert (sts + [st])[..|sts|] == sts;
  }

  lemma {:induction false} MentioningGrows(sts: seq<CellStep>, n: nat)
    requires n < |sts|
    ensures var before := Mentioning(sts[..n]);
            Mentioning(sts[..n + 1]) == if sts[n].event.Elsewhere? then before else before + [sts[n]]
  {
    assert sts[..n + 1][..n] == sts[..n];
  }

  lemma {:induction false} AfterOwnSteps(settings: Settings, m: MAC, cs: seq<Cell>, sts: seq<CellStep>, n: nat)
    requires CellRun(settings, m, cs, sts) && n <= |sts|
    ensures After(settings, m, cs[0], Mentioning(sts[..n])) == Some(cs[n])
  {
    if n == 0 {
      assert sts[..0] == [];
    } else {
      AfterOwnSteps(settings, m, cs, sts, n - 1);
      CellStepOf(settings, m, cs, sts, n - 1);
      MentioningGrows(sts, n - 1);
      if !sts[n - 1].event.Elsewhere? {
        AfterGrows(settings, m, cs[0], Mentioning(sts[..n - 1]), cs[n - 1], sts[n - 1], cs[n]);
      }
    }
  }

  /** The daemon, seen at a MAC, is where that MAC's own machine gets to by the steps
      that mention the MAC alone: other stations have no influence on it. */
  lemma {:induction false} OthersDoNotMatter(settings: Settings, ws: seq<World>, sts: seq<Presence.Step>, m: MAC)
    requires Run(settings, ws, sts)
    ensures After(settings, m, Project(ws[0], m), Mentioning(StepsOf(sts, m))) == Some(Project(ws[|sts|], m))
  {
    Independence(settings, ws, sts, m);
    var cs, csts := CellsOf(ws, m), StepsOf(sts, m);
    AfterOwnSteps(settings, m, cs, csts, |csts|);
    assert csts[..|csts|] == csts;
    assert cs[0] == Project(ws[0], m) && cs[|sts|] == Project(ws[|sts|], m);
  }
}
