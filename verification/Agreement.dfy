/** What holds of the stations, the queue and the broker in every reachable
    state, whatever the timers do. */
module Agreement {
  import opened Wrappers
  import opened Mac
  import opened Topics
  import opened Broker
  import opened Debounce
  import opened Presence
  import opened OneStation

  // ----- the broker agrees with the stations -----

  /** A connected station is announced as such and nothing is queued for it; a
      disconnected one is announced as such, or will be by its queue entry;
      nothing is queued for a MAC that is not tracked. */
  predicate Agrees(c: Cell) {
    match c.sta
    case None => c.slot.entry.None?
    case Some(s) =>
      if s.connected then Last(c.state) == Some(Home) && c.slot.entry.None?
      else Last(c.state) == Some(NotHome) || c.slot.entry.Some?
  }

  /** A configuration that starts to track the MAC and names it again: the second
      occurrence overwrites the change that would have announced the station. */
  predicate Overlooks(c: Cell, e: CellEvent) {
    e.Listed? && c.sta.None? && |e.names| >= 2 && Last(c.state) != Some(NotHome)
  }

  lemma {:induction false} NamesInPlace(m: MAC, sta: Option<Station>, names: seq<string>)
    ensures |names| == 1 ==>
              DiffNames(m, sta, names).1 ==
              Some(if sta.None? then Added else if sta.value.name != names[0] then Updated else NoChange)
    ensures |names| >= 2 ==>
              DiffNames(m, sta, names).1 ==
              Some(if names[|names| - 2] != names[|names| - 1] then Updated else NoChange)
  {
    if |names| >= 2 {
      var init := names[..|names| - 1];
      assert init != [] && init[|init| - 1] == names[|names| - 2];
    } else if |names| == 1 {
      assert names[..0] == [];
    }
  }

  /** One step from agreement keeps it exactly when it overlooks nothing. */
  lemma {:induction false} AgreementStep(settings: Settings, m: MAC, c: Cell, st: CellStep)
    requires CellOk(m, c) && CellEnabled(settings, m, c, st)
    requires Agrees(c)
    ensures Agrees(CellNext(settings, m, c, st)) <==> !Overlooks(c, st.event)
  {
    if st.event.Listed? {
      NamesInPlace(m, c.sta, st.event.names);
    }
  }

  lemma {:induction false} AgreesUnlessOverlooked(settings: Settings, m: MAC, cs: seq<Cell>, sts: seq<CellStep>, n: nat)
    requires CellRun(settings, m, cs, sts) && n <= |sts|
    requires forall i :: 0 <= i < n ==> !Overlooks(cs[i], sts[i].event)
    ensures Agrees(cs[n])
  {
    if n > 0 {
      AgreesUnlessOverlooked(settings, m, cs, sts, n - 1);
      CellStepOf(settings, m, cs, sts, n - 1);
      AgreementStep(settings, m, cs[n - 1], sts[n - 1]);
    }
  }

  lemma {:induction false} AgreementOfCells(settings: Settings, m: MAC, cs: seq<Cell>, sts: seq<CellStep>)
    requires CellRun(settings, m, cs, sts)
    ensures (forall i :: 0 <= i < |cs| ==> Agrees(cs[i])) <==>
            (forall i :: 0 <= i < |sts| ==> !Overlooks(cs[i], sts[i].event))
  {
    if forall i :: 0 <= i < |sts| ==> !Overlooks(cs[i], sts[i].event) {
      forall i | 0 <= i < |cs| ensures Agrees(cs[i]) {
        AgreesUnlessOverlooked(settings, m, cs, sts, i);
      }
    }
    if forall i :: 0 <= i < |cs| ==> Agrees(cs[i]) {
      forall i | 0 <= i < |sts| ensures !Overlooks(cs[i], sts[i].event) {
        CellStepOf(settings, m, cs, sts, i);
        assert Agrees(cs[i]) && Agrees(cs[i + 1]);
        AgreementStep(settings, m, cs[i], sts[i]);
      }
    }
  }

  /** No configuration of the run starts to track the MAC by a repeated entry while the
      broker says otherwise than that it is not home. */
  ghost predicate NeverOverlooked(ws: seq<World>, sts: seq<Presence.Step>, m: MAC)
    requires |ws| == |sts| + 1
  {
    forall i :: 0 <= i < |sts| ==> !Overlooks(Project(ws[i], m), ProjectEvent(sts[i].event, m))
  }

  /** Exactly when agreement holds throughout a run of the daemon, MAC by MAC. */
  lemma {:induction false} AgreementExactly(settings: Settings, ws: seq<World>, sts: seq<Presence.Step>, m: MAC)
    requires Run(settings, ws, sts)
    ensures (forall i :: 0 <= i < |ws| ==> Agrees(Project(ws[i], m))) <==> NeverOverlooked(ws, sts, m)
  {
    Independence(settings, ws, sts, m);
    var cs, csts := CellsOf(ws, m), OneStation.StepsOf(sts, m);
    AgreementOfCells(settings, m, cs, csts);
    assert forall i :: 0 <= i < |ws| ==> cs[i] == Project(ws[i], m);
    assert forall i :: 0 <= i < |sts| ==> csts[i].event == ProjectEvent(sts[i].event, m);
  }

  /** In every state of every run, even with goroutines that take entries that
      are not their own: the broker, the queue and the stations agree. */
  lemma {:induction false} Agreement(settings: Settings, ws: seq<World>, sts: seq<Presence.Step>, n: nat, m: MAC)
    requires Run(settings, ws, sts) && NeverOverlooked(ws, sts, m) && n <= |sts|
    ensures m !in ws[n].stations ==> m !in ws[n].queue.entries
    ensures m in ws[n].stations && ws[n].stations[m].connected ==>
              Retained(ws[n].log, State(m)) == Some(Home) && m !in ws[n].queue.entries
    ensures m in ws[n].stations && !ws[n].stations[m].connected ==>
              Retained(ws[n].log, State(m)) == Some(NotHome) || m in ws[n].queue.entries
  {
    AgreementExactly(settings, ws, sts, m);
    assert Agrees(Project(ws[n], m));
  }

  /** With nothing queued, the broker tells the truth about every tracked station. */
  lemma {:induction false} BrokerTellsTheTruth(settings: Settings, ws: seq<World>, sts: seq<Presence.Step>, n: nat)
    requires Run(settings, ws, sts) && n <= |sts|
    requires forall m: MAC :: NeverOverlooked(ws, sts, m)
    requires ws[n].queue.entries == map[]
    ensures forall m :: m in ws[n].stations ==>
              Retained(ws[n].log, State(m)) == Some(if ws[n].stations[m].connected then Home else NotHome)
  {
    forall m | m in ws[n].stations
      ensures Retained(ws[n].log, State(m)) == Some(if ws[n].stations[m].connected then Home else NotHome)
    {
      Agreement(settings, ws, sts, n, m);
    }
  }

  // ----- nothing is queued but for a disconnected tracked station -----

  predicate Settled(c: Cell) {
    c.slot.entry.Some? ==> c.sta.Some? && !c.sta.value.connected
  }

  lemma {:induction false} SettledStep(settings: Settings, m: MAC, c: Cell, st: CellStep)
    requires CellOk(m, c) && CellEnabled(settings, m, c, st) && Settled(c)
    ensures Settled(CellNext(settings, m, c, st))
  {
    if st.event.Listed? {
      NamesInPlace(m, c.sta, st.event.names);
    }
  }

  lemma {:induction false} AlwaysSettled(settings: Settings, m: MAC, cs: seq<Cell>, sts: seq<CellStep>, n: nat)
    requires CellRun(settings, m, cs, sts) && n <= |sts|
    ensures Settled(cs[n])
  {
    if n > 0 {
      AlwaysSettled(settings, m, cs, sts, n - 1);
      CellStepOf(settings, m, cs, sts, n - 1);
      SettledStep(settings, m, cs[n - 1], sts[n - 1]);
    }
  }

  // ----- the attributes of a connected station -----

  /** The attributes of a connected station say so, and name its access point. */
  predicate AttributesAgree(m: MAC, c: Cell) {
    c.sta.Some? && c.sta.value.connected ==>
      match Last(c.attrs)
      case Some(Attributes(_, mac, isConnected, _, bssid, _, _)) =>
        mac == m && isConnected && bssid == c.sta.value.bssid
      case _ => false
  }

  lemma {:induction false} AttributesStep(settings: Settings, m: MAC, c: Cell, st: CellStep)
    requires CellOk(m, c) && CellEnabled(settings, m, c, st)
    requires Settled(c) && AttributesAgree(m, c)
    ensures AttributesAgree(m, CellNext(settings, m, c, st))
  {
    if st.event.Listed? {
      NamesInPlace(m, c.sta, st.event.names);
    }
  }

  lemma {:induction false} AttributesOfCells(settings: Settings, m: MAC, cs: seq<Cell>, sts: seq<CellStep>, n: nat)
    requires CellRun(settings, m, cs, sts) && n <= |sts|
    ensures AttributesAgree(m, cs[n])
  {
    if n > 0 {
      AttributesOfCells(settings, m, cs, sts, n - 1);
      AlwaysSettled(settings, m, cs, sts, n - 1);
      CellStepOf(settings, m, cs, sts, n - 1);
      AttributesStep(settings, m, cs[n - 1], sts[n - 1]);
    }
  }

  /** In every state of every run, whatever the timers and the configurations do. */
  lemma {:induction false} AttributesTellWhere(settings: Settings, ws: seq<World>, sts: seq<Presence.Step>, n: nat,
                                               m: MAC)
    requires Run(settings, ws, sts) && n <= |sts|
    requires m in ws[n].stations && ws[n].stations[m].connected
    ensures var attrs := Retained(ws[n].log, Attrs(m));
            && attrs.Some? && attrs.value.Attributes?
            && attrs.value.mac == m && attrs.value.isConnected && attrs.value.bssid == ws[n].stations[m].bssid
  {
    Independence(settings, ws, sts, m);
    AttributesOfCells(settings, m, CellsOf(ws, m), OneStation.StepsOf(sts, m), n);
    assert CellsOf(ws, m)[n] == Project(ws[n], m);
  }

  // ----- where the atomic step matters -----

  /** The callback on its own, after the goroutine has given up the debouncer. */
  function CellCallback(c: Cell, i: nat): Cell
    requires i < |c.slot.timers| && c.slot.timers[i].cb.AnnounceAway?
  {
    var c1 := c.(slot := SlotStart(c.slot, i), state := c.state + [Some(NotHome)]);
    if c.sta.None? then c1
    else c1.(attrs := c.attrs + [Some(AwayAttributes(c.sta.value, c.slot.timers[i].cb.ap))])
  }

  /** The goroutine's step is its section under the mutex, then its callback. */
  lemma {:induction false} RunsInTwo(m: MAC, c: Cell, i: nat)
    requires CellOk(m, c) && i < |c.slot.timers| && c.slot.timers[i].phase.Expired? && c.slot.entry.Some?
    ensures var taken := c.(slot := SlotTake(c.slot, i).0);
            CellRuns(m, c, i) == CellCallback(taken, i)
  {
  }

  /** A callback that runs late keeps agreement exactly when it does not find the
      station connected. */
  lemma {:induction false} LateCallback(c: Cell, i: nat)
    requires i < |c.slot.timers| && c.slot.timers[i].cb.AnnounceAway?
    requires Agrees(c)
    ensures Agrees(CellCallback(c, i)) <==> !(c.sta.Some? && c.sta.value.connected)
  {
  }

  /** So the daemon owes agreement to handlers that do not overlap: when a station
      connects between the two halves of the goroutine's step, the broker is left
      saying that it is not home, and nothing is queued to correct that. */
  lemma {:induction false} ConnectWithinTheStep(m: MAC, c: Cell, i: nat, ap: AccessPoint, now: int)
    requires CellOk(m, c) && c.sta.Some? && Agrees(c)
    requires i < |c.slot.timers| && c.slot.timers[i].phase.Expired? && c.slot.entry.Some?
    ensures var taken := c.(slot := SlotTake(c.slot, i).0);
            && CellOk(m, taken)
            && var joined := CellJoined(m, taken, ap, now);
               && Agrees(joined)
               && var r := CellCallback(joined, i);
                  r.sta.value.connected && Last(r.state) == Some(NotHome) && r.slot.entry.None?
  {
  }

  // ----- discovery -----

  /** The discovery message: there exactly when the MAC is tracked, and with the
      current name. */
  predicate Discovers(c: Cell) {
    Last(c.disc) == if c.sta.Some? then Some(Tracker(c.sta.value.name, c.sta.value.mac)) else None
  }

  /** A configuration that ends by repeating a name it has just introduced: the
      last occurrence finds no change, so the new name is not registered. */
  predicate HidesName(c: Cell, e: CellEvent) {
    && e.Listed? && |e.names| >= 2
    && var last := e.names[|e.names| - 1];
    && e.names[|e.names| - 2] == last
    && (c.sta.None? || c.sta.value.name != last)
  }

  lemma {:induction false} DiscoveryStep(settings: Settings, m: MAC, c: Cell, st: CellStep)
    requires settings.autodiscovery
    requires CellOk(m, c) && CellEnabled(settings, m, c, st)
    requires Discovers(c)
    ensures Discovers(CellNext(settings, m, c, st)) <==> !HidesName(c, st.event)
  {
    if st.event.Listed? {
      NamesInPlace(m, c.sta, st.event.names);
    }
  }

  lemma {:induction false} DiscoversUnlessHidden(settings: Settings, m: MAC, cs: seq<Cell>, sts: seq<CellStep>, n: nat)
    requires settings.autodiscovery && CellRun(settings, m, cs, sts) && n <= |sts|
    requires Last(cs[0].disc).None?
    requires forall i :: 0 <= i < n ==> !HidesName(cs[i], sts[i].event)
    ensures Discovers(cs[n])
  {
    if n > 0 {
      DiscoversUnlessHidden(settings, m, cs, sts, n - 1);
      CellStepOf(settings, m, cs, sts, n - 1);
      DiscoveryStep(settings, m, cs[n - 1], sts[n - 1]);
    }
  }

  lemma {:induction false} DiscoveryOfCells(settings: Settings, m: MAC, cs: seq<Cell>, sts: seq<CellStep>)
    requires settings.autodiscovery && CellRun(settings, m, cs, sts)
    requires Last(cs[0].disc).None?
    ensures (forall i :: 0 <= i < |cs| ==> Discovers(cs[i])) <==>
            (forall i :: 0 <= i < |sts| ==> !HidesName(cs[i], sts[i].event))
  {
    if forall i :: 0 <= i < |sts| ==> !HidesName(cs[i], sts[i].event) {
      forall i | 0 <= i < |cs| ensures Discovers(cs[i]) {
        DiscoversUnlessHidden(settings, m, cs, sts, i);
      }
    }
    if forall i :: 0 <= i < |cs| ==> Discovers(cs[i]) {
      forall i | 0 <= i < |sts| ensures !HidesName(cs[i], sts[i].event) {
        CellStepOf(settings, m, cs, sts, i);
        assert Discovers(cs[i]) && Discovers(cs[i + 1]);
        DiscoveryStep(settings, m, cs[i], sts[i]);
      }
    }
  }

  /** No configuration of the run ends by repeating a name that it has just introduced
      for the MAC. */
  ghost predicate NeverHidden(ws: seq<World>, sts: seq<Presence.Step>, m: MAC)
    requires |ws| == |sts| + 1
  {
    forall i :: 0 <= i < |sts| ==> !HidesName(Project(ws[i], m), ProjectEvent(sts[i].event, m))
  }

  /** Exactly when the discovery messages are right throughout a run of the daemon. */
  lemma {:induction false} DiscoveryExactly(settings: Settings, ws: seq<World>, sts: seq<Presence.Step>, m: MAC)
    requires settings.autodiscovery && Run(settings, ws, sts)
    requires Retained(ws[0].log, Topic.Discovery(m)).None?
    ensures (forall i :: 0 <= i < |ws| ==> Discovers(Project(ws[i], m))) <==> NeverHidden(ws, sts, m)
  {
    Independence(settings, ws, sts, m);
    var cs, csts := CellsOf(ws, m), OneStation.StepsOf(sts, m);
    assert cs[0] == Project(ws[0], m);
    DiscoveryOfCells(settings, m, cs, csts);
    assert forall i :: 0 <= i < |ws| ==> cs[i] == Project(ws[i], m);
    assert forall i :: 0 <= i < |sts| ==> csts[i].event == ProjectEvent(sts[i].event, m);
  }

  lemma {:induction false} StationsKeepTheirMAC(settings: Settings, ws: seq<World>, sts: seq<Presence.Step>, n: nat,
                                                m: MAC)
    requires Run(settings, ws, sts) && n <= |sts|
    ensures m in ws[n].stations ==> ws[n].stations[m].mac == m
  {
    Independence(settings, ws, sts, m);
    var cs, csts := CellsOf(ws, m), OneStation.StepsOf(sts, m);
    if n > 0 {
      CellStepOf(settings, m, cs, csts, n - 1);
    }
    assert cs[n] == Project(ws[n], m);
  }

  lemma {:induction false} DiscoversAt(w: World, m: MAC)
    requires m in w.stations ==> w.stations[m].mac == m
    ensures Discovers(Project(w, m)) <==>
            Retained(w.log, Topic.Discovery(m)) ==
            if m in w.stations then Some(Tracker(w.stations[m].name, m)) else None
  {
  }

  /** In every run that starts without discovery messages: a MAC has one exactly
      when it is tracked, and it carries the station's current name. */
  lemma {:induction false} Discovery(settings: Settings, ws: seq<World>, sts: seq<Presence.Step>, n: nat, m: MAC)
    requires settings.autodiscovery
    requires Run(settings, ws, sts) && NeverHidden(ws, sts, m) && n <= |sts|
    requires Retained(ws[0].log, Topic.Discovery(m)).None?
    ensures Retained(ws[n].log, Topic.Discovery(m)) ==
            if m in ws[n].stations then Some(Tracker(ws[n].stations[m].name, m)) else None
  {
    DiscoveryExactly(settings, ws, sts, m);
    StationsKeepTheirMAC(settings, ws, sts, n, m);
    DiscoversAt(ws[n], m);
  }

  // ----- configurations that repeat nothing -----

  /** Every configuration of the run names each MAC at most once. */
  ghost predicate NamesEachOnce(sts: seq<Presence.Step>) {
    forall i, m :: 0 <= i < |sts| && sts[i].event.Configured? ==> |NamesOf(sts[i].event.devices, m)| <= 1
  }

  /** Such a run overlooks no station and hides no name. */
  lemma {:induction false} SingleNamesAreSeen(ws: seq<World>, sts: seq<Presence.Step>, m: MAC)
    requires |ws| == |sts| + 1 && NamesEachOnce(sts)
    ensures NeverOverlooked(ws, sts, m) && NeverHidden(ws, sts, m)
  {
    forall i | 0 <= i < |sts|
      ensures !Overlooks(Project(ws[i], m), ProjectEvent(sts[i].event, m))
      ensures !HidesName(Project(ws[i], m), ProjectEvent(sts[i].event, m))
    {
      assert sts[i].event.Configured? ==> |NamesOf(sts[i].event.devices, m)| <= 1;
    }
  }

  // ----- without discovery -----

  lemma {:induction false} SilentStep(settings: Settings, m: MAC, c: Cell, st: CellStep)
    requires !settings.autodiscovery && CellOk(m, c) && CellEnabled(settings, m, c, st)
    ensures CellNext(settings, m, c, st).disc == c.disc
  {
    if st.event.Listed? {
      NamesInPlace(m, c.sta, st.event.names);
    }
  }

  lemma {:induction false} SilentCells(settings: Settings, m: MAC, cs: seq<Cell>, sts: seq<CellStep>, n: nat)
    requires !settings.autodiscovery && CellRun(settings, m, cs, sts) && n <= |sts|
    ensures cs[n].disc == cs[0].disc
  {
    if n > 0 {
      SilentCells(settings, m, cs, sts, n - 1);
      CellStepOf(settings, m, cs, sts, n - 1);
      SilentStep(settings, m, cs[n - 1], sts[n - 1]);
    }
  }

  /** With discovery off no run publishes anything on a discovery topic. */
  lemma {:induction false} SilentWithoutDiscovery(settings: Settings, ws: seq<World>, sts: seq<Presence.Step>,
                                                  n: nat, m: MAC)
    requires !settings.autodiscovery && Run(settings, ws, sts) && n <= |sts|
    ensures Channel(ws[n].log, Topic.Discovery(m)) == Channel(ws[0].log, Topic.Discovery(m))
  {
    Independence(settings, ws, sts, m);
    SilentCells(settings, m, CellsOf(ws, m), OneStation.StepsOf(sts, m), n);
    assert CellsOf(ws, m)[n] == Project(ws[n], m) && CellsOf(ws, m)[0] == Project(ws[0], m);
  }

  // ----- a configuration that repeats a device -----

  lemma {:induction false} NamesOfTwo(m: MAC, name: string, other: string)
    ensures NamesOf([Device(m, name), Device(m, other)], m) == [name, other]
    ensures MACsOf([Device(m, name), Device(m, other)]) == {m}
  {
    var one, two := [Device(m, name)], [Device(m, name), Device(m, other)];
    assert two[..1] == one && one[..0] == [];
    assert NamesOf(one, m) == [name];
    assert two[0].mac == m;
  }

  function Twice(m: MAC): seq<Device> {
    [Device(m, "phone"), Device(m, "phone")]
  }

  /** Such a first configuration is accepted, whatever the broker retains. */
  lemma {:induction false} TwiceIsAccepted(settings: Settings, m: MAC, log: Log, snapshot: Snapshot)
    requires !snapshot.Failed?
    ensures var w := World(map[], EMPTY_QUEUE, log);
            WorldOk(w) && Enabled(settings, w, Presence.Step(Configured(Twice(m), snapshot, [m]), 0))
    ensures NamesOf(Twice(m), m) == ["phone", "phone"]
  {
    NamesOfTwo(m, "phone", "phone");
    PlanFacts(map[], Twice(m));
    PlanAt(map[], Twice(m), m);
    NamesInPlace(m, None, ["phone", "phone"]);
  }

  /** The failing input: a first configuration that names one device twice. The
      device is tracked as disconnected, nothing was or will be announced, and with
      discovery on it was not registered. */
  lemma {:induction false} RepeatedDeviceIsOverlooked(settings: Settings, m: MAC)
    returns (w: World, st: Presence.Step)
    ensures w == World(map[], EMPTY_QUEUE, Empty)
    ensures st.event == Configured(Twice(m), Unsupported, [m])
    ensures WorldOk(w) && Enabled(settings, w, st)
    ensures var r := Next(settings, w, st);
            && m in r.stations && !r.stations[m].connected
            && Retained(r.log, State(m)).None? && m !in r.queue.entries
            && !Agrees(Project(r, m))
            && (settings.autodiscovery ==> !Discovers(Project(r, m)))
  {
    w := World(map[], EMPTY_QUEUE, Empty);
    st := Presence.Step(Configured(Twice(m), Unsupported, [m]), 0);
    TwiceIsAccepted(settings, m, Empty, Unsupported);
    NamesInPlace(m, None, ["phone", "phone"]);
    StepAt(settings, w, st, m);
  }
}
