/** Why the daemon says what it says: every announcement of a state has its cause
    among the events. No assumption is made about the timers. */
module Traces {
  import opened Wrappers
  import opened Mac
  import opened Topics
  import opened Broker
  import opened Debounce
  import opened Presence
  import opened OneStation
  import opened Agreement
  import opened Timed

  /** Step i publishes p on the state topic. */
  ghost predicate Says(cs: seq<Cell>, i: nat, p: Payload)
    requires i + 1 < |cs|
  {
    cs[i + 1].state == cs[i].state + [Some(p)]
  }

  ghost predicate SaysNothing(cs: seq<Cell>, i: nat)
    requires i + 1 < |cs|
  {
    cs[i + 1].state == cs[i].state
  }

  /** Nothing is said of the state, and the MAC is not dropped, by the steps
      strictly between a and b. */
  ghost predicate Quiet(cs: seq<Cell>, sts: seq<CellStep>, a: nat, b: nat)
    requires |cs| == |sts| + 1 && b <= |sts|
  {
    forall k :: a < k < b ==> SaysNothing(cs, k) && !Unlists(sts[k])
  }

  predicate HomeOn(c: Cell, bssid: string) {
    c.sta.Some? && c.sta.value.connected && c.sta.value.bssid == bssid && c.slot.entry.None?
  }

  lemma {:induction false} HomeAfterStep(settings: Settings, m: MAC, c: Cell, st: CellStep)
    requires CellOk(m, c) && CellEnabled(settings, m, c, st) && Settled(c)
    requires CellNext(settings, m, c, st).state == c.state + [Some(Home)]
    ensures var r := CellNext(settings, m, c, st);
            r.sta.Some? && HomeOn(r, r.sta.value.bssid)
  {
    assert Last(CellNext(settings, m, c, st).state) == Some(Home);
    if st.event.Listed? {
      NamesInPlace(m, c.sta, st.event.names);
    }
  }

  lemma {:induction false} HomeAfterSaying(settings: Settings, m: MAC, cs: seq<Cell>, sts: seq<CellStep>, a: nat)
    requires CellRun(settings, m, cs, sts) && a < |sts| && Says(cs, a, Home)
    ensures cs[a + 1].sta.Some? && HomeOn(cs[a + 1], cs[a + 1].sta.value.bssid)
  {
    AlwaysSettled(settings, m, cs, sts, a);
    CellStepOf(settings, m, cs, sts, a);
    HomeAfterStep(settings, m, cs[a], sts[a]);
  }

  /** A station that is at home on an access point stays so until it connects
      elsewhere, leaves from there, or is dropped. */
  lemma {:induction false} HomeStep(settings: Settings, m: MAC, c: Cell, st: CellStep, bssid: string)
    requires CellOk(m, c) && CellEnabled(settings, m, c, st) && HomeOn(c, bssid)
    requires !Unlists(st) && !LeavesFrom(st, bssid)
    ensures var r := CellNext(settings, m, c, st);
            if st.event.Joined? && st.event.ap.bssid != bssid
            then r.state == c.state + [Some(Home)] && HomeOn(r, st.event.ap.bssid)
            else r.state == c.state && HomeOn(r, bssid)
  {
    if st.event.Listed? {
      NamesInPlace(m, c.sta, st.event.names);
    }
  }

  lemma {:induction false} HomeQuietStep(settings: Settings, m: MAC, c: Cell, st: CellStep, bssid: string)
    requires CellOk(m, c) && CellEnabled(settings, m, c, st) && HomeOn(c, bssid)
    requires !Unlists(st) && !LeavesFrom(st, bssid)
    requires CellNext(settings, m, c, st).state == c.state
    ensures HomeOn(CellNext(settings, m, c, st), bssid)
  {
    HomeStep(settings, m, c, st, bssid);
  }

  lemma {:induction false} HomeWhileQuiet(settings: Settings, m: MAC, cs: seq<Cell>, sts: seq<CellStep>,
                                          a: nat, n: nat, bssid: string)
    requires CellRun(settings, m, cs, sts) && a < n <= |sts|
    requires Quiet(cs, sts, a, n) && HomeOn(cs[a + 1], bssid)
    requires forall k :: a < k < n ==> !LeavesFrom(sts[k], bssid)
    ensures HomeOn(cs[n], bssid)
    decreases n - a
  {
    if n > a + 1 {
      assert Quiet(cs, sts, a, n - 1) && SaysNothing(cs, n - 1) && !Unlists(sts[n - 1]);
      HomeWhileQuiet(settings, m, cs, sts, a, n - 1, bssid);
      CellStepOf(settings, m, cs, sts, n - 1);
      HomeQuietStep(settings, m, cs[n - 1], sts[n - 1], bssid);
    }
  }

  /** What a station that got home by step a and has not left since may say next. */
  lemma {:induction false} SaysNextFromHome(settings: Settings, m: MAC, cs: seq<Cell>, sts: seq<CellStep>, a: nat,
                                            b: nat)
    requires CellRun(settings, m, cs, sts) && a < b < |sts|
    requires Says(cs, a, Home) && !SaysNothing(cs, b) && Quiet(cs, sts, a, b) && !Unlists(sts[b])
    requires cs[a + 1].sta.Some? && forall k :: a < k < b ==> !LeavesFrom(sts[k], cs[a + 1].sta.value.bssid)
    ensures Says(cs, b, Home) && sts[b].event.Joined? && sts[b].event.ap.bssid != cs[a + 1].sta.value.bssid
  {
    var bssid := cs[a + 1].sta.value.bssid;
    HomeAfterSaying(settings, m, cs, sts, a);
    HomeWhileQuiet(settings, m, cs, sts, a, b, bssid);
    CellStepOf(settings, m, cs, sts, b);
    if !LeavesFrom(sts[b], bssid) {
      HomeStep(settings, m, cs[b], sts[b], bssid);
    }
  }

  /** Roaming: between saying that a station is home and next saying that it is not,
      it left from the access point it was home on; a late disconnect from another
      one does not do. */
  lemma {:induction false} RoamingSafety(settings: Settings, m: MAC, cs: seq<Cell>, sts: seq<CellStep>, a: nat, b: nat)
    requires CellRun(settings, m, cs, sts) && a < b < |sts|
    requires Says(cs, a, Home) && Says(cs, b, NotHome) && Quiet(cs, sts, a, b) && !Unlists(sts[b])
    ensures cs[a + 1].sta.Some?
    ensures exists d :: a < d < b && LeavesFrom(sts[d], cs[a + 1].sta.value.bssid)
  {
    HomeAfterSaying(settings, m, cs, sts, a);
    assert Last(cs[b + 1].state) == Some(NotHome);
    if forall k :: a < k < b ==> !LeavesFrom(sts[k], cs[a + 1].sta.value.bssid) {
      SaysNextFromHome(settings, m, cs, sts, a, b);
    }
  }

  /** Saying twice in a row that a station is home: it left in between from the
      access point it was home on, or it now connects to another one. */
  lemma {:induction false} SecondHomeHasCause(settings: Settings, m: MAC, cs: seq<Cell>, sts: seq<CellStep>, a: nat,
                                              b: nat)
    requires CellRun(settings, m, cs, sts) && a < b < |sts|
    requires Says(cs, a, Home) && Says(cs, b, Home) && Quiet(cs, sts, a, b) && !Unlists(sts[b])
    ensures cs[a + 1].sta.Some?
    ensures var bssid := cs[a + 1].sta.value.bssid;
            || (exists d :: a < d < b && LeavesFrom(sts[d], bssid))
            || (sts[b].event.Joined? && sts[b].event.ap.bssid != bssid)
  {
    HomeAfterSaying(settings, m, cs, sts, a);
    if forall k :: a < k < b ==> !LeavesFrom(sts[k], cs[a + 1].sta.value.bssid) {
      SaysNextFromHome(settings, m, cs, sts, a, b);
    }
  }

  /** Step d made the entry, and since then the station neither connected nor was
      dropped. */
  ghost predicate EntrySince(cs: seq<Cell>, sts: seq<CellStep>, d: nat, n: nat)
    requires |cs| == |sts| + 1 && n <= |sts|
  {
    && d < n && sts[d].event.Left?
    && cs[d].slot.entry.None? && cs[d + 1].slot.entry == cs[n].slot.entry
    && !(cs[d].sta.Some? && cs[d].sta.value.connected && cs[d].sta.value.bssid != sts[d].event.ap.bssid)
    && forall k :: d < k < n ==> !sts[k].event.Joined? && !Unlists(sts[k])
  }

  /** An entry comes from an accepted disconnect, and stays only through steps that
      neither connect the station nor drop it. */
  lemma {:induction false} EntryStep(settings: Settings, m: MAC, c: Cell, st: CellStep)
    requires CellOk(m, c) && CellEnabled(settings, m, c, st) && Settled(c)
    requires CellNext(settings, m, c, st).slot.entry.Some?
    ensures c.slot.entry.None? ==>
              st.event.Left? && !(c.sta.Some? && c.sta.value.connected && c.sta.value.bssid != st.event.ap.bssid)
    ensures c.slot.entry.Some? ==>
              CellNext(settings, m, c, st).slot.entry == c.slot.entry && !st.event.Joined? && !Unlists(st)
  {
    if st.event.Listed? {
      NamesInPlace(m, c.sta, st.event.names);
    }
  }

  lemma {:induction false} EntryHasCause(settings: Settings, m: MAC, cs: seq<Cell>, sts: seq<CellStep>, n: nat)
    returns (d: nat)
    requires CellRun(settings, m, cs, sts) && n <= |sts| && cs[n].slot.entry.Some?
    ensures EntrySince(cs, sts, d, n)
  {
    AlwaysSettled(settings, m, cs, sts, n - 1);
    CellStepOf(settings, m, cs, sts, n - 1);
    EntryStep(settings, m, cs[n - 1], sts[n - 1]);
    if cs[n - 1].slot.entry.None? {
      d := n - 1;
    } else {
      d := EntryHasCause(settings, m, cs, sts, n - 1);
    }
  }

  /** When a timer makes the daemon say that a station is not home, the station had
      left, from the access point it was home on if it was home, and it neither
      connected nor was dropped since. */
  lemma {:induction false} TimerSpeaksForADisconnect(settings: Settings, m: MAC, cs: seq<Cell>, sts: seq<CellStep>,
                                                     b: nat)
    returns (d: nat)
    requires CellRun(settings, m, cs, sts) && b < |sts|
    requires sts[b].event.TimerRuns? && !SaysNothing(cs, b)
    ensures Says(cs, b, NotHome) && cs[b].slot.entry.Some? && EntrySince(cs, sts, d, b)
  {
    CellStepOf(settings, m, cs, sts, b);
    d := EntryHasCause(settings, m, cs, sts, b);
  }

  // ----- attributes -----

  /** Every callback that a timer carries was brought by an earlier disconnect, and
      names its access point. */
  ghost predicate CallbackFrom(sts: seq<CellStep>, n: nat, t: Timer) {
    t.cb.AnnounceAway? && exists d :: 0 <= d < n <= |sts| && sts[d].event == Left(t.cb.ap)
  }

  ghost predicate CallbacksFrom(sts: seq<CellStep>, n: nat, ts: seq<Timer>) {
    forall i :: 0 <= i < |ts| ==> CallbackFrom(sts, n, ts[i])
  }

  lemma {:induction false} StepBringsCallback(settings: Settings, m: MAC, c: Cell, st: CellStep, i: nat)
    requires CellOk(m, c) && CellEnabled(settings, m, c, st)
    requires i < |CellNext(settings, m, c, st).slot.timers|
    ensures var t := CellNext(settings, m, c, st).slot.timers[i];
            if i < |c.slot.timers| then t.cb == c.slot.timers[i].cb
            else st.event.Left? && t.cb == AnnounceAway(st.event.ap)
  {
    if st.event.Listed? {
      NamesInPlace(m, c.sta, st.event.names);
    }
  }

  lemma {:induction false} CallbacksHaveTheirCause(settings: Settings, m: MAC, cs: seq<Cell>, sts: seq<CellStep>,
                                                   n: nat)
    requires CellRun(settings, m, cs, sts) && n <= |sts|
    ensures CallbacksFrom(sts, n, cs[n].slot.timers)
  {
    if n > 0 {
      CallbacksHaveTheirCause(settings, m, cs, sts, n - 1);
      CellStepOf(settings, m, cs, sts, n - 1);
      var before, after := cs[n - 1].slot.timers, cs[n].slot.timers;
      forall i | 0 <= i < |after| ensures CallbackFrom(sts, n, after[i]) {
        StepBringsCallback(settings, m, cs[n - 1], sts[n - 1], i);
        if i < |before| {
          assert CallbackFrom(sts, n - 1, before[i]);
          var d :| 0 <= d < n - 1 && sts[d].event == Left(before[i].cb.ap);
          assert sts[d].event == Left(after[i].cb.ap);
        } else {
          assert sts[n - 1].event == Left(after[i].cb.ap);
        }
      }
    }
  }

  lemma {:induction false} KeepsLeavingTime(settings: Settings, m: MAC, c: Cell, st: CellStep)
    requires CellOk(m, c) && CellEnabled(settings, m, c, st) && c.sta.Some?
    requires !st.event.Left? && !Unlists(st)
    ensures var r := CellNext(settings, m, c, st);
            r.sta.Some? && r.sta.value.disconnectedAt == c.sta.value.disconnectedAt
  {
    if st.event.Listed? {
      NamesInPlace(m, c.sta, st.event.names);
    }
  }

  /** While an entry is queued, the station left, and what it keeps as the time of that
      is the latest disconnect, even if the deadline is counted from an earlier one. */
  lemma {:induction false} LastLeaving(settings: Settings, m: MAC, cs: seq<Cell>, sts: seq<CellStep>, n: nat)
    returns (d: nat)
    requires CellRun(settings, m, cs, sts) && n <= |sts| && cs[n].slot.entry.Some?
    ensures d < n && sts[d].event.Left? && (forall k :: d < k < n ==> !sts[k].event.Left?)
    ensures cs[n].sta.Some? && cs[n].sta.value.disconnectedAt == At(sts[d].at)
  {
    AlwaysSettled(settings, m, cs, sts, n - 1);
    CellStepOf(settings, m, cs, sts, n - 1);
    EntryStep(settings, m, cs[n - 1], sts[n - 1]);
    if sts[n - 1].event.Left? {
      d := n - 1;
    } else {
      d := LastLeaving(settings, m, cs, sts, n - 1);
      KeepsLeavingTime(settings, m, cs[n - 1], sts[n - 1]);
    }
  }

  /** Where the attributes of a station come from: the access point of the very event
      that brings it home, or that of an earlier disconnect. */
  ghost predicate PlaceOf(sts: seq<CellStep>, a: nat, ap: AccessPoint, home: bool)
    requires a < |sts|
  {
    if home
    then sts[a].event == Joined(ap)
         || (sts[a].event.Listed? && sts[a].event.link.Some? && sts[a].event.link.value.ap == ap)
    else exists d :: 0 <= d < a && sts[d].event == Left(ap)
  }

  lemma {:induction false} AttributesOfStep(settings: Settings, m: MAC, c: Cell, st: CellStep)
    requires CellOk(m, c) && CellEnabled(settings, m, c, st)
    requires CellNext(settings, m, c, st).attrs != c.attrs
    ensures var r := CellNext(settings, m, c, st);
            && r.sta.Some? && |r.attrs| > 0
            && var last := r.attrs[|r.attrs| - 1];
               && r.attrs == c.attrs + [last]
               && last.Some? && last.value.Attributes?
               && last.value.name == r.sta.value.name && last.value.mac == m
               && last.value.isConnected == !st.event.TimerRuns?
               && r.state == c.state + [Some(if last.value.isConnected then Home else NotHome)]
    ensures var last := CellNext(settings, m, c, st).attrs[|c.attrs|].value;
            var ap := AccessPoint(last.ssid, last.bssid);
            match st.event
            case Joined(at) => ap == at && last.connectedAt == Some(At(st.at))
            case Listed(_, link) =>
              link.Some? && ap == link.value.ap && last.connectedAt == Some(At(st.at - link.value.connectedFor))
            case TimerRuns(i) =>
              && c.slot.timers[i].cb == AnnounceAway(ap) && c.slot.entry.Some? && c.sta.Some?
              && last.disconnectedAt == Some(c.sta.value.disconnectedAt)
            case _ => false
  {
    if st.event.Listed? {
      NamesInPlace(m, c.sta, st.event.names);
    }
  }

  /** The time since when attributes say that the station is where it is: that of the
      event that brings it home, less what the access point lists; or the latest
      disconnect. */
  ghost predicate TimeOf(sts: seq<CellStep>, a: nat, p: Payload)
    requires a < |sts| && p.Attributes?
  {
    if p.isConnected
    then p.connectedAt == Some(At(sts[a].at - if sts[a].event.Listed? && sts[a].event.link.Some?
                                              then sts[a].event.link.value.connectedFor else 0))
    else exists d :: && 0 <= d < a && sts[d].event.Left? && p.disconnectedAt == Some(At(sts[d].at))
                     && forall k :: d < k < a ==> !sts[k].event.Left?
  }

  /** Attributes are only published together with the state that they confirm; they
      carry the station's address and current name, and the access point and the time
      that they give are those of the events behind them. */
  lemma {:induction false} AttributesHaveTheirCause(settings: Settings, m: MAC, cs: seq<Cell>, sts: seq<CellStep>,
                                                    a: nat)
    requires CellRun(settings, m, cs, sts) && a < |sts| && cs[a + 1].attrs != cs[a].attrs
    ensures var last := Last(cs[a + 1].attrs);
            && cs[a + 1].attrs == cs[a].attrs + [last]
            && last.Some? && last.value.Attributes?
            && cs[a + 1].sta.Some? && last.value.name == cs[a + 1].sta.value.name && last.value.mac == m
            && Says(cs, a, if last.value.isConnected then Home else NotHome)
            && PlaceOf(sts, a, AccessPoint(last.value.ssid, last.value.bssid), last.value.isConnected)
            && TimeOf(sts, a, last.value)
  {
    CellStepOf(settings, m, cs, sts, a);
    AttributesOfStep(settings, m, cs[a], sts[a]);
    if sts[a].event.TimerRuns? {
      CallbacksHaveTheirCause(settings, m, cs, sts, a);
      assert CallbackFrom(sts, a, cs[a].slot.timers[sts[a].event.i]);
      var d := LastLeaving(settings, m, cs, sts, a);
    }
  }

  /** A goroutine that finds an entry publishes both: that the station is not home, and
      its attributes, with the access point of its own timer's callback. */
  lemma {:induction false} TimerPublishesBoth(settings: Settings, m: MAC, c: Cell, st: CellStep)
    requires CellOk(m, c) && CellEnabled(settings, m, c, st) && Settled(c)
    requires st.event.TimerRuns? && c.slot.entry.Some?
    ensures var r := CellNext(settings, m, c, st);
            && c.sta.Some? && r.sta == c.sta && |r.attrs| == |c.attrs| + 1
            && r.state == c.state + [Some(NotHome)] && r.disc == c.disc
            && var last := r.attrs[|c.attrs|];
               && r.attrs == c.attrs + [last] && last.Some? && last.value.Attributes?
               && !last.value.isConnected
               && last.value.name == c.sta.value.name && last.value.mac == m
               && c.slot.timers[st.event.i].cb == AnnounceAway(AccessPoint(last.value.ssid, last.value.bssid))
               && last.value.connectedAt.None? && last.value.disconnectedAt == Some(c.sta.value.disconnectedAt)
  {
  }

  /** Timer i was made by step d, a disconnect, and its callback names that access point. */
  ghost predicate TimerFrom(cs: seq<Cell>, sts: seq<CellStep>, n: nat, t: Timer, i: nat) {
    exists d :: 0 <= d < n <= |sts| < |cs| && |cs[d].slot.timers| == i
                && t.cb.AnnounceAway? && sts[d].event == Left(t.cb.ap)
  }

  lemma {:induction false} OneTimerAtMost(settings: Settings, m: MAC, c: Cell, st: CellStep)
    requires CellOk(m, c) && CellEnabled(settings, m, c, st)
    ensures |c.slot.timers| <= |CellNext(settings, m, c, st).slot.timers| <= |c.slot.timers| + 1
  {
    if st.event.Listed? {
      NamesInPlace(m, c.sta, st.event.names);
    }
  }

  lemma {:induction false} TimerHasItsMaker(settings: Settings, m: MAC, cs: seq<Cell>, sts: seq<CellStep>,
                                            n: nat, i: nat)
    requires CellRun(settings, m, cs, sts) && n <= |sts| && i < |cs[n].slot.timers|
    ensures TimerFrom(cs, sts, n, cs[n].slot.timers[i], i)
  {
    CellStepOf(settings, m, cs, sts, n - 1);
    StepBringsCallback(settings, m, cs[n - 1], sts[n - 1], i);
    if i < |cs[n - 1].slot.timers| {
      TimerHasItsMaker(settings, m, cs, sts, n - 1, i);
    } else {
      OneTimerAtMost(settings, m, cs[n - 1], sts[n - 1]);
      assert sts[n - 1].event == Left(cs[n].slot.timers[i].cb.ap);
    }
  }

  /** The attributes say that the station is not connected. */
  predicate SaysAway(c: Cell) {
    match Last(c.attrs)
    case Some(Attributes(_, _, isConnected, _, _, _, _)) => !isConnected
    case _ => false
  }

  lemma {:induction false} StaysAwayStep(settings: Settings, m: MAC, c: Cell, st: CellStep)
    requires CellOk(m, c) && CellEnabled(settings, m, c, st) && SaysAway(c)
    requires CellNext(settings, m, c, st).state != c.state + [Some(Home)]
    ensures SaysAway(CellNext(settings, m, c, st))
  {
    if CellNext(settings, m, c, st).attrs != c.attrs {
      AttributesOfStep(settings, m, c, st);
    }
  }

  /** Once a timer has announced a station as away, its attributes say so until it is
      announced as home. */
  lemma {:induction false} AwayUntilHome(settings: Settings, m: MAC, cs: seq<Cell>, sts: seq<CellStep>, b: nat, n: nat)
    requires CellRun(settings, m, cs, sts) && b < n <= |sts|
    requires sts[b].event.TimerRuns? && cs[b].slot.entry.Some?
    requires forall k :: b < k < n ==> !Says(cs, k, Home)
    ensures SaysAway(cs[n])
    decreases n - b
  {
    CellStepOf(settings, m, cs, sts, n - 1);
    if n == b + 1 {
      AlwaysSettled(settings, m, cs, sts, b);
      TimerPublishesBoth(settings, m, cs[b], sts[b]);
    } else {
      AwayUntilHome(settings, m, cs, sts, b, n - 1);
      assert !Says(cs, n - 1, Home);
      StaysAwayStep(settings, m, cs[n - 1], sts[n - 1]);
    }
  }

  // ----- the same of the daemon -----

  /** Step i of a run of the daemon publishes p on the MAC's state topic. */
  ghost predicate Publishes(ws: seq<World>, i: nat, m: MAC, p: Payload)
    requires i + 1 < |ws|
  {
    Channel(ws[i + 1].log, State(m)) == Channel(ws[i].log, State(m)) + [Some(p)]
  }

  /** Between steps a and b nothing is published on it and no configuration drops the
      MAC, nor does step b. */
  ghost predicate QuietRun(ws: seq<World>, sts: seq<Presence.Step>, a: nat, b: nat, m: MAC)
    requires |ws| == |sts| + 1 && b < |sts|
  {
    && (forall k :: a < k < b ==> Channel(ws[k + 1].log, State(m)) == Channel(ws[k].log, State(m)))
    && (forall k :: a < k <= b && sts[k].event.Configured? ==> NamesOf(sts[k].event.devices, m) != [])
  }

  lemma {:induction false} QuietAt(ws: seq<World>, sts: seq<Presence.Step>, a: nat, b: nat, m: MAC)
    requires |ws| == |sts| + 1 && b < |sts| && QuietRun(ws, sts, a, b, m)
    ensures Quiet(CellsOf(ws, m), StepsOf(sts, m), a, b)
    ensures a < b ==> !Unlists(StepsOf(sts, m)[b])
  {
    var cs, csts := CellsOf(ws, m), StepsOf(sts, m);
    forall k | a < k < b ensures SaysNothing(cs, k) && !Unlists(csts[k]) {
      assert Channel(ws[k + 1].log, State(m)) == Channel(ws[k].log, State(m));
    }
  }

  lemma {:induction false} SaysAt(ws: seq<World>, i: nat, m: MAC, p: Payload)
    requires i + 1 < |ws|
    ensures Says(CellsOf(ws, m), i, p) <==> Publishes(ws, i, m, p)
  {
  }

  lemma {:induction false} LeavesAt(sts: seq<Presence.Step>, d: nat, m: MAC, bssid: string)
    requires d < |sts| && LeavesFrom(StepsOf(sts, m)[d], bssid)
    ensures sts[d].event.Disconnected? && sts[d].event.mac == m && sts[d].event.ap.bssid == bssid
  {
  }

  /** Roaming, for every run of the daemon: from saying that a station is home to next
      saying that it is not, there is a disconnect from the very access point that it
      was home on. */
  lemma {:induction false} NotHomeHasItsDisconnect(settings: Settings, ws: seq<World>, sts: seq<Presence.Step>,
                                                   m: MAC, a: nat, b: nat) returns (d: nat)
    requires Run(settings, ws, sts) && a < b < |sts|
    requires Publishes(ws, a, m, Home) && Publishes(ws, b, m, NotHome) && QuietRun(ws, sts, a, b, m)
    ensures a < d < b && m in ws[a + 1].stations
    ensures sts[d].event.Disconnected? && sts[d].event.mac == m
    ensures sts[d].event.ap.bssid == ws[a + 1].stations[m].bssid
  {
    var cs, csts := CellsOf(ws, m), StepsOf(sts, m);
    Independence(settings, ws, sts, m);
    QuietAt(ws, sts, a, b, m);
    SaysAt(ws, a, m, Home);
    SaysAt(ws, b, m, NotHome);
    RoamingSafety(settings, m, cs, csts, a, b);
    assert cs[a + 1].sta == StationOf(ws[a + 1].stations, m);
    d :| a < d < b && LeavesFrom(csts[d], cs[a + 1].sta.value.bssid);
    LeavesAt(sts, d, m, ws[a + 1].stations[m].bssid);
  }

  /** For every run of the daemon that says twice in a row that a station is home: it
      left in between from where it was home, or it now connects elsewhere. */
  lemma {:induction false} SecondHomeHasItsCause(settings: Settings, ws: seq<World>, sts: seq<Presence.Step>,
                                                 m: MAC, a: nat, b: nat) returns (d: nat)
    requires Run(settings, ws, sts) && a < b < |sts|
    requires Publishes(ws, a, m, Home) && Publishes(ws, b, m, Home) && QuietRun(ws, sts, a, b, m)
    ensures a < d <= b && m in ws[a + 1].stations
    ensures d < b ==>
              && sts[d].event.Disconnected? && sts[d].event.mac == m
              && sts[d].event.ap.bssid == ws[a + 1].stations[m].bssid
    ensures d == b ==>
              && sts[b].event.Connected? && sts[b].event.mac == m
              && sts[b].event.ap.bssid != ws[a + 1].stations[m].bssid
  {
    var cs, csts := CellsOf(ws, m), StepsOf(sts, m);
    Independence(settings, ws, sts, m);
    QuietAt(ws, sts, a, b, m);
    SaysAt(ws, a, m, Home);
    SaysAt(ws, b, m, Home);
    SecondHomeHasCause(settings, m, cs, csts, a, b);
    var bssid := ws[a + 1].stations[m].bssid;
    assert cs[a + 1].sta == StationOf(ws[a + 1].stations, m);
    if k :| a < k < b && LeavesFrom(csts[k], bssid) {
      d := k;
      LeavesAt(sts, d, m, bssid);
    } else {
      d := b;
    }
  }

  /** For every run of the daemon: what a timer says has its disconnect, which made
      the entry, and after which the station neither connected nor was dropped. */
  lemma {:induction false} TimerHasItsDisconnect(settings: Settings, ws: seq<World>, sts: seq<Presence.Step>,
                                                 m: MAC, i: nat, b: nat) returns (d: nat)
    requires Run(settings, ws, sts) && b < |sts| && sts[b].event == Runs(m, i)
    requires Channel(ws[b + 1].log, State(m)) != Channel(ws[b].log, State(m))
    ensures Publishes(ws, b, m, NotHome)
    ensures d < b && sts[d].event.Disconnected? && sts[d].event.mac == m
    ensures m !in ws[d].queue.entries && m in ws[d + 1].queue.entries
    ensures forall k :: d < k < b ==>
              && !(sts[k].event.Connected? && sts[k].event.mac == m)
              && (sts[k].event.Configured? ==> NamesOf(sts[k].event.devices, m) != [])
  {
    var cs, csts := CellsOf(ws, m), StepsOf(sts, m);
    Independence(settings, ws, sts, m);
    assert cs[b] == Project(ws[b], m) && cs[b + 1] == Project(ws[b + 1], m);
    d := TimerSpeaksForADisconnect(settings, m, cs, csts, b);
    assert cs[d] == Project(ws[d], m) && cs[d + 1] == Project(ws[d + 1], m);
    forall k | d < k < b
      ensures !(sts[k].event.Connected? && sts[k].event.mac == m)
      ensures sts[k].event.Configured? ==> NamesOf(sts[k].event.devices, m) != []
    {
      assert !csts[k].event.Joined? && !Unlists(csts[k]);
    }
  }

  /** For every run of the daemon: while a callback is queued for a MAC, its station
      keeps the time of its latest disconnect. */
  lemma {:induction false} QueuedKeepsLatestDisconnect(settings: Settings, ws: seq<World>, sts: seq<Presence.Step>,
                                                       m: MAC, n: nat) returns (d: nat)
    requires Run(settings, ws, sts) && n <= |sts| && m in ws[n].queue.entries
    ensures d < n && sts[d].event.Disconnected? && sts[d].event.mac == m
    ensures forall k :: d < k < n ==> !(sts[k].event.Disconnected? && sts[k].event.mac == m)
    ensures m in ws[n].stations && ws[n].stations[m].disconnectedAt == At(sts[d].at)
  {
    var cs, csts := CellsOf(ws, m), StepsOf(sts, m);
    Independence(settings, ws, sts, m);
    assert cs[n] == Project(ws[n], m);
    d := LastLeaving(settings, m, cs, csts, n);
    forall k | d < k < n ensures !(sts[k].event.Disconnected? && sts[k].event.mac == m) {
      assert !csts[k].event.Left?;
    }
  }

  /** A step that brings a station home, and the access point and the time that it
      gives for that. */
  predicate Brings(st: Presence.Step, m: MAC, ap: AccessPoint, at: Time) {
    match st.event
    case Connected(place, mac) => mac == m && place == ap && at == At(st.at)
    case Configured(_, snapshot, _) =>
      snapshot.Listing? && m in snapshot.links && snapshot.links[m].ap == ap
      && at == At(st.at - snapshot.links[m].connectedFor)
    case _ => false
  }

  ghost predicate DisconnectOf(sts: seq<Presence.Step>, d: nat, m: MAC, ap: AccessPoint) {
    d < |sts| && sts[d].event == Disconnected(ap, m)
  }

  /** Step d is the latest disconnect of the MAC before step a. */
  ghost predicate LatestDisconnect(sts: seq<Presence.Step>, d: nat, a: nat, m: MAC) {
    && d < a <= |sts| && sts[d].event.Disconnected? && sts[d].event.mac == m
    && forall k :: d < k < a ==> !(sts[k].event.Disconnected? && sts[k].event.mac == m)
  }

  /** Attributes that step a publishes have their access point and time from events: those
      of a station at home from step a itself; the others the access point from an earlier
      disconnect, and the time from the latest. */
  ghost predicate FromEvents(sts: seq<Presence.Step>, a: nat, m: MAC, p: Payload)
    requires a < |sts| && p.Attributes?
  {
    var ap := AccessPoint(p.ssid, p.bssid);
    if p.isConnected then p.connectedAt.Some? && Brings(sts[a], m, ap, p.connectedAt.value)
    else
      && (exists d: nat :: d < a && DisconnectOf(sts, d, m, ap))
      && (exists d: nat :: LatestDisconnect(sts, d, a, m) && p.disconnectedAt == Some(At(sts[d].at)))
  }

  lemma {:induction false} HomeFromEvents(sts: seq<Presence.Step>, a: nat, m: MAC, p: Payload)
    requires a < |sts| && p.Attributes? && p.isConnected
    requires PlaceOf(StepsOf(sts, m), a, AccessPoint(p.ssid, p.bssid), true) && TimeOf(StepsOf(sts, m), a, p)
    ensures FromEvents(sts, a, m, p)
  {
    assert StepsOf(sts, m)[a].event == ProjectEvent(sts[a].event, m);
  }

  lemma {:induction false} AwayFromEvents(sts: seq<Presence.Step>, a: nat, m: MAC, p: Payload)
    requires a < |sts| && p.Attributes? && !p.isConnected
    requires PlaceOf(StepsOf(sts, m), a, AccessPoint(p.ssid, p.bssid), false) && TimeOf(StepsOf(sts, m), a, p)
    ensures FromEvents(sts, a, m, p)
  {
    var csts, ap := StepsOf(sts, m), AccessPoint(p.ssid, p.bssid);
    var d :| 0 <= d < a && csts[d].event == Left(ap);
    assert DisconnectOf(sts, d, m, ap);
    var e :| && 0 <= e < a && csts[e].event.Left? && p.disconnectedAt == Some(At(csts[e].at))
             && forall k :: e < k < a ==> !csts[k].event.Left?;
    forall k | e < k < a ensures !(sts[k].event.Disconnected? && sts[k].event.mac == m) {
      assert !csts[k].event.Left?;
    }
    assert LatestDisconnect(sts, e, a, m);
  }

  /** For every run of the daemon: attributes are published only with the state that they
      confirm, with the station's address and current name, and access point and time of
      the events behind them. */
  lemma {:induction false} AttributesHaveTheirEvents(settings: Settings, ws: seq<World>, sts: seq<Presence.Step>,
                                                     m: MAC, a: nat) returns (p: Payload)
    requires Run(settings, ws, sts) && a < |sts|
    requires Channel(ws[a + 1].log, Attrs(m)) != Channel(ws[a].log, Attrs(m))
    ensures Channel(ws[a + 1].log, Attrs(m)) == Channel(ws[a].log, Attrs(m)) + [Some(p)]
    ensures p.Attributes? && Publishes(ws, a, m, if p.isConnected then Home else NotHome)
    ensures m in ws[a + 1].stations && p.name == ws[a + 1].stations[m].name && p.mac == m
    ensures FromEvents(sts, a, m, p)
  {
    var cs, csts := CellsOf(ws, m), StepsOf(sts, m);
    Independence(settings, ws, sts, m);
    assert cs[a] == Project(ws[a], m) && cs[a + 1] == Project(ws[a + 1], m);
    AttributesHaveTheirCause(settings, m, cs, csts, a);
    p := Last(cs[a + 1].attrs).value;
    SaysAt(ws, a, m, if p.isConnected then Home else NotHome);
    if p.isConnected {
      HomeFromEvents(sts, a, m, p);
    } else {
      AwayFromEvents(sts, a, m, p);
    }
  }

  lemma {:induction false} TimersKeepStations(settings: Settings, ws: seq<World>, sts: seq<Presence.Step>,
                                              m: MAC, i: nat, b: nat)
    requires Run(settings, ws, sts) && b < |sts| && sts[b].event == Runs(m, i)
    ensures ws[b + 1].stations == ws[b].stations
  {
    RunStaysOk(settings, ws, sts, b);
    assert Follows(settings, ws, sts, b);
  }

  /** For every run of the daemon: a goroutine that finds its MAC queued publishes that
      the station is not home, and attributes that say so too, with the station's name and
      address, the access point of the disconnect that made this timer, and the time of
      the latest disconnect. */
  lemma {:induction false} TimerPublishesAttributes(settings: Settings, ws: seq<World>, sts: seq<Presence.Step>,
                                                    m: MAC, i: nat, b: nat)
    returns (p: Payload, made: nat, latest: nat)
    requires Run(settings, ws, sts) && b < |sts| && sts[b].event == Runs(m, i) && m in ws[b].queue.entries
    ensures m in ws[b].stations && ws[b + 1].stations == ws[b].stations && Publishes(ws, b, m, NotHome)
    ensures Channel(ws[b + 1].log, Attrs(m)) == Channel(ws[b].log, Attrs(m)) + [Some(p)]
    ensures p.Attributes? && !p.isConnected && p.name == ws[b].stations[m].name && p.mac == m
    ensures made < b && |TimersOf(ws[made].queue, m)| == i
    ensures sts[made].event == Disconnected(AccessPoint(p.ssid, p.bssid), m)
    ensures LatestDisconnect(sts, latest, b, m)
    ensures p.connectedAt.None? && p.disconnectedAt == Some(At(sts[latest].at))
  {
    var cs, csts := CellsOf(ws, m), StepsOf(sts, m);
    Independence(settings, ws, sts, m);
    AlwaysSettled(settings, m, cs, csts, b);
    CellStepOf(settings, m, cs, csts, b);
    TimerPublishesBoth(settings, m, cs[b], csts[b]);
    p := cs[b + 1].attrs[|cs[b].attrs|].value;
    TimerHasItsMaker(settings, m, cs, csts, b, i);
    made :| 0 <= made < b && |cs[made].slot.timers| == i && csts[made].event == Left(AccessPoint(p.ssid, p.bssid));
    latest := QueuedKeepsLatestDisconnect(settings, ws, sts, m, b);
    TimersKeepStations(settings, ws, sts, m, i, b);
  }

  /** For every run of the daemon: when a timer has said that a station is not home, its
      retained attributes say the same until it is announced as home. */
  lemma {:induction false} AttributesAwayUntilHome(settings: Settings, ws: seq<World>, sts: seq<Presence.Step>,
                                                   m: MAC, i: nat, b: nat, n: nat)
    requires Run(settings, ws, sts) && b < n <= |sts| && sts[b].event == Runs(m, i) && m in ws[b].queue.entries
    requires forall k :: b < k < n ==> !Publishes(ws, k, m, Home)
    ensures var attrs := Retained(ws[n].log, Attrs(m));
            attrs.Some? && attrs.value.Attributes? && !attrs.value.isConnected
  {
    var cs, csts := CellsOf(ws, m), StepsOf(sts, m);
    Independence(settings, ws, sts, m);
    forall k | b < k < n ensures !Says(cs, k, Home) {
      SaysAt(ws, k, m, Home);
    }
    AwayUntilHome(settings, m, cs, csts, b, n);
    assert cs[n] == Project(ws[n], m);
  }
}
