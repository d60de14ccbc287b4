/** What the broker says of a station, as a function of what happened and when.

    This is for prompt timers: a timer that is due has run before any handler
    runs. The form speaks of the events alone, not of stations, queue or timers. */
module Timed {
  import opened Wrappers
  import opened Mac
  import opened Topics
  import opened Broker
  import opened Debounce
  import opened Presence
  import opened OneStation
  import opened Agreement

  // ----- the closed form -----

  /** The latest configuration before step n names the MAC. */
  predicate TrackedAt(sts: seq<CellStep>, n: nat)
    requires n <= |sts|
  {
    n > 0 && if sts[n - 1].event.Listed? then sts[n - 1].event.names != [] else TrackedAt(sts, n - 1)
  }

  /** Where the station gets home by step k, if it does: by connecting while it is
      tracked, or by being connected when it gets tracked. A configuration that names it
      twice when it starts to track it does not look at the listing. */
  function HomeBy(sts: seq<CellStep>, k: nat): Option<string>
    requires k < |sts|
  {
    match sts[k].event
    case Joined(ap) => if TrackedAt(sts, k) then Some(ap.bssid) else None
    case Listed(names, link) =>
      if |names| == 1 && !TrackedAt(sts, k) && link.Some? then Some(link.value.ap.bssid) else None
    case _ => None
  }

  predicate Unlists(st: CellStep) {
    st.event.Listed? && st.event.names == []
  }

  predicate LeavesFrom(st: CellStep, bssid: string) {
    st.event.Left? && st.event.ap.bssid == bssid
  }

  /** Of the first n steps, step k brought the station home; since then it was not
      removed and did not get home again, and it did not leave that access point, or not
      yet for the debounce time. */
  ghost predicate HomeSince(debounce: int, sts: seq<CellStep>, n: nat, k: int, t: int)
    requires n <= |sts|
  {
    && 0 <= k < n
    && HomeBy(sts, k).Some?
    && (forall j :: k < j < n ==> HomeBy(sts, j).None? && !Unlists(sts[j]))
    && (forall j :: k < j < n && LeavesFrom(sts[j], HomeBy(sts, k).value) ==> t < sts[j].at + debounce)
  }

  /** Home at time t, as the first n events have it. */
  ghost predicate HomeAt(debounce: int, sts: seq<CellStep>, n: nat, t: int)
    requires n <= |sts|
  {
    exists k :: HomeSince(debounce, sts, n, k, t)
  }

  // ----- prompt timers -----

  predicate NothingDue(ts: seq<Timer>, t: int) {
    forall i :: 0 <= i < |ts| ==> !ts[i].phase.Expired? && (ts[i].phase.Armed? ==> t < ts[i].deadline)
  }

  predicate Handles(e: CellEvent) {
    e.Listed? || e.Joined? || e.Left?
  }

  ghost predicate Prompt(cs: seq<Cell>, sts: seq<CellStep>) {
    |cs| == |sts| + 1 &&
    forall i :: 0 <= i < |sts| && Handles(sts[i].event) ==> NothingDue(cs[i].slot.timers, sts[i].at)
  }

  // ----- the history, step by step -----

  /** The step by which the station last got home, if it is still tracked. */
  function Latest(sts: seq<CellStep>, n: nat): (k: Option<nat>)
    requires n <= |sts|
    ensures k.Some? ==> k.value < n && HomeBy(sts, k.value).Some?
  {
    if n == 0 then None
    else if HomeBy(sts, n - 1).Some? then Some(n - 1)
    else if Unlists(sts[n - 1]) then None
    else Latest(sts, n - 1)
  }

  /** The first step after that by which it left. */
  function FirstLeft(sts: seq<CellStep>, n: nat): (j: Option<nat>)
    requires n <= |sts|
    ensures j.Some? ==> j.value < n
  {
    if n == 0 || HomeBy(sts, n - 1).Some? || Unlists(sts[n - 1]) || Latest(sts, n - 1).None? then None
    else
      var before := FirstLeft(sts, n - 1);
      if before.Some? then before
      else if LeavesFrom(sts[n - 1], HomeBy(sts, Latest(sts, n - 1).value).value) then Some(n - 1)
      else None
  }

  lemma {:induction false} LatestIsLatest(sts: seq<CellStep>, n: nat)
    requires n <= |sts|
    ensures Latest(sts, n).None? ==>
              forall k :: 0 <= k < n && HomeBy(sts, k).Some? ==> exists j :: k < j < n && Unlists(sts[j])
    ensures Latest(sts, n).Some? ==>
              forall j :: Latest(sts, n).value < j < n ==> HomeBy(sts, j).None? && !Unlists(sts[j])
  {
    if n > 0 {
      LatestIsLatest(sts, n - 1);
      if Latest(sts, n).None? {
        forall k | 0 <= k < n && HomeBy(sts, k).Some? ensures exists j :: k < j < n && Unlists(sts[j]) {
          if Unlists(sts[n - 1]) {
            assert k < n - 1;
          } else {
            var j :| k < j < n - 1 && Unlists(sts[j]);
          }
        }
      }
    }
  }

  lemma {:induction false} FirstLeftIsFirst(sts: seq<CellStep>, n: nat)
    requires n <= |sts| && Latest(sts, n).Some?
    ensures var k := Latest(sts, n).value;
            var bssid := HomeBy(sts, k).value;
            match FirstLeft(sts, n)
            case None => forall j :: k < j < n ==> !LeavesFrom(sts[j], bssid)
            case Some(f) =>
              k < f < n && LeavesFrom(sts[f], bssid) && forall j :: k < j < f ==> !LeavesFrom(sts[j], bssid)
  {
    if HomeBy(sts, n - 1).None? {
      FirstLeftIsFirst(sts, n - 1);
    }
  }

  // ----- the invariant -----

  /** No step before n lasts beyond time now. */
  predicate Before(sts: seq<CellStep>, n: nat, now: int)
    requires n <= |sts|
  {
    forall i :: 0 <= i < n ==> sts[i].at <= now
  }

  predicate OnlyEntryLives(s: Slot) {
    forall i :: 0 <= i < |s.timers| && Live(s.timers[i]) ==> s.entry == Some(i)
  }

  predicate ExpiredInTime(s: Slot, now: int) {
    forall i :: 0 <= i < |s.timers| && s.timers[i].phase.Expired? ==> s.timers[i].deadline <= now
  }

  /** How a station that left at step f may stand: its entry waits for the debounce
      time to pass since then, or it has passed and was announced. */
  predicate Leaving(debounce: int, c: Cell, leftAt: int, now: int) {
    || (&& Last(c.state) == Some(Home) && c.slot.entry.Some?
        && c.slot.entry.value < |c.slot.timers|
        && c.slot.timers[c.slot.entry.value].deadline == leftAt + debounce)
    || (Last(c.state) == Some(NotHome) && leftAt + debounce <= now)
  }

  predicate Tells(debounce: int, c: Cell, sts: seq<CellStep>, n: nat, now: int)
    requires n <= |sts|
  {
    && (c.sta.Some? <==> TrackedAt(sts, n))
    && OnlyEntryLives(c.slot)
    && ExpiredInTime(c.slot, now)
    && (c.sta.None? ==> c.slot.entry.None? && Latest(sts, n).None?)
    && (c.sta.Some? ==>
          match Latest(sts, n)
          case None => !c.sta.value.connected && Last(c.state) == Some(NotHome)
          case Some(k) =>
            match FirstLeft(sts, n)
            case None =>
              && c.sta.value.connected && c.sta.value.bssid == HomeBy(sts, k).value
              && Last(c.state) == Some(Home) && c.slot.entry.None?
            case Some(f) => !c.sta.value.connected && Leaving(debounce, c, sts[f].at, now))
  }

  /** What a step of each kind does to the history. */
  lemma {:induction false} HistoryStep(sts: seq<CellStep>, n: nat)
    requires n < |sts|
    ensures TrackedAt(sts, n + 1) <==> if sts[n].event.Listed? then sts[n].event.names != [] else TrackedAt(sts, n)
    ensures HomeBy(sts, n).Some? ==> Latest(sts, n + 1) == Some(n) && FirstLeft(sts, n + 1).None?
    ensures Unlists(sts[n]) ==> Latest(sts, n + 1).None? && FirstLeft(sts, n + 1).None?
    ensures HomeBy(sts, n).None? && !Unlists(sts[n]) ==>
              && Latest(sts, n + 1) == Latest(sts, n)
              && FirstLeft(sts, n + 1) ==
                 if Latest(sts, n).None? then None
                 else if FirstLeft(sts, n).Some? then FirstLeft(sts, n)
                 else if LeavesFrom(sts[n], HomeBy(sts, Latest(sts, n).value).value) then Some(n)
                 else None
  {
  }

  ghost predicate TellsStepReady(settings: Settings, m: MAC, c: Cell, sts: seq<CellStep>, n: nat, was: int) {
    && n < |sts| && was <= sts[n].at
    && CellOk(m, c) && CellEnabled(settings, m, c, sts[n])
    && Tells(settings.debounce, c, sts, n, was)
    && (Handles(sts[n].event) ==> NothingDue(c.slot.timers, sts[n].at))
    && !Overlooks(c, sts[n].event)
  }

  lemma {:induction false} TellsListed(settings: Settings, m: MAC, c: Cell, sts: seq<CellStep>, n: nat, was: int)
    requires TellsStepReady(settings, m, c, sts, n, was) && sts[n].event.Listed?
    ensures Tells(settings.debounce, CellNext(settings, m, c, sts[n]), sts, n + 1, sts[n].at)
  {
    HistoryStep(sts, n);
    NamesInPlace(m, c.sta, sts[n].event.names);
  }

  lemma {:induction false} TellsJoined(settings: Settings, m: MAC, c: Cell, sts: seq<CellStep>, n: nat, was: int)
    requires TellsStepReady(settings, m, c, sts, n, was) && sts[n].event.Joined?
    ensures Tells(settings.debounce, CellNext(settings, m, c, sts[n]), sts, n + 1, sts[n].at)
  {
    HistoryStep(sts, n);
  }

  lemma {:induction false} TellsLeft(settings: Settings, m: MAC, c: Cell, sts: seq<CellStep>, n: nat, was: int)
    requires TellsStepReady(settings, m, c, sts, n, was) && sts[n].event.Left?
    ensures Tells(settings.debounce, CellNext(settings, m, c, sts[n]), sts, n + 1, sts[n].at)
  {
    HistoryStep(sts, n);
  }

  lemma {:induction false} TellsTimer(settings: Settings, m: MAC, c: Cell, sts: seq<CellStep>, n: nat, was: int)
    requires TellsStepReady(settings, m, c, sts, n, was) && !Handles(sts[n].event)
    ensures Tells(settings.debounce, CellNext(settings, m, c, sts[n]), sts, n + 1, sts[n].at)
  {
    HistoryStep(sts, n);
  }

  lemma {:induction false} TellsStep(settings: Settings, m: MAC, c: Cell, sts: seq<CellStep>, n: nat, was: int)
    requires TellsStepReady(settings, m, c, sts, n, was)
    ensures Tells(settings.debounce, CellNext(settings, m, c, sts[n]), sts, n + 1, sts[n].at)
  {
    match sts[n].event
    case Listed(_, _) => TellsListed(settings, m, c, sts, n, was);
    case Joined(_) => TellsJoined(settings, m, c, sts, n, was);
    case Left(_) => TellsLeft(settings, m, c, sts, n, was);
    case _ => TellsTimer(settings, m, c, sts, n, was);
  }

  lemma {:induction false} TellsAlways(settings: Settings, m: MAC, cs: seq<Cell>, sts: seq<CellStep>, n: nat)
    requires CellRun(settings, m, cs, sts) && Prompt(cs, sts) && n <= |sts|
    requires forall i :: 0 <= i < n ==> !Overlooks(cs[i], sts[i].event)
    ensures Tells(settings.debounce, cs[n], sts, n, if n == 0 then 0 else sts[n - 1].at)
  {
    if n > 0 {
      TellsAlways(settings, m, cs, sts, n - 1);
      CellStepOf(settings, m, cs, sts, n - 1);
      var was := if n == 1 then sts[0].at else sts[n - 2].at;
      TellsStep(settings, m, cs[n - 1], sts, n - 1, was);
    }
  }

  lemma {:induction false} HomeAtHasLatest(debounce: int, sts: seq<CellStep>, n: nat, t: int)
    requires n <= |sts| && HomeAt(debounce, sts, n, t)
    ensures Latest(sts, n).Some?
    ensures var k := Latest(sts, n).value;
            forall j :: k < j < n && LeavesFrom(sts[j], HomeBy(sts, k).value) ==> t < sts[j].at + debounce
  {
    LatestIsLatest(sts, n);
    var k :| HomeSince(debounce, sts, n, k, t);
    assert Latest(sts, n) == Some(k);
  }

  lemma {:induction false} HomeAtFromLatest(debounce: int, sts: seq<CellStep>, n: nat, t: int)
    requires forall i, j :: 0 <= i <= j < |sts| ==> sts[i].at <= sts[j].at
    requires n <= |sts| && Latest(sts, n).Some?
    requires FirstLeft(sts, n).Some? ==> t < sts[FirstLeft(sts, n).value].at + debounce
    ensures HomeAt(debounce, sts, n, t)
  {
    LatestIsLatest(sts, n);
    FirstLeftIsFirst(sts, n);
    var k := Latest(sts, n).value;
    assert HomeSince(debounce, sts, n, k, t);
  }

  /** The closed form by the history: home exactly if the station got home and the
      first step by which it left since, if any, is younger than the debounce time. */
  lemma {:induction false} HomeAtByHistory(debounce: int, sts: seq<CellStep>, n: nat, t: int)
    requires forall i, j :: 0 <= i <= j < |sts| ==> sts[i].at <= sts[j].at
    requires n <= |sts|
    ensures var left := FirstLeft(sts, n);
            HomeAt(debounce, sts, n, t) <==>
            Latest(sts, n).Some? && (left.Some? ==> t < sts[left.value].at + debounce)
  {
    if HomeAt(debounce, sts, n, t) {
      HomeAtHasLatest(debounce, sts, n, t);
      FirstLeftIsFirst(sts, n);
    } else if Latest(sts, n).Some? {
      if FirstLeft(sts, n).Some? ==> t < sts[FirstLeft(sts, n).value].at + debounce {
        HomeAtFromLatest(debounce, sts, n, t);
      }
    }
  }

  lemma {:induction false} NothingDueKeepsEntry(debounce: int, c: Cell, leftAt: int, t: int)
    requires SlotOk(c.slot) && NothingDue(c.slot.timers, t) && Leaving(debounce, c, leftAt, t)
    ensures Last(c.state) == Some(if t < leftAt + debounce then Home else NotHome)
  {
  }

  // ----- the form and when it holds -----

  /** After n steps, at time t: the station is tracked exactly if the latest
      configuration names it, and then the broker retains "connected" exactly if the
      events say that it is home. */
  ghost predicate FormAt(debounce: int, c: Cell, sts: seq<CellStep>, n: nat, t: int)
    requires n <= |sts|
  {
    && (c.sta.Some? <==> TrackedAt(sts, n))
    && (c.sta.Some? ==> Last(c.state) == Some(if HomeAt(debounce, sts, n, t) then Home else NotHome))
  }

  /** And so at every time from the last of these steps on at which nothing is due. */
  ghost predicate FormHolds(debounce: int, c: Cell, sts: seq<CellStep>, n: nat)
    requires n <= |sts|
  {
    forall t :: NothingDue(c.slot.timers, t) && Before(sts, n, t) ==> FormAt(debounce, c, sts, n, t)
  }

  /** The retained state of a tracked station, if no step so far overlooks it. */
  lemma {:induction false} RetainedStateOfCell(settings: Settings, m: MAC, cs: seq<Cell>, sts: seq<CellStep>, n: nat)
    requires CellRun(settings, m, cs, sts) && Prompt(cs, sts) && n <= |sts|
    requires forall i :: 0 <= i < n ==> !Overlooks(cs[i], sts[i].event)
    ensures FormHolds(settings.debounce, cs[n], sts, n)
  {
    TellsAlways(settings, m, cs, sts, n);
    CellStaysOk(settings, m, cs, sts, n);
    forall t | NothingDue(cs[n].slot.timers, t) && Before(sts, n, t)
      ensures FormAt(settings.debounce, cs[n], sts, n, t)
    {
      HomeAtByHistory(settings.debounce, sts, n, t);
      if cs[n].sta.Some? && Latest(sts, n).Some? && FirstLeft(sts, n).Some? {
        NothingDueKeepsEntry(settings.debounce, cs[n], sts[FirstLeft(sts, n).value].at, t);
      }
    }
  }

  /** A step that overlooks the station leaves it tracked and not announced, while the
      events say that it is not home. */
  lemma {:induction false} OverlookedStep(settings: Settings, m: MAC, c: Cell, sts: seq<CellStep>, n: nat, was: int)
    requires n < |sts| && CellOk(m, c) && CellEnabled(settings, m, c, sts[n])
    requires Tells(settings.debounce, c, sts, n, was) && Overlooks(c, sts[n].event)
    ensures var r := CellNext(settings, m, c, sts[n]);
            && r.sta.Some? && Last(r.state) != Some(NotHome) && r.slot == c.slot
            && Latest(sts, n + 1).None?
  {
    HistoryStep(sts, n);
    NamesInPlace(m, c.sta, sts[n].event.names);
  }

  lemma {:induction false} OverlookedIsWrong(settings: Settings, m: MAC, cs: seq<Cell>, sts: seq<CellStep>, n: nat)
    requires CellRun(settings, m, cs, sts) && Prompt(cs, sts) && n < |sts|
    requires forall i :: 0 <= i < n ==> !Overlooks(cs[i], sts[i].event)
    requires Overlooks(cs[n], sts[n].event)
    ensures !FormHolds(settings.debounce, cs[n + 1], sts, n + 1)
  {
    var t := sts[n].at;
    TellsAlways(settings, m, cs, sts, n);
    CellStepOf(settings, m, cs, sts, n);
    OverlookedStep(settings, m, cs[n], sts, n, if n == 0 then 0 else sts[n - 1].at);
    HomeAtByHistory(settings.debounce, sts, n + 1, t);
    assert NothingDue(cs[n + 1].slot.timers, t) && Before(sts, n + 1, t);
    assert !FormAt(settings.debounce, cs[n + 1], sts, n + 1, t);
  }

  lemma {:induction false} FormForbidsOverlooking(settings: Settings, m: MAC, cs: seq<Cell>, sts: seq<CellStep>, n: nat)
    requires CellRun(settings, m, cs, sts) && Prompt(cs, sts) && n <= |sts|
    requires forall i :: 0 <= i <= n ==> FormHolds(settings.debounce, cs[i], sts, i)
    ensures forall i :: 0 <= i < n ==> !Overlooks(cs[i], sts[i].event)
  {
    if n > 0 {
      FormForbidsOverlooking(settings, m, cs, sts, n - 1);
      if Overlooks(cs[n - 1], sts[n - 1].event) {
        OverlookedIsWrong(settings, m, cs, sts, n - 1);
      }
    }
  }

  /** The form holds throughout a run of the station exactly if no step overlooks it. */
  lemma {:induction false} FormOfCells(settings: Settings, m: MAC, cs: seq<Cell>, sts: seq<CellStep>)
    requires CellRun(settings, m, cs, sts) && Prompt(cs, sts)
    ensures (forall n :: 0 <= n <= |sts| ==> FormHolds(settings.debounce, cs[n], sts, n)) <==>
            (forall i :: 0 <= i < |sts| ==> !Overlooks(cs[i], sts[i].event))
  {
    if forall i :: 0 <= i < |sts| ==> !Overlooks(cs[i], sts[i].event) {
      forall n | 0 <= n <= |sts| ensures FormHolds(settings.debounce, cs[n], sts, n) {
        RetainedStateOfCell(settings, m, cs, sts, n);
      }
    }
    if forall n :: 0 <= n <= |sts| ==> FormHolds(settings.debounce, cs[n], sts, n) {
      FormForbidsOverlooking(settings, m, cs, sts, |sts|);
    }
  }

  // ----- the daemon -----

  /** No handler that concerns the MAC runs while a timer of the MAC is due or its
      goroutine is on its way. */
  ghost predicate PromptRun(ws: seq<World>, sts: seq<Presence.Step>, m: MAC) {
    |ws| == |sts| + 1 &&
    forall i :: 0 <= i < |sts| && Handles(ProjectEvent(sts[i].event, m)) ==>
      NothingDue(TimersOf(ws[i].queue, m), sts[i].at)
  }

  lemma {:induction false} PromptAt(ws: seq<World>, sts: seq<Presence.Step>, m: MAC)
    requires PromptRun(ws, sts, m)
    ensures Prompt(CellsOf(ws, m), OneStation.StepsOf(sts, m))
  {
    var cs, csts := CellsOf(ws, m), OneStation.StepsOf(sts, m);
    forall i | 0 <= i < |csts| && Handles(csts[i].event) ensures NothingDue(cs[i].slot.timers, csts[i].at) {
      assert NothingDue(TimersOf(ws[i].queue, m), sts[i].at);
    }
  }

  /** With prompt timers, for every run and every MAC: in every state, at every time at
      which nothing is due, the MAC is tracked exactly if the latest configuration names
      it, and the broker retains "connected" exactly if the events say that it is home --
      exactly if the run never overlooks the MAC. */
  lemma {:induction false} RetainedStateIsTheHistory(settings: Settings, ws: seq<World>, sts: seq<Presence.Step>,
                                                     m: MAC)
    requires Run(settings, ws, sts) && PromptRun(ws, sts, m)
    ensures (forall n :: 0 <= n <= |sts| ==>
               FormHolds(settings.debounce, Project(ws[n], m), OneStation.StepsOf(sts, m), n)) <==>
            NeverOverlooked(ws, sts, m)
  {
    var cs, csts := CellsOf(ws, m), OneStation.StepsOf(sts, m);
    Independence(settings, ws, sts, m);
    PromptAt(ws, sts, m);
    FormOfCells(settings, m, cs, csts);
    assert forall n :: 0 <= n <= |sts| ==> cs[n] == Project(ws[n], m);
    assert forall i :: 0 <= i < |sts| ==> csts[i].event == ProjectEvent(sts[i].event, m);
  }

  /** The form of one state, in terms of the daemon and the broker. */
  lemma {:induction false} RetainedStateAt(settings: Settings, ws: seq<World>, sts: seq<Presence.Step>,
                                           m: MAC, n: nat, t: int)
    requires Run(settings, ws, sts) && PromptRun(ws, sts, m) && NeverOverlooked(ws, sts, m)
    requires n <= |sts| && NothingDue(TimersOf(ws[n].queue, m), t)
    requires forall i :: 0 <= i < n ==> sts[i].at <= t
    ensures m in ws[n].stations <==> TrackedAt(OneStation.StepsOf(sts, m), n)
    ensures m in ws[n].stations ==>
              Retained(ws[n].log, State(m)) ==
              Some(if HomeAt(settings.debounce, OneStation.StepsOf(sts, m), n, t) then Home else NotHome)
  {
    RetainedStateIsTheHistory(settings, ws, sts, m);
    var c, csts := Project(ws[n], m), OneStation.StepsOf(sts, m);
    assert FormHolds(settings.debounce, c, csts, n);
    assert NothingDue(c.slot.timers, t) && Before(csts, n, t);
    assert FormAt(settings.debounce, c, csts, n, t);
  }
}
