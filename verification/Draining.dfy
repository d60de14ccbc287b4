/** Where the daemon gets to when nothing but its timers is left to happen. */
module Draining {
  import opened Wrappers
  import opened Mac
  import opened Topics
  import opened Broker
  import opened Debounce
  import opened Presence
  import opened OneStation
  import opened Agreement

  /** Time has reached every deadline. */
  ghost predicate AllDue(q: Queue, now: int) {
    forall m: MAC, i: nat :: i < |TimersOf(q, m)| ==> TimersOf(q, m)[i].deadline <= now
  }

  predicate TimerEvent(e: Event) {
    e.Expires? || e.Runs?
  }

  lemma {:induction false} RunExtends(settings: Settings, ws: seq<World>, sts: seq<Presence.Step>,
                                      st: Presence.Step, next: World)
    requires Run(settings, ws, sts) && WorldOk(ws[|sts|])
    requires Enabled(settings, ws[|sts|], st) && next == Next(settings, ws[|sts|], st)
    requires |sts| > 0 ==> sts[|sts| - 1].at <= st.at
    ensures Run(settings, ws + [next], sts + [st])
  {
    var vs, tts := ws + [next], sts + [st];
    forall i | 0 <= i < |tts| ensures Follows(settings, vs, tts, i) {
      if i < |sts| {
        assert Follows(settings, ws, sts, i);
      }
    }
  }

  /** A timer overlooks no station. */
  lemma {:induction false} StaysSeen(ws: seq<World>, sts: seq<Presence.Step>, st: Presence.Step, next: World)
    requires |ws| == |sts| + 1 && TimerEvent(st.event)
    requires forall m: MAC :: NeverOverlooked(ws, sts, m)
    ensures forall m: MAC :: NeverOverlooked(ws + [next], sts + [st], m)
  {
    var vs, tts := ws + [next], sts + [st];
    forall m: MAC ensures NeverOverlooked(vs, tts, m) {
      assert NeverOverlooked(ws, sts, m);
      forall i | 0 <= i < |tts| ensures !Overlooks(Project(vs[i], m), ProjectEvent(tts[i].event, m)) {
        if i < |sts| {
          assert vs[i] == ws[i] && tts[i] == sts[i];
        }
      }
    }
  }

  lemma {:induction false} AfterExpiring(w: World, m: MAC, i: nat, now: int)
    requires CanExpire(w, m, i, now) && AllDue(w.queue, now)
    ensures var r := w.(queue := Expire(w.queue, m, i));
            r.queue.entries == w.queue.entries && CanRun(r, m, i) && AllDue(r.queue, now)
  {
    var q := Expire(w.queue, m, i);
    forall o: MAC, j: nat | j < |TimersOf(q, o)| ensures TimersOf(q, o)[j].deadline <= now {
      assert TimersOf(w.queue, o)[j].deadline <= now;
    }
  }

  lemma {:induction false} AfterRunning(w: World, m: MAC, i: nat, now: int)
    requires CanRun(w, m, i) && m in w.queue.entries && AllDue(w.queue, now)
    ensures var r := RunTimer(w, m, i);
            r.queue.entries == w.queue.entries - {m} && r.stations == w.stations && AllDue(r.queue, now)
  {
    var q := RunTimer(w, m, i).queue;
    forall o: MAC, j: nat | j < |TimersOf(q, o)| ensures TimersOf(q, o)[j].deadline <= now {
      assert TimersOf(w.queue, o)[j].deadline <= now;
    }
  }

  /** The timer of an entry, made to expire if it has not. */
  lemma {:induction false} ExpireEntry(settings: Settings, ws: seq<World>, sts: seq<Presence.Step>, m: MAC, now: int)
    returns (vs: seq<World>, more: seq<Presence.Step>)
    requires Run(settings, ws, sts) && (forall o: MAC :: NeverOverlooked(ws, sts, o))
    requires |sts| > 0 ==> sts[|sts| - 1].at <= now
    requires AllDue(ws[|sts|].queue, now) && m in ws[|sts|].queue.entries
    ensures Run(settings, vs, sts + more) && (forall o: MAC :: NeverOverlooked(vs, sts + more, o))
    ensures ws <= vs && |more| <= 1 && forall k :: 0 <= k < |more| ==> TimerEvent(more[k].event) && more[k].at == now
    ensures var (w, v) := (ws[|sts|], vs[|vs| - 1]);
            && v.stations == w.stations && v.queue.entries == w.queue.entries && AllDue(v.queue, now)
            && CanRun(v, m, w.queue.entries[m])
  {
    var w := ws[|sts|];
    var i := w.queue.entries[m];
    RunStaysOk(settings, ws, sts, |sts|);
    assert SlotOk(SlotOf(w.queue, m));
    if TimersOf(w.queue, m)[i].phase.Expired? {
      vs, more := ws, [];
      assert sts + [] == sts;
    } else {
      var st := Presence.Step(Expires(m, i), now);
      var next := w.(queue := Expire(w.queue, m, i));
      AfterExpiring(w, m, i, now);
      RunExtends(settings, ws, sts, st, next);
      StaysSeen(ws, sts, st, next);
      vs, more := ws + [next], [st];
    }
  }

  /** An entry goes by at most two steps of its timer. */
  lemma {:induction false} EntryGoes(settings: Settings, ws: seq<World>, sts: seq<Presence.Step>, m: MAC, now: int)
    returns (vs: seq<World>, more: seq<Presence.Step>)
    requires Run(settings, ws, sts) && (forall o: MAC :: NeverOverlooked(ws, sts, o))
    requires |sts| > 0 ==> sts[|sts| - 1].at <= now
    requires AllDue(ws[|sts|].queue, now) && m in ws[|sts|].queue.entries
    ensures Run(settings, vs, sts + more) && (forall o: MAC :: NeverOverlooked(vs, sts + more, o))
    ensures ws <= vs && 1 <= |more| <= 2
    ensures forall k :: 0 <= k < |more| ==> TimerEvent(more[k].event) && more[k].at == now
    ensures var (w, v) := (ws[|sts|], vs[|vs| - 1]);
            && v.stations == w.stations && v.queue.entries == w.queue.entries - {m} && AllDue(v.queue, now)
  {
    var i := ws[|sts|].queue.entries[m];
    var us, first := ExpireEntry(settings, ws, sts, m, now);
    var tts := sts + first;
    var u := us[|tts|];
    var st := Presence.Step(Runs(m, i), now);
    var next := RunTimer(u, m, i);
    RunStaysOk(settings, us, tts, |tts|);
    AfterRunning(u, m, i, now);
    assert |tts| > 0 ==> tts[|tts| - 1].at <= now;
    RunExtends(settings, us, tts, st, next);
    StaysSeen(us, tts, st, next);
    vs, more := us + [next], first + [st];
    assert tts + [st] == sts + more;
  }

  lemma {:induction false} FewerEntries(entries: map<MAC, nat>, m: MAC)
    requires m in entries
    ensures |entries - {m}| == |entries| - 1
  {
    assert (entries - {m}).Keys == entries.Keys - {m};
    assert |(entries - {m}).Keys| == |entries - {m}| && |entries.Keys| == |entries|;
  }

  /** Every run that overlooks nobody, once time has reached the last deadline, goes on by
      timer steps alone, two an entry at the most, to a state with nothing queued, in
      which the broker tells the truth about every station that was tracked. */
  lemma {:induction false} BrokerComesToTheTruth(settings: Settings, ws: seq<World>, sts: seq<Presence.Step>, now: int)
    returns (vs: seq<World>, more: seq<Presence.Step>)
    requires Run(settings, ws, sts) && (forall m: MAC :: NeverOverlooked(ws, sts, m))
    requires |sts| > 0 ==> sts[|sts| - 1].at <= now
    requires AllDue(ws[|sts|].queue, now)
    ensures Run(settings, vs, sts + more) && ws <= vs && |more| <= 2 * |ws[|sts|].queue.entries|
    ensures forall k :: 0 <= k < |more| ==> TimerEvent(more[k].event) && more[k].at == now
    ensures var (w, v) := (ws[|sts|], vs[|vs| - 1]);
            && v.queue.entries == map[] && v.stations == w.stations
            && forall m :: m in w.stations ==>
                 Retained(v.log, State(m)) == Some(if w.stations[m].connected then Home else NotHome)
    decreases |ws[|sts|].queue.entries|
  {
    var entries := ws[|sts|].queue.entries;
    if entries == map[] {
      vs, more := ws, [];
      assert sts + [] == sts;
      BrokerTellsTheTruth(settings, ws, sts, |sts|);
    } else {
      var m :| m in entries;
      FewerEntries(entries, m);
      var us, first := EntryGoes(settings, ws, sts, m, now);
      var tts := sts + first;
      assert tts[|tts| - 1] == first[|first| - 1];
      var rest;
      vs, rest := BrokerComesToTheTruth(settings, us, tts, now);
      more := first + rest;
      assert tts + rest == sts + more;
    }
  }
}
