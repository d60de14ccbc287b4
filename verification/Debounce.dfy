/** The debouncer: at most one delayed callback a MAC.

    A callback waits on a runtime timer. Timers have two phases: the runtime
    first expires an armed timer, which starts a goroutine, and that goroutine
    later gets the debouncer's mutex. Between the two, the timer can no longer
    be stopped. The timers ever created for a MAC are listed in the order of
    their creation, and a queue entry is a position in that list. */
module Debounce {
  import opened Wrappers
  import opened Mac

  datatype AccessPoint = AccessPoint(ssid: string, bssid: string)

  /** A queued closure, by what it captured; the source also accepts nil. */
  datatype Callback = NoCallback | AnnounceAway(ap: AccessPoint)

  datatype Phase =
    | Armed      // the runtime will expire it
    | Expired    // its goroutine waits for the mutex
    | Stopped    // stopped before it expired
    | Committed  // its goroutine took an entry and has yet to call the callback
    | Finished   // its goroutine called the callback, or found no entry

  datatype Timer = Timer(deadline: int, phase: Phase, cb: Callback)

  predicate Live(t: Timer) {
    t.phase.Armed? || t.phase.Expired?
  }

  // ----- one MAC -----

  datatype Slot = Slot(entry: Option<nat>, timers: seq<Timer>)

  /** No entry is orphaned: the timer of an entry is armed or its goroutine is
      on its way. */
  predicate SlotOk(s: Slot) {
    s.entry.Some? ==> s.entry.value < |s.timers| && Live(s.timers[s.entry.value])
  }

  const EMPTY_SLOT := Slot(None, [])

  function SlotEnqueue(s: Slot, cb: Callback, deadline: int): (Slot, bool) {
    if s.entry.Some? then (s, false)
    else (Slot(Some(|s.timers|), s.timers + [Timer(deadline, Armed, cb)]), true)
  }

  function SetPhase(ts: seq<Timer>, i: nat, p: Phase): (r: seq<Timer>)
    requires i < |ts|
    ensures |r| == |ts| && r[i] == ts[i].(phase := p)
    ensures forall j :: 0 <= j < |ts| && j != i ==> r[j] == ts[j]
  {
    ts[i := ts[i].(phase := p)]
  }

  /** Drops the entry; the answer is that of stopping its timer. */
  function SlotCancel(s: Slot): (Slot, bool)
    requires SlotOk(s)
  {
    if s.entry.None? then (s, false)
    else
      var i := s.entry.value;
      if s.timers[i].phase.Armed?
      then (Slot(None, SetPhase(s.timers, i, Stopped)), true)
      else (Slot(None, s.timers), false)
  }

  function SlotExpire(s: Slot, i: nat): Slot
    requires i < |s.timers|
  {
    s.(timers := SetPhase(s.timers, i, Expired))
  }

  /** The goroutine of timer i, under the mutex: it only asks whether the MAC is
      queued, not whether the entry is its own. */
  function SlotTake(s: Slot, i: nat): (Slot, bool)
    requires i < |s.timers|
  {
    if s.entry.None? then (s.(timers := SetPhase(s.timers, i, Finished)), false)
    else (Slot(None, SetPhase(s.timers, i, Committed)), true)
  }

  function SlotStart(s: Slot, i: nat): Slot
    requires i < |s.timers|
  {
    s.(timers := SetPhase(s.timers, i, Finished))
  }

  // ----- all MACs -----

  datatype Queue = Queue(entries: map<MAC, nat>, timers: map<MAC, seq<Timer>>)

  const EMPTY_QUEUE := Queue(map[], map[])

  function TimersOf(q: Queue, m: MAC): seq<Timer> {
    if m in q.timers then q.timers[m] else []
  }

  function SlotOf(q: Queue, m: MAC): Slot {
    Slot(if m in q.entries then Some(q.entries[m]) else None, TimersOf(q, m))
  }

  ghost predicate QueueOk(q: Queue) {
    forall m: MAC :: SlotOk(SlotOf(q, m))
  }

  function Enqueue(q: Queue, m: MAC, cb: Callback, deadline: int): (Queue, bool) {
    if m in q.entries then (q, false)
    else
      var ts := TimersOf(q, m);
      (Queue(q.entries[m := |ts|], q.timers[m := ts + [Timer(deadline, Armed, cb)]]), true)
  }

  function Cancel(q: Queue, m: MAC): (Queue, bool)
    requires SlotOk(SlotOf(q, m))
  {
    if m !in q.entries then (q, false)
    else
      var i := q.entries[m];
      var ts := TimersOf(q, m);
      if ts[i].phase.Armed?
      then (Queue(q.entries - {m}, q.timers[m := SetPhase(ts, i, Stopped)]), true)
      else (q.(entries := q.entries - {m}), false)
  }

  function Expire(q: Queue, m: MAC, i: nat): Queue
    requires i < |TimersOf(q, m)|
  {
    q.(timers := q.timers[m := SetPhase(TimersOf(q, m), i, Expired)])
  }

  function Take(q: Queue, m: MAC, i: nat): (Queue, bool)
    requires i < |TimersOf(q, m)|
  {
    if m !in q.entries then (q.(timers := q.timers[m := SetPhase(TimersOf(q, m), i, Finished)]), false)
    else (Queue(q.entries - {m}, q.timers[m := SetPhase(TimersOf(q, m), i, Committed)]), true)
  }

  function Start(q: Queue, m: MAC, i: nat): Queue
    requires i < |TimersOf(q, m)|
  {
    q.(timers := q.timers[m := SetPhase(TimersOf(q, m), i, Finished)])
  }

  // ----- each operation works on one MAC -----

  lemma {:induction false} EnqueueSlots(q: Queue, m: MAC, cb: Callback, deadline: int)
    requires QueueOk(q)
    ensures var (r, ok) := Enqueue(q, m, cb, deadline);
            && QueueOk(r)
            && (SlotOf(r, m), ok) == SlotEnqueue(SlotOf(q, m), cb, deadline)
            && (ok <==> m !in q.entries)
            && (!ok ==> r == q)
            && (ok ==> m in r.entries && r.entries[m] == |TimersOf(q, m)|
                       && TimersOf(r, m) == TimersOf(q, m) + [Timer(deadline, Armed, cb)])
            && forall o: MAC :: o != m ==> SlotOf(r, o) == SlotOf(q, o)
  {
    var r := Enqueue(q, m, cb, deadline).0;
    forall o: MAC ensures SlotOk(SlotOf(r, o)) {
      assert SlotOk(SlotOf(q, o));
    }
  }

  lemma {:induction false} CancelSlots(q: Queue, m: MAC)
    requires QueueOk(q)
    ensures SlotOk(SlotOf(q, m))
    ensures var (r, ok) := Cancel(q, m);
            && QueueOk(r)
            && (SlotOf(r, m), ok) == SlotCancel(SlotOf(q, m))
            && m !in r.entries
            && (ok <==> m in q.entries && TimersOf(q, m)[q.entries[m]].phase.Armed?)
            && (ok ==> q.entries[m] < |TimersOf(r, m)| && TimersOf(r, m)[q.entries[m]].phase.Stopped?)
            && (!ok ==> TimersOf(r, m) == TimersOf(q, m))
            && forall o: MAC :: o != m ==> SlotOf(r, o) == SlotOf(q, o)
  {
    assert SlotOk(SlotOf(q, m));
    var r := Cancel(q, m).0;
    forall o: MAC ensures SlotOk(SlotOf(r, o)) {
      assert SlotOk(SlotOf(q, o));
    }
  }

  lemma {:induction false} ExpireSlots(q: Queue, m: MAC, i: nat)
    requires QueueOk(q)
    requires i < |TimersOf(q, m)| && TimersOf(q, m)[i].phase.Armed?
    ensures var r := Expire(q, m, i);
            && QueueOk(r)
            && SlotOf(r, m) == SlotExpire(SlotOf(q, m), i)
            && forall o: MAC :: o != m ==> SlotOf(r, o) == SlotOf(q, o)
  {
    var r := Expire(q, m, i);
    forall o: MAC ensures SlotOk(SlotOf(r, o)) {
      assert SlotOk(SlotOf(q, o));
    }
  }

  lemma {:induction false} TakeSlots(q: Queue, m: MAC, i: nat)
    requires QueueOk(q)
    requires i < |TimersOf(q, m)|  && TimersOf(q, m)[i].phase.Expired?
    ensures var (r, ok) := Take(q, m, i);
            && QueueOk(r)
            && (SlotOf(r, m), ok) == SlotTake(SlotOf(q, m), i)
            && m !in r.entries && (ok <==> m in q.entries)
            && |TimersOf(r, m)| == |TimersOf(q, m)|
            && TimersOf(r, m)[i] == TimersOf(q, m)[i].(phase := if ok then Committed else Finished)
            && forall o: MAC :: o != m ==> SlotOf(r, o) == SlotOf(q, o)
  {
    var r := Take(q, m, i).0;
    forall o: MAC ensures SlotOk(SlotOf(r, o)) {
      assert SlotOk(SlotOf(q, o));
    }
  }

  lemma {:induction false} StartSlots(q: Queue, m: MAC, i: nat)
    requires QueueOk(q)
    requires i < |TimersOf(q, m)| && TimersOf(q, m)[i].phase.Committed?
    ensures var r := Start(q, m, i);
            && QueueOk(r)
            && SlotOf(r, m) == SlotStart(SlotOf(q, m), i)
            && forall o: MAC :: o != m ==> SlotOf(r, o) == SlotOf(q, o)
  {
    var r := Start(q, m, i);
    forall o: MAC ensures SlotOk(SlotOf(r, o)) {
      assert SlotOk(SlotOf(q, o));
    }
  }

  // ----- the operations of the source -----

  class Debouncer {
    const debounce: int
    var queue: map<MAC, nat>
    var timers: map<MAC, seq<Timer>>  // the runtime's table

    ghost function View(): Queue
      reads this
    {
      Queue(queue, timers)
    }

    ghost predicate Valid()
      reads this
    {
      QueueOk(View())
    }

    constructor (debounce: int)
      ensures Valid() && View() == EMPTY_QUEUE && this.debounce == debounce
    {
      this.debounce := debounce;
      queue, timers := map[], map[];
    }

    /** Drops any callback queued for the MAC. */
    method CancelCallback(mac: MAC) returns (cancelled: bool)
      requires Valid()
      modifies this
      ensures Valid()
      ensures (View(), cancelled) == Cancel(old(View()), mac)
    {
      assert SlotOk(SlotOf(View(), mac));
      cancelled := false;
      if mac in queue {
        var i := queue[mac];
        if timers[mac][i].phase.Armed? {
          timers := timers[mac := SetPhase(timers[mac], i, Stopped)];
          cancelled := true;
        }
      }
      CancelSlots(old(View()), mac);
      assert mac !in queue ==> queue - {mac} == queue;
      queue := queue - {mac};
    }

    /** Queues a callback unless the MAC has one already. */
    method EnqueueCallback(mac: MAC, cb: Callback, now: int) returns (accepted: bool)
      requires Valid()
      modifies this
      ensures Valid()
      ensures (View(), accepted) == Enqueue(old(View()), mac, cb, now + debounce)
    {
      EnqueueSlots(View(), mac, cb, now + debounce);
      if mac in queue {
        return false;
      }
      var created := if mac in timers then timers[mac] else [];
      timers := timers[mac := created + [Timer(now + debounce, Armed, cb)]];
      queue := queue[mac := |created|];
      return true;
    }

    /** The runtime expires a timer that is due. */
    method ExpireTimer(mac: MAC, i: nat, now: int)
      requires Valid()
      requires mac in timers && i < |timers[mac]| && timers[mac][i].phase.Armed?
      requires timers[mac][i].deadline <= now
      modifies this
      ensures Valid()
      ensures View() == Expire(old(View()), mac, i)
    {
      ExpireSlots(View(), mac, i);
      timers := timers[mac := SetPhase(timers[mac], i, Expired)];
    }

    /** The goroutine's section under the mutex; the answer says whether it goes
        on to call its callback. */
    method TimerFunc(mac: MAC, i: nat) returns (took: bool)
      requires Valid()
      requires mac in timers && i < |timers[mac]| && timers[mac][i].phase.Expired?
      modifies this
      ensures Valid()
      ensures (View(), took) == Take(old(View()), mac, i)
    {
      TakeSlots(View(), mac, i);
      if mac !in queue {
        timers := timers[mac := SetPhase(timers[mac], i, Finished)];
        return false;
      }
      queue := queue - {mac};
      timers := timers[mac := SetPhase(timers[mac], i, Committed)];
      return true;
    }

    /** The goroutine calls its callback, if it has one. */
    method StartCallback(mac: MAC, i: nat) returns (cb: Callback)
      requires Valid()
      requires mac in timers && i < |timers[mac]| && timers[mac][i].phase.Committed?
      modifies this
      ensures Valid()
      ensures View() == Start(old(View()), mac, i)
      ensures cb == old(timers)[mac][i].cb
    {
      StartSlots(View(), mac, i);
      cb := timers[mac][i].cb;
      timers := timers[mac := SetPhase(timers[mac], i, Finished)];
    }
  }
}
