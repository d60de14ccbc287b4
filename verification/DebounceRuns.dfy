/** Every interleaving of the debouncer's critical sections with its timers.

    One step is one section under the mutex, one timer expiring, or one
    goroutine starting its callback after it let the mutex go. */
module DebounceRuns {
  import opened Wrappers
  import opened Mac
  import opened Debounce

  datatype Op =
    | CallEnqueue(cb: Callback)
    | CallCancel
    | TimerExpires(i: nat)
    | GoroutineTakes(i: nat)
    | CallbackStarts(i: nat)
    | Elsewhere  // a step for another MAC

  datatype Step = Step(op: Op, at: int)

  datatype Call = Call(mac: MAC, op: Op, at: int)

  // ----- the machine of one MAC -----

  predicate SlotEnabled(s: Slot, st: Step) {
    match st.op
    case TimerExpires(i) => i < |s.timers| && s.timers[i].phase.Armed? && s.timers[i].deadline <= st.at
    case GoroutineTakes(i) => i < |s.timers| && s.timers[i].phase.Expired?
    case CallbackStarts(i) => i < |s.timers| && s.timers[i].phase.Committed?
    case _ => true
  }

  function SlotNext(debounce: int, s: Slot, st: Step): (r: Slot)
    requires SlotOk(s) && SlotEnabled(s, st)
    ensures SlotOk(r)
  {
    match st.op
    case CallEnqueue(cb) => SlotEnqueue(s, cb, st.at + debounce).0
    case CallCancel => SlotCancel(s).0
    case TimerExpires(i) => SlotExpire(s, i)
    case GoroutineTakes(i) => SlotTake(s, i).0
    case CallbackStarts(i) => SlotStart(s, i)
    case Elsewhere => s
  }

  ghost predicate SlotFollows(debounce: int, ss: seq<Slot>, sts: seq<Step>, i: nat) {
    && i < |sts| && i + 1 < |ss|
    && SlotOk(ss[i]) && SlotEnabled(ss[i], sts[i]) && ss[i + 1] == SlotNext(debounce, ss[i], sts[i])
  }

  ghost predicate SlotRun(debounce: int, ss: seq<Slot>, sts: seq<Step>) {
    && |ss| == |sts| + 1
    && ss[0] == EMPTY_SLOT
    && (forall i :: 0 <= i < |ss| ==> SlotOk(ss[i]))
    && (forall i :: 0 <= i < |sts| ==> SlotFollows(debounce, ss, sts, i))
    && (forall i, j :: 0 <= i <= j < |sts| ==> sts[i].at <= sts[j].at)
  }

  // ----- the machine of all MACs -----

  predicate QueueEnabled(q: Queue, c: Call) {
    SlotEnabled(SlotOf(q, c.mac), Step(c.op, c.at))
  }

  function QueueNext(debounce: int, q: Queue, c: Call): Queue
    requires SlotOk(SlotOf(q, c.mac)) && QueueEnabled(q, c)
  {
    match c.op
    case CallEnqueue(cb) => Enqueue(q, c.mac, cb, c.at + debounce).0
    case CallCancel => Cancel(q, c.mac).0
    case TimerExpires(i) => Expire(q, c.mac, i)
    case GoroutineTakes(i) => Take(q, c.mac, i).0
    case CallbackStarts(i) => Start(q, c.mac, i)
    case Elsewhere => q
  }

  ghost predicate QueueFollows(debounce: int, qs: seq<Queue>, cs: seq<Call>, i: nat) {
    && i < |cs| && i + 1 < |qs|
    && SlotOk(SlotOf(qs[i], cs[i].mac)) && QueueEnabled(qs[i], cs[i])
    && qs[i + 1] == QueueNext(debounce, qs[i], cs[i])
  }

  ghost predicate QueueRun(debounce: int, qs: seq<Queue>, cs: seq<Call>) {
    && |qs| == |cs| + 1
    && qs[0] == EMPTY_QUEUE
    && (forall i :: 0 <= i < |cs| ==> QueueFollows(debounce, qs, cs, i))
    && (forall i, j :: 0 <= i <= j < |cs| ==> cs[i].at <= cs[j].at)
  }

  function SlotsOf(qs: seq<Queue>, m: MAC): seq<Slot> {
    seq(|qs|, i requires 0 <= i < |qs| => SlotOf(qs[i], m))
  }

  function StepsOf(cs: seq<Call>, m: MAC): seq<Step> {
    seq(|cs|, i requires 0 <= i < |cs| => Step(if cs[i].mac == m then cs[i].op else Elsewhere, cs[i].at))
  }

  lemma {:induction false} QueueNextSlots(debounce: int, q: Queue, c: Call, m: MAC)
    requires QueueOk(q) && QueueEnabled(q, c)
    ensures SlotOk(SlotOf(q, c.mac)) && SlotOk(SlotOf(q, m))
    ensures var r := QueueNext(debounce, q, c);
            && QueueOk(r)
            && SlotOf(r, m) == SlotNext(debounce, SlotOf(q, m), Step(if c.mac == m then c.op else Elsewhere, c.at))
  {
    assert SlotOk(SlotOf(q, c.mac)) && SlotOk(SlotOf(q, m));
    match c.op
    case CallEnqueue(cb) => EnqueueSlots(q, c.mac, cb, c.at + debounce);
    case CallCancel => CancelSlots(q, c.mac);
    case TimerExpires(i) => ExpireSlots(q, c.mac, i);
    case GoroutineTakes(i) => TakeSlots(q, c.mac, i);
    case CallbackStarts(i) => StartSlots(q, c.mac, i);
    case Elsewhere =>
  }

  lemma {:induction false} QueueStaysOk(debounce: int, qs: seq<Queue>, cs: seq<Call>, n: nat)
    requires QueueRun(debounce, qs, cs) && n <= |cs|
    ensures QueueOk(qs[n])
  {
    if n > 0 {
      QueueStaysOk(debounce, qs, cs, n - 1);
      assert QueueFollows(debounce, qs, cs, n - 1);
      QueueNextSlots(debounce, qs[n - 1], cs[n - 1], cs[n - 1].mac);
    }
  }

  /** What a run does to one MAC is a run of that MAC alone: the steps of the
      others leave it as it is. */
  lemma {:induction false} RunOfOneMAC(debounce: int, qs: seq<Queue>, cs: seq<Call>, m: MAC)
    requires QueueRun(debounce, qs, cs)
    ensures SlotRun(debounce, SlotsOf(qs, m), StepsOf(cs, m))
  {
    var ss, sts := SlotsOf(qs, m), StepsOf(cs, m);
    forall i | 0 <= i < |ss| ensures SlotOk(ss[i]) {
      QueueStaysOk(debounce, qs, cs, i);
    }
    forall i | 0 <= i < |sts| ensures SlotFollows(debounce, ss, sts, i) {
      assert QueueFollows(debounce, qs, cs, i);
      QueueStaysOk(debounce, qs, cs, i);
      QueueNextSlots(debounce, qs[i], cs[i], m);
    }
  }

  lemma {:induction false} SlotStepOf(debounce: int, ss: seq<Slot>, sts: seq<Step>, k: nat)
    requires SlotRun(debounce, ss, sts) && k < |sts|
    ensures SlotOk(ss[k]) && SlotEnabled(ss[k], sts[k]) && ss[k + 1] == SlotNext(debounce, ss[k], sts[k])
  {
    assert SlotFollows(debounce, ss, sts, k);
  }

  // ----- conservation -----

  datatype Kind = Accepted | Removed | Started

  predicate Counts(k: Kind, s: Slot, st: Step) {
    match k
    case Accepted => st.op.CallEnqueue? && s.entry.None?
    case Removed => st.op.CallCancel? && s.entry.Some?
    case Started => st.op.CallbackStarts?
  }

  function Tally(k: Kind, ss: seq<Slot>, sts: seq<Step>, n: nat): nat
    requires n <= |sts| < |ss|
  {
    if n == 0 then 0
    else Tally(k, ss, sts, n - 1) + if Counts(k, ss[n - 1], sts[n - 1]) then 1 else 0
  }

  function CountCommitted(ts: seq<Timer>): nat {
    if |ts| == 0 then 0
    else CountCommitted(ts[..|ts| - 1]) + if ts[|ts| - 1].phase.Committed? then 1 else 0
  }

  lemma {:induction false} CountAfterSetPhase(ts: seq<Timer>, i: nat, p: Phase)
    requires i < |ts|
    ensures CountCommitted(SetPhase(ts, i, p)) ==
            CountCommitted(ts) - (if ts[i].phase.Committed? then 1 else 0) + (if p.Committed? then 1 else 0)
  {
    var r, k := SetPhase(ts, i, p), |ts| - 1;
    if i < k {
      assert r[..k] == SetPhase(ts[..k], i, p);
      CountAfterSetPhase(ts[..k], i, p);
    } else {
      assert r[..k] == ts[..k];
    }
  }

  /** A queued entry counts one, a committed goroutine counts one. */
  function Owed(s: Slot): nat {
    CountCommitted(s.timers) + if s.entry.Some? then 1 else 0
  }

  lemma {:induction false} OwedStep(debounce: int, s: Slot, st: Step)
    requires SlotOk(s) && SlotEnabled(s, st)
    ensures Owed(SlotNext(debounce, s, st)) ==
            Owed(s) + (if Counts(Accepted, s, st) then 1 else 0)
                    - (if Counts(Removed, s, st) then 1 else 0)
                    - (if Counts(Started, s, st) then 1 else 0)
  {
    match st.op
    case CallEnqueue(cb) =>
      var created := Timer(st.at + debounce, Armed, cb);
      assert (s.timers + [created])[..|s.timers|] == s.timers;
    case CallCancel =>
      if s.entry.Some? && s.timers[s.entry.value].phase.Armed? {
        CountAfterSetPhase(s.timers, s.entry.value, Stopped);
      }
    case TimerExpires(i) => CountAfterSetPhase(s.timers, i, Expired);
    case GoroutineTakes(i) => CountAfterSetPhase(s.timers, i, if s.entry.None? then Finished else Committed);
    case CallbackStarts(i) => CountAfterSetPhase(s.timers, i, Finished);
    case Elsewhere =>
  }

  lemma {:induction false} OwedNext(debounce: int, ss: seq<Slot>, sts: seq<Step>, n: nat)
    requires SlotRun(debounce, ss, sts) && n < |sts|
    ensures Owed(ss[n + 1]) ==
            Owed(ss[n]) + (if Counts(Accepted, ss[n], sts[n]) then 1 else 0)
                        - (if Counts(Removed, ss[n], sts[n]) then 1 else 0)
                        - (if Counts(Started, ss[n], sts[n]) then 1 else 0)
  {
    SlotStepOf(debounce, ss, sts, n);
    OwedStep(debounce, ss[n], sts[n]);
  }

  lemma {:induction false} SlotConservation(debounce: int, ss: seq<Slot>, sts: seq<Step>, n: nat)
    requires SlotRun(debounce, ss, sts) && n <= |sts|
    ensures Tally(Accepted, ss, sts, n) ==
            Tally(Started, ss, sts, n) + Tally(Removed, ss, sts, n) + Owed(ss[n])
  {
    if n > 0 {
      SlotConservation(debounce, ss, sts, n - 1);
      OwedNext(debounce, ss, sts, n - 1);
    }
  }

  /** In every interleaving and for each MAC: the enqueues that were accepted are
      the callbacks that started, those about to start, the entries that a cancel
      removed, and the entry queued now. */
  lemma {:induction false} Conservation(debounce: int, qs: seq<Queue>, cs: seq<Call>, m: MAC, n: nat)
    requires QueueRun(debounce, qs, cs) && n <= |cs|
    ensures var (ss, sts) := (SlotsOf(qs, m), StepsOf(cs, m));
            Tally(Accepted, ss, sts, n) ==
            Tally(Started, ss, sts, n) + Tally(Removed, ss, sts, n)
            + CountCommitted(TimersOf(qs[n], m)) + (if m in qs[n].entries then 1 else 0)
  {
    RunOfOneMAC(debounce, qs, cs, m);
    SlotConservation(debounce, SlotsOf(qs, m), StepsOf(cs, m), n);
    assert SlotsOf(qs, m)[n] == SlotOf(qs[n], m);
  }

  // ----- the life of one timer -----

  /** Whether a timer may get from one phase to another. */
  predicate Reaches(p: Phase, r: Phase) {
    match p
    case Armed => true
    case Expired => r.Expired? || r.Committed? || r.Finished?
    case Committed => r.Committed? || r.Finished?
    case Stopped => r.Stopped?
    case Finished => r.Finished?
  }

  lemma {:induction false} TimerLife(debounce: int, ss: seq<Slot>, sts: seq<Step>, a: nat, b: nat, i: nat)
    requires SlotRun(debounce, ss, sts) && a <= b <= |sts| && i < |ss[a].timers|
    ensures i < |ss[b].timers|
    ensures ss[b].timers[i].deadline == ss[a].timers[i].deadline && ss[b].timers[i].cb == ss[a].timers[i].cb
    ensures Reaches(ss[a].timers[i].phase, ss[b].timers[i].phase)
    decreases b - a
  {
    if a < b {
      TimerLife(debounce, ss, sts, a, b - 1, i);
      SlotStepOf(debounce, ss, sts, b - 1);
    }
  }

  /** No callback runs twice. */
  lemma {:induction false} CallbackRunsOnce(debounce: int, ss: seq<Slot>, sts: seq<Step>, a: nat, b: nat, i: nat)
    requires SlotRun(debounce, ss, sts) && a < b < |sts|
    requires sts[a].op == CallbackStarts(i)
    ensures sts[b].op != CallbackStarts(i)
  {
    SlotStepOf(debounce, ss, sts, a);
    TimerLife(debounce, ss, sts, a + 1, b, i);
    SlotStepOf(debounce, ss, sts, b);
  }

  /** Every timer was created by an accepted enqueue, which set its deadline and
      its callback. */
  ghost predicate CreatedBy(debounce: int, ss: seq<Slot>, sts: seq<Step>, e: nat, t: Timer, i: nat)
    requires |ss| == |sts| + 1
  {
    && e < |sts|
    && sts[e] == Step(CallEnqueue(t.cb), t.deadline - debounce)
    && ss[e].entry.None? && |ss[e].timers| == i
  }

  lemma {:induction false} TimerOrigin(debounce: int, ss: seq<Slot>, sts: seq<Step>, n: nat, i: nat) returns (e: nat)
    requires SlotRun(debounce, ss, sts) && n <= |sts| && i < |ss[n].timers|
    ensures e < n && CreatedBy(debounce, ss, sts, e, ss[n].timers[i], i)
  {
    var s := ss[n - 1];
    SlotStepOf(debounce, ss, sts, n - 1);
    if i < |s.timers| {
      e := TimerOrigin(debounce, ss, sts, n - 1, i);
    } else {
      e := n - 1;
    }
  }

  /** Time has reached the deadline of every timer that got past being armed
      without having been stopped. */
  ghost predicate PastDeadlines(s: Slot, now: int) {
    forall i :: 0 <= i < |s.timers| && !s.timers[i].phase.Armed? && !s.timers[i].phase.Stopped? ==>
      s.timers[i].deadline <= now
  }

  lemma {:induction false} DeadlinesStep(debounce: int, s: Slot, st: Step)
    requires SlotOk(s) && SlotEnabled(s, st) && PastDeadlines(s, st.at)
    ensures PastDeadlines(SlotNext(debounce, s, st), st.at)
  {
  }

  lemma {:induction false} ExpiredAreDue(debounce: int, ss: seq<Slot>, sts: seq<Step>, n: nat)
    requires SlotRun(debounce, ss, sts) && n < |sts|
    ensures PastDeadlines(ss[n], sts[n].at)
  {
    if n > 0 {
      ExpiredAreDue(debounce, ss, sts, n - 1);
      SlotStepOf(debounce, ss, sts, n - 1);
      DeadlinesStep(debounce, ss[n - 1], sts[n - 1]);
      assert sts[n - 1].at <= sts[n].at;
    }
  }

  /** A callback starts no sooner than the debounce time after the accepted
      enqueue that brought it. */
  lemma {:induction false} NeverEarly(debounce: int, ss: seq<Slot>, sts: seq<Step>, a: nat, i: nat) returns (e: nat)
    requires SlotRun(debounce, ss, sts) && a < |sts| && sts[a].op == CallbackStarts(i)
    ensures i < |ss[a].timers| && e < a
    ensures CreatedBy(debounce, ss, sts, e, ss[a].timers[i], i)
    ensures sts[e].at + debounce <= sts[a].at
  {
    SlotStepOf(debounce, ss, sts, a);
    ExpiredAreDue(debounce, ss, sts, a);
    e := TimerOrigin(debounce, ss, sts, a, i);
  }

  /** When a cancel reports that it cancelled, the callback it dropped never runs
      in any continuation: its timer does not even expire. */
  lemma {:induction false} CancelledNeverRuns(debounce: int, ss: seq<Slot>, sts: seq<Step>, c: nat, b: nat)
    requires SlotRun(debounce, ss, sts) && c <= b < |sts|
    requires sts[c].op.CallCancel? && SlotOk(ss[c]) && SlotCancel(ss[c]).1
    ensures var i := ss[c].entry.value;
            sts[b].op != CallbackStarts(i) && sts[b].op != GoroutineTakes(i) && sts[b].op != TimerExpires(i)
  {
    if c < b {
      var i := ss[c].entry.value;
      SlotStepOf(debounce, ss, sts, c);
      assert ss[c + 1].timers[i].phase.Stopped?;
      TimerLife(debounce, ss, sts, c + 1, b, i);
      SlotStepOf(debounce, ss, sts, b);
    }
  }

  // ----- the queue drains -----

  function Weight(t: Timer): nat {
    match t.phase
    case Armed => 3
    case Expired => 2
    case Committed => 1
    case _ => 0
  }

  function Pending(ts: seq<Timer>): nat {
    if |ts| == 0 then 0 else Pending(ts[..|ts| - 1]) + Weight(ts[|ts| - 1])
  }

  lemma {:induction false} PendingAfterSetPhase(ts: seq<Timer>, i: nat, p: Phase)
    requires i < |ts|
    ensures Pending(SetPhase(ts, i, p)) == Pending(ts) - Weight(ts[i]) + Weight(ts[i].(phase := p))
  {
    var r, k := SetPhase(ts, i, p), |ts| - 1;
    if i < k {
      assert r[..k] == SetPhase(ts[..k], i, p);
      PendingAfterSetPhase(ts[..k], i, p);
    } else {
      assert r[..k] == ts[..k];
    }
  }

  predicate TimerStep(op: Op) {
    op.TimerExpires? || op.GoroutineTakes? || op.CallbackStarts?
  }

  lemma {:induction false} PendingDecreases(debounce: int, s: Slot, st: Step)
    requires SlotOk(s) && SlotEnabled(s, st) && !Counts(Accepted, s, st)
    ensures Pending(SlotNext(debounce, s, st).timers) + (if TimerStep(st.op) then 1 else 0) <= Pending(s.timers)
  {
    match st.op
    case CallCancel =>
      if s.entry.Some? && s.timers[s.entry.value].phase.Armed? {
        PendingAfterSetPhase(s.timers, s.entry.value, Stopped);
      }
    case TimerExpires(i) => PendingAfterSetPhase(s.timers, i, Expired);
    case GoroutineTakes(i) => PendingAfterSetPhase(s.timers, i, if s.entry.None? then Finished else Committed);
    case CallbackStarts(i) => PendingAfterSetPhase(s.timers, i, Finished);
    case _ =>
  }

  function TimerSteps(sts: seq<Step>, a: nat, b: nat): nat
    requires a <= b <= |sts|
    decreases b - a
  {
    if a == b then 0 else TimerSteps(sts, a, b - 1) + if TimerStep(sts[b - 1].op) then 1 else 0
  }

  lemma {:induction false} StepsUseUp(pending: seq<nat>, sts: seq<Step>, a: nat, b: nat)
    requires |pending| == |sts| + 1 && a <= b <= |sts|
    requires forall k :: a <= k < b ==> pending[k + 1] + (if TimerStep(sts[k].op) then 1 else 0) <= pending[k]
    ensures TimerSteps(sts, a, b) + pending[b] <= pending[a]
    decreases b - a
  {
    if a < b {
      StepsUseUp(pending, sts, a, b - 1);
      var k := b - 1;
      assert pending[k + 1] + (if TimerStep(sts[k].op) then 1 else 0) <= pending[k];
    }
  }

  /** Without further accepted enqueues the timers can take only so many steps. */
  lemma {:induction false} TimerStepsAreBounded(debounce: int, ss: seq<Slot>, sts: seq<Step>, a: nat, b: nat)
    requires SlotRun(debounce, ss, sts) && a <= b <= |sts|
    requires forall k :: a <= k < b ==> !Counts(Accepted, ss[k], sts[k])
    ensures TimerSteps(sts, a, b) + Pending(ss[b].timers) <= Pending(ss[a].timers)
  {
    var pending := seq(|ss|, i requires 0 <= i < |ss| => Pending(ss[i].timers));
    forall k | a <= k < b
      ensures pending[k + 1] + (if TimerStep(sts[k].op) then 1 else 0) <= pending[k]
    {
      SlotStepOf(debounce, ss, sts, k);
      PendingDecreases(debounce, ss[k], sts[k]);
    }
    StepsUseUp(pending, sts, a, b);
  }

  lemma {:induction false} SomethingPends(ts: seq<Timer>, i: nat)
    requires i < |ts| && Weight(ts[i]) > 0
    ensures Pending(ts) > 0
  {
    if i < |ts| - 1 {
      SomethingPends(ts[..|ts| - 1], i);
    }
  }

  lemma {:induction false} FindPending(ts: seq<Timer>) returns (i: nat)
    requires Pending(ts) > 0
    ensures i < |ts| && Weight(ts[i]) > 0
  {
    var k := |ts| - 1;
    if Weight(ts[k]) > 0 {
      i := k;
    } else {
      i := FindPending(ts[..k]);
    }
  }

  /** And as long as any timer pends, one of those steps is possible once its
      deadline has come; when none pends, nothing is queued. So the queue ends
      empty. */
  lemma {:induction false} QueueDrains(s: Slot, now: int) returns (st: Step)
    requires SlotOk(s)
    requires forall i :: 0 <= i < |s.timers| ==> s.timers[i].deadline <= now
    ensures Pending(s.timers) > 0 ==> TimerStep(st.op) && st.at == now && SlotEnabled(s, st)
    ensures Pending(s.timers) == 0 ==> s.entry.None?
  {
    st := Step(Elsewhere, now);
    if Pending(s.timers) > 0 {
      var i := FindPending(s.timers);
      match s.timers[i].phase
      case Armed => st := Step(TimerExpires(i), now);
      case Expired => st := Step(GoroutineTakes(i), now);
      case Committed => st := Step(CallbackStarts(i), now);
    } else if s.entry.Some? {
      SomethingPends(s.timers, s.entry.value);
    }
  }

  /** One more step at the end of a run. */
  lemma {:induction false} RunGrows(debounce: int, ss: seq<Slot>, sts: seq<Step>, st: Step, next: Slot)
    requires SlotRun(debounce, ss, sts) && SlotEnabled(ss[|sts|], st) && next == SlotNext(debounce, ss[|sts|], st)
    requires |sts| > 0 ==> sts[|sts| - 1].at <= st.at
    ensures SlotRun(debounce, ss + [next], sts + [st])
  {
    var rr, tts := ss + [next], sts + [st];
    forall i | 0 <= i < |tts| ensures SlotFollows(debounce, rr, tts, i) {
      if i < |sts| {
        SlotStepOf(debounce, ss, sts, i);
      }
    }
  }

  /** No timer step is possible, now or at any later time. */
  ghost predicate TimersRest(s: Slot) {
    forall st: Step :: TimerStep(st.op) ==> !SlotEnabled(s, st)
  }

  lemma {:induction false} RestMeansEmpty(s: Slot, now: int)
    requires SlotOk(s) && TimersRest(s)
    requires forall i :: 0 <= i < |s.timers| ==> s.timers[i].deadline <= now
    ensures s.entry.None?
  {
    var st := QueueDrains(s, now);
  }

  lemma {:induction false} NoPendingMeansRest(s: Slot)
    requires Pending(s.timers) == 0
    ensures TimersRest(s)
  {
    forall st: Step | TimerStep(st.op) ensures !SlotEnabled(s, st) {
      if SlotEnabled(s, st) {
        SomethingPends(s.timers, st.op.i);
      }
    }
  }

  /** A timer step brings no new timer, and moves no deadline. */
  lemma {:induction false} DeadlinesStay(debounce: int, s: Slot, st: Step, now: int)
    requires SlotOk(s) && SlotEnabled(s, st) && TimerStep(st.op)
    requires forall i :: 0 <= i < |s.timers| ==> s.timers[i].deadline <= now
    ensures var ts := SlotNext(debounce, s, st).timers;
            forall i :: 0 <= i < |ts| ==> ts[i].deadline <= now
  {
  }

  /** The queue ends empty: every run, once time has passed the last deadline, goes on by
      at most as many timer steps as its timers have pending to a state in which none is
      left and nothing is queued. */
  lemma {:induction false} QueueEndsEmpty(debounce: int, ss: seq<Slot>, sts: seq<Step>, now: int)
    returns (rr: seq<Slot>, more: seq<Step>)
    requires SlotRun(debounce, ss, sts) && (|sts| > 0 ==> sts[|sts| - 1].at <= now)
    requires forall i :: 0 <= i < |ss[|sts|].timers| ==> ss[|sts|].timers[i].deadline <= now
    ensures SlotRun(debounce, rr, sts + more) && ss <= rr
    ensures forall k :: 0 <= k < |more| ==> TimerStep(more[k].op) && more[k].at == now
    ensures |more| <= Pending(ss[|sts|].timers)
    ensures TimersRest(rr[|rr| - 1]) && rr[|rr| - 1].entry.None?
    decreases Pending(ss[|sts|].timers)
  {
    var s := ss[|sts|];
    var st := QueueDrains(s, now);
    if Pending(s.timers) == 0 {
      rr, more := ss, [];
      assert sts + [] == sts;
      NoPendingMeansRest(s);
    } else {
      var next := SlotNext(debounce, s, st);
      RunGrows(debounce, ss, sts, st, next);
      PendingDecreases(debounce, s, st);
      DeadlinesStay(debounce, s, st, now);
      var tail;
      rr, tail := QueueEndsEmpty(debounce, ss + [next], sts + [st], now);
      more := [st] + tail;
      assert (sts + [st]) + tail == sts + more;
    }
  }

  function LastDeadline(ts: seq<Timer>): (d: int)
    ensures forall i :: 0 <= i < |ts| ==> ts[i].deadline <= d
  {
    if |ts| == 0 then 0
    else
      var d := LastDeadline(ts[..|ts| - 1]);
      if d < ts[|ts| - 1].deadline then ts[|ts| - 1].deadline else d
  }

  /** And whichever way the timers go: from any point of a run on, without accepted
      enqueues, they take no more steps than that, and where none is left nothing is
      queued. */
  lemma {:induction false} EveryEndIsEmpty(debounce: int, ss: seq<Slot>, sts: seq<Step>, a: nat)
    requires SlotRun(debounce, ss, sts) && a <= |sts|
    requires forall k :: a <= k < |sts| ==> !Counts(Accepted, ss[k], sts[k])
    requires TimersRest(ss[|sts|])
    ensures ss[|sts|].entry.None? && TimerSteps(sts, a, |sts|) <= Pending(ss[a].timers)
  {
    TimerStepsAreBounded(debounce, ss, sts, a, |sts|);
    var last := LastDeadline(ss[|sts|].timers);
    RestMeansEmpty(ss[|sts|], last);
  }

  // ----- what the goroutine does not check -----

  /** Three steps that leave a goroutine on its way without an entry: the timer
      expires, and the cancel comes too late to stop it. */
  lemma {:induction false} CancelledTooLate() returns (ss: seq<Slot>, sts: seq<Step>)
    ensures SlotRun(10, ss, sts) && |sts| == 3 && sts[2] == Step(CallCancel, 11)
    ensures ss[3] == Slot(None, [Timer(10, Expired, NoCallback)])
  {
    var armed, expired := [Timer(10, Armed, NoCallback)], [Timer(10, Expired, NoCallback)];
    var e, x, c := Step(CallEnqueue(NoCallback), 0), Step(TimerExpires(0), 10), Step(CallCancel, 11);
    assert EMPTY_SLOT.timers + armed == armed && armed[0 := expired[0]] == expired;
    ss, sts := [EMPTY_SLOT], [];
    RunGrows(10, ss, sts, e, Slot(Some(0), armed));
    ss, sts := ss + [Slot(Some(0), armed)], sts + [e];
    RunGrows(10, ss, sts, x, Slot(Some(0), expired));
    ss, sts := ss + [Slot(Some(0), expired)], sts + [x];
    RunGrows(10, ss, sts, c, Slot(None, expired));
    ss, sts := ss + [Slot(None, expired)], sts + [c];
  }

  lemma {:induction false} QueuedAgain() returns (ss: seq<Slot>, sts: seq<Step>)
    ensures SlotRun(10, ss, sts) && |sts| == 4
    ensures sts[3] == Step(CallEnqueue(NoCallback), 11) && Counts(Accepted, ss[3], sts[3])
    ensures ss[4] == Slot(Some(1), [Timer(10, Expired, NoCallback), Timer(21, Armed, NoCallback)])
  {
    ss, sts := CancelledTooLate();
    var e := Step(CallEnqueue(NoCallback), 11);
    var next := Slot(Some(1), [Timer(10, Expired, NoCallback), Timer(21, Armed, NoCallback)]);
    assert ss[3].timers + [Timer(21, Armed, NoCallback)] == next.timers;
    RunGrows(10, ss, sts, e, next);
    ss, sts := ss + [next], sts + [e];
  }

  /** A goroutine asks only whether its MAC is queued, so a callback is not always
      the one of the entry it consumes, and an entry is not always given its full
      debounce time: here the entry accepted at time 11 is consumed at time 12,
      although the debounce time is 10, and its own callback never starts. */
  lemma {:induction false} StaleGoroutineTakesNewerEntry()
    returns (ss: seq<Slot>, sts: seq<Step>)
    ensures SlotRun(10, ss, sts) && |sts| == 6
    ensures sts[3] == Step(CallEnqueue(NoCallback), 11) && Counts(Accepted, ss[3], sts[3])
    ensures sts[4] == Step(GoroutineTakes(0), 12) && ss[4].entry == Some(1)
    ensures ss[5].entry.None? && sts[5] == Step(CallbackStarts(0), 12)
    ensures |ss[6].timers| == 2 && ss[6].timers[1].phase.Armed?
  {
    ss, sts := QueuedAgain();
    var own := Timer(21, Armed, NoCallback);
    var t, c := Step(GoroutineTakes(0), 12), Step(CallbackStarts(0), 12);
    var committed, finished := [Timer(10, Committed, NoCallback), own], [Timer(10, Finished, NoCallback), own];
    assert ss[4].timers[0 := committed[0]] == committed && committed[0 := finished[0]] == finished;
    RunGrows(10, ss, sts, t, Slot(None, committed));
    ss, sts := ss + [Slot(None, committed)], sts + [t];
    RunGrows(10, ss, sts, c, Slot(None, finished));
    ss, sts := ss + [Slot(None, finished)], sts + [c];
  }

  predicate OnlyOwn(s: Slot) {
    && (s.entry.Some? ==> forall i :: 0 <= i < |s.timers| && Live(s.timers[i]) ==> s.entry == Some(i))
    && (s.entry.None? ==> forall i :: 0 <= i < |s.timers| ==> !s.timers[i].phase.Armed?)
  }

  ghost predicate NoGoroutineWaits(s: Slot) {
    forall i :: 0 <= i < |s.timers| ==> !s.timers[i].phase.Expired?
  }

  /** An enqueue that is accepted while a goroutine of the MAC is on its way. */
  lemma {:induction false} QueuedBesideGoroutine(debounce: int, s: Slot, e: Step, i: nat)
    requires SlotOk(s) && SlotEnabled(s, e) && Counts(Accepted, s, e)
    requires i < |s.timers| && s.timers[i].phase.Expired?
    ensures var queued := SlotNext(debounce, s, e);
            && queued.entry == Some(|s.timers|) && |queued.timers| == |s.timers| + 1
            && queued.timers[i].phase.Expired?
            && queued.timers[|s.timers|].deadline == e.at + debounce
            && !OnlyOwn(queued)
  {
    var queued := SlotNext(debounce, s, e);
    assert queued.timers[i] == s.timers[i] && Live(queued.timers[i]);
  }

  lemma {:induction false} OnlyOwnStep(debounce: int, s: Slot, st: Step)
    requires SlotOk(s) && SlotEnabled(s, st) && OnlyOwn(s)
    requires Counts(Accepted, s, st) ==> NoGoroutineWaits(s)
    ensures OnlyOwn(SlotNext(debounce, s, st))
  {
  }

  /** Every accepted enqueue of the first n steps finds no goroutine on its way. */
  ghost predicate EnqueuesAlone(ss: seq<Slot>, sts: seq<Step>, n: nat)
    requires n <= |sts| < |ss|
  {
    forall k :: 0 <= k < n && Counts(Accepted, ss[k], sts[k]) ==> NoGoroutineWaits(ss[k])
  }

  lemma {:induction false} OnlyOwnIfAlone(debounce: int, ss: seq<Slot>, sts: seq<Step>, n: nat)
    requires SlotRun(debounce, ss, sts) && n <= |sts| && EnqueuesAlone(ss, sts, n)
    ensures OnlyOwn(ss[n])
  {
    if n > 0 {
      OnlyOwnIfAlone(debounce, ss, sts, n - 1);
      SlotStepOf(debounce, ss, sts, n - 1);
      OnlyOwnStep(debounce, ss[n - 1], sts[n - 1]);
    }
  }

  /** In every state of a run the only timer that is armed or has its goroutine on its way
      beside an entry is the entry's own, and without an entry none is armed, exactly if
      every accepted enqueue finds no goroutine on its way. */
  lemma {:induction false} OnlyOwnEntry(debounce: int, ss: seq<Slot>, sts: seq<Step>)
    requires SlotRun(debounce, ss, sts)
    ensures (forall n :: 0 <= n <= |sts| ==> OnlyOwn(ss[n])) <==> EnqueuesAlone(ss, sts, |sts|)
  {
    if EnqueuesAlone(ss, sts, |sts|) {
      forall n | 0 <= n <= |sts| ensures OnlyOwn(ss[n]) {
        OnlyOwnIfAlone(debounce, ss, sts, n);
      }
    }
    if forall n :: 0 <= n <= |sts| ==> OnlyOwn(ss[n]) {
      forall k | 0 <= k < |sts| && Counts(Accepted, ss[k], sts[k]) ensures NoGoroutineWaits(ss[k]) {
        SlotStepOf(debounce, ss, sts, k);
        assert OnlyOwn(ss[k + 1]);
        if i :| 0 <= i < |ss[k].timers| && ss[k].timers[i].phase.Expired? {
          QueuedBesideGoroutine(debounce, ss[k], sts[k], i);
        }
      }
    }
  }

  /** In such a run a goroutine that takes an entry takes its own, and not before its
      deadline. */
  lemma {:induction false} TakesItsOwnInTime(debounce: int, ss: seq<Slot>, sts: seq<Step>, n: nat, i: nat)
    requires SlotRun(debounce, ss, sts) && n < |sts| && EnqueuesAlone(ss, sts, n)
    requires sts[n].op == GoroutineTakes(i) && ss[n].entry.Some?
    ensures ss[n].entry == Some(i) && ss[n].timers[i].deadline <= sts[n].at
  {
    OnlyOwnIfAlone(debounce, ss, sts, n);
    SlotStepOf(debounce, ss, sts, n);
    ExpiredAreDue(debounce, ss, sts, n);
  }

  /** And in no other: a run that ends in an enqueue accepted while a goroutine is on its
      way can go on by that goroutine, which takes the new entry at once, before its
      deadline, whose own timer stays armed without one. */
  lemma {:induction false} AnyGoroutineMayTakeIt(debounce: int, ss: seq<Slot>, sts: seq<Step>, i: nat)
    returns (taken: Slot, st: Step)
    requires debounce > 0 && SlotRun(debounce, ss, sts) && |sts| > 0
    requires var k := |sts| - 1;
             Counts(Accepted, ss[k], sts[k]) && i < |ss[k].timers| && ss[k].timers[i].phase.Expired?
    ensures st == Step(GoroutineTakes(i), sts[|sts| - 1].at)
    ensures SlotRun(debounce, ss + [taken], sts + [st])
    ensures var queued := ss[|sts|];
            && queued.entry.Some? && queued.entry.value != i
            && queued.entry.value < |queued.timers| == |taken.timers|
            && st.at < queued.timers[queued.entry.value].deadline
            && taken.entry.None? && taken.timers[queued.entry.value].phase.Armed?
  {
    var k := |sts| - 1;
    SlotStepOf(debounce, ss, sts, k);
    QueuedBesideGoroutine(debounce, ss[k], sts[k], i);
    st := Step(GoroutineTakes(i), sts[k].at);
    taken := SlotNext(debounce, ss[|sts|], st);
    RunGrows(debounce, ss, sts, st, taken);
  }
}
