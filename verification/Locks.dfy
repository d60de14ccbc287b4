/** The two mutexes: the daemon's, over the stations, and the debouncer's, over the
    queue. Any number of handlers and timer goroutines run, and each of their
    critical sections starts and ends at its own time. */
module Locks {
  datatype Mutex = DaemonMu | QueueMu

  /** Work is anything that is assumed to return, such as publishing. */
  datatype Act = Lock(mu: Mutex) | Unlock(mu: Mutex) | Work

  // ----- what the handlers do, on every path -----

  function Section(mu: Mutex): seq<Act> {
    [Lock(mu), Unlock(mu)]
  }

  function Works(n: nat): seq<Act> {
    if n == 0 then [] else [Work] + Works(n - 1)
  }

  /** A connect event: an untracked station ends it early. */
  function ConnectScript(tracked: bool, published: nat): seq<Act> {
    Section(DaemonMu) + if tracked then Section(QueueMu) + Works(published) else []
  }

  /** A disconnect event: an untracked station and a late disconnect end it early. */
  function DisconnectScript(accepted: bool): seq<Act> {
    Section(DaemonMu) + if accepted then Section(QueueMu) else []
  }

  /** A timer's goroutine: the callback looks the station up once it has published. */
  function TimerScript(took: bool, published: bool, more: nat): seq<Act> {
    Section(QueueMu) +
    if !took then [] else [Work] + if published then Section(DaemonMu) + Works(more) else []
  }

  /** A configuration holds the daemon's mutex to its end, and while it does it
      cancels callbacks and publishes, in any order and number. */
  datatype Task = CancelOne | Publish

  function Tasks(ts: seq<Task>): seq<Act> {
    if |ts| == 0 then []
    else (if ts[0].CancelOne? then Section(QueueMu) else [Work]) + Tasks(ts[1..])
  }

  function ConfigScript(ts: seq<Task>): seq<Act> {
    [Lock(DaemonMu)] + (Tasks(ts) + [Unlock(DaemonMu)])
  }

  // ----- the discipline they keep -----

  /** From here on the script takes no mutex twice, takes the daemon's only without
      the debouncer's, and gives up what it holds. */
  predicate Disciplined(rest: seq<Act>, holds: set<Mutex>) {
    if |rest| == 0 then holds == {}
    else
      match rest[0]
      case Lock(mu) => mu !in holds && QueueMu !in holds && Disciplined(rest[1..], holds + {mu})
      case Unlock(mu) => mu in holds && Disciplined(rest[1..], holds - {mu})
      case Work => QueueMu !in holds && Disciplined(rest[1..], holds)
  }

  lemma {:induction false} SectionThen(mu: Mutex, rest: seq<Act>, holds: set<Mutex>)
    requires mu !in holds && QueueMu !in holds && Disciplined(rest, holds)
    ensures Disciplined(Section(mu) + rest, holds)
  {
    var all := Section(mu) + rest;
    assert all[1..] == [Unlock(mu)] + rest;
    assert all[1..][1..] == rest;
    assert holds + {mu} - {mu} == holds;
  }

  lemma {:induction false} WorkThen(rest: seq<Act>, holds: set<Mutex>)
    requires QueueMu !in holds && Disciplined(rest, holds)
    ensures Disciplined([Work] + rest, holds)
  {
    assert ([Work] + rest)[1..] == rest;
  }

  lemma {:induction false} WorksAreDisciplined(n: nat)
    ensures Disciplined(Works(n), {})
  {
    if n > 0 {
      WorksAreDisciplined(n - 1);
      WorkThen(Works(n - 1), {});
    }
  }

  lemma {:induction false} TasksThenUnlock(ts: seq<Task>)
    ensures Disciplined(Tasks(ts) + [Unlock(DaemonMu)], {DaemonMu})
  {
    if |ts| == 0 {
      assert Tasks(ts) + [Unlock(DaemonMu)] == [Unlock(DaemonMu)];
      assert [Unlock(DaemonMu)][1..] == [] && {DaemonMu} - {DaemonMu} == {};
    } else {
      var rest := Tasks(ts[1..]) + [Unlock(DaemonMu)];
      TasksThenUnlock(ts[1..]);
      if ts[0].CancelOne? {
        assert Tasks(ts) + [Unlock(DaemonMu)] == Section(QueueMu) + rest;
        SectionThen(QueueMu, rest, {DaemonMu});
      } else {
        assert Tasks(ts) + [Unlock(DaemonMu)] == [Work] + rest;
        WorkThen(rest, {DaemonMu});
      }
    }
  }

  /** Every handler keeps the discipline, on every path. */
  lemma {:induction false} HandlersAreDisciplined(tracked: bool, published: nat, accepted: bool,
                                                  took: bool, said: bool, more: nat, ts: seq<Task>)
    ensures Disciplined(ConnectScript(tracked, published), {})
    ensures Disciplined(DisconnectScript(accepted), {})
    ensures Disciplined(TimerScript(took, said, more), {})
    ensures Disciplined(ConfigScript(ts), {})
  {
    WorksAreDisciplined(0);
    WorksAreDisciplined(published);
    WorksAreDisciplined(more);
    SectionThen(QueueMu, Works(published), {});
    SectionThen(DaemonMu, if tracked then Section(QueueMu) + Works(published) else [], {});
    SectionThen(QueueMu, [], {});
    assert Section(QueueMu) + [] == Section(QueueMu);
    SectionThen(DaemonMu, if accepted then Section(QueueMu) else [], {});
    SectionThen(DaemonMu, Works(more), {});
    var callback := if said then Section(DaemonMu) + Works(more) else [];
    WorkThen(callback, {});
    SectionThen(QueueMu, if !took then [] else [Work] + callback, {});
    TasksThenUnlock(ts);
    assert ConfigScript(ts)[1..] == Tasks(ts) + [Unlock(DaemonMu)];
    assert {} + {DaemonMu} == {DaemonMu};
  }

  // ----- all threads -----

  datatype Thread = Thread(rest: seq<Act>, holds: set<Mutex>)

  predicate Holds(ts: seq<Thread>, i: nat, mu: Mutex) {
    i < |ts| && mu in ts[i].holds
  }

  predicate Free(ts: seq<Thread>, mu: Mutex) {
    forall i :: 0 <= i < |ts| ==> mu !in ts[i].holds
  }

  ghost predicate Sound(ts: seq<Thread>) {
    && (forall i :: 0 <= i < |ts| ==> Disciplined(ts[i].rest, ts[i].holds))
    && (forall i, j, mu :: Holds(ts, i, mu) && Holds(ts, j, mu) ==> i == j)
  }

  predicate CanStep(ts: seq<Thread>, i: nat) {
    i < |ts| && |ts[i].rest| > 0 && (ts[i].rest[0].Lock? ==> Free(ts, ts[i].rest[0].mu))
  }

  function Step(ts: seq<Thread>, i: nat): seq<Thread>
    requires CanStep(ts, i)
  {
    var t := ts[i];
    ts[i := match t.rest[0]
            case Lock(mu) => Thread(t.rest[1..], t.holds + {mu})
            case Unlock(mu) => Thread(t.rest[1..], t.holds - {mu})
            case Work => Thread(t.rest[1..], t.holds)]
  }

  /** A new event, a new configuration, or a timer that expires. */
  function Spawn(ts: seq<Thread>, script: seq<Act>): seq<Thread> {
    ts + [Thread(script, {})]
  }

  lemma {:induction false} StepKeepsSound(ts: seq<Thread>, i: nat)
    requires Sound(ts) && CanStep(ts, i)
    ensures Sound(Step(ts, i))
  {
    var r := Step(ts, i);
    forall j | 0 <= j < |r| ensures Disciplined(r[j].rest, r[j].holds) {
      assert Disciplined(ts[j].rest, ts[j].holds);
    }
    forall j, k, mu | Holds(r, j, mu) && Holds(r, k, mu) ensures j == k {
      if !Holds(ts, j, mu) || !Holds(ts, k, mu) {
        assert ts[i].rest[0] == Lock(mu) && Free(ts, mu);
      }
    }
  }

  lemma {:induction false} SpawnKeepsSound(ts: seq<Thread>, script: seq<Act>)
    requires Sound(ts) && Disciplined(script, {})
    ensures Sound(Spawn(ts, script))
  {
    var r := Spawn(ts, script);
    forall j, k, mu | Holds(r, j, mu) && Holds(r, k, mu) ensures j == k {
      assert Holds(ts, j, mu) && Holds(ts, k, mu);
    }
  }

  /** No thread that holds the debouncer's mutex waits for the daemon's, or for
      anything. */
  lemma {:induction false} QueueHolderNeverWaits(ts: seq<Thread>, i: nat)
    requires Sound(ts) && Holds(ts, i, QueueMu)
    ensures |ts[i].rest| > 0 && ts[i].rest[0].Unlock? && CanStep(ts, i)
  {
    assert Disciplined(ts[i].rest, ts[i].holds);
  }

  /** Freedom from deadlock: as long as any thread is unfinished, one can step. */
  lemma {:induction false} SomeThreadCanStep(ts: seq<Thread>, unfinished: nat) returns (i: nat)
    requires Sound(ts) && unfinished < |ts| && |ts[unfinished].rest| > 0
    ensures CanStep(ts, i)
  {
    if j :| 0 <= j < |ts| && Holds(ts, j, QueueMu) {
      QueueHolderNeverWaits(ts, j);
      i := j;
    } else {
      assert Free(ts, QueueMu) by {
        forall j | 0 <= j < |ts| ensures QueueMu !in ts[j].holds {
          assert !Holds(ts, j, QueueMu);
        }
      }
      if j :| 0 <= j < |ts| && Holds(ts, j, DaemonMu) {
        assert Disciplined(ts[j].rest, ts[j].holds);
        assert ts[j].rest[0].Lock? ==> ts[j].rest[0].mu == QueueMu;
        i := j;
      } else {
        assert Free(ts, DaemonMu) by {
          forall j | 0 <= j < |ts| ensures DaemonMu !in ts[j].holds {
            assert !Holds(ts, j, DaemonMu);
          }
        }
        i := unfinished;
        assert Disciplined(ts[i].rest, ts[i].holds);
        assert ts[i].rest[0].Lock? ==> ts[i].rest[0].mu == QueueMu || ts[i].rest[0].mu == DaemonMu;
      }
    }
  }

  function Remaining(ts: seq<Thread>): nat {
    if |ts| == 0 then 0 else |ts[0].rest| + Remaining(ts[1..])
  }

  lemma {:induction false} RemainingOfUpdate(ts: seq<Thread>, i: nat, t: Thread)
    requires i < |ts|
    ensures Remaining(ts[i := t]) == Remaining(ts) - |ts[i].rest| + |t.rest|
  {
    if i > 0 {
      RemainingOfUpdate(ts[1..], i - 1, t);
      assert ts[i := t][1..] == ts[1..][i - 1 := t];
    } else {
      assert ts[i := t][1..] == ts[1..];
    }
  }

  /** Every step uses up a part of what the threads have left, so without new ones
      all of them finish. */
  lemma {:induction false} StepsRunOut(ts: seq<Thread>, i: nat)
    requires CanStep(ts, i)
    ensures Remaining(Step(ts, i)) == Remaining(ts) - 1
  {
    RemainingOfUpdate(ts, i, Step(ts, i)[i]);
  }

  lemma {:induction false} NothingRemains(ts: seq<Thread>)
    ensures Remaining(ts) == 0 <==> forall i :: 0 <= i < |ts| ==> ts[i].rest == []
  {
    if |ts| > 0 {
      NothingRemains(ts[1..]);
      assert forall i :: 0 < i < |ts| ==> ts[i] == ts[1..][i - 1];
      if forall i :: 0 <= i < |ts| ==> ts[i].rest == [] {
        forall i | 0 <= i < |ts[1..]| ensures ts[1..][i].rest == [] {
          assert ts[1..][i] == ts[i + 1];
        }
      }
    }
  }

  /** Run to the end, whichever thread the scheduler picks: a scheduler that picks
      threads that can step finishes them all. */
  lemma {:induction false} AllFinish(ts: seq<Thread>, schedule: seq<Thread> -> nat) returns (end: seq<Thread>)
    requires Sound(ts)
    requires forall s :: (exists i :: CanStep(s, i)) ==> CanStep(s, schedule(s))
    ensures |end| == |ts| && forall i :: 0 <= i < |end| ==> end[i].rest == [] && end[i].holds == {}
    decreases Remaining(ts)
  {
    NothingRemains(ts);
    if Remaining(ts) == 0 {
      end := ts;
      forall i | 0 <= i < |ts| ensures ts[i].holds == {} {
        assert Disciplined(ts[i].rest, ts[i].holds);
      }
    } else {
      var u :| 0 <= u < |ts| && ts[u].rest != [];
      var i := SomeThreadCanStep(ts, u);
      var k := schedule(ts);
      StepKeepsSound(ts, k);
      StepsRunOut(ts, k);
      end := AllFinish(Step(ts, k), schedule);
    }
  }

  // ----- the program -----

  /** What a thread is started for, and which path it takes. */
  datatype Handler =
    | OnConnect(tracked: bool, published: nat)
    | OnDisconnect(accepted: bool)
    | OnTimer(took: bool, said: bool, more: nat)
    | OnConfig(tasks: seq<Task>)

  function Script(h: Handler): seq<Act> {
    match h
    case OnConnect(tracked, published) => ConnectScript(tracked, published)
    case OnDisconnect(accepted) => DisconnectScript(accepted)
    case OnTimer(took, said, more) => TimerScript(took, said, more)
    case OnConfig(tasks) => ConfigScript(tasks)
  }

  datatype Move = Start(h: Handler) | Advance(i: nat)

  predicate CanMove(ts: seq<Thread>, mv: Move) {
    mv.Advance? ==> CanStep(ts, mv.i)
  }

  function Moved(ts: seq<Thread>, mv: Move): seq<Thread>
    requires CanMove(ts, mv)
  {
    match mv
    case Start(h) => Spawn(ts, Script(h))
    case Advance(i) => Step(ts, i)
  }

  ghost predicate Follows(tss: seq<seq<Thread>>, mvs: seq<Move>, k: nat) {
    k < |mvs| && k + 1 < |tss| && CanMove(tss[k], mvs[k]) && tss[k + 1] == Moved(tss[k], mvs[k])
  }

  /** Any number of handlers, started at any time, and interleaved in any way. */
  ghost predicate Run(tss: seq<seq<Thread>>, mvs: seq<Move>) {
    && |tss| == |mvs| + 1
    && tss[0] == []
    && (forall k :: 0 <= k < |mvs| ==> Follows(tss, mvs, k))
  }

  lemma {:induction false} ScriptsAreDisciplined(h: Handler)
    ensures Disciplined(Script(h), {})
  {
    match h
    case OnConnect(tracked, published) =>
      HandlersAreDisciplined(tracked, published, false, false, false, 0, []);
    case OnDisconnect(accepted) => HandlersAreDisciplined(false, 0, accepted, false, false, 0, []);
    case OnTimer(took, said, more) => HandlersAreDisciplined(false, 0, false, took, said, more, []);
    case OnConfig(tasks) => HandlersAreDisciplined(false, 0, false, false, false, 0, tasks);
  }

  lemma {:induction false} MovedKeepsSound(ts: seq<Thread>, mv: Move)
    requires Sound(ts) && CanMove(ts, mv)
    ensures Sound(Moved(ts, mv))
  {
    match mv
    case Start(h) =>
      ScriptsAreDisciplined(h);
      SpawnKeepsSound(ts, Script(h));
    case Advance(i) => StepKeepsSound(ts, i);
  }

  /** In every reachable state no mutex has two holders, and every thread keeps the
      discipline. */
  lemma {:induction false} AlwaysSound(tss: seq<seq<Thread>>, mvs: seq<Move>, n: nat)
    requires Run(tss, mvs) && n <= |mvs|
    ensures Sound(tss[n])
  {
    if n > 0 {
      AlwaysSound(tss, mvs, n - 1);
      assert Follows(tss, mvs, n - 1);
      MovedKeepsSound(tss[n - 1], mvs[n - 1]);
    }
  }

  /** No reachable state is a deadlock: while any thread is unfinished, one can step. */
  lemma {:induction false} NeverDeadlocked(tss: seq<seq<Thread>>, mvs: seq<Move>, n: nat, unfinished: nat)
    returns (i: nat)
    requires Run(tss, mvs) && n <= |mvs|
    requires unfinished < |tss[n]| && |tss[n][unfinished].rest| > 0
    ensures CanStep(tss[n], i)
  {
    AlwaysSound(tss, mvs, n);
    i := SomeThreadCanStep(tss[n], unfinished);
  }

  /** In every reachable state, a thread that holds the debouncer's mutex waits for
      nothing, and no other thread holds it. */
  lemma {:induction false} QueueMutexIsLeaf(tss: seq<seq<Thread>>, mvs: seq<Move>, n: nat, i: nat)
    requires Run(tss, mvs) && n <= |mvs| && Holds(tss[n], i, QueueMu)
    ensures CanStep(tss[n], i) && tss[n][i].rest[0].Unlock?
    ensures forall j :: Holds(tss[n], j, QueueMu) ==> j == i
  {
    AlwaysSound(tss, mvs, n);
    QueueHolderNeverWaits(tss[n], i);
  }

  /** From every reachable state, whatever the scheduler picks among the threads that
      can step, all threads finish. */
  lemma {:induction false} AllHandlersFinish(tss: seq<seq<Thread>>, mvs: seq<Move>, n: nat,
                                             schedule: seq<Thread> -> nat) returns (end: seq<Thread>)
    requires Run(tss, mvs) && n <= |mvs|
    requires forall s :: (exists i :: CanStep(s, i)) ==> CanStep(s, schedule(s))
    ensures |end| == |tss[n]| && forall i :: 0 <= i < |end| ==> end[i].rest == [] && end[i].holds == {}
  {
    AlwaysSound(tss, mvs, n);
    end := AllFinish(tss[n], schedule);
  }
}
