/** The attach loop, its canceller and the detach that both may ask for. */
module Attach {
  import opened Wrappers
  import opened Scan
  import opened Events

  /** What may happen next to an attached socket. The canceller's detach takes two
      steps: it sends the command, and then it tells the loop. A message comes with
      the outcome that the callback would have for it. */
  datatype Happening =
    | Message(data: string, callbackOk: bool)
    | ReadFails
    | CancelBegins
    | CancelEnds

  datatype Outcome =
    | NotAttached         // the ATTACH command failed
    | Running             // the loop waits for more
    | DetachedCleanly     // nil
    | UnexpectedOK
    | BadMessage
    | Exiting             // ErrTerminating
    | CallbackFailed
    | ReadFailed
    | DeadlineFailed

  /** What a message makes of the loop: a callback, or an end. */
  datatype Verdict = Deliver(event: Event) | Stop(outcome: Outcome)

  function Judge(data: string, done: bool): Verdict {
    var msg := TrimSpace(data);
    if msg == "OK" then Stop(if done then DetachedCleanly else UnexpectedOK)
    else
      match ParseEvent(msg)
      case None => Stop(BadMessage)
      case Some(e) => if e.Terminating? then Stop(Exiting) else Deliver(e)
  }

  /** The loop as a fold over what happens: the callbacks and the outcome. */
  function Fold(hs: seq<Happening>, done: bool): (seq<Event>, Outcome) {
    if |hs| == 0 then ([], Running)
    else
      match hs[0]
      case ReadFails => ([], ReadFailed)
      case CancelBegins => Fold(hs[1..], done)
      case CancelEnds => Fold(hs[1..], true)
      case Message(data, callbackOk) =>
        match Judge(data, done)
        case Stop(o) => ([], o)
        case Deliver(e) =>
          if !callbackOk then ([e], CallbackFailed)
          else
            var (calls, o) := Fold(hs[1..], done);
            ([e] + calls, o)
  }

  /** The canceller begins at most once, and ends after it began. */
  predicate Schedule(hs: seq<Happening>, begun: bool, ended: bool) {
    |hs| == 0 ||
    match hs[0]
    case CancelBegins => !begun && Schedule(hs[1..], true, ended)
    case CancelEnds => begun && !ended && Schedule(hs[1..], begun, true)
    case _ => Schedule(hs[1..], begun, ended)
  }

  /** The detach function and its channel. */
  class Detacher {
    var detached: bool
    var done: bool    // the channel is closed
    var attempts: nat // DETACH commands written, or tried to

    ghost predicate Valid()
      reads this
    {
      (done ==> detached) && attempts == if detached then 1 else 0
    }

    constructor ()
      ensures Valid() && !detached && !done
    {
      detached, done, attempts := false, false, 0;
    }

    /** The first call sends the command; others find it sent. */
    method Begin() returns (mine: bool)
      requires Valid()
      modifies this
      ensures Valid() && detached && done == old(done) && mine == !old(detached)
    {
      mine := !detached;
      if mine {
        detached := true;
        attempts := attempts + 1;
      }
    }

    method End()
      requires Valid() && detached
      modifies this
      ensures Valid() && detached && done
    {
      done := true;
    }
  }

  /** The fold, with the callbacks made so far. */
  function FoldAfter(calls: seq<Event>, hs: seq<Happening>, done: bool): (seq<Event>, Outcome) {
    (calls + Fold(hs, done).0, Fold(hs, done).1)
  }

  lemma {:induction false} FoldStep(calls: seq<Event>, hs: seq<Happening>, done: bool)
    requires |hs| > 0
    ensures FoldAfter(calls, hs, done) ==
            match hs[0]
            case ReadFails => (calls, ReadFailed)
            case CancelBegins => FoldAfter(calls, hs[1..], done)
            case CancelEnds => FoldAfter(calls, hs[1..], true)
            case Message(data, callbackOk) =>
              match Judge(data, done)
              case Stop(o) => (calls, o)
              case Deliver(e) =>
                if callbackOk then FoldAfter(calls + [e], hs[1..], done) else (calls + [e], CallbackFailed)
  {
    assert calls + [] == calls;
    if hs[0].Message? && Judge(hs[0].data, done).Deliver? {
      var e, tail := Judge(hs[0].data, done).event, Fold(hs[1..], done).0;
      assert calls + ([e] + tail) == (calls + [e]) + tail;
    }
  }

  /** The loop that reads until something stops it. */
  method Loop(d: Detacher, hs: seq<Happening>) returns (calls: seq<Event>, outcome: Outcome)
    requires d.Valid() && !d.detached && Schedule(hs, false, false)
    modifies d
    ensures d.Valid()
    ensures (calls, outcome) == Fold(hs, false)
  {
    calls, outcome := [], Running;
    var i := 0;
    assert hs[0..] == hs && [] + Fold(hs, false).0 == Fold(hs, false).0;
    while i < |hs|
      invariant 0 <= i <= |hs| && d.Valid()
      invariant Schedule(hs[i..], d.detached, d.done)
      invariant Fold(hs, false) == FoldAfter(calls, hs[i..], d.done)
    {
      FoldStep(calls, hs[i..], d.done);
      assert hs[i..][1..] == hs[i + 1..];
      match hs[i] {
        case ReadFails =>
          return calls, ReadFailed;
        case CancelBegins =>
          var mine := d.Begin();
        case CancelEnds =>
          d.End();
        case Message(data, callbackOk) =>
          var verdict := Judge(data, d.done);
          if verdict.Stop? {
            return calls, verdict.outcome;
          }
          calls := calls + [verdict.event];
          if !callbackOk {
            return calls, CallbackFailed;
          }
      }
      i := i + 1;
    }
    assert hs[i..] == [] && calls + [] == calls;
  }

  /** Ctrl.attach: after a successful ATTACH, what happens is hs. The deferred detach
      waits for a canceller that has begun. */
  method Run(attached: bool, deadlineOk: bool, hs: seq<Happening>)
    returns (calls: seq<Event>, outcome: Outcome, attempts: nat)
    requires Schedule(hs, false, false)
    ensures !attached ==> calls == [] && outcome == NotAttached && attempts == 0
    ensures attached && !deadlineOk ==> calls == [] && outcome == DeadlineFailed && attempts == 1
    ensures attached && deadlineOk ==> (calls, outcome) == Fold(hs, false)
    ensures attached && outcome != Running ==> attempts == 1
    ensures attempts <= 1
  {
    if !attached {
      return [], NotAttached, 0;
    }
    var d := new Detacher();
    if deadlineOk {
      calls, outcome := Loop(d, hs);
    } else {
      calls, outcome := [], DeadlineFailed;
    }
    if outcome != Running {
      var mine := d.Begin();
      d.End();
    }
    attempts := d.attempts;
  }

  // ----- what the fold means -----

  function Messages(hs: seq<Happening>): seq<Happening> {
    if |hs| == 0 then []
    else (if hs[0].Message? || hs[0].ReadFails? then [hs[0]] else []) + Messages(hs[1..])
  }

  /** The outcome that cancelling turns into another one. */
  function Uncancelled(o: Outcome): Outcome {
    if o == DetachedCleanly then UnexpectedOK else o
  }

  /** For the same reads, the moment of cancelling changes no callback, and changes no
      outcome but that of an OK. (What is read does depend on it: the command makes the
      server reply and stop sending, and the deadline makes a later read fail.) */
  lemma {:induction false} CancellingDropsNothing(hs: seq<Happening>, done: bool)
    ensures Fold(Messages(hs), false).0 == Fold(hs, done).0
    ensures Fold(Messages(hs), false).1 == Uncancelled(Fold(hs, done).1)
  {
    if |hs| > 0 {
      CancellingDropsNothing(hs[1..], done || hs[0].CancelEnds?);
      if hs[0].Message? || hs[0].ReadFails? {
        assert Messages(hs)[0] == hs[0] && Messages(hs)[1..] == Messages(hs[1..]);
      } else {
        assert Messages(hs) == Messages(hs[1..]);
      }
    }
  }

  predicate Passes(h: Happening) {
    match h
    case Message(data, callbackOk) => callbackOk && Judge(data, false).Deliver?
    case ReadFails => false
    case _ => true
  }

  predicate IsOK(h: Happening) {
    h.Message? && TrimSpace(h.data) == "OK"
  }

  /** The thing that stops the loop is an OK, read after the canceller's detach had
      completed. */
  ghost predicate CleanAt(hs: seq<Happening>, done: bool, k: int) {
    && 0 <= k < |hs| && IsOK(hs[k])
    && (forall j :: 0 <= j < k ==> Passes(hs[j]))
    && (done || exists j :: 0 <= j < k && hs[j].CancelEnds?)
  }

  /** A step that lets the loop go on. */
  lemma {:induction false} PassesStep(hs: seq<Happening>, done: bool)
    requires |hs| > 0 && Passes(hs[0])
    ensures var (calls, o) := Fold(hs[1..], done || hs[0].CancelEnds?);
            Fold(hs, done) == (if hs[0].Message? then [Judge(hs[0].data, false).event] + calls else calls, o)
  {
  }

  lemma {:induction false} LaterWitness(hs: seq<Happening>, k: int, done: bool)
    requires |hs| > 0 && Passes(hs[0]) && CleanAt(hs[1..], done || hs[0].CancelEnds?, k)
    ensures CleanAt(hs, done, k + 1)
  {
    forall j | 0 < j < k + 1 ensures Passes(hs[j]) {
      assert hs[j] == hs[1..][j - 1];
    }
    if j :| 0 <= j < k && hs[1..][j].CancelEnds? {
      assert hs[j + 1].CancelEnds?;
    }
  }

  lemma {:induction false} EarlierWitness(hs: seq<Happening>, k: int, done: bool)
    requires k > 0 && CleanAt(hs, done, k)
    ensures Passes(hs[0]) && CleanAt(hs[1..], done || hs[0].CancelEnds?, k - 1)
  {
    assert forall j :: 0 <= j < k - 1 ==> hs[1..][j] == hs[j + 1];
    if j :| 0 <= j < k && hs[j].CancelEnds? {
      assert j > 0 ==> hs[1..][j - 1].CancelEnds?;
    }
  }

  /** The loop ends without an error exactly when the first thing to stop it is an OK
      read after the canceller's detach had completed. */
  lemma {:induction false} CleanExactlyAfterDetach(hs: seq<Happening>, done: bool)
    ensures Fold(hs, done).1 == DetachedCleanly <==> exists k :: CleanAt(hs, done, k)
  {
    if |hs| > 0 {
      var rest, done' := hs[1..], done || hs[0].CancelEnds?;
      CleanExactlyAfterDetach(rest, done');
      if Fold(hs, done).1 == DetachedCleanly {
        if IsOK(hs[0]) {
          assert CleanAt(hs, done, 0);
        } else {
          PassesStep(hs, done);
          var k :| CleanAt(rest, done', k);
          LaterWitness(hs, k, done);
        }
      }
      if k :| CleanAt(hs, done, k) {
        if k > 0 {
          EarlierWitness(hs, k, done);
          PassesStep(hs, done);
        }
      }
    }
  }

  /** The server's OK may be read between the canceller's command and the moment it
      tells the loop; then a cancelled attach ends with an error. */
  lemma {:induction false} EarlyOKIsAnError(callbackOk: bool)
    ensures var hs := [CancelBegins, Message("OK", callbackOk), CancelEnds];
            Schedule(hs, false, false) && Fold(hs, false) == ([], UnexpectedOK)
  {
    var hs := [CancelBegins, Message("OK", callbackOk), CancelEnds];
    var tail, last := [Message("OK", callbackOk), CancelEnds], [CancelEnds];
    assert hs[1..] == tail && tail[1..] == last && last[1..] == [];
    assert Schedule(last, true, false) && Schedule(tail, true, false);
    assert TrimSpace("OK") == "OK";
  }

  /** The events of the messages, in order. */
  function Delivered(hs: seq<Happening>): seq<Event>
    requires forall j :: 0 <= j < |hs| ==> Passes(hs[j])
  {
    if |hs| == 0 then []
    else
      assert Passes(hs[0]);
      (if hs[0].Message? then [Judge(hs[0].data, false).event] else []) + Delivered(hs[1..])
  }

  lemma {:induction false} DeliveredStep(hs: seq<Happening>)
    requires |hs| > 0 && forall j :: 0 <= j < |hs| ==> Passes(hs[j])
    ensures Passes(hs[0])
    ensures Delivered(hs) ==
            if hs[0].Message? then [Judge(hs[0].data, false).event] + Delivered(hs[1..]) else Delivered(hs[1..])
  {
    assert Passes(hs[0]);
    assert [] + Delivered(hs[1..]) == Delivered(hs[1..]);
  }

  /** Whether the canceller's detach has completed. */
  predicate DoneBy(hs: seq<Happening>, done: bool) {
    if |hs| == 0 then done else DoneBy(hs[1..], done || hs[0].CancelEnds?)
  }

  lemma {:induction false} FirstOfTake(hs: seq<Happening>, n: nat)
    requires 0 < n <= |hs|
    ensures hs[..n][0] == hs[0] && hs[..n][1..] == hs[1..][..n - 1] && hs[1..][n - 1..] == hs[n..]
  {
  }

  lemma {:induction false} Associative<T>(a: seq<T>, b: seq<T>, c: seq<T>)
    ensures a + (b + c) == (a + b) + c
  {
  }

  /** The callbacks are the events of the messages before the first thing that stops
      the loop, each message once and in order. */
  lemma {:induction false} CallsAreTheMessages(hs: seq<Happening>, done: bool, n: nat)
    requires n <= |hs| && forall j :: 0 <= j < n ==> Passes(hs[j])
    ensures var after := Fold(hs[n..], DoneBy(hs[..n], done));
            Fold(hs, done) == (Delivered(hs[..n]) + after.0, after.1)
  {
    if n == 0 {
      assert hs[0..] == hs && hs[..0] == [];
      assert [] + Fold(hs, done).0 == Fold(hs, done).0;
    } else {
      var rest, done' := hs[1..], done || hs[0].CancelEnds?;
      FirstOfTake(hs, n);
      forall j | 0 <= j < n - 1 ensures Passes(rest[j]) {
        assert rest[j] == hs[j + 1];
      }
      CallsAreTheMessages(rest, done', n - 1);
      DeliveredStep(hs[..n]);
      PassesStep(hs, done);
      if hs[0].Message? {
        Associative([Judge(hs[0].data, false).event], Delivered(rest[..n - 1]),
                    Fold(rest[n - 1..], DoneBy(rest[..n - 1], done')).0);
      }
    }
  }

  /** What the happening that stops the loop adds: the callback that failed. */
  function LastCall(h: Happening): seq<Event> {
    if h.Message? && Judge(h.data, false).Deliver? then [Judge(h.data, false).event] else []
  }

  lemma {:induction false} StopsHere(hs: seq<Happening>, done: bool)
    requires |hs| > 0 && !Passes(hs[0])
    ensures Fold(hs, done).0 == LastCall(hs[0]) && Fold(hs, done).1 != Running
  {
  }

  /** The callbacks exactly: the events of the messages before the first thing that stops
      the loop, and the event whose callback failed if that is what it is; nothing after. */
  lemma {:induction false} CallsUpToTheStop(hs: seq<Happening>, done: bool, n: nat)
    requires n < |hs| && (forall j :: 0 <= j < n ==> Passes(hs[j])) && !Passes(hs[n])
    ensures Fold(hs, done).0 == Delivered(hs[..n]) + LastCall(hs[n])
    ensures Fold(hs, done).1 != Running
  {
    CallsAreTheMessages(hs, done, n);
    StopsHere(hs[n..], DoneBy(hs[..n], done));
  }

  /** The text of a message, without white space around it and without a priority. */
  function TextOf(h: Happening): string
    requires h.Message?
  {
    StripPriority(TrimSpace(h.data))
  }

  /** What a message is that the parser refuses. */
  predicate IsRefused(h: Happening) {
    h.Message? && !IsOK(h) && ParseEvent(TrimSpace(h.data)).None?
  }

  predicate SaysTerminating(h: Happening) {
    h.Message? && !IsOK(h) && |TrimSpace(h.data)| > 0 && TextOf(h) == "CTRL-EVENT-TERMINATING"
  }

  /** A message that is no announcement, not the end, and not empty. */
  predicate IsOther(h: Happening) {
    && h.Message? && !IsOK(h) && |TrimSpace(h.data)| > 0
    && !("AP-STA-CONNECTED" <= TextOf(h)) && !("AP-STA-DISCONNECTED" <= TextOf(h))
    && TextOf(h) != "CTRL-EVENT-TERMINATING"
  }

  lemma {:induction false} OutcomeHere(hs: seq<Happening>, done: bool)
    requires |hs| > 0 && !Passes(hs[0])
    ensures var (h, o) := (hs[0], Fold(hs, done).1);
            && (o == ReadFailed <==> h.ReadFails?)
            && (o == DetachedCleanly <==> IsOK(h) && done)
            && (o == UnexpectedOK <==> IsOK(h) && !done)
            && (o == BadMessage <==> IsRefused(h))
            && (o == Exiting <==> SaysTerminating(h))
            && (o == CallbackFailed <==> h.Message? && Judge(h.data, false).Deliver?)
  {
    var h := hs[0];
    if h.Message? && |TrimSpace(h.data)| > 0 {
      KindOfMessage(TrimSpace(h.data));
    }
  }

  /** What ends the loop decides its outcome: a failed read, an OK read after or before
      the detach had completed, a message that does not parse, the end of hostapd, or an
      event whose callback failed. */
  lemma {:induction false} OutcomeOfTheStop(hs: seq<Happening>, done: bool, n: nat)
    requires n < |hs| && (forall j :: 0 <= j < n ==> Passes(hs[j])) && !Passes(hs[n])
    ensures var (h, o) := (hs[n], Fold(hs, done).1);
            && (o == ReadFailed <==> h.ReadFails?)
            && (o == DetachedCleanly <==> IsOK(h) && DoneBy(hs[..n], done))
            && (o == UnexpectedOK <==> IsOK(h) && !DoneBy(hs[..n], done))
            && (o == BadMessage <==> IsRefused(h))
            && (o == Exiting <==> SaysTerminating(h))
            && (o == CallbackFailed <==> h.Message? && Judge(h.data, false).Deliver?)
  {
    CallsAreTheMessages(hs, done, n);
    OutcomeHere(hs[n..], DoneBy(hs[..n], done));
  }

  /** A message that the program does not know is handed to the callback as it came, and
      stops nothing. */
  lemma {:induction false} OthersArePassedOn(h: Happening, done: bool)
    requires IsOther(h)
    ensures Judge(h.data, done) == Deliver(Unrecognized(TrimSpace(h.data)))
    ensures Passes(h) <==> h.callbackOk
  {
    KindOfMessage(TrimSpace(h.data));
  }
}
