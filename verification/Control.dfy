/** Commands on the control socket, and the walk along hostapd's list of stations. */
module Control {
  import opened Wrappers
  import opened Replies
  import Mac
  import Scan
  import Ssid

  const BUFFER := 4096

  /** What a read yields: a datagram, or a deadline or another failure. */
  datatype Read = Datagram(data: string) | ReadFails

  datatype CtrlError = NoReply | UnknownCommand(cmd: string) | BadReply

  function Fit(data: string): string {
    if |data| > BUFFER then data[..BUFFER] else data
  }

  lemma {:induction false} LongDataIsCut(data: string)
    ensures Fit(data) <= data && |Fit(data)| == if |data| > 4096 then 4096 else |data|
  {
  }

  function Incoming(inbox: seq<Read>): Read {
    if |inbox| == 0 || inbox[0].ReadFails? then ReadFails else Datagram(Fit(inbox[0].data))
  }

  function Rest(inbox: seq<Read>): seq<Read> {
    if |inbox| == 0 then [] else inbox[1..]
  }

  /** The socket: the datagrams that are to come, and the commands sent. When
      nothing comes any more, a read runs into its deadline. */
  class Conn {
    var inbox: seq<Read>
    var sent: seq<string>

    constructor (inbox: seq<Read>)
      ensures this.inbox == inbox && sent == []
    {
      this.inbox, sent := inbox, [];
    }

    method Write(cmd: string)
      modifies this
      ensures sent == old(sent) + [cmd] && inbox == old(inbox)
    {
      sent := sent + [cmd];
    }

    /** A longer datagram is cut off at the size of the buffer. */
    method Receive() returns (r: Read)
      modifies this
      ensures sent == old(sent)
      ensures r == Incoming(old(inbox)) && inbox == Rest(old(inbox))
    {
      if |inbox| == 0 {
        return ReadFails;
      }
      r := if inbox[0].Datagram? then Datagram(Fit(inbox[0].data)) else ReadFails;
      inbox := inbox[1..];
    }
  }

  /** The outcome of a command by the reply that comes next. */
  function Reply(cmd: string, inbox: seq<Read>): Result<string, CtrlError> {
    match Incoming(inbox)
    case ReadFails => Err(NoReply)
    case Datagram(data) => if "UNKNOWN COMMAND" <= data then Err(UnknownCommand(cmd)) else Ok(data)
  }

  method Cmd(conn: Conn, cmd: string) returns (r: Result<string, CtrlError>)
    modifies conn
    ensures conn.sent == old(conn.sent) + [cmd] && conn.inbox == Rest(old(conn.inbox))
    ensures r == Reply(cmd, old(conn.inbox))
  {
    conn.Write(cmd);
    var read := conn.Receive();
    if read.ReadFails? {
      return Err(NoReply);
    }
    if "UNKNOWN COMMAND" <= read.data {
      return Err(UnknownCommand(cmd));
    }
    r := Ok(read.data);
  }

  // ----- stationFirst and stationNext -----

  /** A station, whether there is one, and an error: what both commands return.
      After a failed command there is none; after a bad reply there is one. */
  datatype Answer = Answer(station: Station, ok: bool, err: Option<CtrlError>)

  function StationAnswer(reply: Result<string, CtrlError>): Answer {
    match reply
    case Err(e) => Answer(NO_STATION, false, Some(e))
    case Ok(data) =>
      if |data| == 0 then Answer(NO_STATION, false, None)
      else
        match StationOf(data)
        case None => Answer(NO_STATION, true, Some(BadReply))
        case Some(s) => Answer(s, true, None)
  }

  method StationCmd(conn: Conn, cmd: string) returns (a: Answer)
    modifies conn
    ensures conn.sent == old(conn.sent) + [cmd] && conn.inbox == Rest(old(conn.inbox))
    ensures a == StationAnswer(Reply(cmd, old(conn.inbox)))
  {
    var reply := Cmd(conn, cmd);
    if reply.Err? {
      return Answer(NO_STATION, false, Some(reply.error));
    }
    if |reply.value| == 0 {
      return Answer(NO_STATION, false, None);
    }
    var s := ParseStation(reply.value);
    a := if s.None? then Answer(NO_STATION, true, Some(BadReply)) else Answer(s.value, true, None);
  }

  // ----- status -----

  function StatusAnswer(reply: Result<string, CtrlError>): Result<Status, CtrlError> {
    match reply
    case Err(e) => Err(e)
    case Ok(data) => match StatusOf(NO_STATUS, data) { case None => Err(BadReply) case Some(s) => Ok(s) }
  }

  method StatusCmd(conn: Conn) returns (r: Result<Status, CtrlError>)
    modifies conn
    ensures conn.sent == old(conn.sent) + ["STATUS"] && conn.inbox == Rest(old(conn.inbox))
    ensures r == StatusAnswer(Reply("STATUS", old(conn.inbox)))
  {
    var reply := Cmd(conn, "STATUS");
    if reply.Err? {
      return Err(reply.error);
    }
    var s := ParseStatus(reply.value);
    r := if s.None? then Err(BadReply) else Ok(s.value);
  }

  lemma {:induction false} NotUnknown(data: string)
    requires |data| > 0 && data[0] != 'U'
    ensures !("UNKNOWN COMMAND" <= data)
  {
    assert "UNKNOWN COMMAND"[0] == 'U';
  }

  /** A status that fits in the buffer arrives as it was sent. */
  lemma {:induction false} StatusArrives(s: Status, inbox: seq<Read>)
    requires Ssid.IsBytes(s.ssid) && Scan.IsInt64(s.channel) && Scan.IsInt64(s.maxTxPower)
    requires Scan.IsLine(s.state) && Scan.IsLine(s.bssid)
    requires |inbox| > 0 && inbox[0] == Datagram(EncodeStatus(Escaped(s))) && |EncodeStatus(Escaped(s))| <= 4096
    ensures StatusAnswer(Reply("STATUS", inbox)) == Ok(s)
  {
    StatusRoundTrip(s);
    StatusStartsWithState(Escaped(s));
    NotUnknown(EncodeStatus(Escaped(s)));
  }

  /** The command fails exactly if nothing comes, or that the command is unknown, or
      something that is no status. */
  lemma {:induction false} StatusFailsExactly(inbox: seq<Read>)
    ensures |inbox| == 0 || inbox[0].ReadFails? ==> StatusAnswer(Reply("STATUS", inbox)) == Err(NoReply)
    ensures |inbox| > 0 && inbox[0].Datagram? ==>
              var data := Fit(inbox[0].data);
              StatusAnswer(Reply("STATUS", inbox)) ==
              if data[..if |data| < 15 then |data| else 15] == "UNKNOWN COMMAND" then Err(UnknownCommand("STATUS"))
              else if StatusOf(NO_STATUS, data).Some? then Ok(StatusOf(NO_STATUS, data).value) else Err(BadReply)
  {
    if |inbox| > 0 && inbox[0].Datagram? {
      var data := Fit(inbox[0].data);
      assert |"UNKNOWN COMMAND"| == 15;
      assert "UNKNOWN COMMAND" <= data <==> data[..if |data| < 15 then |data| else 15] == "UNKNOWN COMMAND";
    }
  }

  const FIRST := "STA-FIRST"

  function NextCmd(mac: string): string {
    "STA-NEXT " + mac
  }

  // ----- the walk -----

  /** The stations that follow one with this address, and the commands that ask. */
  function WalkOn(mac: string, inbox: seq<Read>): (r: (Result<seq<Station>, CtrlError>, seq<string>))
    decreases |inbox|
  {
    var cmd := NextCmd(mac);
    var a := StationAnswer(Reply(cmd, inbox));
    if !a.ok then (Ok([]), [cmd])
    else if a.err.Some? then (Err(a.err.value), [cmd])
    else if |inbox| == 0 then (Ok([]), [cmd])
    else
      var (rest, cmds) := WalkOn(a.station.mac, inbox[1..]);
      match rest
      case Err(e) => (Err(e), [cmd] + cmds)
      case Ok(stations) => (Ok([a.station] + stations), [cmd] + cmds)
  }

  function Walk(inbox: seq<Read>): (Result<seq<Station>, CtrlError>, seq<string>) {
    var a := StationAnswer(Reply(FIRST, inbox));
    if a.err.Some? then (Err(a.err.value), [FIRST])
    else if !a.ok || |inbox| == 0 then (Ok([]), [FIRST])
    else
      var (rest, cmds) := WalkOn(a.station.mac, inbox[1..]);
      match rest
      case Err(e) => (Err(e), [FIRST] + cmds)
      case Ok(stations) => (Ok([a.station] + stations), [FIRST] + cmds)
  }

  function Join(before: seq<Station>, r: (Result<seq<Station>, CtrlError>, seq<string>), cmds: seq<string>)
    : (Result<seq<Station>, CtrlError>, seq<string>)
  {
    match r.0
    case Err(e) => (Err(e), cmds + r.1)
    case Ok(stations) => (Ok(before + stations), cmds + r.1)
  }

  lemma {:induction false} JoinStep(before: seq<Station>, s: Station,
                                    tail: (Result<seq<Station>, CtrlError>, seq<string>), cmds: seq<string>,
                                    cmd: string)
    ensures Join(before + [s], tail, cmds + [cmd]) ==
            match tail.0
            case Err(e) => (Err(e), cmds + ([cmd] + tail.1))
            case Ok(stations) => (Ok(before + ([s] + stations)), cmds + ([cmd] + tail.1))
  {
    assert (cmds + [cmd]) + tail.1 == cmds + ([cmd] + tail.1);
    if tail.0.Ok? {
      assert (before + [s]) + tail.0.value == before + ([s] + tail.0.value);
    }
  }

  /** Client.Stations: the loop over STA-NEXT. It looks for an error only if there
      was a station, so a failed STA-NEXT ends the list without one. */
  method Stations(conn: Conn) returns (r: Result<seq<Station>, CtrlError>)
    modifies conn
    ensures var (stations, cmds) := Walk(old(conn.inbox));
            r == stations && conn.sent == old(conn.sent) + cmds
  {
    ghost var before := conn.sent;
    ghost var all := Walk(conn.inbox);
    var a := StationCmd(conn, FIRST);
    if a.err.Some? {
      return Err(a.err.value);
    }
    if !a.ok {
      return Ok([]);
    }
    var station := a.station;
    var stations := [station];
    ghost var cmds := [FIRST];
    while true
      invariant conn.sent == before + cmds
      invariant all == Join(stations, WalkOn(station.mac, conn.inbox), cmds)
      decreases |conn.inbox|
    {
      ghost var inbox := conn.inbox;
      ghost var cmd := NextCmd(station.mac);
      a := StationCmd(conn, NextCmd(station.mac));
      assert conn.sent == before + (cmds + [cmd]);
      if !a.ok {
        assert stations + [] == stations;
        break;
      }
      if a.err.Some? {
        return Err(a.err.value);
      }
      ghost var tail := WalkOn(a.station.mac, inbox[1..]);
      JoinStep(stations, a.station, tail, cmds, cmd);
      station := a.station;
      stations := stations + [station];
      cmds := cmds + [cmd];
    }
    r := Ok(stations);
  }

  // ----- against the repository's hostapd -----

  /** The position of the first station with this address. */
  function Find(list: seq<StationResp>, mac: string): (i: nat)
    ensures i <= |list|
    ensures i < |list| ==> list[i].mac == mac
    ensures forall j :: 0 <= j < i ==> list[j].mac != mac
  {
    if |list| == 0 || list[0].mac == mac then 0 else 1 + Find(list[1..], mac)
  }

  /** The reply that shows the station at a position, empty past the end. */
  function Shown(list: seq<StationResp>, i: nat): string {
    if i < |list| then EncodeStation(list[i]) else ""
  }

  /** The handler's reply to a STA-NEXT. */
  function AfterMac(list: seq<StationResp>, mac: string): string {
    Shown(list, Find(list, mac) + 1)
  }

  predicate Sound(list: seq<StationResp>) {
    forall i :: 0 <= i < |list| ==> Mac.IsMAC(list[i].mac) && Scan.IsInt64(list[i].signal)
  }

  predicate DistinctMacs(list: seq<StationResp>) {
    forall i, j :: 0 <= i < j < |list| ==> list[i].mac != list[j].mac
  }

  /** A conversation with the handler: each reply answers the command before it. */
  function AnswerTo(list: seq<StationResp>, cmd: string): string {
    if cmd == FIRST then Shown(list, 0)
    else if "STA-NEXT " <= cmd then AfterMac(list, cmd[9..])
    else ""
  }

  function Map<S, T>(f: S -> T, list: seq<S>): (r: seq<T>)
    ensures |r| == |list| && forall i :: 0 <= i < |list| ==> r[i] == f(list[i])
  {
    seq(|list|, i requires 0 <= i < |list| => f(list[i]))
  }

  lemma {:induction false} MapHead<S, T>(f: S -> T, list: seq<S>)
    requires |list| > 0
    ensures Map(f, list) == [f(list[0])] + Map(f, list[1..])
  {
    var all, rest := Map(f, list), Map(f, list[1..]);
    assert forall i :: 0 < i < |list| ==> all[i] == rest[i - 1];
  }

  function AsDatagram(s: StationResp): Read {
    Datagram(EncodeStation(s))
  }

  function CmdAfter(s: StationResp): string {
    NextCmd(s.mac)
  }

  function Encoded(list: seq<StationResp>): seq<Read> {
    Map(AsDatagram, list)
  }

  function AsStations(list: seq<StationResp>): seq<Station> {
    Map(AsStation, list)
  }

  function NextCmds(list: seq<StationResp>): seq<string> {
    Map(CmdAfter, list)
  }

  lemma {:induction false} HeadAndRest(list: seq<StationResp>)
    requires |list| > 0
    ensures Encoded(list) == [Datagram(EncodeStation(list[0]))] + Encoded(list[1..])
    ensures AsStations(list) == [AsStation(list[0])] + AsStations(list[1..])
    ensures NextCmds(list) == [NextCmd(list[0].mac)] + NextCmds(list[1..])
  {
    MapHead(AsDatagram, list);
    MapHead(AsStation, list);
    MapHead(CmdAfter, list);
  }

  lemma {:induction false} HeadOfConcat<T>(x: T, rest: seq<T>, tail: seq<T>)
    ensures [x] + rest + tail == [x] + (rest + tail)
    ensures ([x] + rest + tail)[0] == x && ([x] + rest + tail)[1..] == rest + tail
  {
  }

  function Power10(k: nat): nat {
    if k == 0 then 1 else 10 * Power10(k - 1)
  }

  lemma {:induction false} DigitsAreFew(n: nat, k: nat)
    requires n < Power10(k) && k > 0
    ensures |Scan.Digits(n)| <= k
  {
    if n >= 10 {
      DigitsAreFew(n / 10, k - 1);
    }
  }

  lemma {:induction false} EncodedFits(s: StationResp)
    requires Mac.IsMAC(s.mac) && Scan.IsInt64(s.signal)
    ensures 17 < |EncodeStation(s)| <= 4096 && !("UNKNOWN COMMAND" <= EncodeStation(s))
  {
    var n := if s.signal < 0 then -s.signal else s.signal;
    assert Power10(5) == 100000;
    assert Power10(10) == 100000 * Power10(5);
    assert Power10(15) == 100000 * Power10(10);
    assert Power10(20) == 100000 * Power10(15);
    DigitsAreFew(n, 20);
    var e := EncodeStation(s);
    assert e[0] == s.mac[0] && Mac.FromHex(s.mac[0]).Some?;
    assert "UNKNOWN COMMAND"[0] == 'U' && Mac.FromHex('U').None?;
  }

  /** The reply is read as this station. */
  predicate Reads(reply: string, s: Station) {
    0 < |reply| <= BUFFER && !("UNKNOWN COMMAND" <= reply) && StationOf(reply) == Some(s)
  }

  predicate AllRead(replies: seq<string>, stations: seq<Station>) {
    |replies| == |stations| && forall i :: 0 <= i < |replies| ==> Reads(replies[i], stations[i])
  }

  function AsRead(reply: string): Read {
    Datagram(reply)
  }

  function AskAfter(s: Station): string {
    NextCmd(s.mac)
  }

  function Datagrams(replies: seq<string>): seq<Read> {
    Map(AsRead, replies)
  }

  function AsksAfter(stations: seq<Station>): seq<string> {
    Map(AskAfter, stations)
  }

  /** What ends a walk without an error: an empty reply, none, or that of a hostapd
      that does not know the command. */
  predicate EndsWalk(tail: seq<Read>) {
    |tail| == 0 || tail[0].ReadFails? || tail[0].data == "" || "UNKNOWN COMMAND" <= Fit(tail[0].data)
  }

  lemma {:induction false} WalkOnStep(mac: string, reply: string, s: Station, inbox: seq<Read>,
                                      rest: seq<Station>, cmds: seq<string>)
    requires Reads(reply, s) && |inbox| > 0 && inbox[0] == Datagram(reply)
    requires WalkOn(s.mac, inbox[1..]) == (Ok(rest), cmds)
    ensures WalkOn(mac, inbox) == (Ok([s] + rest), [NextCmd(mac)] + cmds)
    ensures Walk(inbox) == (Ok([s] + rest), [FIRST] + cmds)
  {
  }

  lemma {:induction false} RepliesThenTail(replies: seq<string>, tail: seq<Read>)
    requires |replies| > 0
    ensures var inbox := Datagrams(replies) + tail;
            |inbox| > 0 && inbox[0] == Datagram(replies[0]) && inbox[1..] == Datagrams(replies[1..]) + tail
  {
    MapHead(AsRead, replies);
    HeadOfConcat(Datagram(replies[0]), Datagrams(replies[1..]), tail);
  }

  lemma {:induction false} NothingWalked(mac: string, tail: seq<Read>)
    ensures WalkOn(mac, tail).0 == Ok([]) <==> EndsWalk(tail)
    ensures EndsWalk(tail) ==> WalkOn(mac, tail).1 == [NextCmd(mac)]
  {
  }

  lemma {:induction false} WalkOneReply(mac: string, replies: seq<string>, stations: seq<Station>, tail: seq<Read>,
                                        cmds: seq<string>)
    requires AllRead(replies, stations) && |replies| > 0
    requires WalkOn(stations[0].mac, Datagrams(replies[1..]) + tail) == (Ok(stations[1..]), cmds)
    ensures WalkOn(mac, Datagrams(replies) + tail) == (Ok(stations), [NextCmd(mac)] + cmds)
    ensures Walk(Datagrams(replies) + tail) == (Ok(stations), [FIRST] + cmds)
  {
    RepliesThenTail(replies, tail);
    WalkOnStep(mac, replies[0], stations[0], Datagrams(replies) + tail, stations[1..], cmds);
    assert [stations[0]] + stations[1..] == stations;
  }

  lemma {:induction false} NoReplies(mac: string, tail: seq<Read>)
    requires EndsWalk(tail)
    ensures WalkOn(mac, Datagrams([]) + tail) == (Ok([]), [NextCmd(mac)] + AsksAfter([]))
  {
    assert Datagrams([]) + tail == tail;
    assert [NextCmd(mac)] + AsksAfter([]) == [NextCmd(mac)];
    NothingWalked(mac, tail);
  }

  lemma {:induction false} AsksInOrder(s: Station, stations: seq<Station>)
    requires |stations| > 0 && stations[0] == s
    ensures AsksAfter(stations) == [NextCmd(s.mac)] + AsksAfter(stations[1..])
  {
    MapHead(AskAfter, stations);
  }

  lemma {:induction false} RestIsRead(replies: seq<string>, stations: seq<Station>)
    requires AllRead(replies, stations) && |replies| > 0
    ensures AllRead(replies[1..], stations[1..])
  {
  }

  lemma {:induction false} WalkOnReplies(mac: string, replies: seq<string>, stations: seq<Station>, tail: seq<Read>)
    requires AllRead(replies, stations) && EndsWalk(tail)
    ensures WalkOn(mac, Datagrams(replies) + tail) == (Ok(stations), [NextCmd(mac)] + AsksAfter(stations))
    decreases |replies|
  {
    if |replies| == 0 {
      assert replies == [] && stations == [];
      NoReplies(mac, tail);
    } else {
      var s := stations[0];
      RestIsRead(replies, stations);
      WalkOnReplies(s.mac, replies[1..], stations[1..], tail);
      AsksInOrder(s, stations);
      WalkOneReply(mac, replies, stations, tail, AsksAfter(stations));
    }
  }

  /** Replies that are read as stations, then an empty reply, a failed read or an unknown
      command: the walk returns these stations, in order, without an error, and sends one
      command more than there are. */
  lemma {:induction false} WalkReplies(replies: seq<string>, stations: seq<Station>, tail: seq<Read>)
    requires AllRead(replies, stations) && |replies| > 0 && EndsWalk(tail)
    ensures Walk(Datagrams(replies) + tail) == (Ok(stations), [FIRST] + AsksAfter(stations))
  {
    var s := stations[0];
    RestIsRead(replies, stations);
    WalkOnReplies(s.mac, replies[1..], stations[1..], tail);
    AsksInOrder(s, stations);
    WalkOneReply("", replies, stations, tail, AsksAfter(stations));
  }

  /** A STA-FIRST that is not answered, not known, or answered by something that does not
      parse makes the walk fail; an empty answer is an empty list. */
  lemma {:induction false} FirstCommandFails(inbox: seq<Read>)
    ensures |inbox| == 0 || inbox[0].ReadFails? ==> Walk(inbox) == (Err(NoReply), ["STA-FIRST"])
    ensures |inbox| > 0 && inbox[0].Datagram? ==>
              var data := Fit(inbox[0].data);
              && ("UNKNOWN COMMAND" <= data ==> Walk(inbox) == (Err(UnknownCommand("STA-FIRST")), ["STA-FIRST"]))
              && (!("UNKNOWN COMMAND" <= data) && |data| > 0 && StationOf(data).None? ==>
                    Walk(inbox) == (Err(BadReply), ["STA-FIRST"]))
              && (|data| == 0 ==> Walk(inbox) == (Ok([]), ["STA-FIRST"]))
  {
  }

  predicate IsBad(read: Read) {
    && read.Datagram? && |Fit(read.data)| > 0
    && !("UNKNOWN COMMAND" <= Fit(read.data)) && StationOf(Fit(read.data)).None?
  }

  lemma {:induction false} WalkOnBadReply(mac: string, replies: seq<string>, stations: seq<Station>, tail: seq<Read>)
    requires AllRead(replies, stations) && |tail| > 0 && IsBad(tail[0])
    ensures WalkOn(mac, Datagrams(replies) + tail).0 == Err(BadReply)
    decreases |replies|
  {
    if |replies| == 0 {
      assert Datagrams(replies) + tail == tail;
    } else {
      RepliesThenTail(replies, tail);
      WalkOnBadReply(stations[0].mac, replies[1..], stations[1..], tail);
    }
  }

  /** A reply that does not parse makes the whole walk fail, however many came before. */
  lemma {:induction false} BadReplyFailsTheWalk(replies: seq<string>, stations: seq<Station>, tail: seq<Read>)
    requires AllRead(replies, stations) && |tail| > 0 && IsBad(tail[0])
    ensures Walk(Datagrams(replies) + tail).0 == Err(BadReply)
  {
    if |replies| == 0 {
      assert Datagrams(replies) + tail == tail;
    } else {
      RepliesThenTail(replies, tail);
      WalkOnBadReply(stations[0].mac, replies[1..], stations[1..], tail);
    }
  }

  lemma {:induction false} EncodedIsRead(s: StationResp)
    requires Mac.IsMAC(s.mac) && Scan.IsInt64(s.signal)
    ensures Reads(EncodeStation(s), AsStation(s))
  {
    EncodedFits(s);
    StationRoundTrip(s);
  }

  /** The repository's replies for a list, and such an end: the walk returns the list. So a
      read that fails after k of n replies passes for the end of a list of k. */
  lemma {:induction false} WalkEncoded(list: seq<StationResp>, tail: seq<Read>)
    requires Sound(list) && |list| > 0 && EndsWalk(tail)
    ensures Walk(Encoded(list) + tail) == (Ok(AsStations(list)), [FIRST] + NextCmds(list))
  {
    var replies, stations := Map(EncodeStation, list), AsStations(list);
    forall i | 0 <= i < |list| ensures Reads(replies[i], stations[i]) {
      EncodedIsRead(list[i]);
    }
    assert Encoded(list) == Datagrams(replies);
    assert NextCmds(list) == AsksAfter(stations);
    WalkReplies(replies, stations, tail);
  }

  lemma {:induction false} FindSelf(list: seq<StationResp>, i: nat)
    requires DistinctMacs(list) && i < |list|
    ensures Find(list, list[i].mac) == i
  {
    var j := Find(list, list[i].mac);
    assert j <= i;
  }

  lemma {:induction false} AnswerToNext(list: seq<StationResp>, k: nat)
    requires DistinctMacs(list) && k < |list|
    ensures AnswerTo(list, NextCmd(list[k].mac)) == Shown(list, k + 1)
  {
    var cmd := NextCmd(list[k].mac);
    assert cmd[9..] == list[k].mac && cmd[4] == 'N' && FIRST[4] == 'F';
    FindSelf(list, k);
  }

  lemma {:induction false} AnswerToFirst(list: seq<StationResp>)
    ensures AnswerTo(list, FIRST) == Shown(list, 0)
  {
  }

  lemma {:induction false} AnswersOfHandler(list: seq<StationResp>, k: nat)
    requires DistinctMacs(list) && k <= |list|
    ensures AnswerTo(list, ([FIRST] + NextCmds(list))[k]) == Shown(list, k)
  {
    if k == 0 {
      AnswerToFirst(list);
    } else {
      var nexts := NextCmds(list);
      assert ([FIRST] + nexts)[k] == nexts[k - 1];
      AnswerToNext(list, k - 1);
    }
  }

  lemma {:induction false} EmptyWalk()
    ensures Walk([Datagram("")]) == (Ok([]), [FIRST])
  {
  }

  /** Against a fixed list with valid and pairwise distinct addresses: the replies
      that the handler gives to the commands of the walk are the list's, in order,
      then an empty one, and the walk returns exactly the list. */
  lemma {:induction false} WalkIsTheList(list: seq<StationResp>)
    requires Sound(list) && DistinctMacs(list)
    ensures Walk(Encoded(list) + [Datagram("")]) == (Ok(AsStations(list)), [FIRST] + NextCmds(list))
    ensures forall k :: 0 <= k <= |list| ==>
              AnswerTo(list, ([FIRST] + NextCmds(list))[k]) == Shown(list, k)
  {
    if |list| == 0 {
      assert Encoded(list) + [Datagram("")] == [Datagram("")] && AsStations(list) == [];
      assert [FIRST] + NextCmds(list) == [FIRST];
      EmptyWalk();
    } else {
      WalkEncoded(list, [Datagram("")]);
    }
    forall k | 0 <= k <= |list|
      ensures AnswerTo(list, ([FIRST] + NextCmds(list))[k]) == Shown(list, k)
    {
      AnswersOfHandler(list, k);
    }
  }

  // ----- when the walk ends -----

  /** The two ends of a walk: what the server answers, and the address that the client
      reads off a reply to ask after. */
  datatype Ends = Ends(answer: string -> string, address: string -> string)

  /** The k-th command of a walk, by the reply to the one before. */
  function CmdAt(ends: Ends, k: nat): string {
    if k == 0 then FIRST else NextCmd(ends.address(ends.answer(CmdAt(ends, k - 1))))
  }

  /** And the server's reply to it. */
  function ReplyAt(ends: Ends, k: nat): string {
    ends.answer(CmdAt(ends, k))
  }

  function Served(ends: Ends, n: nat): seq<Read> {
    seq(n, k requires 0 <= k < n => Datagram(ReplyAt(ends, k)))
  }

  function CmdsUpTo(ends: Ends, n: nat): seq<string> {
    seq(n, k requires 0 <= k < n => CmdAt(ends, k))
  }

  function MacOf(reply: string): string {
    match StationOf(reply)
    case None => ""
    case Some(s) => s.mac
  }

  /** The client with the repository's handler. */
  function Against(list: seq<StationResp>): Ends {
    Ends(cmd => AnswerTo(list, cmd), reply => MacOf(reply))
  }

  /** Where asking after a station leads; past the end it leads nowhere. */
  function Successor(list: seq<StationResp>, i: nat): (r: nat)
    requires i <= |list|
    ensures r <= |list|
  {
    if i == |list| then i else Find(list, list[i].mac) + 1
  }

  /** The position of the station in the handler's k-th reply; the length of the
      list once the replies are empty. */
  function Visited(list: seq<StationResp>, k: nat): (i: nat)
    ensures i <= |list|
  {
    if k == 0 then 0 else Successor(list, Visited(list, k - 1))
  }

  function VisitedStations(list: seq<StationResp>, n: nat): seq<StationResp>
    requires forall k :: 0 <= k < n ==> Visited(list, k) < |list|
  {
    seq(n, k requires 0 <= k < n => list[Visited(list, k)])
  }

  function MacOrEmpty(list: seq<StationResp>, i: nat): string {
    if i < |list| then list[i].mac else ""
  }

  /** A server that shows the stations of a list, found by their addresses. */
  ghost predicate Shows(ends: Ends, shown: nat -> string, list: seq<StationResp>) {
    && ends.answer(FIRST) == shown(0)
    && (forall i: nat {:trigger Successor(list, i)} :: i <= |list| ==>
          ends.answer(NextCmd(MacOrEmpty(list, i))) == shown(Successor(list, i)))
    && (forall i: nat {:trigger ends.address(shown(i))} :: i <= |list| ==>
          ends.address(shown(i)) == MacOrEmpty(list, i))
  }

  lemma {:induction false} VisitsOfServer(ends: Ends, shown: nat -> string, list: seq<StationResp>, k: nat)
    requires Shows(ends, shown, list)
    ensures ReplyAt(ends, k) == shown(Visited(list, k))
    ensures CmdAt(ends, k + 1) == NextCmd(MacOrEmpty(list, Visited(list, k)))
  {
    if k > 0 {
      var before := Visited(list, k - 1);
      VisitsOfServer(ends, shown, list, k - 1);
      assert ends.answer(NextCmd(MacOrEmpty(list, before))) == shown(Successor(list, before));
    }
    assert ends.address(shown(Visited(list, k))) == MacOrEmpty(list, Visited(list, k));
  }

  lemma {:induction false} AnswerAfter(list: seq<StationResp>, mac: string)
    ensures AnswerTo(list, NextCmd(mac)) == AfterMac(list, mac)
  {
    var cmd := NextCmd(mac);
    assert cmd[9..] == mac && cmd[4] == 'N' && FIRST[4] == 'F';
  }

  lemma {:induction false} NobodyIsNameless(list: seq<StationResp>)
    requires Sound(list)
    ensures Find(list, "") == |list|
  {
    var i := Find(list, "");
    assert i < |list| ==> Mac.IsMAC(list[i].mac);
  }

  lemma {:induction false} MacOfShown(list: seq<StationResp>, i: nat)
    requires Sound(list)
    ensures MacOf(Shown(list, i)) == if i < |list| then list[i].mac else ""
    ensures Shown(list, i) == "" <==> i >= |list|
  {
    if i < |list| {
      EncodedFits(list[i]);
      StationRoundTrip(list[i]);
    } else {
      assert StationOf("") == Some(NO_STATION);
    }
  }

  lemma {:induction false} ShownPastEnd(list: seq<StationResp>, i: nat)
    requires i >= |list|
    ensures Shown(list, i) == ""
  {
  }

  lemma {:induction false} AfterVisit(list: seq<StationResp>, i: nat)
    requires Sound(list) && i <= |list|
    ensures AfterMac(list, MacOrEmpty(list, i)) == Shown(list, Successor(list, i))
  {
    if i == |list| {
      NobodyIsNameless(list);
      ShownPastEnd(list, i);
      ShownPastEnd(list, i + 1);
    }
  }

  lemma {:induction false} AnswerToVisit(list: seq<StationResp>, i: nat)
    requires Sound(list) && i <= |list|
    ensures AnswerTo(list, NextCmd(MacOrEmpty(list, i))) == Shown(list, Successor(list, i))
  {
    AnswerAfter(list, MacOrEmpty(list, i));
    AfterVisit(list, i);
  }

  lemma {:induction false} HandlerShows(list: seq<StationResp>) returns (shown: nat -> string)
    requires Sound(list)
    ensures Shows(Against(list), shown, list)
    ensures forall i: nat :: shown(i) == Shown(list, i)
  {
    shown := (i: nat) => Shown(list, i);
    AnswerToFirst(list);
    forall i: nat | i <= |list|
      ensures Against(list).answer(NextCmd(MacOrEmpty(list, i))) == shown(Successor(list, i))
    {
      AnswerToVisit(list, i);
    }
    forall i: nat | i <= |list| ensures Against(list).address(shown(i)) == MacOrEmpty(list, i) {
      MacOfShown(list, i);
    }
  }

  /** The handler's replies are the stations that are visited, and empty after these;
      the client's commands ask after them. */
  lemma {:induction false} VisitsAreReplies(list: seq<StationResp>, k: nat)
    requires Sound(list)
    ensures ReplyAt(Against(list), k) == Shown(list, Visited(list, k))
    ensures ReplyAt(Against(list), k) == "" <==> Visited(list, k) == |list|
    ensures CmdAt(Against(list), k + 1) == NextCmd(MacOrEmpty(list, Visited(list, k)))
  {
    var shown := HandlerShows(list);
    VisitsOfServer(Against(list), shown, list, k);
    MacOfShown(list, Visited(list, k));
    assert shown(Visited(list, k)) == Shown(list, Visited(list, k));
  }

  lemma {:induction false} HeadAndTail<T>(all: seq<T>, head: T, tail: seq<T>)
    requires |all| > 0 && all[0] == head && |all[1..]| == |tail|
    requires forall k :: 0 <= k < |tail| ==> all[1..][k] == tail[k]
    ensures all == [head] + tail
  {
    assert all[1..] == tail;
    assert all == [all[0]] + all[1..];
  }

  lemma {:induction false} CommandsOfVisits(list: seq<StationResp>, n: nat)
    requires Sound(list) && forall k :: 0 <= k < n ==> Visited(list, k) < |list|
    ensures CmdsUpTo(Against(list), n + 1) == [FIRST] + NextCmds(VisitedStations(list, n))
  {
    var cmds, nexts := CmdsUpTo(Against(list), n + 1), NextCmds(VisitedStations(list, n));
    forall k | 0 <= k < n ensures cmds[1..][k] == nexts[k] {
      VisitsAreReplies(list, k);
    }
    HeadAndTail(cmds, FIRST, nexts);
  }

  lemma {:induction false} ServedVisits(list: seq<StationResp>, n: nat)
    requires Sound(list) && forall k :: 0 <= k < n ==> Visited(list, k) < |list|
    ensures Served(Against(list), n) == Encoded(VisitedStations(list, n)) && Sound(VisitedStations(list, n))
  {
    var served, encoded := Served(Against(list), n), Encoded(VisitedStations(list, n));
    forall k | 0 <= k < n ensures served[k] == encoded[k] {
      VisitsAreReplies(list, k);
    }
  }

  /** As long as the handler has replied with stations, the walk has read all of these
      replies and asks for one more, with the command that the handler would answer next. */
  lemma {:induction false} WalkGoesOn(list: seq<StationResp>, n: nat)
    requires Sound(list) && n > 0
    requires forall k :: 0 <= k < n ==> ReplyAt(Against(list), k) != ""
    ensures forall k :: 0 <= k < n ==> Visited(list, k) < |list|
    ensures Walk(Served(Against(list), n)) == (Ok(AsStations(VisitedStations(list, n))), CmdsUpTo(Against(list), n + 1))
  {
    forall k | 0 <= k < n ensures Visited(list, k) < |list| {
      assert ReplyAt(Against(list), k) != "";
      VisitsAreReplies(list, k);
    }
    ServedVisits(list, n);
    CommandsOfVisits(list, n);
    WalkEncoded(VisitedStations(list, n), []);
    assert Served(Against(list), n) + [] == Served(Against(list), n);
  }

  lemma {:induction false} VisitsInOrder(list: seq<StationResp>, k: nat)
    requires DistinctMacs(list) && k <= |list|
    ensures Visited(list, k) == k
  {
    if k > 0 {
      VisitsInOrder(list, k - 1);
      FindSelf(list, k - 1);
    }
  }

  lemma {:induction false} NeverPassesRepetition(list: seq<StationResp>, i: nat, j: nat, k: nat)
    requires i < j < |list| && list[i].mac == list[j].mac
    ensures Visited(list, k) <= j
  {
    if k > 0 {
      NeverPassesRepetition(list, i, j, k - 1);
      var v := Visited(list, k - 1);
      assert Find(list, list[v].mac) <= v;
      if v == j {
        assert Find(list, list[j].mac) <= i;
      }
    }
  }

  lemma {:induction false} RepetitionNeverEmpty(list: seq<StationResp>, k: nat)
    requires Sound(list) && !DistinctMacs(list)
    ensures ReplyAt(Against(list), k) != ""
  {
    var i, j :| 0 <= i < j < |list| && list[i].mac == list[j].mac;
    NeverPassesRepetition(list, i, j, k);
    VisitsAreReplies(list, k);
  }

  /** The conversation comes to an empty reply, which ends the walk, exactly when no
      address occurs twice. */
  lemma {:induction false} WalkEndsExactlyWithoutRepetition(list: seq<StationResp>)
    requires Sound(list)
    ensures DistinctMacs(list) <==> exists k: nat :: ReplyAt(Against(list), k) == ""
  {
    if DistinctMacs(list) {
      VisitsInOrder(list, |list|);
      VisitsAreReplies(list, |list|);
      assert ReplyAt(Against(list), |list|) == "";
    } else {
      forall k: nat ensures ReplyAt(Against(list), k) != "" {
        RepetitionNeverEmpty(list, k);
      }
    }
  }

  /** With a repeated address the walk goes on for ever: however many replies have come,
      it sends one command more, and only stations keep coming. */
  lemma {:induction false} RepetitionIsWalkedForEver(list: seq<StationResp>, n: nat)
    requires Sound(list) && !DistinctMacs(list)
    ensures forall k :: 0 <= k <= n ==> ReplyAt(Against(list), k) != ""
    ensures var (stations, cmds) := Walk(Served(Against(list), n));
            && cmds == CmdsUpTo(Against(list), n + 1)
            && (n > 0 ==> stations.Ok? && |stations.value| == n)
  {
    forall k | 0 <= k <= n ensures ReplyAt(Against(list), k) != "" {
      RepetitionNeverEmpty(list, k);
    }
    if n > 0 {
      WalkGoesOn(list, n);
    } else {
      assert CmdsUpTo(Against(list), 1) == [FIRST];
    }
  }

  /** Without one, the conversation is as long as the list, and one empty reply. */
  lemma {:induction false} ServedIsTheList(list: seq<StationResp>)
    requires Sound(list) && DistinctMacs(list)
    ensures Served(Against(list), |list| + 1) == Encoded(list) + [Datagram("")]
  {
    forall k | 0 <= k <= |list| ensures ReplyAt(Against(list), k) == Shown(list, k) {
      VisitsInOrder(list, k);
      VisitsAreReplies(list, k);
    }
  }
}
