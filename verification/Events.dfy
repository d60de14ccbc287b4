/** The unsolicited messages of hostapd. */
module Events {
  import opened Wrappers
  import opened Scan
  import Mac

  datatype Event =
    | StationConnect(raw: string, mac: string)
    | StationDisconnect(raw: string, mac: string)
    | Terminating(raw: string)
    | Unrecognized(raw: string)

  const CONNECTED := "AP-STA-CONNECTED"
  const DISCONNECTED := "AP-STA-DISCONNECTED"
  const TERMINATING := "CTRL-EVENT-TERMINATING"

  const MAC_LENGTH := 17

  /** The message without a priority in front, such as <3>. */
  function StripPriority(msg: string): string {
    if |msg| >= 3 && msg[0] == '<' && msg[2] == '>' then msg[3..] else msg
  }

  /** The event of a message; None for a reported error. */
  function ParseEvent(raw: string): Option<Event> {
    if |raw| == 0 then None
    else
      var msg := StripPriority(raw);
      if CONNECTED <= msg then
        var rest := TrimSpace(msg[|CONNECTED|..]);
        var mac := if |rest| > MAC_LENGTH then rest[..MAC_LENGTH] else rest;
        if Mac.IsMAC(mac) then Some(StationConnect(raw, mac)) else None
      else if DISCONNECTED <= msg then
        var mac := TrimSpace(msg[|DISCONNECTED|..]);
        if Mac.IsMAC(mac) then Some(StationDisconnect(raw, mac)) else None
      else if msg == TERMINATING then Some(Terminating(raw))
      else Some(Unrecognized(raw))
  }

  /** No event that the parser lets through can fail to decode in the daemon. */
  lemma {:induction false} EventAddressesDecode(raw: string)
    requires ParseEvent(raw).Some?
    ensures var e := ParseEvent(raw).value;
            e.raw == raw && (e.StationConnect? || e.StationDisconnect? ==> Mac.Decode(e.mac).Some?)
  {
    var e := ParseEvent(raw).value;
    if e.StationConnect? || e.StationDisconnect? {
      Mac.TextOfDecoded(e.mac);
    }
  }

  lemma {:induction false} TrimRightKeeps(v: string, tail: string)
    requires Mac.IsMAC(v)
    ensures v <= TrimRight(v + tail) && (|tail| == 0 ==> TrimRight(v + tail) == v)
    decreases |tail|
  {
    var s := v + tail;
    if |tail| == 0 {
      assert s == v && !IsSpace(v[16]);
    } else if IsSpace(s[|s| - 1]) {
      assert s[..|s| - 1] == v + tail[..|tail| - 1];
      TrimRightKeeps(v, tail[..|tail| - 1]);
    }
  }

  lemma {:induction false} TrimOfMac(v: string, tail: string)
    requires Mac.IsMAC(v) && (|tail| > 0 ==> IsSpace(tail[0]))
    ensures v <= TrimSpace(" " + v + tail)
    ensures |tail| == 0 ==> TrimSpace(" " + v + tail) == v
  {
    var s := " " + v + tail;
    assert s[1..] == v + tail;
    assert !IsSpace(v[0]);
    assert TrimLeft(v + tail) == v + tail;
    TrimRightKeeps(v, tail);
  }

  lemma {:induction false} PriorityIsStripped(level: char, msg: string)
    ensures StripPriority(['<', level, '>'] + msg) == msg
  {
  }

  lemma {:induction false} ConnectIsRecognised(raw: string, v: string, tail: string)
    requires Mac.IsMAC(v) && (|tail| > 0 ==> IsSpace(tail[0]))
    requires |raw| > 0 && StripPriority(raw) == CONNECTED + (" " + v + tail)
    ensures ParseEvent(raw) == Some(StationConnect(raw, v))
  {
    var msg := StripPriority(raw);
    assert msg[|CONNECTED|..] == " " + v + tail;
    TrimOfMac(v, tail);
    var t := TrimSpace(" " + v + tail);
    assert (if |t| > MAC_LENGTH then t[..MAC_LENGTH] else t) == v;
  }

  lemma {:induction false} DisconnectIsRecognised(raw: string, v: string)
    requires Mac.IsMAC(v)
    requires |raw| > 0 && StripPriority(raw) == DISCONNECTED + (" " + v)
    ensures ParseEvent(raw) == Some(StationDisconnect(raw, v))
  {
    var msg := StripPriority(raw);
    assert msg[|DISCONNECTED|..] == " " + v + "";
    assert msg[7] == 'D' && CONNECTED[7] == 'C';
    TrimOfMac(v, "");
  }

  /** The messages that announce a station, with or without a priority, are
      recognised for every address; on a connect, data after the address is ignored. */
  lemma {:induction false} AnnouncementsAreRecognised(v: string, tail: string, level: char)
    requires Mac.IsMAC(v) && (|tail| > 0 ==> IsSpace(tail[0]))
    ensures var joined := CONNECTED + (" " + v + tail);
            && ParseEvent(joined) == Some(StationConnect(joined, v))
            && ParseEvent(['<', level, '>'] + joined) == Some(StationConnect(['<', level, '>'] + joined, v))
    ensures var left := DISCONNECTED + (" " + v);
            && ParseEvent(left) == Some(StationDisconnect(left, v))
            && ParseEvent(['<', level, '>'] + left) == Some(StationDisconnect(['<', level, '>'] + left, v))
  {
    var joined, left, priority := CONNECTED + (" " + v + tail), DISCONNECTED + (" " + v), ['<', level, '>'];
    PriorityIsStripped(level, joined);
    PriorityIsStripped(level, left);
    assert joined[0] == 'A' && left[0] == 'A';
    ConnectIsRecognised(joined, v, tail);
    ConnectIsRecognised(priority + joined, v, tail);
    DisconnectIsRecognised(left, v);
    DisconnectIsRecognised(priority + left, v);
  }

  /** A message without a priority has nothing to strip. */
  lemma {:induction false} NothingToStrip(msg: string)
    requires |msg| > 0 && msg[0] != '<'
    ensures StripPriority(msg) == msg
  {
  }

  /** What is announced, with and without a priority. */
  lemma {:induction false} TerminatingIsRecognised(level: char)
    ensures var (plain, raw) := ("CTRL-EVENT-TERMINATING", ['<', level, '>'] + "CTRL-EVENT-TERMINATING");
            ParseEvent(plain) == Some(Terminating(plain)) && ParseEvent(raw) == Some(Terminating(raw))
  {
    NothingToStrip(TERMINATING);
    PriorityIsStripped(level, TERMINATING);
    assert TERMINATING[0] == 'C' && CONNECTED[0] == 'A' && DISCONNECTED[0] == 'A';
  }

  /** And nothing else: every message is of exactly one kind, by its text without the
      priority. Only a message that is empty or an announcement can be refused. */
  lemma {:induction false} KindOfMessage(raw: string)
    requires |raw| > 0
    ensures var (msg, e) := (StripPriority(raw), ParseEvent(raw));
            && (msg == "CTRL-EVENT-TERMINATING" <==> e == Some(Terminating(raw)))
            && (!("AP-STA-CONNECTED" <= msg) && !("AP-STA-DISCONNECTED" <= msg) && msg != "CTRL-EVENT-TERMINATING" <==>
                e == Some(Unrecognized(raw)))
            && (e.Some? && e.value.StationConnect? ==> "AP-STA-CONNECTED" <= msg)
            && (e.Some? && e.value.StationDisconnect? ==> "AP-STA-DISCONNECTED" <= msg)
  {
    assert CONNECTED[0] == 'A' && DISCONNECTED[0] == 'A' && TERMINATING[0] == 'C';
  }

  /** An announcement is refused if what follows is no address: on a connect its first 17
      characters, on a disconnect all of it, so there not even further data. */
  lemma {:induction false} DisconnectWithDataIsRefused(v: string, tail: string)
    requires Mac.IsMAC(v) && |tail| > 0 && !IsSpace(tail[|tail| - 1])
    ensures ParseEvent("AP-STA-DISCONNECTED" + (" " + (v + tail))).None?
  {
    var msg := DISCONNECTED + (" " + (v + tail));
    assert msg[0] == 'A' && msg[7] == 'D' && CONNECTED[7] == 'C';
    NothingToStrip(msg);
    var t := v + tail;
    assert !IsSpace(v[0]) && t[0] == v[0] && t[|t| - 1] == tail[|tail| - 1];
    TrimSpaceOf(" ", t, "");
    assert msg[|DISCONNECTED|..] == " " + t + "";
  }

  lemma {:induction false} BadAddressIsRefused(v: string)
    requires |v| == 17 && !Mac.IsMAC(v) && !IsSpace(v[0]) && !IsSpace(v[16])
    ensures ParseEvent("AP-STA-CONNECTED" + (" " + v)).None?
    ensures ParseEvent("AP-STA-DISCONNECTED" + (" " + v)).None?
    ensures ParseEvent("").None?
  {
    var joined, left := CONNECTED + (" " + v), DISCONNECTED + (" " + v);
    assert joined[0] == 'A' && left[0] == 'A' && left[7] == 'D' && CONNECTED[7] == 'C';
    NothingToStrip(joined);
    NothingToStrip(left);
    TrimSpaceOf(" ", v, "");
    assert joined[|CONNECTED|..] == " " + v + "" && left[|DISCONNECTED|..] == " " + v + "";
  }
}
