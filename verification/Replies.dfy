/** The replies to STATUS, STA-FIRST and STA-NEXT: the parsers of the client and
    the encoders of the repository's own hostapd. */
module Replies {
  import opened Wrappers
  import opened Scan
  import Mac
  import Ssid

  // ----- STATUS -----

  datatype Status = Status(state: string, channel: int, maxTxPower: int, ssid: string, bssid: string)

  const NO_STATUS := Status("", 0, 0, "", "")

  function StatusField(s: Status, key: string, val: string): Option<Status> {
    if key == "state" then Some(s.(state := val))
    else if key == "channel" then
      match Atoi(val) { case None => None case Some(n) => Some(s.(channel := n)) }
    else if key == "max_txpower" then
      match Atoi(val) { case None => None case Some(n) => Some(s.(maxTxPower := n)) }
    else if key == "ssid[0]" then
      match Ssid.Decode(val) { case None => None case Some(t) => Some(s.(ssid := t)) }
    else if key == "bssid[0]" then Some(s.(bssid := val))
    else Some(s)
  }

  /** What a line does to the status; None for a reported error. Unknown keys are
      skipped. */
  function StatusLine(s: Status, line: string): Option<Status> {
    match Cut(line)
    case None => None
    case Some((key, val)) => StatusField(s, key, val)
  }

  function StatusOf(s: Status, p: string): Option<Status>
    decreases |p|
  {
    if |p| == 0 then Some(s)
    else
      var (line, rest) := ScanLine(p);
      match StatusLine(s, line)
      case None => None
      case Some(t) => StatusOf(t, rest)
  }

  method ParseStatus(p: string) returns (r: Option<Status>)
    ensures r == StatusOf(NO_STATUS, p)
  {
    var s, rest := NO_STATUS, p;
    while |rest| > 0
      invariant StatusOf(NO_STATUS, p) == StatusOf(s, rest)
      decreases |rest|
    {
      var (line, tail) := ScanLine(rest);
      var pair := Cut(line);
      if pair.None? {
        return None;
      }
      var (key, val) := pair.value;
      match key {
        case "state" =>
          s := s.(state := val);
        case "channel" =>
          var n := Atoi(val);
          if n.None? { return None; }
          s := s.(channel := n.value);
        case "max_txpower" =>
          var n := Atoi(val);
          if n.None? { return None; }
          s := s.(maxTxPower := n.value);
        case "ssid[0]" =>
          var t := Ssid.DecodeSSID(val);
          if t.None? { return None; }
          s := s.(ssid := t.value);
        case "bssid[0]" =>
          s := s.(bssid := val);
        case _ =>
      }
      rest := tail;
    }
    r := Some(s);
  }

  /** The text after a key of the encoder. */
  function Pair(key: string, val: string): string {
    key + "=" + val
  }

  /** The reply of the repository's hostapd, which writes the SSID as it is given. */
  function EncodeStatus(s: Status): string {
    Pair("state", s.state) + "\n" + (
      Pair("channel", Itoa(s.channel)) + "\n" + (
        Pair("max_txpower", Itoa(s.maxTxPower)) + "\n" + (
          Pair("ssid[0]", s.ssid) + "\n" + (
            Pair("bssid[0]", s.bssid) + "\n" + ""))))
  }

  /** A status as a real hostapd writes it, with its SSID escaped. */
  function Escaped(s: Status): Status
    requires Ssid.IsBytes(s.ssid)
  {
    s.(ssid := Ssid.PrintfEncode(s.ssid))
  }

  lemma {:induction false} StatusStartsWithState(s: Status)
    ensures |EncodeStatus(s)| > 0 && EncodeStatus(s)[0] == 's'
  {
    var rest := EncodeStatus(s)[|Pair("state", s.state)|..];
    assert EncodeStatus(s) == Pair("state", s.state) + rest;
    assert Pair("state", s.state)[0] == 's';
  }

  lemma {:induction false} PairIsLine(key: string, val: string)
    requires IsLine(key) && IsLine(val)
    ensures IsLine(Pair(key, val))
  {
    var line := Pair(key, val);
    assert |val| > 0 ==> line[|line| - 1] == val[|val| - 1];
  }

  lemma {:induction false} StatusPair(s: Status, key: string, val: string, rest: string)
    requires IsLine(key) && '=' !in key && IsLine(val)
    ensures StatusOf(s, Pair(key, val) + "\n" + rest) ==
            match StatusField(s, key, val) { case None => None case Some(t) => StatusOf(t, rest) }
  {
    PairIsLine(key, val);
    ScanWholeLine(Pair(key, val), rest);
    CutPair(key, val);
  }

  lemma {:induction false} EncodedSsidIsLine(s: string)
    requires Ssid.IsBytes(s)
    ensures IsLine(Ssid.PrintfEncode(s))
  {
    Ssid.EncodedIsPrintable(s);
    var e := Ssid.PrintfEncode(s);
    assert forall i :: 0 <= i < |e| ==> e[i] != '\n' && e[i] != '\r';
  }

  lemma {:induction false} ChannelLine(s: Status, n: int, rest: string)
    requires IsInt64(n)
    ensures StatusOf(s, Pair("channel", Itoa(n)) + "\n" + rest) == StatusOf(s.(channel := n), rest)
  {
    ItoaIsLine(n);
    AtoiOfItoa(n);
    StatusPair(s, "channel", Itoa(n), rest);
  }

  lemma {:induction false} MaxTxPowerField(s: Status, val: string)
    ensures StatusField(s, "max_txpower", val) ==
            match Atoi(val) { case None => None case Some(n) => Some(s.(maxTxPower := n)) }
  {
    var key := "max_txpower";
    assert |key| == 11 && |"state"| == 5 && |"channel"| == 7;
  }

  lemma {:induction false} MaxTxPowerKey()
    ensures IsLine("max_txpower") && '=' !in "max_txpower"
  {
  }

  lemma {:induction false} MaxTxPowerLine(s: Status, n: int, rest: string)
    requires IsInt64(n)
    ensures StatusOf(s, Pair("max_txpower", Itoa(n)) + "\n" + rest) == StatusOf(s.(maxTxPower := n), rest)
  {
    ItoaIsLine(n);
    AtoiOfItoa(n);
    MaxTxPowerKey();
    MaxTxPowerField(s, Itoa(n));
    StatusPair(s, "max_txpower", Itoa(n), rest);
  }

  lemma {:induction false} SsidLine(s: Status, ssid: string, rest: string)
    requires IsLine(ssid)
    ensures StatusOf(s, Pair("ssid[0]", ssid) + "\n" + rest) ==
            match Ssid.Decode(ssid) { case None => None case Some(t) => StatusOf(s.(ssid := t), rest) }
  {
    StatusPair(s, "ssid[0]", ssid, rest);
  }

  lemma {:induction false} StateLine(s: Status, state: string, rest: string)
    requires IsLine(state)
    ensures StatusOf(s, Pair("state", state) + "\n" + rest) == StatusOf(s.(state := state), rest)
  {
    StatusPair(s, "state", state, rest);
  }

  lemma {:induction false} BssidLine(s: Status, bssid: string, rest: string)
    requires IsLine(bssid)
    ensures StatusOf(s, Pair("bssid[0]", bssid) + "\n" + rest) == StatusOf(s.(bssid := bssid), rest)
  {
    StatusPair(s, "bssid[0]", bssid, rest);
  }

  /** Parsing a STATUS reply: any 64-bit numbers and texts that fit in a line come back
      as they are, and the SSID is decoded. */
  lemma {:induction false} StatusOfEncoded(s: Status)
    requires IsInt64(s.channel) && IsInt64(s.maxTxPower)
    requires IsLine(s.state) && IsLine(s.ssid) && IsLine(s.bssid)
    ensures StatusOf(NO_STATUS, EncodeStatus(s)) ==
            match Ssid.Decode(s.ssid) { case None => None case Some(t) => Some(s.(ssid := t)) }
  {
    var r4 := Pair("bssid[0]", s.bssid) + "\n" + "";
    var r3 := Pair("ssid[0]", s.ssid) + "\n" + r4;
    var r2 := Pair("max_txpower", Itoa(s.maxTxPower)) + "\n" + r3;
    var r1 := Pair("channel", Itoa(s.channel)) + "\n" + r2;
    var s1 := NO_STATUS.(state := s.state);
    var s2 := s1.(channel := s.channel);
    var s3 := s2.(maxTxPower := s.maxTxPower);
    StateLine(NO_STATUS, s.state, r1);
    ChannelLine(s1, s.channel, r2);
    MaxTxPowerLine(s2, s.maxTxPower, r3);
    SsidLine(s3, s.ssid, r4);
    if Ssid.Decode(s.ssid).Some? {
      BssidLine(s3.(ssid := Ssid.Decode(s.ssid).value), s.bssid, "");
    }
  }

  /** With the SSID escaped all five fields come back, whatever bytes it has. */
  lemma {:induction false} StatusRoundTrip(s: Status)
    requires Ssid.IsBytes(s.ssid) && IsInt64(s.channel) && IsInt64(s.maxTxPower)
    requires IsLine(s.state) && IsLine(s.bssid)
    ensures StatusOf(NO_STATUS, EncodeStatus(Escaped(s))) == Some(s)
  {
    EncodedSsidIsLine(s.ssid);
    Ssid.RoundTrip(s.ssid);
    StatusOfEncoded(Escaped(s));
    assert Escaped(s).(ssid := s.ssid) == s;
  }

  // ----- STA-FIRST and STA-NEXT -----

  /** Durations are 64-bit numbers of nanoseconds. */
  datatype Station = Station(mac: string, associated: bool, rxBytes: int, txBytes: int,
                             connected: int, inactive: int, signal: int)

  const NO_STATION := Station("", false, 0, 0, 0, 0, 0)

  const SECOND := 1_000_000_000
  const MILLISECOND := 1_000_000

  function StationField(s: Station, key: string, val: string): Option<Station> {
    if key == "flags" then Some(s.(associated := Contains(val, "[ASSOC]")))
    else if key == "rx_bytes" then
      match Atoi(val) { case None => None case Some(n) => Some(s.(rxBytes := n)) }
    else if key == "tx_bytes" then
      match Atoi(val) { case None => None case Some(n) => Some(s.(txBytes := n)) }
    else if key == "connected_time" then
      match Atoi(val) { case None => None case Some(n) => Some(s.(connected := Wrap64(SECOND * n))) }
    else if key == "inactive_msec" then
      match Atoi(val) { case None => None case Some(n) => Some(s.(inactive := Wrap64(MILLISECOND * n))) }
    else if key == "signal" then
      match Atoi(val) { case None => None case Some(n) => Some(s.(signal := n)) }
    else Some(s)
  }

  function StationLine(s: Station, line: string): Option<Station> {
    match Cut(line)
    case None => None
    case Some((key, val)) => StationField(s, key, val)
  }

  function StationLines(s: Station, p: string): Option<Station>
    decreases |p|
  {
    if |p| == 0 then Some(s)
    else
      var (line, rest) := ScanLine(p);
      match StationLine(s, line)
      case None => None
      case Some(t) => StationLines(t, rest)
  }

  /** The first line is the address, the others are pairs. */
  function StationOf(p: string): Option<Station> {
    if p == "FAIL\n" then None
    else if |p| == 0 then Some(NO_STATION)
    else
      var (line, rest) := ScanLine(p);
      if Mac.IsMAC(line) then StationLines(NO_STATION.(mac := line), rest) else None
  }

  method ParseStation(p: string) returns (r: Option<Station>)
    ensures r == StationOf(p)
  {
    if p == "FAIL\n" {
      return None;
    }
    var s, rest, i := NO_STATION, p, 0;
    while |rest| > 0
      invariant i == 0 ==> s == NO_STATION && rest == p
      invariant i > 0 ==> StationOf(p) == StationLines(s, rest)
      invariant i >= 0
      decreases |rest|
    {
      var (line, tail) := ScanLine(rest);
      rest := tail;
      i := i + 1;
      if i == 1 {
        if !Mac.IsMAC(line) {
          return None;
        }
        s := s.(mac := line);
        continue;
      }
      var pair := Cut(line);
      if pair.None? {
        return None;
      }
      var (key, val) := pair.value;
      match key {
        case "flags" =>
          s := s.(associated := Contains(val, "[ASSOC]"));
        case "rx_bytes" =>
          var n := Atoi(val);
          if n.None? { return None; }
          s := s.(rxBytes := n.value);
        case "tx_bytes" =>
          var n := Atoi(val);
          if n.None? { return None; }
          s := s.(txBytes := n.value);
        case "connected_time" =>
          var n := Atoi(val);
          if n.None? { return None; }
          s := s.(connected := Wrap64(SECOND * n.value));
        case "inactive_msec" =>
          var n := Atoi(val);
          if n.None? { return None; }
          s := s.(inactive := Wrap64(MILLISECOND * n.value));
        case "signal" =>
          var n := Atoi(val);
          if n.None? { return None; }
          s := s.(signal := n.value);
        case _ =>
      }
    }
    r := Some(s);
  }

  datatype StationResp = StationResp(mac: string, assoc: bool, signal: int)

  function EncodeStation(s: StationResp): string {
    s.mac + "\n" + (
      (if s.assoc then Pair("flags", "[ASSOC]") + "\n" else "") + Pair("signal", Itoa(s.signal)))
  }

  /** What the client makes of a reply. */
  function AsStation(s: StationResp): Station {
    NO_STATION.(mac := s.mac, associated := s.assoc, signal := s.signal)
  }

  lemma {:induction false} StationPair(s: Station, key: string, val: string, rest: string)
    requires IsLine(key) && '=' !in key && IsLine(val)
    ensures StationLines(s, Pair(key, val) + "\n" + rest) ==
            match StationField(s, key, val) { case None => None case Some(t) => StationLines(t, rest) }
    ensures StationLines(s, Pair(key, val)) == StationField(s, key, val)
  {
    PairIsLine(key, val);
    ScanWholeLine(Pair(key, val), rest);
    ScanLastLine(Pair(key, val));
    CutPair(key, val);
  }

  lemma {:induction false} MacIsLine(v: string)
    requires Mac.IsMAC(v)
    ensures IsLine(v)
  {
    forall i | 0 <= i < |v| ensures v[i] != '\n' && v[i] != '\r' {
    }
  }

  lemma {:induction false} SignalLine(s: Station, n: int)
    requires IsInt64(n)
    ensures StationLines(s, Pair("signal", Itoa(n))) == Some(s.(signal := n))
  {
    ItoaIsLine(n);
    AtoiOfItoa(n);
    StationPair(s, "signal", Itoa(n), "");
  }

  lemma {:induction false} FlagsLine(s: Station, rest: string)
    ensures StationLines(s, Pair("flags", "[ASSOC]") + "\n" + rest) == StationLines(s.(associated := true), rest)
  {
    StationPair(s, "flags", "[ASSOC]", rest);
  }

  lemma {:induction false} FirstLine(v: string, rest: string)
    requires Mac.IsMAC(v)
    ensures StationOf(v + "\n" + rest) == StationLines(NO_STATION.(mac := v), rest)
  {
    MacIsLine(v);
    ScanWholeLine(v, rest);
    assert |v + "\n" + rest| > 5;
  }

  /** Parsing a station reply gives back address, association and signal, for every
      valid address and every 64-bit signal. */
  lemma {:induction false} StationRoundTrip(s: StationResp)
    requires Mac.IsMAC(s.mac) && IsInt64(s.signal)
    ensures StationOf(EncodeStation(s)) == Some(AsStation(s))
  {
    var signal := Pair("signal", Itoa(s.signal));
    var s0 := NO_STATION.(mac := s.mac);
    if s.assoc {
      FirstLine(s.mac, Pair("flags", "[ASSOC]") + "\n" + signal);
      FlagsLine(s0, signal);
    } else {
      assert "" + signal == signal;
      FirstLine(s.mac, signal);
    }
    SignalLine(s0.(associated := s.assoc), s.signal);
  }

  // ----- the replies of a full hostapd -----

  /** A line of a station's reply, with the numbers as they are printed. */
  datatype Item =
    | Flags(text: string)
    | RxBytes(n: int)
    | TxBytes(n: int)
    | ConnectedTime(seconds: int)
    | InactiveMsec(msec: int)
    | SignalIs(dbm: int)
    | Other(key: string, val: string)

  function KeyOf(item: Item): string {
    match item
    case Flags(_) => "flags"
    case RxBytes(_) => "rx_bytes"
    case TxBytes(_) => "tx_bytes"
    case ConnectedTime(_) => "connected_time"
    case InactiveMsec(_) => "inactive_msec"
    case SignalIs(_) => "signal"
    case Other(key, _) => key
  }

  function ValOf(item: Item): string {
    match item
    case Flags(text) => text
    case RxBytes(n) => Itoa(n)
    case TxBytes(n) => Itoa(n)
    case ConnectedTime(n) => Itoa(n)
    case InactiveMsec(n) => Itoa(n)
    case SignalIs(n) => Itoa(n)
    case Other(_, val) => val
  }

  function PrintItem(item: Item): string {
    Pair(KeyOf(item), ValOf(item))
  }

  function PrintItems(items: seq<Item>): string {
    if |items| == 0 then "" else PrintItem(items[0]) + "\n" + PrintItems(items[1..])
  }

  function PrintStation(mac: string, items: seq<Item>): string {
    mac + "\n" + PrintItems(items)
  }

  predicate Printable(item: Item) {
    match item
    case Flags(text) => IsLine(text)
    case RxBytes(n) => IsInt64(n)
    case TxBytes(n) => IsInt64(n)
    case ConnectedTime(n) => IsInt64(n)
    case InactiveMsec(n) => IsInt64(n)
    case SignalIs(n) => IsInt64(n)
    case Other(key, val) =>
      && key !in {"flags", "rx_bytes", "tx_bytes", "connected_time", "inactive_msec", "signal"}
      && '=' !in key && IsLine(key) && IsLine(val)
  }

  predicate AllPrintable(items: seq<Item>) {
    forall i :: 0 <= i < |items| ==> Printable(items[i])
  }

  /** A duration in nanoseconds, of so many units; beyond 64 bits its low bits. */
  predicate IsDuration(d: int, units: int, unit: int) {
    && IsInt64(d) && (d - unit * units) % 0x1_0000_0000_0000_0000 == 0
    && (IsInt64(unit * units) ==> d == unit * units)
  }

  /** The station shows what the line says. */
  predicate Shows(item: Item, s: Station) {
    match item
    case Flags(text) => s.associated <==> exists i :: 0 <= i <= |text| && "[ASSOC]" <= text[i..]
    case RxBytes(n) => s.rxBytes == n
    case TxBytes(n) => s.txBytes == n
    case ConnectedTime(n) => IsDuration(s.connected, n, 1_000_000_000)
    case InactiveMsec(n) => IsDuration(s.inactive, n, 1_000_000)
    case SignalIs(n) => s.signal == n
    case Other(_, _) => true
  }

  predicate SameKind(a: Item, b: Item) {
    match a
    case Flags(_) => b.Flags?
    case RxBytes(_) => b.RxBytes?
    case TxBytes(_) => b.TxBytes?
    case ConnectedTime(_) => b.ConnectedTime?
    case InactiveMsec(_) => b.InactiveMsec?
    case SignalIs(_) => b.SignalIs?
    case Other(_, _) => b.Other?
  }

  /** The two stations differ at most in what the line is about. */
  predicate OnlyAbout(item: Item, s: Station, t: Station) {
    match item
    case Flags(_) => t == s.(associated := t.associated)
    case RxBytes(_) => t == s.(rxBytes := t.rxBytes)
    case TxBytes(_) => t == s.(txBytes := t.txBytes)
    case ConnectedTime(_) => t == s.(connected := t.connected)
    case InactiveMsec(_) => t == s.(inactive := t.inactive)
    case SignalIs(_) => t == s.(signal := t.signal)
    case Other(_, _) => t == s
  }

  lemma {:induction false} WrapIsDuration(units: int, unit: int)
    ensures IsDuration(Wrap64(unit * units), units, unit)
  {
    var n := unit * units;
    assert Wrap64(n) - n == -0x1_0000_0000_0000_0000 * ((n - MIN64) / 0x1_0000_0000_0000_0000);
  }

  lemma {:induction false} LettersAreLine(key: string)
    requires forall i :: 0 <= i < |key| ==> 'a' <= key[i] <= 'z' || key[i] == '_'
    ensures IsLine(key) && '=' !in key
  {
  }

  lemma {:induction false} KeyIsLine(item: Item)
    requires Printable(item)
    ensures IsLine(KeyOf(item)) && '=' !in KeyOf(item)
  {
    if !item.Other? {
      LettersAreLine(KeyOf(item));
    }
  }

  lemma {:induction false} ValueIsLine(item: Item)
    requires Printable(item)
    ensures IsLine(ValOf(item))
  {
    match item
    case RxBytes(n) => ItoaIsLine(n);
    case TxBytes(n) => ItoaIsLine(n);
    case ConnectedTime(n) => ItoaIsLine(n);
    case InactiveMsec(n) => ItoaIsLine(n);
    case SignalIs(n) => ItoaIsLine(n);
    case _ =>
  }

  predicate IsNumber(item: Item) {
    !item.Flags? && !item.Other?
  }

  function NumberOf(item: Item): int
    requires IsNumber(item)
  {
    match item
    case RxBytes(n) => n
    case TxBytes(n) => n
    case ConnectedTime(n) => n
    case InactiveMsec(n) => n
    case SignalIs(n) => n
  }

  lemma {:induction false} BytesField(s: Station, val: string)
    ensures StationField(s, "rx_bytes", val) ==
            match Atoi(val) { case None => None case Some(n) => Some(s.(rxBytes := n)) }
    ensures StationField(s, "tx_bytes", val) ==
            match Atoi(val) { case None => None case Some(n) => Some(s.(txBytes := n)) }
  {
    assert |"flags"| == 5 && |"rx_bytes"| == 8 && "rx_bytes"[0] == 'r' && "tx_bytes"[0] == 't';
  }

  lemma {:induction false} TimesField(s: Station, val: string)
    ensures StationField(s, "connected_time", val) ==
            match Atoi(val) { case None => None case Some(n) => Some(s.(connected := Wrap64(1_000_000_000 * n))) }
    ensures StationField(s, "inactive_msec", val) ==
            match Atoi(val) { case None => None case Some(n) => Some(s.(inactive := Wrap64(1_000_000 * n))) }
  {
    assert |"flags"| == 5 && |"rx_bytes"| == 8 && |"tx_bytes"| == 8 && |"connected_time"| == 14
           && |"inactive_msec"| == 13;
  }

  lemma {:induction false} SignalField(s: Station, val: string)
    ensures StationField(s, "signal", val) ==
            match Atoi(val) { case None => None case Some(n) => Some(s.(signal := n)) }
  {
    assert |"flags"| == 5 && |"rx_bytes"| == 8 && |"tx_bytes"| == 8 && |"connected_time"| == 14
           && |"inactive_msec"| == 13 && |"signal"| == 6;
  }

  lemma {:induction false} FieldOfNumber(s: Station, item: Item, val: string)
    requires IsNumber(item) && Atoi(val) == Some(NumberOf(item))
    ensures var t := StationField(s, KeyOf(item), val);
            t.Some? && Shows(item, t.value) && OnlyAbout(item, s, t.value)
  {
    match item
    case RxBytes(_) => BytesField(s, val);
    case TxBytes(_) => BytesField(s, val);
    case ConnectedTime(n) =>
      TimesField(s, val);
      WrapIsDuration(n, 1_000_000_000);
    case InactiveMsec(n) =>
      TimesField(s, val);
      WrapIsDuration(n, 1_000_000);
    case SignalIs(_) => SignalField(s, val);
  }

  lemma {:induction false} FieldOfItem(s: Station, item: Item)
    requires Printable(item)
    ensures var t := StationField(s, KeyOf(item), ValOf(item));
            t.Some? && Shows(item, t.value) && OnlyAbout(item, s, t.value)
  {
    if item.Flags? {
      ContainsExactly(item.text, "[ASSOC]");
    } else if IsNumber(item) {
      AtoiOfItoa(NumberOf(item));
      FieldOfNumber(s, item, ValOf(item));
    }
  }

  /** One line sets its own field, to what it says. */
  lemma {:induction false} ItemIsRead(s: Station, item: Item, rest: string) returns (t: Station)
    requires Printable(item)
    ensures StationLines(s, PrintItem(item) + "\n" + rest) == StationLines(t, rest)
    ensures Shows(item, t) && OnlyAbout(item, s, t)
  {
    var key, val := KeyOf(item), ValOf(item);
    KeyIsLine(item);
    ValueIsLine(item);
    FieldOfItem(s, item);
    StationPair(s, key, val, rest);
    t := StationField(s, key, val).value;
  }

  /** What the lines leave alone. */
  predicate Leaves(items: seq<Item>, s: Station, t: Station) {
    && t.mac == s.mac
    && ((forall i :: 0 <= i < |items| ==> !items[i].Flags?) ==> t.associated == s.associated)
    && ((forall i :: 0 <= i < |items| ==> !items[i].RxBytes?) ==> t.rxBytes == s.rxBytes)
    && ((forall i :: 0 <= i < |items| ==> !items[i].TxBytes?) ==> t.txBytes == s.txBytes)
    && ((forall i :: 0 <= i < |items| ==> !items[i].ConnectedTime?) ==> t.connected == s.connected)
    && ((forall i :: 0 <= i < |items| ==> !items[i].InactiveMsec?) ==> t.inactive == s.inactive)
    && ((forall i :: 0 <= i < |items| ==> !items[i].SignalIs?) ==> t.signal == s.signal)
  }

  predicate IsLastOfKind(items: seq<Item>, i: int) {
    0 <= i < |items| && forall j :: i < j < |items| ==> !SameKind(items[i], items[j])
  }

  ghost predicate ShowsAll(items: seq<Item>, t: Station) {
    forall i :: IsLastOfKind(items, i) ==> Shows(items[i], t)
  }

  lemma {:induction false} ShowsFirstAndRest(items: seq<Item>, s: Station, u: Station, t: Station)
    requires |items| > 0
    requires Shows(items[0], u) && OnlyAbout(items[0], s, u)
    requires Leaves(items[1..], u, t) && ShowsAll(items[1..], t)
    ensures Leaves(items, s, t) && ShowsAll(items, t)
  {
    var rest := items[1..];
    assert forall j :: 0 <= j < |rest| ==> rest[j] == items[j + 1];
    forall i | IsLastOfKind(items, i) ensures Shows(items[i], t) {
      if i == 0 {
        assert forall j :: 0 <= j < |rest| ==> !SameKind(items[0], rest[j]);
      } else {
        assert IsLastOfKind(rest, i - 1);
      }
    }
  }

  lemma {:induction false} LinesOfPrinted(s: Station, items: seq<Item>) returns (t: Station)
    requires AllPrintable(items)
    ensures StationLines(s, PrintItems(items)) == Some(t)
    ensures Leaves(items, s, t) && ShowsAll(items, t)
    decreases |items|
  {
    if |items| == 0 {
      t := s;
    } else {
      var u := ItemIsRead(s, items[0], PrintItems(items[1..]));
      t := LinesOfPrinted(u, items[1..]);
      ShowsFirstAndRest(items, s, u, t);
    }
  }

  /** Whatever lines a hostapd prints, in whatever order: parsing gives back every field as
      its last line says, durations in nanoseconds, and the zero value where no line does;
      lines with other keys are skipped. */
  lemma {:induction false} PrintedRoundTrip(mac: string, items: seq<Item>) returns (s: Station)
    requires Mac.IsMAC(mac) && AllPrintable(items)
    ensures StationOf(PrintStation(mac, items)) == Some(s)
    ensures s.mac == mac && ShowsAll(items, s) && Leaves(items, NO_STATION.(mac := mac), s)
  {
    FirstLine(mac, PrintItems(items));
    s := LinesOfPrinted(NO_STATION.(mac := mac), items);
  }

  // ----- what is refused -----

  function Joined(lines: seq<string>): string {
    if |lines| == 0 then "" else lines[0] + "\n" + Joined(lines[1..])
  }

  /** A pair, with a number where the key asks for one. */
  predicate LineOk(line: string, numeric: set<string>) {
    match Cut(line)
    case None => false
    case Some((key, val)) => key in numeric ==> Atoi(val).Some?
  }

  const STATION_NUMBERS := {"rx_bytes", "tx_bytes", "connected_time", "inactive_msec", "signal"}

  lemma {:induction false} StationLineExactly(s: Station, line: string)
    ensures StationLine(s, line).Some? <==> LineOk(line, STATION_NUMBERS)
  {
  }

  lemma {:induction false} StationLinesExactly(s: Station, lines: seq<string>)
    requires forall i :: 0 <= i < |lines| ==> IsLine(lines[i])
    ensures StationLines(s, Joined(lines)).Some? <==>
            forall i :: 0 <= i < |lines| ==> LineOk(lines[i], STATION_NUMBERS)
    decreases |lines|
  {
    if |lines| > 0 {
      var rest := lines[1..];
      assert forall i :: 0 <= i < |rest| ==> rest[i] == lines[i + 1];
      ScanWholeLine(lines[0], Joined(rest));
      StationLineExactly(s, lines[0]);
      if StationLine(s, lines[0]).Some? {
        StationLinesExactly(StationLine(s, lines[0]).value, rest);
        assert forall i :: 0 < i < |lines| ==> lines[i] == rest[i - 1];
      }
    }
  }

  /** A reply about a station is accepted exactly if it starts with an address and every
      further line is a pair, with a number where one is due. */
  lemma {:induction false} StationAcceptedExactly(first: string, lines: seq<string>)
    requires IsLine(first) && forall i :: 0 <= i < |lines| ==> IsLine(lines[i])
    ensures StationOf(first + "\n" + Joined(lines)).Some? <==>
            Mac.IsMAC(first) && forall i :: 0 <= i < |lines| ==> LineOk(lines[i], STATION_NUMBERS)
  {
    var p := first + "\n" + Joined(lines);
    ScanWholeLine(first, Joined(lines));
    StationLinesExactly(NO_STATION.(mac := first), lines);
    if Mac.IsMAC(first) {
      assert |p| > 5;
    } else if p != "FAIL\n" {
      assert ScanLine(p).0 == first;
    }
  }

  /** A status line is refused if it is no pair, or no number where one is due, or an SSID
      that does not decode; other keys are skipped. */
  lemma {:induction false} StatusLineExactly(s: Status, line: string)
    ensures StatusLine(s, line).Some? <==>
            && LineOk(line, {"channel", "max_txpower"})
            && (Cut(line).value.0 == "ssid[0]" ==> Ssid.Decode(Cut(line).value.1).Some?)
    ensures Cut(line).Some?
            && Cut(line).value.0 !in {"state", "channel", "max_txpower", "ssid[0]", "bssid[0]"} ==>
              StatusLine(s, line) == Some(s)
  {
  }

  /** And one such line refuses the whole reply. */
  lemma {:induction false} StatusAcceptedExactly(s: Status, lines: seq<string>)
    requires forall i :: 0 <= i < |lines| ==> IsLine(lines[i])
    ensures StatusOf(s, Joined(lines)).Some? <==>
            forall i :: 0 <= i < |lines| ==> StatusLine(NO_STATUS, lines[i]).Some?
    decreases |lines|
  {
    if |lines| > 0 {
      var rest := lines[1..];
      assert forall i :: 0 <= i < |rest| ==> rest[i] == lines[i + 1];
      ScanWholeLine(lines[0], Joined(rest));
      StatusLineExactly(s, lines[0]);
      StatusLineExactly(NO_STATUS, lines[0]);
      if StatusLine(s, lines[0]).Some? {
        StatusAcceptedExactly(StatusLine(s, lines[0]).value, rest);
        assert forall i :: 0 < i < |lines| ==> lines[i] == rest[i - 1];
      }
    }
  }
}
