/** The daemon: handlers that update stations, queue and broker in place, proved
    against the presence state machine. */
module Daemon {
  import opened Wrappers
  import opened Mac
  import opened Topics
  import opened Broker
  import opened Debounce
  import opened Presence
  import opened OneStation
  import Events
  import Scan
  import Replies
  import Control

  /** An entry of a configuration message. */
  datatype TrackConfig = TrackConfig(name: string, mac: string)

  /** The answer of one access point when it is asked for its stations. */
  datatype Poll = Poll(ap: AccessPoint, listing: Result<seq<Replies.Station>, Control.CtrlError>)

  datatype Failure = BadMAC | BlankName | ListingFailed | PublishFailed

  // ----- the stations that the access points list -----

  function CollectList(links: map<MAC, Link>, ap: AccessPoint, list: seq<Replies.Station>): Option<map<MAC, Link>>
    decreases |list|
  {
    if |list| == 0 then Some(links)
    else if !list[0].associated then CollectList(links, ap, list[1..])
    else
      match Decode(list[0].mac)
      case None => None
      case Some(m) => CollectList(links[m := Link(ap, list[0].connected)], ap, list[1..])
  }

  function CollectAll(links: map<MAC, Link>, polls: seq<Poll>): Snapshot
    decreases |polls|
  {
    if |polls| == 0 then Listing(links)
    else
      match polls[0].listing
      case Err(UnknownCommand(_)) => Unsupported
      case Err(_) => Failed
      case Ok(list) =>
        match CollectList(links, polls[0].ap, list)
        case None => Failed
        case Some(more) => CollectAll(more, polls[1..])
  }

  /** The access point answered, and all its associated stations have an address. */
  predicate Usable(poll: Poll) {
    poll.listing.Ok? &&
    forall j :: 0 <= j < |poll.listing.value| && poll.listing.value[j].associated ==>
      Decode(poll.listing.value[j].mac).Some?
  }

  predicate AllUsable(polls: seq<Poll>) {
    forall i :: 0 <= i < |polls| ==> Usable(polls[i])
  }

  predicate FirstUnusable(polls: seq<Poll>, k: int) {
    0 <= k < |polls| && !Usable(polls[k]) && forall i :: 0 <= i < k ==> Usable(polls[i])
  }

  predicate LacksCommand(poll: Poll) {
    poll.listing.Err? && poll.listing.error.UnknownCommand?
  }

  lemma {:induction false} ListIsUsable(links: map<MAC, Link>, ap: AccessPoint, list: seq<Replies.Station>)
    ensures CollectList(links, ap, list).Some? <==> Usable(Poll(ap, Ok(list)))
    decreases |list|
  {
    if |list| > 0 {
      var rest := list[1..];
      assert forall j :: 0 <= j < |rest| ==> rest[j] == list[j + 1];
      if !list[0].associated {
        ListIsUsable(links, ap, rest);
      } else if Decode(list[0].mac).Some? {
        ListIsUsable(links[Decode(list[0].mac).value := Link(ap, list[0].connected)], ap, rest);
      }
      assert Usable(Poll(ap, Ok(list))) <==>
             (list[0].associated ==> Decode(list[0].mac).Some?) && Usable(Poll(ap, Ok(rest))) by {
        forall j | 0 < j < |list| ensures list[j] == rest[j - 1] {
        }
      }
    }
  }

  /** The first access point that is of no use decides: if it does not know the command
      the daemon goes on without a listing, and anything else is an error. */
  lemma {:induction false} FirstUnusableDecides(links: map<MAC, Link>, polls: seq<Poll>)
    ensures CollectAll(links, polls).Listing? <==> AllUsable(polls)
    ensures forall k :: FirstUnusable(polls, k) ==>
              && (CollectAll(links, polls).Unsupported? <==> LacksCommand(polls[k]))
              && (CollectAll(links, polls).Failed? <==> !LacksCommand(polls[k]))
    decreases |polls|
  {
    if |polls| > 0 {
      var rest := polls[1..];
      assert forall i :: 0 <= i < |rest| ==> rest[i] == polls[i + 1];
      if polls[0].listing.Ok? {
        ListIsUsable(links, polls[0].ap, polls[0].listing.value);
        assert polls[0] == Poll(polls[0].ap, Ok(polls[0].listing.value));
      }
      if Usable(polls[0]) {
        var more := CollectList(links, polls[0].ap, polls[0].listing.value).value;
        FirstUnusableDecides(more, rest);
        assert CollectAll(links, polls) == CollectAll(more, rest);
        forall k | FirstUnusable(polls, k)
          ensures (CollectAll(links, polls).Unsupported? <==> LacksCommand(polls[k]))
          ensures (CollectAll(links, polls).Failed? <==> !LacksCommand(polls[k]))
        {
          assert k > 0 && FirstUnusable(rest, k - 1) && rest[k - 1] == polls[k];
        }
        assert AllUsable(polls) <==> AllUsable(rest) by {
          assert forall i :: 0 < i < |polls| ==> polls[i] == rest[i - 1];
        }
      } else {
        forall k | FirstUnusable(polls, k) ensures k == 0 {
        }
      }
    }
  }

  method ConnectedStations(polls: seq<Poll>) returns (r: Snapshot)
    ensures r == CollectAll(map[], polls)
    ensures r.Listing? <==> AllUsable(polls)
    ensures forall k :: FirstUnusable(polls, k) ==>
              (r.Unsupported? <==> LacksCommand(polls[k])) && (r.Failed? <==> !LacksCommand(polls[k]))
  {
    FirstUnusableDecides(map[], polls);
    var cs: map<MAC, Link> := map[];
    var i := 0;
    while i < |polls|
      invariant 0 <= i <= |polls|
      invariant CollectAll(map[], polls) == CollectAll(cs, polls[i..])
    {
      var poll := polls[i];
      assert polls[i..][1..] == polls[i + 1..];
      if poll.listing.Err? {
        return if poll.listing.error.UnknownCommand? then Unsupported else Failed;
      }
      var list := poll.listing.value;
      ghost var before := cs;
      var j := 0;
      assert list[0..] == list;
      while j < |list|
        invariant 0 <= j <= |list|
        invariant CollectList(before, poll.ap, list) == CollectList(cs, poll.ap, list[j..])
      {
        var sta := list[j];
        assert list[j..][1..] == list[j + 1..];
        j := j + 1;
        if !sta.associated {
          continue;
        }
        var mac := Decode(sta.mac);
        if mac.None? {
          return Failed;
        }
        cs := cs[mac.value := Link(poll.ap, sta.connected)];
      }
      assert list[j..] == [];
      i := i + 1;
    }
    assert polls[i..] == [];
    r := Listing(cs);
  }

  function SightingsOf(ap: AccessPoint, list: seq<Replies.Station>): seq<(string, Link)> {
    if |list| == 0 then []
    else (if list[0].associated then [(list[0].mac, Link(ap, list[0].connected))] else []) + SightingsOf(ap, list[1..])
  }

  /** Every associated station of a list with its place, in order. */
  function Sightings(polls: seq<Poll>): seq<(string, Link)>
    requires forall i :: 0 <= i < |polls| ==> polls[i].listing.Ok?
  {
    if |polls| == 0 then []
    else SightingsOf(polls[0].ap, polls[0].listing.value) + Sightings(polls[1..])
  }

  function Overlay(links: map<MAC, Link>, ss: seq<(string, Link)>): Option<map<MAC, Link>>
    decreases |ss|
  {
    if |ss| == 0 then Some(links)
    else
      match Decode(ss[0].0)
      case None => None
      case Some(m) => Overlay(links[m := ss[0].1], ss[1..])
  }

  lemma {:induction false} OverlayConcat(links: map<MAC, Link>, ss: seq<(string, Link)>, ts: seq<(string, Link)>)
    ensures Overlay(links, ss + ts) ==
            match Overlay(links, ss) { case None => None case Some(more) => Overlay(more, ts) }
    decreases |ss|
  {
    if |ss| == 0 {
      assert ss + ts == ts;
    } else {
      assert (ss + ts)[1..] == ss[1..] + ts;
      if Decode(ss[0].0).Some? {
        OverlayConcat(links[Decode(ss[0].0).value := ss[0].1], ss[1..], ts);
      }
    }
  }

  lemma {:induction false} ListIsOverlay(links: map<MAC, Link>, ap: AccessPoint, list: seq<Replies.Station>)
    ensures CollectList(links, ap, list) == Overlay(links, SightingsOf(ap, list))
    decreases |list|
  {
    if |list| > 0 {
      var rest := SightingsOf(ap, list[1..]);
      if !list[0].associated {
        assert SightingsOf(ap, list) == rest;
        ListIsOverlay(links, ap, list[1..]);
      } else {
        assert SightingsOf(ap, list)[1..] == rest;
        if Decode(list[0].mac).Some? {
          ListIsOverlay(links[Decode(list[0].mac).value := Link(ap, list[0].connected)], ap, list[1..]);
        }
      }
    }
  }

  lemma {:induction false} AllIsOverlay(links: map<MAC, Link>, polls: seq<Poll>)
    requires forall i :: 0 <= i < |polls| ==> polls[i].listing.Ok?
    ensures CollectAll(links, polls) ==
            match Overlay(links, Sightings(polls)) { case None => Failed case Some(all) => Listing(all) }
    decreases |polls|
  {
    if |polls| > 0 {
      var first := SightingsOf(polls[0].ap, polls[0].listing.value);
      ListIsOverlay(links, polls[0].ap, polls[0].listing.value);
      OverlayConcat(links, first, Sightings(polls[1..]));
      if Overlay(links, first).Some? {
        AllIsOverlay(Overlay(links, first).value, polls[1..]);
      }
    }
  }

  lemma {:induction false} OverlayLast(links: map<MAC, Link>, ss: seq<(string, Link)>, m: MAC)
    requires Overlay(links, ss).Some?
    ensures forall i :: 0 <= i < |ss| ==> Decode(ss[i].0).Some?
    ensures var all := Overlay(links, ss).value;
            && (m in all <==> m in links || exists i :: 0 <= i < |ss| && Decode(ss[i].0) == Some(m))
            && (forall i :: 0 <= i < |ss| && Decode(ss[i].0) == Some(m)
                            && (forall j :: i < j < |ss| ==> Decode(ss[j].0) != Some(m)) ==>
                  m in all && all[m] == ss[i].1)
            && ((forall i :: 0 <= i < |ss| ==> Decode(ss[i].0) != Some(m)) && m in links ==>
                  m in all && all[m] == links[m])
    decreases |ss|
  {
    if |ss| > 0 {
      var rest := ss[1..];
      OverlayLast(links[Decode(ss[0].0).value := ss[0].1], rest, m);
      forall i | 0 <= i < |ss| ensures Decode(ss[i].0).Some? && (i > 0 ==> ss[i] == rest[i - 1]) {
        if i > 0 {
          assert ss[i] == rest[i - 1];
        }
      }
      assert forall i :: 0 <= i < |rest| ==> rest[i] == ss[i + 1];
    }
  }

  /** When every access point answers, a MAC counts as connected exactly if one of
      them lists it as associated, and the last to list it decides where. */
  lemma {:induction false} TheLastListingCounts(polls: seq<Poll>, m: MAC)
    requires forall i :: 0 <= i < |polls| ==> polls[i].listing.Ok?
    requires CollectAll(map[], polls).Listing?
    ensures var (ss, links) := (Sightings(polls), CollectAll(map[], polls).links);
            && (m in links <==> exists i :: 0 <= i < |ss| && Decode(ss[i].0) == Some(m))
            && (forall i :: 0 <= i < |ss| && Decode(ss[i].0) == Some(m)
                            && (forall j :: i < j < |ss| ==> Decode(ss[j].0) != Some(m)) ==>
                  links[m] == ss[i].1)
  {
    AllIsOverlay(map[], polls);
    OverlayLast(map[], Sightings(polls), m);
  }

  // ----- decoding a configuration -----

  predicate AllDecode(devices: seq<TrackConfig>) {
    forall i :: 0 <= i < |devices| ==> Decode(devices[i].mac).Some?
  }

  function Decoded(devices: seq<TrackConfig>): (r: seq<Device>)
    requires AllDecode(devices)
    ensures |r| == |devices|
  {
    seq(|devices|, i requires 0 <= i < |devices| => Device(Decode(devices[i].mac).value, devices[i].name))
  }

  lemma {:induction false} DecodedGrows(devices: seq<TrackConfig>, i: nat)
    requires i < |devices| && AllDecode(devices[..i]) && Decode(devices[i].mac).Some?
    ensures AllDecode(devices[..i + 1])
    ensures Decoded(devices[..i + 1]) ==
            Decoded(devices[..i]) + [Device(Decode(devices[i].mac).value, devices[i].name)]
  {
    var upTo := devices[..i + 1];
    forall j | 0 <= j < i + 1 ensures Decode(upTo[j].mac).Some? {
      assert j < i ==> upTo[j] == devices[..i][j];
    }
  }

  /** What an event does; one whose address does not decode does nothing. */
  function Handled(settings: Settings, w: World, ap: AccessPoint, e: Events.Event, now: int): World
    requires WorldOk(w)
  {
    match e
    case StationConnect(_, mac) =>
      (match Decode(mac) case None => w case Some(m) => Connect(w, ap, m, now))
    case StationDisconnect(_, mac) =>
      (match Decode(mac) case None => w case Some(m) => Disconnect(settings, w, ap, m, now))
    case _ => w
  }

  /** From the text of a message to the stations: an announced connect brings its station
      home, an announced disconnect sends it away, with or without a priority. */
  lemma {:induction false} AnnouncementsTakeEffect(settings: Settings, w: World, ap: AccessPoint, v: string,
                                                   tail: string, level: char, now: int)
    requires WorldOk(w) && IsMAC(v) && (|tail| > 0 ==> Scan.IsSpace(tail[0]))
    ensures Decode(v).Some?
    ensures var text := "AP-STA-CONNECTED" + (" " + v + tail);
            && Events.ParseEvent(text).Some? && Events.ParseEvent(['<', level, '>'] + text).Some?
            && var (e, f) := (Events.ParseEvent(text).value, Events.ParseEvent(['<', level, '>'] + text).value);
               && CameHome(w, Handled(settings, w, ap, e, now), ap, Decode(v).value, now)
               && CameHome(w, Handled(settings, w, ap, f, now), ap, Decode(v).value, now)
    ensures var text := "AP-STA-DISCONNECTED" + (" " + v);
            && Events.ParseEvent(text).Some? && Events.ParseEvent(['<', level, '>'] + text).Some?
            && var (e, f) := (Events.ParseEvent(text).value, Events.ParseEvent(['<', level, '>'] + text).value);
               && WentAway(settings.debounce, w, Handled(settings, w, ap, e, now), ap, Decode(v).value, now)
               && WentAway(settings.debounce, w, Handled(settings, w, ap, f, now), ap, Decode(v).value, now)
  {
    TextOfDecoded(v);
    Events.AnnouncementsAreRecognised(v, tail, level);
    ConnectBringsHome(w, ap, Decode(v).value, now);
    DisconnectSendsAway(settings, w, ap, Decode(v).value, now);
  }

  predicate Undecodable(e: Events.Event) {
    (e.StationConnect? || e.StationDisconnect?) && Decode(e.mac).None?
  }

  class Daemon {
    const autodiscovery: bool
    const db: Debouncer
    const hass: MQTT
    var stations: map<MAC, Station>

    ghost function View(): World
      reads this, db, hass
    {
      World(stations, db.View(), hass.log)
    }

    ghost function Options(): Settings {
      Settings(db.debounce, autodiscovery)
    }

    ghost predicate Valid()
      reads this, db, hass
    {
      db.Valid() && hass.Valid() && WorldOk(View())
    }

    /** Whether an attempt to publish since the given one was refused. */
    ghost predicate Refused(since: nat)
      reads hass
    {
      exists k :: since <= k < hass.attempts && !hass.accepts(k)
    }

    constructor (autodiscovery: bool, db: Debouncer, hass: MQTT)
      requires db.Valid() && hass.Valid() && db.View() == EMPTY_QUEUE
      ensures Valid() && this.autodiscovery == autodiscovery && this.db == db && this.hass == hass
      ensures View() == World(map[], EMPTY_QUEUE, hass.log)
    {
      this.autodiscovery, this.db, this.hass := autodiscovery, db, hass;
      stations := map[];
    }

    // ----- events of an access point -----

    /** Publishes that a station is home, and where. */
    method PublishHome(sta: Station, ap: AccessPoint) returns (err: Option<Failure>)
      requires hass.Valid()
      modifies hass
      ensures hass.Valid()
      ensures err.None? ==>
                hass.log == Push(Push(old(hass.log), State(sta.mac), Some(Home)),
                                 Attrs(sta.mac), Some(HomeAttributes(sta, ap)))
      ensures err.None? || err == Some(PublishFailed)
      ensures err.Some? <==> Refused(old(hass.attempts))
      ensures old(hass.attempts) <= hass.attempts
    {
      var ok := hass.Publish(State(sta.mac), Some(Home));
      if !ok {
        return Some(PublishFailed);
      }
      ok := hass.Publish(Attrs(sta.mac), Some(HomeAttributes(sta, ap)));
      return if ok then None else Some(PublishFailed);
    }

    method OnConnect(ap: AccessPoint, m: MAC, now: int) returns (err: Option<Failure>)
      requires Valid()
      modifies this, db, hass
      ensures Valid()
      ensures err.None? ==> View() == Connect(old(View()), ap, m, now)
      ensures err.None? || err == Some(PublishFailed)
      ensures err.Some? <==> Refused(old(hass.attempts))
      ensures old(hass.attempts) <= hass.attempts
      ensures View().stations == Connect(old(View()), ap, m, now).stations
      ensures View().queue == Connect(old(View()), ap, m, now).queue
    {
      if m !in stations {
        return None;
      }
      ConnectOk(View(), ap, m, now);
      var sta := stations[m];
      var shouldUpdate := !sta.connected || sta.bssid != ap.bssid;
      sta := sta.(bssid := ap.bssid, connected := true, connectedAt := At(now));
      stations := stations[m := sta];

      var cancelled := db.CancelCallback(m);

      if !shouldUpdate {
        return None;
      }
      err := PublishHome(sta, ap);
    }

    method OnDisconnect(ap: AccessPoint, m: MAC, now: int)
      requires Valid()
      modifies this, db
      ensures Valid()
      ensures View() == Disconnect(Options(), old(View()), ap, m, now)
    {
      DisconnectOk(Options(), View(), ap, m, now);
      if m !in stations {
        return;
      }
      var sta := stations[m];
      if sta.connected && sta.bssid != ap.bssid {
        return;
      }
      stations := stations[m := sta.(connected := false, disconnectedAt := At(now))];
      var accepted := db.EnqueueCallback(m, AnnounceAway(ap), now);
    }

    method OnHostapdEvent(ap: AccessPoint, event: Events.Event, now: int) returns (err: Option<Failure>)
      requires Valid()
      modifies this, db, hass
      ensures Valid()
      ensures err.None? ==> View() == Handled(Options(), old(View()), ap, event, now)
      ensures err == Some(BadMAC) <==> Undecodable(event)
      ensures err == Some(BadMAC) ==> View() == old(View())
      ensures err == Some(PublishFailed) <==> Refused(old(hass.attempts))
      ensures old(hass.attempts) <= hass.attempts
      ensures err.None? || err == Some(BadMAC) || err == Some(PublishFailed)
      ensures err.None? && event.StationConnect? ==>
                && Decode(event.mac).Some?
                && CameHome(old(View()), View(), ap, Decode(event.mac).value, now)
      ensures err.None? && event.StationDisconnect? ==>
                && Decode(event.mac).Some?
                && WentAway(db.debounce, old(View()), View(), ap, Decode(event.mac).value, now)
      ensures !event.StationConnect? && !event.StationDisconnect? ==> err.None? && View() == old(View())
    {
      match event {
        case StationConnect(_, text) =>
          var mac := Decode(text);
          if mac.None? {
            return Some(BadMAC);
          }
          ConnectBringsHome(View(), ap, mac.value, now);
          err := OnConnect(ap, mac.value, now);
        case StationDisconnect(_, text) =>
          var mac := Decode(text);
          if mac.None? {
            return Some(BadMAC);
          }
          DisconnectSendsAway(Options(), View(), ap, mac.value, now);
          OnDisconnect(ap, mac.value, now);
          return None;
        case _ =>
          return None;
      }
    }

    // ----- timers -----

    /** The goroutine of an expired timer: its section in the debouncer, then its
        callback. */
    method OnTimer(m: MAC, i: nat) returns (err: Option<Failure>)
      requires Valid() && CanRun(View(), m, i)
      modifies this, db, hass
      ensures Valid()
      ensures err.None? ==> View() == RunTimer(old(View()), m, i)
      ensures err.None? || err == Some(PublishFailed)
      ensures err.Some? <==> Refused(old(hass.attempts))
      ensures old(hass.attempts) <= hass.attempts
      ensures View().stations == old(View()).stations && View().queue == RunTimer(old(View()), m, i).queue
    {
      RunTimerOk(View(), m, i);
      TakeSlots(db.View(), m, i);
      var took := db.TimerFunc(m, i);
      if !took {
        return None;
      }
      var cb := db.StartCallback(m, i);
      if cb.NoCallback? {
        return None;
      }
      var ok := hass.Publish(State(m), Some(NotHome));
      if !ok {
        return Some(PublishFailed);
      }
      if m !in stations {
        return None;
      }
      ok := hass.Publish(Attrs(m), Some(AwayAttributes(stations[m], cb.ap)));
      if !ok {
        return Some(PublishFailed);
      }
      return None;
    }

    // ----- configuration -----

    /** Publishes a discovery message; a blank name is refused without an attempt. */
    method RegisterDeviceTracker(sta: Station) returns (err: Option<Failure>)
      requires hass.Valid()
      modifies hass
      ensures hass.Valid()
      ensures err.None? ==> hass.log == Push(old(hass.log), Discovery(sta.mac), Some(Tracker(sta.name, sta.mac)))
      ensures err.Some? ==> hass.log == old(hass.log)
      ensures err == Some(BlankName) <==> sta.name == ""
      ensures err == Some(PublishFailed) <==> Refused(old(hass.attempts))
      ensures old(hass.attempts) <= hass.attempts
      ensures err.None? || err == Some(BlankName) || err == Some(PublishFailed)
    {
      if sta.name == "" {
        return Some(BlankName);
      }
      var ok := hass.Publish(Discovery(sta.mac), Some(Tracker(sta.name, sta.mac)));
      return if ok then None else Some(PublishFailed);
    }

    /** What is left to do for an added station once it is registered. */
    method AnnounceAdded(m: MAC, connected: map<MAC, Link>, now: int) returns (err: Option<Failure>)
      requires Valid() && m in stations
      modifies this, db, hass
      ensures Valid() && stations.Keys == old(stations.Keys)
      ensures err.None? ==>
                View() == ApplyChange(Options().(autodiscovery := false), old(View()), m, Added, connected, now)
      ensures err.None? || err == Some(PublishFailed)
      ensures err.Some? <==> Refused(old(hass.attempts))
      ensures old(hass.attempts) <= hass.attempts
    {
      CancelKeepsOk(db.View(), m);
      var sta := stations[m];
      if m !in connected {
        stations := stations[m := sta.(connected := false)];
        var ok := hass.Publish(State(m), Some(NotHome));
        return if ok then None else Some(PublishFailed);
      }
      var link := connected[m];
      sta := sta.(connected := true, connectedAt := At(now - link.connectedFor), bssid := link.ap.bssid);
      stations := stations[m := sta];
      var cancelled := db.CancelCallback(m);
      err := PublishHome(sta, link.ap);
    }

    method Unregister(m: MAC) returns (err: Option<Failure>)
      requires Valid()
      modifies db, hass
      ensures Valid()
      ensures err.None? ==> View() == ApplyChange(Options(), old(View()), m, Removed, map[], 0)
      ensures err.None? || err == Some(PublishFailed)
      ensures err.Some? <==> Refused(old(hass.attempts))
      ensures old(hass.attempts) <= hass.attempts
    {
      CancelKeepsOk(db.View(), m);
      var cancelled := db.CancelCallback(m);
      if autodiscovery {
        var ok := hass.Publish(Discovery(m), None);
        return if ok then None else Some(PublishFailed);
      }
      return None;
    }

    /** One iteration of the third loop. */
    method ProcessChange(m: MAC, change: Change, connected: map<MAC, Link>, now: int) returns (err: Option<Failure>)
      requires Valid() && (change.Added? || change.Updated? ==> m in stations)
      modifies this, db, hass
      ensures Valid() && stations.Keys == old(stations.Keys)
      ensures err.None? ==> View() == ApplyChange(Options(), old(View()), m, change, connected, now)
      ensures err == Some(BlankName) <==>
              autodiscovery && (change.Added? || change.Updated?) && old(stations)[m].name == ""
      ensures err == Some(PublishFailed) <==> Refused(old(hass.attempts))
      ensures old(hass.attempts) <= hass.attempts
      ensures err.None? || err == Some(BlankName) || err == Some(PublishFailed)
    {
      err := None;
      if change.Removed? {
        err := Unregister(m);
        return;
      }
      if autodiscovery && (change.Added? || change.Updated?) {
        err := RegisterDeviceTracker(stations[m]);
        if err.Some? {
          return;
        }
      }
      if change.Added? {
        err := AnnounceAdded(m, connected, now);
      }
    }

    /** The first loop: the difference between a configuration and the stations, which
        it updates on the way. */
    method DiffDevices(devices: seq<TrackConfig>)
      returns (err: Option<Failure>, changes: map<MAC, Change>, hasUpdates: bool)
      requires forall m :: m in stations ==> stations[m].mac == m
      modifies this
      ensures err == if AllDecode(devices) then None else Some(BadMAC)
      ensures err.None? ==> Diff(stations, changes, hasUpdates) == DiffAll(old(stations), Decoded(devices))
      ensures forall m :: m in stations ==> stations[m].mac == m
    {
      ghost var was := stations;
      changes := map[];
      hasUpdates := false;
      var i := 0;
      while i < |devices|
        invariant 0 <= i <= |devices| && AllDecode(devices[..i])
        invariant Diff(stations, changes, hasUpdates) == DiffAll(was, Decoded(devices[..i]))
        invariant forall m :: m in stations ==> stations[m].mac == m
      {
        var device := devices[i];
        var mac := Decode(device.mac);
        if mac.None? {
          return Some(BadMAC), changes, hasUpdates;
        }
        var m := mac.value;
        DecodedGrows(devices, i);
        DiffAllGrows(was, Decoded(devices[..i]), Device(m, device.name));
        if m !in stations {
          changes := changes[m := Added];
          hasUpdates := true;
        } else if stations[m].name != device.name {
          changes := changes[m := Updated];
          hasUpdates := true;
        } else {
          changes := changes[m := NoChange];
        }
        var sta := if m in stations then stations[m] else ZERO_STATION;
        stations := stations[m := sta.(name := device.name, mac := m)];
        i := i + 1;
      }
      assert devices[..i] == devices;
      err := None;
    }

    /** The second loop: stations that no device named are dropped, in any order. */
    method DropStations(named: map<MAC, Change>) returns (changes: map<MAC, Change>)
      modifies this
      ensures var gone := old(stations).Keys - named.Keys;
              stations == old(stations) - gone && changes == named + (map m | m in gone :: Removed)
    {
      ghost var was := stations;
      changes := named;
      var todo := stations.Keys;
      while todo != {}
        invariant todo <= was.Keys
        invariant var gone := was.Keys - named.Keys - todo;
                  stations == was - gone && changes == named + (map m | m in gone :: Removed)
        decreases todo
      {
        var m :| m in todo;
        if m !in changes {
          changes := changes[m := Removed];
          stations := stations - {m};
        }
        todo := todo - {m};
      }
    }

    /** The third loop. */
    method ProcessChanges(ghost plan: Diff, changes: map<MAC, Change>, connected: map<MAC, Link>, now: int)
      returns (err: Option<Failure>, ghost order: seq<MAC>)
      requires Valid() && plan.changes == changes && plan.stations == stations
      requires forall m :: m in changes && !changes[m].Removed? ==> m in stations
      modifies this, db, hass
      ensures Valid()
      ensures err.None? || err == Some(BlankName) || err == Some(PublishFailed)
      ensures err == Some(BlankName) ==> !NamesGiven(Options(), plan)
      ensures err == Some(PublishFailed) <==> Refused(old(hass.attempts))
      ensures old(hass.attempts) <= hass.attempts
      ensures err.None? ==>
                && IsOrder(order, changes.Keys) && NamesGiven(Options(), plan)
                && View() == ApplyAll(Options(), old(View()), changes, connected, now, order)
    {
      ghost var was := View();
      order := [];
      var todo := changes.Keys;
      while todo != {}
        invariant Valid() && stations.Keys == was.stations.Keys
        invariant IsOrder(order, changes.Keys - todo) && todo <= changes.Keys
        invariant forall k :: 0 <= k < |order| ==> order[k] in changes
        invariant View() == ApplyAll(Options(), was, changes, connected, now, order)
        invariant !Refused(old(hass.attempts)) && old(hass.attempts) <= hass.attempts
        invariant NamedSoFar(Options(), was.stations, changes, order)
        decreases todo
      {
        var m :| m in todo;
        NotYetChanged(Options(), was, changes, connected, now, order, m);
        err := ProcessChange(m, changes[m], connected, now);
        if err.Some? {
          return;
        }
        ApplyAllGrows(Options(), was, changes, connected, now, order, m);
        NamedGrows(Options(), was.stations, changes, order, m);
        OrderGrows(order, changes.Keys - todo, m);
        assert changes.Keys - todo + {m} == changes.Keys - (todo - {m});
        order := order + [m];
        todo := todo - {m};
      }
      assert changes.Keys - todo == changes.Keys;
      AllNamed(Options(), plan, order);
      err := None;
    }

    /** A configuration message. Which order the changes are processed in is up to the
        runtime; it is reported in order. */
    method OnConfigChange(devices: seq<TrackConfig>, polls: seq<Poll>, now: int)
      returns (err: Option<Failure>, ghost order: seq<MAC>)
      requires Valid()
      modifies this, db, hass
      ensures Valid()
      ensures err == Some(BadMAC) <==> !AllDecode(devices)
      ensures AllDecode(devices) ==>
                (err == Some(ListingFailed) <==>
                 Plan(old(stations), Decoded(devices)).hasUpdates && CollectAll(map[], polls).Failed?)
      ensures forall k :: FirstUnusable(polls, k) && AllDecode(devices)
                          && SomethingNew(old(stations), Decoded(devices)) ==>
                (err == Some(ListingFailed) <==> !LacksCommand(polls[k]))
      ensures AllDecode(devices) && (AllUsable(polls) || !SomethingNew(old(stations), Decoded(devices))) ==>
                err != Some(ListingFailed)
      ensures err == Some(BlankName) ==>
                AllDecode(devices) && !NamesGiven(Options(), Plan(old(stations), Decoded(devices)))
      ensures err == Some(PublishFailed) <==> Refused(old(hass.attempts))
      ensures old(hass.attempts) <= hass.attempts
      ensures err.None? ==>
                && AllDecode(devices)
                && ConfigAccepted(Options(), old(View()), Decoded(devices), CollectAll(map[], polls))
                && IsOrder(order, Plan(old(stations), Decoded(devices)).changes.Keys)
                && View() == Configure(Options(), old(View()), Decoded(devices), CollectAll(map[], polls), order, now)
    {
      order := [];
      var changes, hasUpdates;
      err, changes, hasUpdates := DiffDevices(devices);
      if err.Some? {
        return;
      }
      changes := DropStations(changes);
      ghost var plan := Plan(old(stations), Decoded(devices));
      PlanFacts(old(stations), Decoded(devices));
      HasUpdatesExactly(old(stations), Decoded(devices));
      FirstUnusableDecides(map[], polls);
      assert Diff(stations, changes, hasUpdates) == plan;
      var connected: map<MAC, Link> := map[];
      if hasUpdates {
        var snapshot := ConnectedStations(polls);
        if snapshot.Failed? {
          return Some(ListingFailed), order;
        }
        if snapshot.Listing? {
          connected := snapshot.links;
        }
      }
      err, order := ProcessChanges(plan, changes, connected, now);
    }
  }
}
