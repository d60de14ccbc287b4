/** From what the access points answer to what a configuration announces. */
module Listings {
  import opened Wrappers
  import opened Topics
  import opened Broker
  import opened Debounce
  import opened Presence
  import opened Daemon
  import opened OneStation
  import Control
  import Mac
  import Reconcile
  import Replies
  import Scan

  type MAC = Mac.MAC

  // ----- what a listing says of a MAC -----

  /** The list has the MAC at position j, associated. */
  predicate Sees(list: seq<Replies.Station>, j: int, m: MAC) {
    0 <= j < |list| && list[j].associated && Mac.Decode(list[j].mac) == Some(m)
  }

  ghost predicate LastSeen(list: seq<Replies.Station>, j: int, m: MAC) {
    Sees(list, j, m) && forall k :: j < k < |list| ==> !Sees(list, k, m)
  }

  ghost predicate SeenAt(poll: Poll, m: MAC) {
    poll.listing.Ok? && exists j :: Sees(poll.listing.value, j, m)
  }

  ghost predicate SeenAnywhere(polls: seq<Poll>, m: MAC) {
    exists i :: 0 <= i < |polls| && SeenAt(polls[i], m)
  }

  /** Access point i is the last to list the MAC, and j its last place there. */
  ghost predicate LastSighting(polls: seq<Poll>, i: int, j: int, m: MAC) {
    && 0 <= i < |polls| && polls[i].listing.Ok? && LastSeen(polls[i].listing.value, j, m)
    && forall k :: i < k < |polls| ==> !SeenAt(polls[k], m)
  }

  function LinkAt(polls: seq<Poll>, i: int, j: int): Link
    requires 0 <= i < |polls| && polls[i].listing.Ok? && 0 <= j < |polls[i].listing.value|
  {
    Link(polls[i].ap, polls[i].listing.value[j].connected)
  }

  lemma {:induction false} SeenInRest(ap: AccessPoint, list: seq<Replies.Station>, m: MAC)
    requires |list| > 0
    ensures SeenAt(Poll(ap, Ok(list)), m) <==> Sees(list, 0, m) || SeenAt(Poll(ap, Ok(list[1..])), m)
  {
    var rest := list[1..];
    if j :| Sees(list, j, m) {
      assert j > 0 ==> Sees(rest, j - 1, m);
    }
    if j :| Sees(rest, j, m) {
      assert Sees(list, j + 1, m);
    }
  }

  lemma {:induction false} CollectedList(links: map<MAC, Link>, ap: AccessPoint, list: seq<Replies.Station>, m: MAC)
    requires Usable(Poll(ap, Ok(list)))
    ensures var all := CollectList(links, ap, list);
            && all.Some? && (m in all.value <==> m in links || SeenAt(Poll(ap, Ok(list)), m))
            && (forall j :: LastSeen(list, j, m) ==> m in all.value && all.value[m] == Link(ap, list[j].connected))
            && (m in links && !SeenAt(Poll(ap, Ok(list)), m) ==> all.value[m] == links[m])
    decreases |list|
  {
    if |list| > 0 {
      var rest := list[1..];
      var next := if list[0].associated then links[Mac.Decode(list[0].mac).value := Link(ap, list[0].connected)]
                  else links;
      assert forall j :: 0 <= j < |rest| ==> rest[j] == list[j + 1];
      CollectedList(next, ap, rest, m);
      SeenInRest(ap, list, m);
      forall j | LastSeen(list, j, m)
        ensures var all := CollectList(links, ap, list).value; m in all && all[m] == Link(ap, list[j].connected)
      {
        forall k | j - 1 < k < |rest| ensures !Sees(rest, k, m) {
          assert !Sees(list, k + 1, m);
        }
        assert j > 0 ==> LastSeen(rest, j - 1, m);
      }
    }
  }

  lemma {:induction false} CollectedAll(links: map<MAC, Link>, polls: seq<Poll>, m: MAC)
    requires AllUsable(polls)
    ensures var all := CollectAll(links, polls);
            && all.Listing? && (m in all.links <==> m in links || SeenAnywhere(polls, m))
            && (forall i, j :: LastSighting(polls, i, j, m) ==> m in all.links && all.links[m] == LinkAt(polls, i, j))
            && (m in links && !SeenAnywhere(polls, m) ==> all.links[m] == links[m])
    decreases |polls|
  {
    if |polls| > 0 {
      var poll, rest := polls[0], polls[1..];
      assert forall i :: 0 <= i < |rest| ==> rest[i] == polls[i + 1];
      assert poll == Poll(poll.ap, Ok(poll.listing.value));
      CollectedList(links, poll.ap, poll.listing.value, m);
      var more := CollectList(links, poll.ap, poll.listing.value).value;
      CollectedAll(more, rest, m);
      assert SeenAnywhere(polls, m) <==> SeenAt(poll, m) || SeenAnywhere(rest, m) by {
        if i :| 0 < i < |polls| && SeenAt(polls[i], m) {
          assert SeenAt(rest[i - 1], m);
        }
      }
      forall i, j | LastSighting(polls, i, j, m)
        ensures var all := CollectAll(links, polls).links; m in all && all[m] == LinkAt(polls, i, j)
      {
        if i > 0 {
          assert LastSighting(rest, i - 1, j, m) by {
            assert forall k :: i - 1 < k < |rest| ==> rest[k] == polls[k + 1];
          }
        } else {
          assert !SeenAnywhere(rest, m) by {
            assert forall k :: 0 <= k < |rest| ==> rest[k] == polls[k + 1];
          }
        }
      }
    }
  }

  // ----- what is announced -----

  /** The station is tracked as connected, there and since then. */
  predicate ConnectedSince(w: World, m: MAC, ap: AccessPoint, at: int) {
    && m in w.stations && w.stations[m].connected
    && w.stations[m].bssid == ap.bssid && w.stations[m].connectedAt == At(at)
  }

  lemma {:induction false} PlacedByLink(settings: Settings, w: World, devices: seq<Device>, snapshot: Snapshot,
                                        order: seq<MAC>, now: int, m: MAC)
    requires WorldOk(w) && IsOrder(order, Plan(w.stations, devices).changes.Keys)
    requires |NamesOf(devices, m)| == 1 && m !in w.stations
    requires snapshot.Listing? && m in snapshot.links
    ensures ConnectedSince(Configure(settings, w, devices, snapshot, order, now), m, snapshot.links[m].ap,
                           now - snapshot.links[m].connectedFor)
  {
    Reconcile.StationsAfterConfigure(settings, w, devices, snapshot, order, now, m);
  }

  lemma {:induction false} PlacedAsPolled(settings: Settings, w: World, devices: seq<Device>, polls: seq<Poll>,
                                          order: seq<MAC>, now: int, m: MAC, i: int, j: int)
    requires WorldOk(w) && IsOrder(order, Plan(w.stations, devices).changes.Keys)
    requires |NamesOf(devices, m)| == 1 && m !in w.stations
    requires AllUsable(polls) && LastSighting(polls, i, j, m)
    ensures ConnectedSince(Configure(settings, w, devices, CollectAll(map[], polls), order, now), m,
                           polls[i].ap, now - polls[i].listing.value[j].connected)
  {
    CollectedAll(map[], polls, m);
    PlacedByLink(settings, w, devices, CollectAll(map[], polls), order, now, m);
  }

  /** A MAC that a configuration starts to track and names once, when every access point
      is of use: it is connected, and announced so, exactly if one of them lists it as
      associated. (Where and since when, the last one to do so says.) */
  lemma {:induction false} AnnouncedAsPolled(settings: Settings, w: World, devices: seq<Device>, polls: seq<Poll>,
                                             order: seq<MAC>, now: int, m: MAC)
    requires WorldOk(w) && IsOrder(order, Plan(w.stations, devices).changes.Keys)
    requires |NamesOf(devices, m)| == 1 && m !in w.stations
    requires AllUsable(polls)
    ensures var r := Configure(settings, w, devices, CollectAll(map[], polls), order, now);
            && m in r.stations && (r.stations[m].connected <==> SeenAnywhere(polls, m))
            && Retained(r.log, State(m)) == Some(if SeenAnywhere(polls, m) then Home else NotHome)
  {
    CollectedAll(map[], polls, m);
    Reconcile.StationsAfterConfigure(settings, w, devices, CollectAll(map[], polls), order, now, m);
  }

  /** And when the first access point that is of no use does not know the command: the MAC
      is announced as not connected, whatever the others list. */
  lemma {:induction false} AnnouncedWithoutListing(settings: Settings, w: World, devices: seq<Device>,
                                                   polls: seq<Poll>, k: nat, order: seq<MAC>, now: int, m: MAC)
    requires WorldOk(w) && IsOrder(order, Plan(w.stations, devices).changes.Keys)
    requires |NamesOf(devices, m)| == 1 && m !in w.stations
    requires FirstUnusable(polls, k) && LacksCommand(polls[k])
    ensures var r := Configure(settings, w, devices, CollectAll(map[], polls), order, now);
            && m in r.stations && !r.stations[m].connected
            && Retained(r.log, State(m)) == Some(NotHome)
  {
    FirstUnusableDecides(map[], polls);
    Reconcile.StationsAfterConfigure(settings, w, devices, CollectAll(map[], polls), order, now, m);
  }

  // ----- the repository's hostapd -----

  /** An access point with the stations that its hostapd serves. */
  datatype Hostapd = Hostapd(ap: AccessPoint, stations: seq<Replies.StationResp>)

  predicate InOrder(h: Hostapd) {
    Control.Sound(h.stations) && Control.DistinctMacs(h.stations)
  }

  predicate AllInOrder(hs: seq<Hostapd>) {
    forall i :: 0 <= i < |hs| ==> InOrder(hs[i])
  }

  /** The client's walk along that list. */
  function PollOf(h: Hostapd): Poll {
    Poll(h.ap, Control.Walk(Control.Served(Control.Against(h.stations), |h.stations| + 1)).0)
  }

  function PollsOf(hs: seq<Hostapd>): seq<Poll> {
    Control.Map(PollOf, hs)
  }

  predicate Associates(list: seq<Replies.StationResp>, m: MAC) {
    exists j :: 0 <= j < |list| && list[j].assoc && Mac.Decode(list[j].mac) == Some(m)
  }

  predicate AnyAssociates(hs: seq<Hostapd>, m: MAC) {
    exists i :: 0 <= i < |hs| && Associates(hs[i].stations, m)
  }

  predicate LastToAssociate(hs: seq<Hostapd>, i: int, m: MAC) {
    && 0 <= i < |hs| && Associates(hs[i].stations, m)
    && forall k :: i < k < |hs| ==> !Associates(hs[k].stations, m)
  }

  lemma {:induction false} PollIsTheList(h: Hostapd)
    requires InOrder(h)
    ensures PollOf(h) == Poll(h.ap, Ok(Control.AsStations(h.stations)))
  {
    Control.ServedIsTheList(h.stations);
    Control.WalkIsTheList(h.stations);
  }

  lemma {:induction false} SeenAsServed(h: Hostapd, m: MAC)
    requires InOrder(h)
    ensures Usable(PollOf(h)) && PollOf(h).ap == h.ap && PollOf(h).listing.Ok?
    ensures SeenAt(PollOf(h), m) <==> Associates(h.stations, m)
    ensures forall j :: 0 <= j < |PollOf(h).listing.value| ==> PollOf(h).listing.value[j].connected == 0
  {
    PollIsTheList(h);
    var list := Control.AsStations(h.stations);
    forall j | 0 <= j < |list| ensures list[j] == Replies.AsStation(h.stations[j]) && Mac.Decode(list[j].mac).Some? {
      Mac.DecodeOfPattern(h.stations[j].mac);
    }
    if j :| 0 <= j < |h.stations| && h.stations[j].assoc && Mac.Decode(h.stations[j].mac) == Some(m) {
      assert Sees(list, j, m);
    }
  }

  lemma {:induction false} LastSeenExists(list: seq<Replies.Station>, j: int, m: MAC) returns (last: int)
    requires Sees(list, j, m)
    ensures LastSeen(list, last, m)
    decreases |list| - j
  {
    if k :| j < k < |list| && Sees(list, k, m) {
      last := LastSeenExists(list, k, m);
    } else {
      last := j;
    }
  }

  lemma {:induction false} PollsAsServed(hs: seq<Hostapd>, m: MAC)
    requires AllInOrder(hs)
    ensures AllUsable(PollsOf(hs)) && (SeenAnywhere(PollsOf(hs), m) <==> AnyAssociates(hs, m))
    ensures forall i :: LastToAssociate(hs, i, m) ==>
              exists j :: LastSighting(PollsOf(hs), i, j, m) && PollsOf(hs)[i].listing.value[j].connected == 0
  {
    var polls := PollsOf(hs);
    forall i | 0 <= i < |hs|
      ensures Usable(polls[i]) && (SeenAt(polls[i], m) <==> Associates(hs[i].stations, m))
    {
      SeenAsServed(hs[i], m);
    }
    if i :| 0 <= i < |hs| && Associates(hs[i].stations, m) {
      assert SeenAt(polls[i], m);
    }
    forall i | LastToAssociate(hs, i, m)
      ensures exists j :: LastSighting(polls, i, j, m) && polls[i].listing.value[j].connected == 0
    {
      SeenAsServed(hs[i], m);
      assert SeenAt(polls[i], m);
      var j :| Sees(polls[i].listing.value, j, m);
      var last := LastSeenExists(polls[i].listing.value, j, m);
      assert LastSighting(polls, i, last, m);
    }
  }

  /** From the lists that the access points serve, through the walks: connected, and
      announced so, exactly if one of them has the MAC as associated. */
  lemma {:induction false} AnnouncedAsServed(settings: Settings, w: World, devices: seq<Device>, hs: seq<Hostapd>,
                                             order: seq<MAC>, now: int, m: MAC)
    requires WorldOk(w) && IsOrder(order, Plan(w.stations, devices).changes.Keys)
    requires |NamesOf(devices, m)| == 1 && m !in w.stations
    requires AllInOrder(hs)
    ensures var r := Configure(settings, w, devices, CollectAll(map[], PollsOf(hs)), order, now);
            && m in r.stations && (r.stations[m].connected <==> AnyAssociates(hs, m))
            && Retained(r.log, State(m)) == Some(if AnyAssociates(hs, m) then Home else NotHome)
  {
    PollsAsServed(hs, m);
    AnnouncedAsPolled(settings, w, devices, PollsOf(hs), order, now, m);
  }

  lemma {:induction false} LinkAsServed(hs: seq<Hostapd>, m: MAC, i: int)
    requires AllInOrder(hs) && LastToAssociate(hs, i, m)
    ensures var all := CollectAll(map[], PollsOf(hs));
            all.Listing? && m in all.links && all.links[m] == Link(hs[i].ap, 0)
  {
    PollsAsServed(hs, m);
    var polls := PollsOf(hs);
    var j :| LastSighting(polls, i, j, m) && polls[i].listing.value[j].connected == 0;
    CollectedAll(map[], polls, m);
    SeenAsServed(hs[i], m);
  }

  /** And then it is at the last one that has it so, since now, as these replies give no
      time. */
  lemma {:induction false} PlacedAsServed(settings: Settings, w: World, devices: seq<Device>, hs: seq<Hostapd>,
                                          order: seq<MAC>, now: int, m: MAC, i: int)
    requires WorldOk(w) && IsOrder(order, Plan(w.stations, devices).changes.Keys)
    requires |NamesOf(devices, m)| == 1 && m !in w.stations
    requires AllInOrder(hs) && LastToAssociate(hs, i, m)
    ensures ConnectedSince(Configure(settings, w, devices, CollectAll(map[], PollsOf(hs)), order, now), m,
                           hs[i].ap, now)
  {
    LinkAsServed(hs, m, i);
    PlacedByLink(settings, w, devices, CollectAll(map[], PollsOf(hs)), order, now, m);
  }

  /** Whatever the configuration repeats: that holds of a MAC it starts to track exactly
      if it names it once, or nobody serves it as associated and the broker says already
      that it is not home. */
  lemma {:induction false} AnnouncedAsServedExactly(settings: Settings, w: World, devices: seq<Device>,
                                                    hs: seq<Hostapd>, order: seq<MAC>, now: int, m: MAC)
    requires WorldOk(w) && IsOrder(order, Plan(w.stations, devices).changes.Keys)
    requires NamesOf(devices, m) != [] && m !in w.stations
    requires AllInOrder(hs)
    ensures m in Configure(settings, w, devices, CollectAll(map[], PollsOf(hs)), order, now).stations
    ensures var r := Configure(settings, w, devices, CollectAll(map[], PollsOf(hs)), order, now);
            (&& (r.stations[m].connected <==> AnyAssociates(hs, m))
             && Retained(r.log, State(m)) == Some(if AnyAssociates(hs, m) then Home else NotHome)) <==>
            |NamesOf(devices, m)| == 1 || (!AnyAssociates(hs, m) && Retained(w.log, State(m)) == Some(NotHome))
  {
    PollsAsServed(hs, m);
    CollectedAll(map[], PollsOf(hs), m);
    Reconcile.AnnouncedAsListedExactly(settings, w, devices, CollectAll(map[], PollsOf(hs)), order, now, m);
  }

  // ----- a full hostapd -----

  /** A station as a hostapd prints it. */
  datatype Printed = Printed(mac: string, items: seq<Replies.Item>)

  datatype Radio = Radio(ap: AccessPoint, stations: seq<Printed>)

  function Reply(p: Printed): string {
    Replies.PrintStation(p.mac, p.items)
  }

  predicate Legible(p: Printed) {
    Mac.IsMAC(p.mac) && Replies.AllPrintable(p.items) && |Reply(p)| <= 4096
  }

  predicate AllLegible(radios: seq<Radio>) {
    forall i, j :: 0 <= i < |radios| && 0 <= j < |radios[i].stations| ==> Legible(radios[i].stations[j])
  }

  /** The walk along these replies, which ends in an empty one. */
  function PollOfRadio(radio: Radio): Poll {
    Poll(radio.ap,
         Control.Walk(Control.Datagrams(Control.Map(Reply, radio.stations)) + [Control.Datagram("")]).0)
  }

  function PollsOfRadios(radios: seq<Radio>): seq<Poll> {
    Control.Map(PollOfRadio, radios)
  }

  /** The station is what was printed. */
  ghost predicate IsPrinted(s: Replies.Station, p: Printed) {
    && s.mac == p.mac && Replies.ShowsAll(p.items, s)
    && Replies.Leaves(p.items, Replies.NO_STATION.(mac := p.mac), s)
  }

  lemma {:induction false} PrintedIsRead(p: Printed) returns (s: Replies.Station)
    requires Legible(p)
    ensures Control.Reads(Reply(p), s) && IsPrinted(s, p)
  {
    s := Replies.PrintedRoundTrip(p.mac, p.items);
    assert Reply(p)[0] == p.mac[0] && Mac.FromHex(p.mac[0]).Some? && Mac.FromHex('U').None?;
    Control.NotUnknown(Reply(p));
  }

  lemma {:induction false} AllPrintedAreRead(ps: seq<Printed>) returns (stations: seq<Replies.Station>)
    requires forall j :: 0 <= j < |ps| ==> Legible(ps[j])
    ensures Control.AllRead(Control.Map(Reply, ps), stations)
    ensures forall j :: 0 <= j < |ps| ==> IsPrinted(stations[j], ps[j])
  {
    if |ps| == 0 {
      stations := [];
    } else {
      var s := PrintedIsRead(ps[0]);
      var rest := AllPrintedAreRead(ps[1..]);
      stations := [s] + rest;
      Control.MapHead(Reply, ps);
      forall j | 0 <= j < |ps|
        ensures Control.Reads(Control.Map(Reply, ps)[j], stations[j]) && IsPrinted(stations[j], ps[j])
      {
        if j > 0 {
          assert Control.Reads(Control.Map(Reply, ps[1..])[j - 1], rest[j - 1]);
        }
      }
    }
  }

  /** A radio's walk yields its stations, each as it was printed. */
  lemma {:induction false} PollOfPrinted(radio: Radio)
    requires forall j :: 0 <= j < |radio.stations| ==> Legible(radio.stations[j])
    ensures var poll := PollOfRadio(radio);
            && poll.ap == radio.ap && poll.listing.Ok? && |poll.listing.value| == |radio.stations| && Usable(poll)
            && forall j :: 0 <= j < |radio.stations| ==> IsPrinted(poll.listing.value[j], radio.stations[j])
  {
    var stations := AllPrintedAreRead(radio.stations);
    var replies := Control.Map(Reply, radio.stations);
    if |replies| == 0 {
      assert Control.Datagrams(replies) + [Control.Datagram("")] == [Control.Datagram("")] && stations == [];
      Control.EmptyWalk();
    } else {
      Control.WalkReplies(replies, stations, [Control.Datagram("")]);
    }
    forall j | 0 <= j < |stations| ensures Mac.Decode(stations[j].mac).Some? {
      Mac.DecodeOfPattern(radio.stations[j].mac);
    }
  }

  /** The last flags that are printed say so. */
  ghost predicate PrintsAssociated(p: Printed) {
    exists k :: && Replies.IsLastOfKind(p.items, k) && p.items[k].Flags?
                && exists x :: 0 <= x <= |p.items[k].text| && "[ASSOC]" <= p.items[k].text[x..]
  }

  ghost predicate Prints(ps: seq<Printed>, j: int, m: MAC) {
    0 <= j < |ps| && PrintsAssociated(ps[j]) && Mac.Decode(ps[j].mac) == Some(m)
  }

  ghost predicate PrintsAny(ps: seq<Printed>, m: MAC) {
    exists j :: Prints(ps, j, m)
  }

  ghost predicate AnyPrints(radios: seq<Radio>, m: MAC) {
    exists i :: 0 <= i < |radios| && PrintsAny(radios[i].stations, m)
  }

  /** Radio i is the last to print the MAC as associated, and that at j last. */
  ghost predicate LastPrinted(radios: seq<Radio>, i: int, j: int, m: MAC) {
    && 0 <= i < |radios| && Prints(radios[i].stations, j, m)
    && (forall k :: j < k < |radios[i].stations| ==> !Prints(radios[i].stations, k, m))
    && forall k :: i < k < |radios| ==> !PrintsAny(radios[k].stations, m)
  }

  lemma {:induction false} LastFlagsExist(items: seq<Replies.Item>, k: nat) returns (last: nat)
    requires k < |items| && items[k].Flags?
    ensures Replies.IsLastOfKind(items, last) && items[last].Flags?
    decreases |items| - k
  {
    if l :| k < l < |items| && items[l].Flags? {
      last := LastFlagsExist(items, l);
    } else {
      last := k;
    }
  }

  lemma {:induction false} LastFlagsAreOne(items: seq<Replies.Item>, k: int, l: int)
    requires Replies.IsLastOfKind(items, k) && Replies.IsLastOfKind(items, l) && items[k].Flags? && items[l].Flags?
    ensures k == l
  {
  }

  lemma {:induction false} AssociatedAsPrinted(s: Replies.Station, p: Printed)
    requires IsPrinted(s, p)
    ensures s.associated <==> PrintsAssociated(p)
  {
    if k :| 0 <= k < |p.items| && p.items[k].Flags? {
      var last := LastFlagsExist(p.items, k);
      assert Replies.Shows(p.items[last], s);
      forall l | Replies.IsLastOfKind(p.items, l) && p.items[l].Flags? ensures l == last {
        LastFlagsAreOne(p.items, l, last);
      }
    }
  }

  lemma {:induction false} SeenAsPrinted(radio: Radio, m: MAC)
    requires forall j :: 0 <= j < |radio.stations| ==> Legible(radio.stations[j])
    ensures PollOfRadio(radio).listing.Ok?
    ensures forall j :: Sees(PollOfRadio(radio).listing.value, j, m) <==> Prints(radio.stations, j, m)
    ensures SeenAt(PollOfRadio(radio), m) <==> PrintsAny(radio.stations, m)
  {
    PollOfPrinted(radio);
    var list := PollOfRadio(radio).listing.value;
    forall j ensures Sees(list, j, m) <==> Prints(radio.stations, j, m) {
      if 0 <= j < |list| {
        AssociatedAsPrinted(list[j], radio.stations[j]);
      }
    }
    if j :| Prints(radio.stations, j, m) {
      assert Sees(list, j, m);
    }
    if j :| Sees(list, j, m) {
      assert Prints(radio.stations, j, m);
    }
  }

  lemma {:induction false} PollsAsPrinted(radios: seq<Radio>, m: MAC)
    requires AllLegible(radios)
    ensures AllUsable(PollsOfRadios(radios))
    ensures SeenAnywhere(PollsOfRadios(radios), m) <==> AnyPrints(radios, m)
    ensures forall i, j :: LastPrinted(radios, i, j, m) ==> LastSighting(PollsOfRadios(radios), i, j, m)
  {
    var polls := PollsOfRadios(radios);
    forall i | 0 <= i < |radios|
      ensures Usable(polls[i]) && (SeenAt(polls[i], m) <==> PrintsAny(radios[i].stations, m))
    {
      PollOfPrinted(radios[i]);
      SeenAsPrinted(radios[i], m);
    }
    forall i, j | LastPrinted(radios, i, j, m) ensures LastSighting(polls, i, j, m) {
      SeenAsPrinted(radios[i], m);
    }
  }

  /** How long the station is connected, in nanoseconds: what is printed last, or nothing
      if nothing is. */
  ghost predicate GivesTime(p: Printed, since: int) {
    || (since == 0 && forall l :: 0 <= l < |p.items| ==> !p.items[l].ConnectedTime?)
    || (exists k :: && Replies.IsLastOfKind(p.items, k) && p.items[k].ConnectedTime?
                    && since == 1_000_000_000 * p.items[k].seconds && Scan.IsInt64(since))
  }

  lemma {:induction false} TimeAsPrinted(s: Replies.Station, p: Printed, since: int)
    requires IsPrinted(s, p) && GivesTime(p, since)
    ensures s.connected == since
  {
    if k :| Replies.IsLastOfKind(p.items, k) && p.items[k].ConnectedTime?
            && since == 1_000_000_000 * p.items[k].seconds && Scan.IsInt64(since) {
      assert Replies.Shows(p.items[k], s);
    }
  }

  /** From what the access points print, through the walks and the parser, to the station
      and the broker: connected, and announced so, exactly if one of them prints it as
      associated. */
  lemma {:induction false} AnnouncedAsPrinted(settings: Settings, w: World, devices: seq<Device>, radios: seq<Radio>,
                                              order: seq<MAC>, now: int, m: MAC)
    requires WorldOk(w) && IsOrder(order, Plan(w.stations, devices).changes.Keys)
    requires |NamesOf(devices, m)| == 1 && m !in w.stations
    requires AllLegible(radios)
    ensures var r := Configure(settings, w, devices, CollectAll(map[], PollsOfRadios(radios)), order, now);
            && m in r.stations && (r.stations[m].connected <==> AnyPrints(radios, m))
            && Retained(r.log, State(m)) == Some(if AnyPrints(radios, m) then Home else NotHome)
  {
    PollsAsPrinted(radios, m);
    AnnouncedAsPolled(settings, w, devices, PollsOfRadios(radios), order, now, m);
  }

  lemma {:induction false} LinkAsPrinted(radios: seq<Radio>, m: MAC, i: int, j: int, since: int)
    requires AllLegible(radios) && LastPrinted(radios, i, j, m) && GivesTime(radios[i].stations[j], since)
    ensures var all := CollectAll(map[], PollsOfRadios(radios));
            all.Listing? && m in all.links && all.links[m] == Link(radios[i].ap, since)
  {
    var polls := PollsOfRadios(radios);
    PollsAsPrinted(radios, m);
    PollOfPrinted(radios[i]);
    CollectedAll(map[], polls, m);
    assert LastSighting(polls, i, j, m);
    TimeAsPrinted(polls[i].listing.value[j], radios[i].stations[j], since);
  }

  /** And then it is at the last one that prints it so, since as many seconds ago as that
      one prints, if it prints them, and since now if it does not. */
  lemma {:induction false} PlacedAsPrinted(settings: Settings, w: World, devices: seq<Device>, radios: seq<Radio>,
                                           order: seq<MAC>, now: int, m: MAC, i: int, j: int, since: int)
    requires WorldOk(w) && IsOrder(order, Plan(w.stations, devices).changes.Keys)
    requires |NamesOf(devices, m)| == 1 && m !in w.stations
    requires AllLegible(radios) && LastPrinted(radios, i, j, m) && GivesTime(radios[i].stations[j], since)
    ensures ConnectedSince(Configure(settings, w, devices, CollectAll(map[], PollsOfRadios(radios)), order, now), m,
                           radios[i].ap, now - since)
  {
    LinkAsPrinted(radios, m, i, j, since);
    PlacedByLink(settings, w, devices, CollectAll(map[], PollsOfRadios(radios)), order, now, m);
  }
}
