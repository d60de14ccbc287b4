/** The MQTT topics that belong to one device, as values and as the strings the
    program builds. */
module Topics {
  import opened Mac

  datatype Topic = State(mac: MAC) | Attrs(mac: MAC) | Discovery(mac: MAC)

  datatype MQTTTopics = MQTTTopics(name: string, prefix: string, hassPrefix: string)

  function MkTopic(parts: seq<string>): string {
    if |parts| == 0 then ""
    else if |parts| == 1 then parts[0]
    else parts[0] + "/" + MkTopic(parts[1..])
  }

  predicate TopicChar(c: char) {
    'a' <= c <= 'z' || 'A' <= c <= 'Z' || '0' <= c <= '9' || c == '_' || c == '-'
  }

  function ToLower(c: char): char {
    if 'A' <= c <= 'Z' then c - 'A' + 'a' else c
  }

  /** Characters outside the class are dropped, the others lowered. */
  function SanitizeTopic(v: string): string {
    if |v| == 0 then ""
    else (if TopicChar(v[0]) then [ToLower(v[0])] else "") + SanitizeTopic(v[1..])
  }

  function SanitizeMACTopic(mac: string): (r: string)
    ensures |r| == |mac|
  {
    seq(|mac|, i requires 0 <= i < |mac| => if mac[i] == ':' then '-' else ToLower(mac[i]))
  }

  function DeviceDiscovery(t: MQTTTopics, mac: string): string {
    MkTopic([t.hassPrefix, "device_tracker", SanitizeTopic(t.name), SanitizeMACTopic(mac), "config"])
  }

  function DeviceState(t: MQTTTopics, mac: string): string {
    MkTopic([t.prefix, "station", SanitizeTopic(t.name), SanitizeMACTopic(mac), "state"])
  }

  function DeviceJSONAttrs(t: MQTTTopics, mac: string): string {
    MkTopic([t.prefix, "station", SanitizeTopic(t.name), SanitizeMACTopic(mac), "attrs"])
  }

  /** The string of a topic. */
  function Render(t: MQTTTopics, topic: Topic): string {
    match topic
    case State(m) => DeviceState(t, Text(m))
    case Attrs(m) => DeviceJSONAttrs(t, Text(m))
    case Discovery(m) => DeviceDiscovery(t, Text(m))
  }

  lemma {:induction false} SanitizeInjective(v: string, w: string)
    requires IsMAC(v) && IsMAC(w) && UpperText(v) == v && UpperText(w) == w
    requires SanitizeMACTopic(v) == SanitizeMACTopic(w)
    ensures v == w
  {
    forall i | 0 <= i < 17 ensures v[i] == w[i] {
      assert SanitizeMACTopic(v)[i] == SanitizeMACTopic(w)[i];
      assert v[i] == UpperText(v)[i] && w[i] == UpperText(w)[i];
    }
  }

  lemma {:induction false} SanitizedTextInjective(m: MAC, n: MAC)
    requires SanitizeMACTopic(Text(m)) == SanitizeMACTopic(Text(n))
    ensures m == n
  {
    TextIsUpper(m);
    TextIsUpper(n);
    SanitizeInjective(Text(m), Text(n));
    TextInjective(m, n);
  }

  /** A topic of five parts, split at the fourth. */
  lemma {:induction false} FiveParts(a: string, b: string, c: string, d: string, e: string)
    ensures MkTopic([a, b, c, d, e]) == (a + "/" + b + "/" + c + "/") + d + ("/" + e)
  {
    var p0, p1, p2, p3, p4 := [a, b, c, d, e], [b, c, d, e], [c, d, e], [d, e], [e];
    assert p0[1..] == p1 && p1[1..] == p2 && p2[1..] == p3 && p3[1..] == p4;
    assert MkTopic(p3) == d + "/" + e;
    assert MkTopic(p2) == c + "/" + (d + "/" + e);
    assert MkTopic(p1) == b + "/" + (c + "/" + (d + "/" + e));
    assert MkTopic(p0) == a + "/" + (b + "/" + (c + "/" + (d + "/" + e)));
  }

  lemma {:induction false} CancelEnds(pre: string, s: string, t: string, post: string)
    requires pre + s + post == pre + t + post && |s| == |t|
    ensures s == t
  {
    assert s == (pre + s + post)[|pre|..|pre| + |s|];
    assert t == (pre + t + post)[|pre|..|pre| + |t|];
  }

  function Before(t: MQTTTopics, topic: Topic): string {
    if topic.Discovery? then t.hassPrefix + "/" + "device_tracker" + "/" + SanitizeTopic(t.name) + "/"
    else t.prefix + "/" + "station" + "/" + SanitizeTopic(t.name) + "/"
  }

  function After(topic: Topic): string {
    match topic
    case State(_) => "/" + "state"
    case Attrs(_) => "/" + "attrs"
    case Discovery(_) => "/" + "config"
  }

  lemma {:induction false} RenderParts(t: MQTTTopics, topic: Topic)
    ensures Render(t, topic) == Before(t, topic) + SanitizeMACTopic(Text(topic.mac)) + After(topic)
  {
    var n, x := SanitizeTopic(t.name), SanitizeMACTopic(Text(topic.mac));
    match topic
    case State(_) => FiveParts(t.prefix, "station", n, x, "state");
    case Attrs(_) => FiveParts(t.prefix, "station", n, x, "attrs");
    case Discovery(_) => FiveParts(t.hassPrefix, "device_tracker", n, x, "config");
  }

  lemma {:induction false} LastOfRender(t: MQTTTopics, topic: Topic)
    ensures |Render(t, topic)| > 0
    ensures Render(t, topic)[|Render(t, topic)| - 1] ==
            (match topic case State(_) => 'e' case Attrs(_) => 's' case Discovery(_) => 'g')
  {
    RenderParts(t, topic);
    var r, post := Render(t, topic), After(topic);
    assert r[|r| - 1] == post[|post| - 1];
  }

  /** Whatever the prefixes and the access point's name are: topics of different
      devices, and different topics of one device, never meet. */
  lemma {:induction false} RenderInjective(t: MQTTTopics, a: Topic, b: Topic)
    requires Render(t, a) == Render(t, b)
    ensures a == b
  {
    LastOfRender(t, a);
    LastOfRender(t, b);
    RenderParts(t, a);
    RenderParts(t, b);
    assert Before(t, a) == Before(t, b) && After(a) == After(b);
    CancelEnds(Before(t, a), SanitizeMACTopic(Text(a.mac)), SanitizeMACTopic(Text(b.mac)), After(a));
    SanitizedTextInjective(a.mac, b.mac);
  }

  // ----- the texts of the topics -----

  predicate LowerTopicChar(c: char) {
    'a' <= c <= 'z' || '0' <= c <= '9' || c == '_' || c == '-'
  }

  /** The access point's part is safe in a topic whatever its name is, and is the name
      itself if that is safe already. */
  lemma {:induction false} SanitizedIsSafe(v: string)
    ensures forall i :: 0 <= i < |SanitizeTopic(v)| ==> LowerTopicChar(SanitizeTopic(v)[i])
    ensures (forall i :: 0 <= i < |v| ==> LowerTopicChar(v[i])) ==> SanitizeTopic(v) == v
  {
    if |v| > 0 {
      SanitizedIsSafe(v[1..]);
      assert [v[0]] + v[1..] == v;
    }
  }

  lemma {:induction false} SanitizedInParts(v: string, w: string)
    ensures SanitizeTopic(v + w) == SanitizeTopic(v) + SanitizeTopic(w)
  {
    if |v| == 0 {
      assert v + w == w;
    } else {
      SanitizedInParts(v[1..], w);
      assert (v + w)[1..] == v[1..] + w && (v + w)[0] == v[0];
    }
  }

  /** Character by character: letters, digits, underscores and hyphens stay, in lower case,
      and all others go; the parts of a name are sanitized by themselves. */
  lemma {:induction false} SanitizedByCharacter(v: string, c: char)
    ensures SanitizeTopic(v + [c]) ==
            SanitizeTopic(v) +
            (if 'A' <= c <= 'Z' then [c - 'A' + 'a'] else if LowerTopicChar(c) then [c] else [])
  {
    SanitizedInParts(v, [c]);
    assert [c][1..] == "";
    assert SanitizeTopic([c]) == if 'A' <= c <= 'Z' then [c - 'A' + 'a'] else if LowerTopicChar(c) then [c] else [];
  }

  lemma {:induction false} LowerHex(c: char)
    requires FromHex(c).Some? && ToUpper(c) == c
    ensures c != ':' && ToLower(c) in "0123456789abcdef" && FromHex(ToLower(c)) == FromHex(c)
  {
    assert "0123456789abcdef"[FromHex(c).value] == ToLower(c);
  }

  /** The address in a topic: lower-case digits with hyphens for colons. */
  lemma {:induction false} SanitizedAddress(m: MAC)
    ensures var s := SanitizeMACTopic(Text(m));
            && |s| == 17
            && forall i :: 0 <= i < 17 ==>
                 if i % 3 == 2 then s[i] == '-' else s[i] in "0123456789abcdef" && FromHex(s[i]) == FromHex(Text(m)[i])
  {
    TextMatchesPattern(m);
    TextIsUpper(m);
    var s, t := SanitizeMACTopic(Text(m)), Text(m);
    forall i | 0 <= i < 17
      ensures if i % 3 == 2 then s[i] == '-' else s[i] in "0123456789abcdef" && FromHex(s[i]) == FromHex(t[i])
    {
      if i % 3 != 2 {
        assert FromHex(t[i]).Some? && UpperText(t)[i] == t[i];
        LowerHex(t[i]);
      }
    }
  }

  /** The topics as they are documented. */
  lemma {:induction false} TopicTexts(t: MQTTTopics, m: MAC)
    ensures var (name, mac) := (SanitizeTopic(t.name), SanitizeMACTopic(Text(m)));
            && Render(t, State(m)) == t.prefix + "/station/" + name + "/" + mac + "/state"
            && Render(t, Attrs(m)) == t.prefix + "/station/" + name + "/" + mac + "/attrs"
            && Render(t, Discovery(m)) == t.hassPrefix + "/device_tracker/" + name + "/" + mac + "/config"
  {
    var name, mac := SanitizeTopic(t.name), SanitizeMACTopic(Text(m));
    RenderParts(t, State(m));
    RenderParts(t, Attrs(m));
    RenderParts(t, Discovery(m));
    assert "/" + "station" + "/" == "/station/" && "/" + "device_tracker" + "/" == "/device_tracker/";
    assert "/" + "state" == "/state" && "/" + "attrs" == "/attrs" && "/" + "config" == "/config";
    assert t.prefix + "/" + "station" + "/" + name + "/" == t.prefix + "/station/" + name + "/";
    assert t.hassPrefix + "/" + "device_tracker" + "/" + name + "/" == t.hassPrefix + "/device_tracker/" + name + "/";
  }
}
