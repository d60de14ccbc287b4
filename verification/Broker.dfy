/** The MQTT client and what the broker retains.

    Every message of the program is published as retained. By section 3.3.1.3 of
    MQTT Version 3.1.1 the last retained payload of a topic wins, and an empty
    payload clears the topic. */
module Broker {
  import opened Wrappers
  import opened Mac
  import opened Topics

  datatype Time = ZeroTime | At(ns: int)

  datatype Payload =
    | Home     // "connected"
    | NotHome  // "not_connected"
    | Tracker(name: string, mac: MAC)
    | Attributes(name: string, mac: MAC, isConnected: bool, ssid: string, bssid: string,
                 connectedAt: Option<Time>, disconnectedAt: Option<Time>)  // None: omitted

  /** No payload is the empty payload. */
  datatype Message = Message(topic: Topic, payload: Option<Payload>)

  /** The messages that reached the broker, the latest outermost. */
  datatype Log = Empty | Then(before: Log, msg: Message)

  /** What was published on a topic, in order. */
  function Channel(log: Log, t: Topic): seq<Option<Payload>> {
    match log
    case Empty => []
    case Then(before, msg) => if msg.topic == t then Channel(before, t) + [msg.payload] else Channel(before, t)
  }

  function Last(ch: seq<Option<Payload>>): Option<Payload> {
    if |ch| == 0 then None else ch[|ch| - 1]
  }

  /** What a new subscriber is sent. */
  function Retained(log: Log, t: Topic): Option<Payload> {
    Last(Channel(log, t))
  }

  function Push(log: Log, t: Topic, p: Option<Payload>): (r: Log)
    ensures forall o: Topic {:trigger Channel(r, o)} ::
              Channel(r, o) == if o == t then Channel(log, o) + [p] else Channel(log, o)
  {
    Then(log, Message(t, p))
  }

  function Lookup(store: map<string, Payload>, key: string): Option<Payload> {
    if key in store then Some(store[key]) else None
  }

  function Stored(store: map<string, Payload>, key: string, p: Option<Payload>): map<string, Payload> {
    if p.Some? then store[key := p.value] else store - {key}
  }

  /** What the broker stores by topic strings is what it retains for each device. */
  ghost predicate InStep(topics: MQTTTopics, log: Log, store: map<string, Payload>) {
    forall t: Topic :: Retained(log, t) == Lookup(store, Render(topics, t))
  }

  lemma {:induction false} LookupStored(store: map<string, Payload>, key: string, p: Option<Payload>, k: string)
    ensures Lookup(Stored(store, key, p), k) == if k == key then p else Lookup(store, k)
  {
  }

  lemma {:induction false} RetainedPushed(log: Log, t: Topic, p: Option<Payload>, o: Topic)
    ensures Retained(Push(log, t, p), o) == if o == t then p else Retained(log, o)
  {
    assert Channel(Push(log, t, p), o) == if o == t then Channel(log, o) + [p] else Channel(log, o);
  }

  lemma {:induction false} StaysInStep(topics: MQTTTopics, log: Log, store: map<string, Payload>,
                                       t: Topic, p: Option<Payload>)
    requires InStep(topics, log, store)
    ensures InStep(topics, Push(log, t, p), Stored(store, Render(topics, t), p))
  {
    var key := Render(topics, t);
    forall o: Topic ensures Retained(Push(log, t, p), o) == Lookup(Stored(store, key, p), Render(topics, o)) {
      assert Retained(log, o) == Lookup(store, Render(topics, o));
      LookupStored(store, key, p, Render(topics, o));
      RetainedPushed(log, t, p, o);
      if o != t && Render(topics, o) == key {
        RenderInjective(topics, o, t);
      }
    }
  }

  /** The connection to the broker. Whether an attempt to publish succeeds is up
      to the network: `accepts` tells for each attempt in turn. A refused attempt
      leaves the broker as it was. */
  class MQTT {
    const topics: MQTTTopics
    const accepts: nat -> bool
    var attempts: nat
    var retained: map<string, Payload>
    ghost var log: Log

    ghost predicate Valid()
      reads this
    {
      InStep(topics, log, retained)
    }

    constructor (topics: MQTTTopics, accepts: nat -> bool)
      ensures Valid() && log == Empty && fresh(this)
      ensures this.topics == topics && this.accepts == accepts
    {
      this.topics, this.accepts := topics, accepts;
      attempts := 0;
      retained := map[];
      log := Empty;
    }

    /** One retained message. The store is keyed by topic strings; that these
        keep the devices apart is RenderInjective. */
    method Publish(t: Topic, p: Option<Payload>) returns (ok: bool)
      requires Valid()
      modifies this
      ensures Valid()
      ensures ok == accepts(old(attempts)) && attempts == old(attempts) + 1
      ensures log == if ok then Push(old(log), t, p) else old(log)
    {
      ok := accepts(attempts);
      attempts := attempts + 1;
      if ok {
        StaysInStep(topics, log, retained, t, p);
        var key := Render(topics, t);
        if p.Some? {
          retained := retained[key := p.value];
        } else {
          retained := retained - {key};
        }
        log := Push(log, t, p);
      }
    }
  }
}
