/** The MQTT side of the bridge, mqtt-restful/src/rxMqtt.ts.

    `RxMqtt` keeps, for every subscribed topic, a subject holding the topic's current value
    (`undefined` until a message arrives), and forwards subscribe, unsubscribe and publish
    requests to the MQTT client. The client is not part of this model: the calls made on it
    are recorded, in order, in `commands`, and an incoming message is the method `OnMessage`. */
module RxMqtt {
  import opened Wrappers

  /** A call made on the MQTT client. */
  datatype ClientCommand =
    | Subscribe(topic: string)
    | Unsubscribe(topic: string)
    | Publish(topic: string, message: string)

  /** What `sub$` returns: the topic's subject, which hands a new reader its current value and
      then every later one, or, for a topic without an entry, `of(undefined)`, which yields a
      single `undefined` and completes. */
  datatype SubStream = Subject(topic: string, current: Option<string>) | Single(value: Option<string>)

  /** The first value a reader of the stream receives: what `first()` keeps. */
  function First(s: SubStream): Option<string> {
    match s
    case Subject(_, v) => v
    case Single(v) => v
  }

  /** The value a topic map holds for `topic`, `undefined` when it has no entry. */
  function CacheOf(topics: map<string, Option<string>>, topic: string): Option<string> {
    if topic in topics then topics[topic] else None
  }

  /** Something that changes the topic map: a subscription, an unsubscription, or a message
      arriving from the broker. */
  datatype Event =
    | Subscribed(topic: string)
    | Unsubscribed(topic: string)
    | Message(topic: string, payload: string)

  /** The topic map after one event. A subscription installs a fresh entry holding
      `undefined`, replacing any earlier one; an unsubscription removes the entry; a message
      overwrites the value of its topic if the topic has an entry and is otherwise lost.
      Nothing else changes. */
  function Step(topics: map<string, Option<string>>, e: Event): (r: map<string, Option<string>>)
    ensures forall t :: t != e.topic ==> (t in r <==> t in topics) && CacheOf(r, t) == CacheOf(topics, t)
    ensures e.Subscribed? ==> e.topic in r && r[e.topic] == None
    ensures e.Unsubscribed? ==> e.topic !in r
    ensures e.Message? ==> (e.topic in r <==> e.topic in topics)
    ensures e.Message? && e.topic in topics ==> r[e.topic] == Some(e.payload)
  {
    match e
    case Subscribed(t) => topics[t := None]
    case Unsubscribed(t) => topics - {t}
    case Message(t, m) => if t in topics then topics[t := Some(m)] else topics
  }

  /** The topic map after a run of events, taken in order. */
  function Run(topics: map<string, Option<string>>, events: seq<Event>): map<string, Option<string>>
    decreases |events|
  {
    if events == [] then topics else Run(Step(topics, events[0]), events[1..])
  }

  /** After a message `v` on a subscribed topic, the topic's cached value is `v` for as long
      as nothing else happens to that topic, whatever happens to other topics. */
  lemma {:induction false} CacheHoldsUntilNewer(topics: map<string, Option<string>>, t: string, v: string, later: seq<Event>)
    requires t in topics
    requires forall i :: 0 <= i < |later| ==> later[i].topic != t
    ensures CacheOf(Run(Step(topics, Message(t, v)), later), t) == Some(v)
    decreases |later|
  {
    if later != [] {
      var after := Step(topics, Message(t, v));
      var next := Step(after, later[0]);
      assert t in next && next[t] == Some(v);
      assert Step(next, Message(t, v)) == next;
      CacheHoldsUntilNewer(next, t, v, later[1..]);
    }
  }

  class RxMqtt {
    /** `topic2Sub$`, as the current value of each topic's subject. */
    var topic2Sub: map<string, Option<string>>
    /** The calls made on the MQTT client so far. */
    var commands: seq<ClientCommand>

    constructor ()
      ensures topic2Sub == map[] && commands == []
    {
      topic2Sub := map[];
      commands := [];
    }

    /** `sub$`: the topic's subject, or a single `undefined` for a topic without an entry. */
    function Sub(topic: string): (s: SubStream)
      reads this
      ensures s.Subject? <==> topic in topic2Sub
      ensures First(s) == CacheOf(topic2Sub, topic)
    {
      if topic in topic2Sub then Subject(topic, topic2Sub[topic]) else Single(None)
    }

    /** `subCache$`: exactly one value, the topic's current value, or `undefined` when the
        topic has no entry. */
    function SubCache(topic: string): (v: Option<string>)
      reads this
      ensures topic !in topic2Sub ==> v == None
      ensures topic in topic2Sub ==> v == topic2Sub[topic]
    {
      First(Sub(topic))
    }

    /** `pub(topic).next(message)`: exactly one publish on the client. */
    method Pub(topic: string, message: string)
      modifies this
      ensures commands == old(commands) + [Publish(topic, message)]
      ensures topic2Sub == old(topic2Sub)
    {
      commands := commands + [Publish(topic, message)];
    }

    /** `subscribe().next(topic)`: one subscribe on the client, and a fresh entry holding
        `undefined` that replaces any earlier one. */
    method Subscribe(topic: string)
      modifies this
      ensures commands == old(commands) + [ClientCommand.Subscribe(topic)]
      ensures topic2Sub == Step(old(topic2Sub), Subscribed(topic))
      ensures Sub(topic).Subject? && SubCache(topic) == None
    {
      commands := commands + [ClientCommand.Subscribe(topic)];
      topic2Sub := topic2Sub[topic := None];
    }

    /** `unsubscribe().next(topic)`: nothing for a topic without an entry; otherwise the
        entry is completed and removed and the client unsubscribes once. */
    method Unsubscribe(topic: string)
      modifies this
      ensures old(topic !in topic2Sub) ==> topic2Sub == old(topic2Sub) && commands == old(commands)
      ensures old(topic in topic2Sub) ==>
        && topic2Sub == Step(old(topic2Sub), Unsubscribed(topic))
        && commands == old(commands) + [ClientCommand.Unsubscribe(topic)]
      ensures Sub(topic) == Single(None)
    {
      if topic !in topic2Sub {
        return;
      }
      topic2Sub := topic2Sub - {topic};
      commands := commands + [ClientCommand.Unsubscribe(topic)];
    }

    /** A message arriving from the broker: the subject of its topic takes the payload as its
        current value; other topics keep theirs. */
    method OnMessage(topic: string, payload: string)
      modifies this
      ensures topic2Sub == Step(old(topic2Sub), Message(topic, payload))
      ensures commands == old(commands)
      ensures old(topic in topic2Sub) ==> SubCache(topic) == Some(payload)
    {
      if topic in topic2Sub {
        topic2Sub := topic2Sub[topic := Some(payload)];
      }
    }
  }
}
