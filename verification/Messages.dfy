/** Message envelopes, their queued form, and topic names. */
module Messages {
  import opened Status
  import opened JsonText

  const TOPIC_CAPACITY: nat := 96
  const PAYLOAD_CAPACITY: nat := 256

  datatype Qos = AtMostOnce | AtLeastOnce

  /** `topic` is the whole buffer; the payload view carries its size. */
  datatype Envelope = Envelope(topic: string, payload: string, qos: Qos, retain: bool, correlation: nat)

  /** A record of the queue owns its buffers. */
  datatype Queued = Queued(topic: string, payload: string, payloadSize: nat, qos: Qos, retain: bool, correlation: nat)

  function Nuls(n: nat): (r: string)
    ensures |r| == n && forall i :: 0 <= i < n ==> r[i] == '\0'
  {
    seq(n, _ => '\0')
  }

  function TextOf(buffer: string): (r: Text)
    ensures |r| <= |buffer| && r <= buffer && (|r| < |buffer| ==> buffer[|r|] == '\0')
  {
    if buffer == [] || buffer[0] == '\0' then [] else [buffer[0]] + TextOf(buffer[1..])
  }

  lemma {:induction false} TextOfPadded(text: Text, n: nat)
    ensures TextOf(text + Nuls(n)) == text
  {
    if text == [] {
      assert text + Nuls(n) == Nuls(n);
    } else {
      assert (text + Nuls(n))[1..] == text[1..] + Nuls(n);
      TextOfPadded(text[1..], n);
    }
  }

  /** A topic buffer as topic construction leaves it: a terminated text, then NULs. */
  predicate CleanTopic(topic: string) {
    |topic| == TOPIC_CAPACITY && |TextOf(topic)| < TOPIC_CAPACITY
    && topic == TextOf(topic) + Nuls(TOPIC_CAPACITY - |TextOf(topic)|)
  }

  /** What the queue can hold: a bounded payload and a terminated topic. */
  predicate Queueable(m: Envelope) {
    |m.payload| <= PAYLOAD_CAPACITY && |m.topic| == TOPIC_CAPACITY && |TextOf(m.topic)| < TOPIC_CAPACITY
  }

  function Stored(m: Envelope): (q: Queued)
    requires Queueable(m)
  {
    var text := TextOf(m.topic);
    Queued(text + Nuls(TOPIC_CAPACITY - |text|), m.payload + Nuls(PAYLOAD_CAPACITY - |m.payload|), |m.payload|,
           m.qos, m.retain, m.correlation)
  }

  /** The envelope that a replay publishes for a queued record. */
  function Replayed(q: Queued): Envelope
    requires |q.topic| == TOPIC_CAPACITY && q.payloadSize <= |q.payload|
  {
    var text := TextOf(q.topic[..TOPIC_CAPACITY - 1]);
    Envelope(text + Nuls(TOPIC_CAPACITY - |text|), q.payload[..q.payloadSize], q.qos, q.retain, q.correlation)
  }

  /** Storing a message and replaying it gives the same message. */
  lemma StoreAndReplay(m: Envelope)
    requires Queueable(m) && CleanTopic(m.topic)
    ensures Replayed(Stored(m)) == m
  {
    var text := TextOf(m.topic);
    var q := Stored(m);
    assert q.topic[..TOPIC_CAPACITY - 1] == text + Nuls(TOPIC_CAPACITY - 1 - |text|);
    TextOfPadded(text, TOPIC_CAPACITY - 1 - |text|);
    assert q.payload[..q.payloadSize] == m.payload;
  }

  // ---------------------------------------------------------------- topics

  datatype TopicKind =
    | StatusKind | StateKind | TelemetryKind | CommandRequest | CommandResponse | OtaRequest | OtaEvent | Diagnostics

  function Suffix(kind: TopicKind): Text {
    match kind
    case StatusKind => "status"
    case StateKind => "state"
    case TelemetryKind => "telemetry"
    case CommandRequest => "cmd/req"
    case CommandResponse => "cmd/res"
    case OtaRequest => "ota/req"
    case OtaEvent => "ota/evt"
    case Diagnostics => "diag"
  }

  datatype Topics = Topics(site: Text, device: Text) {
    function Name(kind: TopicKind, channel: Option<Text>): Text {
      "asd/v1/" + site + "/" + device + "/" + Suffix(kind)
      + (if channel.Some? && (kind == StateKind || kind == TelemetryKind) then "/" + channel.value else "")
    }

    /** The topic buffer, when the name and its terminator fit. */
    function Build(kind: TopicKind, channel: Option<Text>): (r: Option<string>)
      ensures r.Some? <==> |Name(kind, channel)| < 96
      ensures r.Some? ==> CleanTopic(r.value) && TextOf(r.value) == Name(kind, channel)
    {
      var name := Name(kind, channel);
      if |name| >= TOPIC_CAPACITY then None
      else
        TextOfPadded(name, TOPIC_CAPACITY - |name|);
        Some(name + Nuls(TOPIC_CAPACITY - |name|))
    }
  }

  /** The part of a topic name behind the device. */
  function Ending(kind: TopicKind, channel: Option<Text>): string {
    Suffix(kind) + (if channel.Some? && (kind == StateKind || kind == TelemetryKind) then "/" + channel.value else "")
  }

  /** How an ending tells its kind: by its first, fifth and seventh character. */
  lemma EndingShows(kind: TopicKind, channel: Option<Text>)
    ensures var e := Ending(kind, channel);
            && |e| >= 4
            && (kind == StatusKind <==> |e| >= 5 && e[0] == 's' && e[4] == 'u')
            && (kind == StateKind <==> |e| >= 5 && e[0] == 's' && e[4] == 'e')
            && (kind == TelemetryKind <==> e[0] == 't')
            && (kind == CommandRequest <==> |e| == 7 && e[0] == 'c' && e[6] == 'q')
            && (kind == CommandResponse <==> |e| == 7 && e[0] == 'c' && e[6] == 's')
            && (kind == OtaRequest <==> |e| == 7 && e[0] == 'o' && e[6] == 'q')
            && (kind == OtaEvent <==> |e| == 7 && e[0] == 'o' && e[6] == 't')
            && (kind == Diagnostics <==> e[0] == 'd')
  {
    var tail := if channel.Some? && (kind == StateKind || kind == TelemetryKind) then "/" + channel.value else "";
    assert Ending(kind, channel) == Suffix(kind) + tail;
    assert forall i :: 0 <= i < |Suffix(kind)| ==> Ending(kind, channel)[i] == Suffix(kind)[i];
  }

  lemma NameEnds(t: Topics, kind: TopicKind, channel: Option<Text>)
    ensures t.Name(kind, channel) == ("asd/v1/" + t.site + "/" + t.device + "/") + Ending(kind, channel)
  {
  }

  lemma SameFront(head: string, a: string, b: string)
    requires head + a == head + b
    ensures a == b
  {
    assert a == (head + a)[|head|..] && b == (head + b)[|head|..];
  }

  /** Different kinds of one device, and different channels of a kind that has them, have different topics. */
  lemma TopicsDistinct(t: Topics, kind: TopicKind, channel: Option<Text>, other: TopicKind, another: Option<Text>)
    requires t.Name(kind, channel) == t.Name(other, another)
    ensures kind == other && (kind == StateKind || kind == TelemetryKind ==> channel == another)
  {
    NameEnds(t, kind, channel);
    NameEnds(t, other, another);
    SameFront("asd/v1/" + t.site + "/" + t.device + "/", Ending(kind, channel), Ending(other, another));
    EndingShows(kind, channel);
    EndingShows(other, another);
    if kind == StateKind || kind == TelemetryKind {
      var a, b := if channel.Some? then "/" + channel.value else "", if another.Some? then "/" + another.value else "";
      SameFront(Suffix(kind), a, b);
      assert channel.Some? ==> a[0] == '/' && a[1..] == channel.value;
      assert another.Some? ==> b[0] == '/' && b[1..] == another.value;
    }
  }

  /** The names for the site and the device of the repository's tests. */
  lemma TopicNames()
    ensures var t := Topics("site", "node");
            && t.Name(StateKind, Some("relay")) == "asd/v1/site/node/" + "state/relay"
            && t.Name(TelemetryKind, Some("relay")) == "asd/v1/site/node/" + "telemetry/relay"
            && t.Name(CommandResponse, None) == "asd/v1/site/node/" + "cmd/res"
            && t.Name(CommandRequest, None) == "asd/v1/site/node/" + "cmd/req"
            && t.Name(StatusKind, None) == "asd/v1/site/node/" + "status"
            && t.Name(OtaRequest, None) == "asd/v1/site/node/" + "ota/req"
            && t.Name(OtaEvent, None) == "asd/v1/site/node/" + "ota/evt"
            && t.Name(Diagnostics, None) == "asd/v1/site/node/" + "diag"
  {
    var t := Topics("site", "node");
    assert "asd/v1/" + t.site + "/" + t.device + "/" == "asd/v1/site/node/";
    NameEnds(t, StateKind, Some("relay"));
    NameEnds(t, TelemetryKind, Some("relay"));
    forall kind: TopicKind
      ensures t.Name(kind, None) == "asd/v1/site/node/" + Suffix(kind)
    {
      NameEnds(t, kind, None);
    }
  }

  // ---------------------------------------------------------------- the transport port

  /**
   * Connection and delivery are up to the network.  `delivered` records what it accepted, and
   * nothing may be published that was not preceded by a positive answer about the connection.
   */
  class Transport {
    ghost var delivered: seq<Envelope>
    ghost var online: bool

    constructor ()
      ensures delivered == []
    {
      delivered, online := [], false;
    }

    method IsConnected() returns (connected: bool)
      modifies this`online
      ensures online == connected
    {
      connected := *;
      online := connected;
    }

    method Publish(m: Envelope) returns (status: Status)
      requires online
      modifies this
      ensures delivered == if status == Ok then old(delivered) + [m] else old(delivered)
    {
      status := *;
      if status == Ok {
        delivered := delivered + [m];
      }
      online := false;
    }
  }
}
