/**
 * Telemetry delivery.  Every encoded message gets the next sequence number and is from then on
 * published, queued or dropped; the service is proved to follow the ledger kept here.
 */
module Telemetry {
  import opened Words
  import opened Status
  import opened JsonText
  import opened JsonRead
  import opened Json
  import opened Messages
  import opened OfflineQueue

  // ---------------------------------------------------------------- the ledger

  /** Messages are named by the order in which they were encoded. */
  datatype Ledger = Ledger(encoded: nat, queued: seq<nat>, published: seq<nat>, dropped: seq<nat>)

  datatype Event = Sent | Deferred | ReplayOk | ReplayFailed

  function Next(l: Ledger, depth: nat, e: Event): Ledger {
    match e
    case Sent => l.(encoded := l.encoded + 1, published := l.published + [l.encoded])
    case Deferred =>
      if |l.queued| < depth || l.queued == [] then
        l.(encoded := l.encoded + 1, queued := l.queued + [l.encoded])
      else
        l.(encoded := l.encoded + 1, queued := l.queued[1..] + [l.encoded], dropped := l.dropped + [l.queued[0]])
    case ReplayOk => if l.queued == [] then l else l.(queued := l.queued[1..], published := l.published + [l.queued[0]])
    case ReplayFailed => l
  }

  function FirstMessages(n: nat): multiset<nat> {
    if n == 0 then multiset{} else FirstMessages(n - 1) + multiset{n - 1}
  }

  ghost predicate Ascending(s: seq<nat>) {
    forall i, j :: 0 <= i < j < |s| ==> s[i] < s[j]
  }

  /** Every message is in exactly one place; queue and drops are in order, drops before queue. */
  ghost predicate Balanced(l: Ledger, depth: nat) {
    && |l.queued| <= depth
    && Counted(l.encoded, l.queued, l.published, l.dropped)
    && Ordered(l.encoded, l.queued, l.dropped)
  }

  lemma Front(s: seq<nat>)
    requires s != []
    ensures multiset(s) == multiset{s[0]} + multiset(s[1..])
  {
    assert s == [s[0]] + s[1..];
  }

  lemma Snoc(s: seq<nat>, x: nat)
    ensures multiset(s + [x]) == multiset(s) + multiset{x}
  {
  }

  lemma AscendingSnoc(s: seq<nat>, x: nat)
    requires Ascending(s) && forall i :: 0 <= i < |s| ==> s[i] < x
    ensures Ascending(s + [x])
  {
  }

  /** `x` comes in while `y` moves from the middle part to the last. */
  lemma Shifted(p: multiset<nat>, rest: multiset<nat>, d: multiset<nat>, all: multiset<nat>, x: nat, y: nat)
    requires p + (multiset{y} + rest) + d == all
    ensures p + (rest + multiset{x}) + (d + multiset{y}) == all + multiset{x}
  {
  }

  lemma Added(p: multiset<nat>, q: multiset<nat>, d: multiset<nat>, all: multiset<nat>, x: nat)
    requires p + q + d == all
    ensures p + (q + multiset{x}) + d == all + multiset{x}
  {
  }

  ghost predicate Counted(encoded: nat, queued: seq<nat>, published: seq<nat>, dropped: seq<nat>) {
    multiset(published) + multiset(queued) + multiset(dropped) == FirstMessages(encoded)
  }

  lemma CountAdded(n: nat, q: seq<nat>, p: seq<nat>, d: seq<nat>)
    requires Counted(n, q, p, d)
    ensures Counted(n + 1, q + [n], p, d)
  {
    Snoc(q, n);
    Added(multiset(p), multiset(q), multiset(d), FirstMessages(n), n);
  }

  lemma CountShifted(n: nat, q: seq<nat>, p: seq<nat>, d: seq<nat>)
    requires Counted(n, q, p, d) && q != []
    ensures Counted(n + 1, q[1..] + [n], p, d + [q[0]])
  {
    Front(q);
    Snoc(q[1..], n);
    Snoc(d, q[0]);
    Shifted(multiset(p), multiset(q[1..]), multiset(d), FirstMessages(n), n, q[0]);
  }

  ghost predicate Ordered(encoded: nat, queued: seq<nat>, dropped: seq<nat>) {
    && Ascending(dropped + queued)
    && (forall i :: 0 <= i < |queued| ==> queued[i] < encoded)
    && (forall i :: 0 <= i < |dropped| ==> dropped[i] < encoded)
  }

  lemma OrderAdded(n: nat, q: seq<nat>, d: seq<nat>)
    requires Ordered(n, q, d)
    ensures Ordered(n + 1, q + [n], d)
  {
    AscendingSnoc(d + q, n);
    assert d + (q + [n]) == d + q + [n];
  }

  lemma OrderShifted(n: nat, q: seq<nat>, d: seq<nat>)
    requires Ordered(n, q, d) && q != []
    ensures Ordered(n + 1, q[1..] + [n], d + [q[0]])
  {
    AscendingSnoc(d + q, n);
    assert d + [q[0]] + (q[1..] + [n]) == d + q + [n];
  }

  lemma DeferKeepsBalance(l: Ledger, depth: nat)
    requires Balanced(l, depth) && depth > 0
    ensures Balanced(Next(l, depth, Deferred), depth)
  {
    if |l.queued| < depth {
      CountAdded(l.encoded, l.queued, l.published, l.dropped);
      OrderAdded(l.encoded, l.queued, l.dropped);
    } else {
      CountShifted(l.encoded, l.queued, l.published, l.dropped);
      OrderShifted(l.encoded, l.queued, l.dropped);
    }
  }

  lemma AscendingWithout(s: seq<nat>, n: nat)
    requires Ascending(s) && n < |s|
    ensures Ascending(s[..n] + s[n + 1..])
  {
    var rest := s[..n] + s[n + 1..];
    forall i, j | 0 <= i < j < |rest|
      ensures rest[i] < rest[j]
    {
      var a, b := if i < n then i else i + 1, if j < n then j else j + 1;
      assert rest[i] == s[a] && rest[j] == s[b];
    }
  }

  lemma ReplayKeepsBalance(l: Ledger, depth: nat)
    requires Balanced(l, depth) && l.queued != []
    ensures Balanced(Next(l, depth, ReplayOk), depth)
  {
    var all, n := l.dropped + l.queued, |l.dropped|;
    Front(l.queued);
    AscendingWithout(all, n);
    assert all[..n] + all[n + 1..] == l.dropped + l.queued[1..];
  }

  lemma SentKeepsBalance(l: Ledger, depth: nat)
    requires Balanced(l, depth)
    ensures Balanced(Next(l, depth, Sent), depth)
  {
    Snoc(l.published, l.encoded);
  }

  function After(depth: nat, run: seq<Event>): Ledger {
    if run == [] then Ledger(0, [], [], [])
    else Next(After(depth, run[..|run| - 1]), depth, run[|run| - 1])
  }

  lemma AfterOneMore(depth: nat, run: seq<Event>, e: Event)
    ensures After(depth, run + [e]) == Next(After(depth, run), depth, e)
  {
    assert (run + [e])[..|run|] == run;
  }

  lemma {:induction false} QueueBounded(depth: nat, run: seq<Event>)
    requires depth > 0
    ensures |After(depth, run).queued| <= depth
    decreases |run|
  {
    if run != [] {
      QueueBounded(depth, run[..|run| - 1]);
    }
  }

  /** Conservation and order hold after every run. */
  lemma {:induction false} EveryRunBalances(depth: nat, run: seq<Event>)
    requires depth > 0
    ensures Balanced(After(depth, run), depth)
    decreases |run|
  {
    if run != [] {
      var l, e := After(depth, run[..|run| - 1]), run[|run| - 1];
      EveryRunBalances(depth, run[..|run| - 1]);
      match e
      case Sent => SentKeepsBalance(l, depth);
      case Deferred => DeferKeepsBalance(l, depth);
      case ReplayOk => if l.queued != [] { ReplayKeepsBalance(l, depth); }
      case ReplayFailed =>
    }
  }

  lemma {:induction false} EachOnce(n: nat, i: nat)
    ensures FirstMessages(n)[i] == if i < n then 1 else 0
    decreases n
  {
    if n > 0 {
      EachOnce(n - 1, i);
    }
  }

  /** So each encoded message is in exactly one place, exactly once. */
  lemma ExactlyOnePlace(depth: nat, run: seq<Event>, i: nat)
    requires depth > 0
    ensures var l := After(depth, run);
            multiset(l.published)[i] + multiset(l.queued)[i] + multiset(l.dropped)[i] == if i < l.encoded then 1 else 0
  {
    EveryRunBalances(depth, run);
    EachOnce(After(depth, run).encoded, i);
  }

  // ---------------------------------------------------------------- the service

  /** The fields of a telemetry message. */
  function Fields(utc: nat, sequence: nat, value: bool): seq<Field> {
    [Field("ts", Num(utc)), Field("seq", Num(sequence)), Field("value", Bool(value))]
  }

  function Message(topic: string, utc: nat, sequence: nat, value: bool): Envelope {
    Envelope(topic, Document(Fields(utc, sequence, value)), AtMostOnce, false, 0)
  }

  /** At most 48 characters, so encoding never runs out of room. */
  lemma DocumentFits(utc: nat, sequence: nat, value: bool)
    requires utc <= 0xFFFF_FFFF && sequence <= 0xFFFF_FFFF
    ensures |Document(Fields(utc, sequence, value))| <= 48
  {
    var a, b, c := Field("ts", Num(utc)), Field("seq", Num(sequence)), Field("value", Bool(value));
    TenDigits();
    DecimalLength(utc, 10);
    DecimalLength(sequence, 10);
    Stages(a, b, c);
    assert |Prefix(a.key)| == 5 && |Prefix(b.key)| == 6 && |Prefix(c.key)| == 8;
  }

  /** Scanning a published message gives back the time, the sequence number and the value it was made from. */
  lemma MessageReadsBack(topic: string, utc: nat, sequence: nat, value: bool)
    requires utc <= 0xFFFF_FFFF && sequence <= 0xFFFF_FFFF
    ensures var m := Message(topic, utc, sequence, value);
            && GetNumber(m.payload, "ts") == Some(utc) && GetNumber(m.payload, "seq") == Some(sequence)
            && GetBool(m.payload, "value") == Some(value)
            && m.topic == topic && m.qos == AtMostOnce && !m.retain && m.correlation == 0
  {
    var fs := Fields(utc, sequence, value);
    assert fs[0].key[0] == 't' && fs[1].key[0] == 's' && fs[2].key[0] == 'v';
    ReadsWhatWasWritten(fs, 0, 0);
    ReadsWhatWasWritten(fs, 1, 0);
    ReadsWhatWasWritten(fs, 2, 0);
  }

  /** A message that can be queued, and carries its place `n` in the history, modulo 2^32. */
  predicate Proper(m: Envelope, n: nat) {
    Queueable(m) && CleanTopic(m.topic) && GetNumber(m.payload, "seq") == Some(Counter(n))
  }

  /**
   * What the transport has accepted tells by its sequence number which message it is, and it is
   * that message unchanged.
   */
  lemma DeliveredIsNumbered(h: seq<Envelope>, l: Ledger, c: seq<Queued>, d: seq<Envelope>, i: nat)
    requires Accounts(h, l, c, d) && i < |d|
    ensures l.published[i] < |h| && d[i] == h[l.published[i]]
    ensures GetNumber(d[i].payload, "seq") == Some(l.published[i] % 0x1_0000_0000)
  {
    CounterIsModulo(l.published[i]);
  }

  /** The ledger tells where each message of `history` is, and it is there unchanged. */
  ghost predicate Accounts(history: seq<Envelope>, l: Ledger, contents: seq<Queued>, delivered: seq<Envelope>) {
    && l.encoded == |history|
    && (forall i :: 0 <= i < |history| ==> Proper(history[i], i))
    && |contents| == |l.queued| && |delivered| == |l.published|
    && (forall i :: 0 <= i < |l.queued| ==> l.queued[i] < |history| && contents[i] == Stored(history[l.queued[i]]))
    && (forall i :: 0 <= i < |l.published| ==> l.published[i] < |history| && delivered[i] == history[l.published[i]])
  }

  lemma SentIsAccounted(h: seq<Envelope>, l: Ledger, c: seq<Queued>, d: seq<Envelope>, depth: nat, m: Envelope)
    requires Accounts(h, l, c, d) && Proper(m, |h|)
    ensures Accounts(h + [m], Next(l, depth, Sent), c, d + [m])
  {
  }

  lemma DeferredIsAccounted(h: seq<Envelope>, l: Ledger, c: seq<Queued>, d: seq<Envelope>, depth: nat, m: Envelope)
    requires Accounts(h, l, c, d) && Proper(m, |h|) && |l.queued| <= depth && depth > 0
    ensures Accounts(h + [m], Next(l, depth, Deferred), EnqueueSpec(c, depth, m, true).1, d)
  {
    var after := Next(l, depth, Deferred);
    var contents := EnqueueSpec(c, depth, m, true).1;
    forall i | 0 <= i < |after.queued|
      ensures after.queued[i] < |h + [m]| && contents[i] == Stored((h + [m])[after.queued[i]])
    {
      if i < |after.queued| - 1 {
        var k := if |c| < depth then i else i + 1;
        assert after.queued[i] == l.queued[k] && contents[i] == c[k];
      }
    }
  }

  /** The ledger counts the message that the queue drops. */
  lemma DropsCounted(h: seq<Envelope>, l: Ledger, c: seq<Queued>, d: seq<Envelope>, depth: nat, m: Envelope)
    requires Accounts(h, l, c, d) && Proper(m, |h|) && |l.queued| <= depth && depth > 0
    ensures var count := Counter(|l.dropped|);
            Counter(|Next(l, depth, Deferred).dropped|) ==
            if EnqueueSpec(c, depth, m, true).2 == 1 then Successor(count) else count
  {
  }

  lemma ReplayedIsAccounted(h: seq<Envelope>, l: Ledger, c: seq<Queued>, d: seq<Envelope>, depth: nat)
    requires Accounts(h, l, c, d) && c != []
    ensures |c[0].topic| == TOPIC_CAPACITY && c[0].payloadSize <= |c[0].payload|
    ensures Accounts(h, Next(l, depth, ReplayOk), c[1..], d + [Replayed(c[0])])
  {
    StoreAndReplay(h[l.queued[0]]);
    forall i | 0 <= i < |l.queued[1..]|
      ensures l.queued[1..][i] < |h| && c[1..][i] == Stored(h[l.queued[1..][i]])
    {
      assert c[1..][i] == c[i + 1] && l.queued[1..][i] == l.queued[i + 1];
    }
  }

  /** The payload of a telemetry message, written field by field into a buffer of 256. */
  method Encode(utc: nat, sequence: nat, value: bool) returns (ok: bool, payload: string)
    requires utc <= 0xFFFF_FFFF && sequence <= 0xFFFF_FFFF
    ensures ok && payload == Document(Fields(utc, sequence, value))
  {
    var buffer := new char[PAYLOAD_CAPACITY](_ => '\0');
    var writer := new JsonWriter(buffer, PAYLOAD_CAPACITY);
    ghost var a, b, c := Field("ts", Num(utc)), Field("seq", Num(sequence)), Field("value", Bool(value));
    Stages(a, b, c);
    DocumentFits(utc, sequence, value);
    ok := writer.BeginObject();
    assert writer.Written() == Opened([]);
    if ok {
      ok := writer.FieldU32(Some("ts"), utc);
      assert writer.Written() == Opened([a]);
    }
    if ok {
      ok := writer.FieldU32(Some("seq"), sequence);
      assert writer.Written() == Opened([a, b]);
    }
    if ok {
      ok := writer.FieldBool(Some("value"), value);
      assert writer.Written() == Opened([a, b, c]);
    }
    if ok {
      ok := writer.EndObject();
    }
    payload := buffer[..writer.position];
  }

  class TelemetryService {
    const transport: Transport
    const queue: OfflineQueue
    const topics: Topics
    /** The sequence counter. */
    var sequence: u32

    /** Every message encoded so far, and what happened to each. */
    ghost var history: seq<Envelope>
    ghost var run: seq<Event>

    ghost predicate Valid()
      reads this, transport, queue, queue.ring, queue.ring.entries
    {
      && queue.Valid()
      && Accounts(history, After(Depth(), run), queue.Contents(), transport.delivered)
      && sequence == Counter(|history|)
      && queue.dropped == Counter(|After(Depth(), run).dropped|)
    }

    ghost function Depth(): nat {
      queue.ring.entries.Length
    }

    constructor (topics: Topics, depth: nat)
      requires depth > 0
      ensures Valid() && history == [] && run == [] && Depth() == depth && fresh(transport) && fresh(queue)
    {
      transport := new Transport();
      queue := new OfflineQueue(depth);
      this.topics := topics;
      sequence, history, run := 0, [], [];
    }

    /**
     * One more message, unless its topic does not fit: it is published, or else queued,
     * at the expense of the oldest one if the queue is full.
     */
    method PublishBool(channel: Option<Text>, value: bool, utc: nat) returns (status: Status, ghost event: Event)
      requires Valid() && utc <= 0xFFFF_FFFF
      modifies this`sequence, this`history, this`run, transport, queue, queue.ring, queue.ring.entries
      ensures Valid()
      ensures var topic := topics.Build(TelemetryKind, channel);
              if topic.None? then
                status == NoResources && history == old(history) && run == old(run) && sequence == old(sequence)
              else
                && status == Ok && (event == Sent || event == Deferred)
                && history == old(history) + [Message(topic.value, utc, old(sequence), value)]
                && run == old(run) + [event]
    {
      event := Deferred;
      var ok, payload := Encode(utc, sequence, value);
      var topic := topics.Build(TelemetryKind, channel);
      if !ok || topic.None? {
        return NoResources, event;
      }
      DocumentFits(utc, sequence, value);
      MessageReadsBack(topic.value, utc, sequence, value);
      event := Forward(Envelope(topic.value, payload, AtMostOnce, false, 0));
      status := Ok;
    }

    /** Counts the message and publishes or queues it; queueing cannot fail. */
    method Forward(m: Envelope) returns (ghost event: Event)
      requires Valid() && Proper(m, |history|)
      modifies this`sequence, this`history, this`run, transport, queue, queue.ring, queue.ring.entries
      ensures Valid() && (event == Sent || event == Deferred)
      ensures history == old(history) + [m] && run == old(run) + [event]
    {
      ghost var h, c, d := history, queue.Contents(), transport.delivered;
      sequence := Successor(sequence);
      var status := Deliver(m);
      if status == Ok {
        event := Sent;
        RecordSent(m, h, c, d);
      } else {
        event := Deferred;
        Keep(m, h);
      }
    }

    /** Records a message that the transport has accepted. */
    ghost method RecordSent(m: Envelope, h: seq<Envelope>, c: seq<Queued>, d: seq<Envelope>)
      requires queue.Valid() && queue.Contents() == c && transport.delivered == d + [m]
      requires Accounts(h, After(Depth(), run), c, d) && Proper(m, |h|)
      requires sequence == Counter(|h| + 1) && queue.dropped == Counter(|After(Depth(), run).dropped|)
      modifies this`history, this`run
      ensures Valid() && history == h + [m] && run == old(run) + [Sent]
    {
      SentIsAccounted(h, After(Depth(), run), c, d, Depth(), m);
      Settle(h + [m], Sent, c, d + [m]);
    }

    /** Queues an undelivered message. */
    method Keep(m: Envelope, ghost h: seq<Envelope>)
      requires queue.Valid() && Accounts(h, After(Depth(), run), queue.Contents(), transport.delivered)
      requires Proper(m, |h|) && sequence == Counter(|h| + 1)
      requires queue.dropped == Counter(|After(Depth(), run).dropped|)
      modifies this`history, this`run, queue, queue.ring, queue.ring.entries
      ensures Valid() && history == h + [m] && run == old(run) + [Deferred]
    {
      ghost var c, d := queue.Contents(), transport.delivered;
      QueueBounded(Depth(), run);
      DropsCounted(h, After(Depth(), run), c, d, Depth(), m);
      var _ := queue.Enqueue(m, true);
      RecordKept(m, h, c, d);
    }

    /** Records a message that the queue has taken. */
    ghost method RecordKept(m: Envelope, h: seq<Envelope>, c: seq<Queued>, d: seq<Envelope>)
      requires queue.Valid() && queue.Contents() == EnqueueSpec(c, Depth(), m, true).1 && transport.delivered == d
      requires Accounts(h, After(Depth(), run), c, d) && Proper(m, |h|)
      requires sequence == Counter(|h| + 1)
      requires queue.dropped == Counter(|Next(After(Depth(), run), Depth(), Deferred).dropped|)
      modifies this`history, this`run
      ensures Valid() && history == h + [m] && run == old(run) + [Deferred]
    {
      QueueBounded(Depth(), run);
      DeferredIsAccounted(h, After(Depth(), run), c, d, Depth(), m);
      Settle(h + [m], Deferred, EnqueueSpec(c, Depth(), m, true).1, d);
    }

    /** Records an event once queue and transport are as it leaves them. */
    ghost method Settle(h: seq<Envelope>, event: Event, contents: seq<Queued>, delivered: seq<Envelope>)
      requires queue.Valid() && queue.Contents() == contents && transport.delivered == delivered
      requires Accounts(h, Next(After(Depth(), run), Depth(), event), contents, delivered)
      requires sequence == Counter(|h|)
      requires queue.dropped == Counter(|Next(After(Depth(), run), Depth(), event).dropped|)
      modifies this`history, this`run
      ensures Valid() && history == h && run == old(run) + [event]
    {
      AfterOneMore(Depth(), run, event);
      history := h;
      run := run + [event];
    }

    /** Publishing is tried only while connected. */
    method Deliver(m: Envelope) returns (status: Status)
      modifies transport
      ensures transport.delivered == if status == Ok then old(transport.delivered) + [m] else old(transport.delivered)
    {
      var connected := transport.IsConnected();
      if !connected {
        return NotReady;
      }
      status := transport.Publish(m);
    }

    /** Replays the oldest queued message; it leaves the queue only when published. */
    method ReplayOne() returns (status: Status, ghost event: Event)
      requires Valid()
      modifies this`history, this`run, transport, queue.ring
      ensures Valid() && history == old(history)
      ensures event == (if status == Ok then ReplayOk else ReplayFailed) && run == old(run) + [event]
      ensures status == Ok ==> old(queue.Contents()) != []
    {
      ghost var l, c, d := After(Depth(), run), queue.Contents(), transport.delivered;
      status := PublishFront();
      if status == Ok {
        event := ReplayOk;
        ReplayedIsAccounted(history, l, c, d, Depth());
        Settle(history, event, c[1..], d + [Replayed(c[0])]);
      } else {
        event := ReplayFailed;
        Settle(history, event, c, d);
      }
    }

    method PublishFront() returns (status: Status)
      requires queue.Valid()
      requires forall q :: q in queue.Contents() ==> |q.topic| == TOPIC_CAPACITY && q.payloadSize <= |q.payload|
      modifies transport, queue.ring
      ensures queue.Valid() && queue.dropped == old(queue.dropped)
      ensures var c, d := old(queue.Contents()), old(transport.delivered);
              if status == Ok then
                c != [] && queue.Contents() == c[1..] && transport.delivered == d + [Replayed(c[0])]
              else queue.Contents() == c && transport.delivered == d
    {
      var connected := transport.IsConnected();
      if !connected {
        return NotReady;
      }
      var found, queued := queue.Peek();
      if !found {
        return NotFound;
      }
      status := transport.Publish(Replayed(queued.value));
      if status == Ok {
        queue.CommitFront();
      }
    }
  }
}
