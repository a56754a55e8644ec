/** The store-and-forward queue: the oldest message makes room when dropping is allowed. */
module OfflineQueue {
  import opened Words
  import opened Status
  import opened Messages
  import opened RingBuffer

  /** Status, contents and number of dropped messages after `enqueue`. */
  function EnqueueSpec(contents: seq<Queued>, depth: nat, m: Envelope, allowDrop: bool): (Status, seq<Queued>, nat) {
    if !Queueable(m) then (NoResources, contents, 0)
    else if |contents| < depth then (Ok, contents + [Stored(m)], 0)
    else if !allowDrop || contents == [] then (NoResources, contents, 0)
    else (Ok, contents[1..] + [Stored(m)], 1)
  }

  /**
   * Whether dropping is allowed or not, the order of what is kept stays, a full queue gives up at
   * most its oldest message, and without permission none; what was queued is the message itself.
   */
  lemma QueueLosesOnlyTheOldest(contents: seq<Queued>, depth: nat, m: Envelope, allowDrop: bool)
    requires |contents| <= depth && depth > 0
    ensures var (status, after, dropped) := EnqueueSpec(contents, depth, m, allowDrop);
            && |after| <= depth
            && (status == Ok <==> Queueable(m) && (|contents| < depth || allowDrop))
            && (status != Ok ==> status == NoResources && after == contents && dropped == 0)
            && (status == Ok ==>
                  && after != [] && (CleanTopic(m.topic) ==> Replayed(after[|after| - 1]) == m)
                  && after[..|after| - 1] == contents[dropped..]
                  && dropped == if |contents| == depth then 1 else 0)
  {
    if Queueable(m) && CleanTopic(m.topic) {
      StoreAndReplay(m);
    }
  }

  class OfflineQueue {
    const ring: FixedRingBuffer<Queued>
    /** The dropped counter. */
    var dropped: u32

    ghost predicate Valid()
      reads this, ring, ring.entries
    {
      ring.Valid()
    }

    ghost function Contents(): seq<Queued>
      requires Valid()
      reads this, ring, ring.entries
    {
      ring.Contents()
    }

    constructor (depth: nat)
      requires depth > 0
      ensures Valid() && Contents() == [] && dropped == 0 && ring.entries.Length == depth
      ensures fresh(ring) && fresh(ring.entries)
    {
      ring := new FixedRingBuffer(depth);
      dropped := 0;
    }

    method Enqueue(m: Envelope, allowDrop: bool) returns (status: Status)
      requires Valid() && |m.topic| == TOPIC_CAPACITY
      modifies this, ring, ring.entries
      ensures Valid()
      ensures var spec := EnqueueSpec(old(Contents()), ring.entries.Length, m, allowDrop);
              && status == spec.0 && Contents() == spec.1
              && dropped == if spec.2 == 1 then Successor(old(dropped)) else old(dropped)
    {
      if |m.payload| > PAYLOAD_CAPACITY {
        return NoResources;
      }
      var topicSize := TopicSize(m.topic);
      if topicSize >= TOPIC_CAPACITY {
        return NoResources;
      }
      var queued := Copy(m, topicSize);
      status := Push(queued, allowDrop);
    }

    method Push(queued: Queued, allowDrop: bool) returns (status: Status)
      requires Valid()
      modifies this, ring, ring.entries
      ensures Valid()
      ensures var before := old(Contents());
              if |before| < ring.entries.Length then
                status == Ok && Contents() == before + [queued] && dropped == old(dropped)
              else if !allowDrop then status == NoResources && Contents() == before && dropped == old(dropped)
              else
                && status == Ok && Contents() == before[1..] + [queued]
                && dropped == Successor(old(dropped))
    {
      var pushed := ring.TryPush(queued);
      if pushed {
        return Ok;
      }
      if !allowDrop {
        return NoResources;
      }
      var _ := ring.DropOldest();
      dropped := Successor(dropped);
      pushed := ring.TryPush(queued);
      status := if pushed then Ok else NoResources;
    }

    /** The record owns copies of the topic text and the payload. */
    static method Copy(m: Envelope, topicSize: nat) returns (queued: Queued)
      requires Queueable(m) && topicSize == |TextOf(m.topic)|
      ensures queued == Stored(m)
    {
      var topic := CopyText(m.topic, topicSize, TOPIC_CAPACITY);
      var payload := CopyText(m.payload, |m.payload|, PAYLOAD_CAPACITY);
      assert m.payload[..|m.payload|] == m.payload;
      queued := Queued(topic, payload, |m.payload|, m.qos, m.retain, m.correlation);
    }

    static method TopicSize(topic: string) returns (size: nat)
      requires |topic| == TOPIC_CAPACITY
      ensures size == |TextOf(topic)|
    {
      size := 0;
      while size < TOPIC_CAPACITY && topic[size] != '\0'
        invariant 0 <= size <= TOPIC_CAPACITY && |TextOf(topic)| == size + |TextOf(topic[size..])|
      {
        assert topic[size..][1..] == topic[size + 1..];
        size := size + 1;
      }
    }

    /** Copies `size` characters into a zeroed buffer. */
    static method CopyText(source: string, size: nat, capacity: nat) returns (buffer: string)
      requires size <= |source| && size <= capacity
      ensures buffer == source[..size] + Nuls(capacity - size)
    {
      buffer := Nuls(capacity);
      var index := 0;
      while index < size
        invariant 0 <= index <= size && buffer == source[..index] + Nuls(capacity - index)
      {
        buffer := buffer[index := source[index]];
        index := index + 1;
      }
    }

    method Peek() returns (ok: bool, message: Option<Queued>)
      requires Valid()
      ensures ok == (Contents() != [])
      ensures message == if ok then Some(Contents()[0]) else None
    {
      ok, message := ring.Peek();
    }

    method CommitFront()
      requires Valid()
      modifies ring
      ensures Valid() && dropped == old(dropped)
      ensures Contents() == if old(Contents()) == [] then [] else old(Contents())[1..]
    {
      var _ := ring.DropOldest();
    }
  }
}
