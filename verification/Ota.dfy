/**
 * The firmware update service.  The machine below follows the code; what its ports were asked
 * to do is kept as a trace, and safety is a statement about traces alone.
 */
module Ota {
  import opened Words
  import opened Status

  const CHUNK_BYTES: nat := 1024
  /** The largest image for which `received + size` cannot wrap in 32 bits. */
  const LARGEST_SAFE_IMAGE: u32 := 0xFFFF_FC00

  type Digest = s: seq<u8> | |s| == 32 witness Fill(0, 32)
  type Signature = s: seq<u8> | |s| == 64 witness Fill(0, 64)

  datatype Manifest = Manifest(size: u32, digest: Digest, signature: Signature, keyId: u8)

  datatype State = Idle | Downloading | Verifying | ReadyToActivate | Activating | Failed

  datatype Machine = Machine(state: State, manifest: Manifest, received: u32, requested: bool)

  /** Calls of the ports, with their results, and the acceptance of an offer. */
  datatype Call =
    | Begin(size: u32, status: Status)
    | DigestBegin(status: Status)
    | Accepted(manifest: Manifest)
    | Request(offset: u32, count: nat, status: Status)
    | Take(status: Status, data: seq<u8>)
    | Write(offset: u32, data: seq<u8>, status: Status)
    | Update(data: seq<u8>, status: Status)
    | DigestFinish(status: Status, digest: Digest)
    | Verify(digest: Digest, signature: Signature, keyId: u8, status: Status)
    | Finish(status: Status)
    | Abort
    | ActivateStaged(status: Status)

  /** `take` is given room for one chunk and returns no more. */
  type Chunk = s: seq<u8> | |s| <= CHUNK_BYTES

  /** What the ports answer during one poll; answers that are not asked for are ignored. */
  datatype Answers = Answers(request: Status, take: Status, data: Chunk, write: Status, update: Status,
                             digestFinish: Status, digest: Digest, verify: Status, finish: Status)

  datatype Event =
    | Offer(manifest: Manifest, begin: Status, digestBegin: Status)
    | Poll(answers: Answers)
    | Activate(status: Status)
    | Cancel

  // ---------------------------------------------------------------- the machine

  function Fail(m: Machine, calls: seq<Call>): (Machine, seq<Call>) {
    (m.(state := Failed, requested := false), calls + [Abort])
  }

  function OfferStep(m: Machine, offer: Manifest, begin: Status, digestBegin: Status): (Machine, seq<Call>) {
    if m.state != Idle || offer.size == 0 then (m, [])
    else if begin != Ok then Fail(m, [Begin(offer.size, begin)])
    else if digestBegin != Ok then Fail(m, [Begin(offer.size, begin), DigestBegin(digestBegin)])
    else (Machine(Downloading, offer, 0, false),
          [Begin(offer.size, begin), DigestBegin(digestBegin), Accepted(offer)])
  }

  /** How much to ask for next. */
  function Wanted(m: Machine): nat
    requires m.received <= m.manifest.size
  {
    var remaining := m.manifest.size - m.received;
    if remaining < CHUNK_BYTES then remaining else CHUNK_BYTES
  }

  /** Addition as it is done on a 32-bit `size_t`. */
  function Add32(a: nat, b: nat): u32 {
    (a + b) % 0x1_0000_0000
  }

  function VerifyStep(m: Machine, a: Answers, calls: seq<Call>): (Machine, seq<Call>) {
    var c1 := calls + [DigestFinish(a.digestFinish, a.digest)];
    if a.digestFinish != Ok || a.digest != m.manifest.digest then Fail(m, c1)
    else
      var c2 := c1 + [Verify(a.digest, m.manifest.signature, m.manifest.keyId, a.verify)];
      if a.verify != Ok then Fail(m, c2)
      else
        var c3 := c2 + [Finish(a.finish)];
        if a.finish != Ok then Fail(m, c3) else (m.(state := ReadyToActivate), c3)
  }

  function ReceiveStep(m: Machine, a: Answers): (Machine, seq<Call>) {
    var c1 := [Take(a.take, a.data)];
    if a.take == Busy then (m, c1)
    else if a.take != Ok || |a.data| == 0 || Add32(m.received, |a.data|) > m.manifest.size then Fail(m, c1)
    else
      var c2 := c1 + [Write(m.received, a.data, a.write)];
      if a.write != Ok then Fail(m, c2)
      else
        var c3 := c2 + [Update(a.data, a.update)];
        if a.update != Ok then Fail(m, c3)
        else
          var next := m.(received := Add32(m.received, |a.data|), requested := false);
          if next.received != m.manifest.size then (next, c3) else VerifyStep(next, a, c3)
  }

  function PollStep(m: Machine, a: Answers): (Machine, seq<Call>)
    requires m.state == Downloading ==> m.received <= m.manifest.size
  {
    if m.state != Downloading then (m, [])
    else if !m.requested then
      var c := [Request(m.received, Wanted(m), a.request)];
      if a.request == Ok || a.request == Busy then (m.(requested := true), c) else Fail(m, c)
    else ReceiveStep(m, a)
  }

  function ActivateStep(m: Machine, status: Status): (Machine, seq<Call>) {
    if m.state != ReadyToActivate then (m, [])
    else if status == Ok then (m.(state := Activating), [ActivateStaged(status)])
    else Fail(m, [ActivateStaged(status)])
  }

  predicate InBounds(m: Machine) {
    m.state == Downloading ==> m.received < m.manifest.size
  }

  function Step(m: Machine, e: Event): (r: (Machine, seq<Call>))
    requires InBounds(m)
    ensures InBounds(r.0)
  {
    match e
    case Offer(offer, begin, digestBegin) => OfferStep(m, offer, begin, digestBegin)
    case Poll(a) => PollStep(m, a)
    case Activate(status) => ActivateStep(m, status)
    case Cancel => (m.(state := Idle, received := 0, requested := false), [Abort])
  }

  const BLANK := Manifest(0, Fill(0, 32), Fill(0, 64), 0)
  const START := Machine(Idle, BLANK, 0, false)

  function After(run: seq<Event>): (m: Machine)
    ensures InBounds(m)
  {
    if run == [] then START else Step(After(run[..|run| - 1]), run[|run| - 1]).0
  }

  function Trace(run: seq<Event>): seq<Call> {
    if run == [] then []
    else Trace(run[..|run| - 1]) + Step(After(run[..|run| - 1]), run[|run| - 1]).1
  }

  // ---------------------------------------------------------------- evidence

  /** What a trace shows about the image since the last accepted offer. */
  datatype Evidence = Evidence(offered: Option<Manifest>, written: seq<u8>, contiguous: bool, digested: seq<u8>,
                               digest: Option<Digest>, verified: bool, finished: bool, activations: nat)

  const NOTHING := Evidence(None, [], true, [], None, false, false, 0)

  function Observe(e: Evidence, c: Call): Evidence {
    match c
    case Accepted(m) => NOTHING.(offered := Some(m))
    case Write(offset, data, Ok) =>
      e.(contiguous := e.contiguous && offset == |e.written|, written := e.written + data)
    case Update(data, Ok) => e.(digested := e.digested + data)
    case DigestFinish(Ok, digest) => e.(digest := Some(digest))
    case Verify(digest, signature, keyId, Ok) =>
      e.(verified := e.offered.Some? && Some(digest) == e.digest
                     && signature == e.offered.value.signature && keyId == e.offered.value.keyId)
    case Finish(Ok) => e.(finished := true)
    case ActivateStaged(_) => e.(activations := e.activations + 1)
    case _ => e
  }

  function ObserveAll(e: Evidence, trace: seq<Call>): Evidence {
    if trace == [] then e else Observe(ObserveAll(e, trace[..|trace| - 1]), trace[|trace| - 1])
  }

  function EvidenceOf(trace: seq<Call>): Evidence {
    ObserveAll(NOTHING, trace)
  }

  /**
   * The image is complete: writes tile it without gap or overlap, the digest was fed exactly
   * those octets and gave the promised value, the signature was accepted, the store closed.
   */
  predicate Proven(e: Evidence) {
    && e.offered.Some? && e.contiguous && |e.written| == e.offered.value.size
    && e.digested == e.written && e.digest == Some(e.offered.value.digest)
    && e.verified && e.finished && e.activations == 0
  }

  lemma {:induction false} ObserveConcat(e: Evidence, s: seq<Call>, t: seq<Call>)
    ensures ObserveAll(e, s + t) == ObserveAll(ObserveAll(e, s), t)
    decreases |t|
  {
    if t == [] {
      assert s + t == s;
    } else {
      assert (s + t)[..|s + t| - 1] == s + t[..|t| - 1];
      ObserveConcat(e, s, t[..|t| - 1]);
    }
  }

  lemma ObserveSnoc(e: Evidence, s: seq<Call>, c: Call)
    ensures ObserveAll(e, s + [c]) == Observe(ObserveAll(e, s), c)
  {
    assert (s + [c])[..|s|] == s;
  }

  lemma ObserveOne(e: Evidence, c: Call)
    ensures ObserveAll(e, [c]) == Observe(e, c)
  {
    assert [c][..0] == [];
  }

  lemma ThreeMore(e: Evidence, s: seq<Call>, a: Call, b: Call, c: Call)
    ensures ObserveAll(e, s + [a] + [b] + [c]) == Observe(Observe(Observe(ObserveAll(e, s), a), b), c)
  {
    ObserveSnoc(e, s, a);
    ObserveSnoc(e, s + [a], b);
    ObserveSnoc(e, s + [a] + [b], c);
  }

  /** The machine and the evidence belong together. */
  ghost predicate Matches(m: Machine, e: Evidence) {
    && (m.state == Downloading || m.state == ReadyToActivate ==> e.offered == Some(m.manifest) && e.activations == 0)
    && (m.state == Downloading && m.manifest.size <= LARGEST_SAFE_IMAGE ==>
          && e.contiguous && |e.written| == m.received && e.digested == e.written && m.received < m.manifest.size)
    && (m.state == ReadyToActivate && m.manifest.size <= LARGEST_SAFE_IMAGE ==> Proven(e))
    && (m.state == Activating ==> e.activations <= 1)
  }

  // ---------------------------------------------------------------- safety

  lemma FailObserved(e: Evidence, calls: seq<Call>)
    ensures ObserveAll(e, calls + [Abort]) == ObserveAll(e, calls)
  {
    ObserveSnoc(e, calls, Abort);
  }

  lemma NoWrap(m: Machine, n: nat)
    requires m.received < m.manifest.size <= LARGEST_SAFE_IMAGE && n <= CHUNK_BYTES
    ensures Add32(m.received, n) == m.received + n
  {
  }

  lemma OfferMatches(m: Machine, e: Evidence, offer: Manifest, begin: Status, digestBegin: Status)
    requires Matches(m, e)
    ensures var r := OfferStep(m, offer, begin, digestBegin); Matches(r.0, ObserveAll(e, r.1))
  {
    var c1 := [Begin(offer.size, begin)];
    var c2 := c1 + [DigestBegin(digestBegin)];
    ObserveOne(e, Begin(offer.size, begin));
    ObserveSnoc(e, c1, DigestBegin(digestBegin));
    ObserveSnoc(e, c2, Accepted(offer));
    FailObserved(e, c1);
    FailObserved(e, c2);
    assert c2 == [Begin(offer.size, begin), DigestBegin(digestBegin)];
    assert c2 + [Accepted(offer)] == [Begin(offer.size, begin), DigestBegin(digestBegin), Accepted(offer)];
  }

  /** What the download must leave behind for verification to establish `Proven`. */
  ghost predicate Downloaded(m: Machine, f: Evidence) {
    && f.offered == Some(m.manifest) && f.activations == 0
    && (m.manifest.size <= LARGEST_SAFE_IMAGE ==>
          f.contiguous && |f.written| == m.manifest.size && f.digested == f.written)
  }

  /** What successful verification adds to the evidence `f`. */
  function Verified(m: Machine, f: Evidence, digest: Digest): Evidence {
    Observe(Observe(Observe(f, DigestFinish(Ok, digest)),
                    Verify(digest, m.manifest.signature, m.manifest.keyId, Ok)), Finish(Ok))
  }

  lemma VerifyObserved(m: Machine, a: Answers, e: Evidence, calls: seq<Call>)
    requires VerifyStep(m, a, calls).0.state == ReadyToActivate && m.state != ReadyToActivate
    ensures ObserveAll(e, VerifyStep(m, a, calls).1) == Verified(m, ObserveAll(e, calls), a.digest)
    ensures VerifyStep(m, a, calls).0 == m.(state := ReadyToActivate) && a.digest == m.manifest.digest
  {
    assert a.digestFinish == Ok && a.digest == m.manifest.digest && a.verify == Ok && a.finish == Ok;
    var digested, verified, finished :=
      DigestFinish(Ok, a.digest), Verify(a.digest, m.manifest.signature, m.manifest.keyId, Ok), Finish(Ok);
    assert VerifyStep(m, a, calls).1 == calls + [digested] + [verified] + [finished];
    ThreeMore(e, calls, digested, verified, finished);
  }

  lemma VerifiedIsProven(m: Machine, f: Evidence)
    requires Downloaded(m, f)
    ensures Matches(m.(state := ReadyToActivate), Verified(m, f, m.manifest.digest))
  {
  }

  /** Verification after the last chunk, from the evidence that the download left. */
  lemma VerifyMatches(m: Machine, a: Answers, e: Evidence, calls: seq<Call>)
    requires Downloaded(m, ObserveAll(e, calls)) && m.state == Downloading
    ensures var r := VerifyStep(m, a, calls); Matches(r.0, ObserveAll(e, r.1))
  {
    if VerifyStep(m, a, calls).0.state == ReadyToActivate {
      VerifyObserved(m, a, e, calls);
      VerifiedIsProven(m, ObserveAll(e, calls));
    }
  }

  /** The evidence of a received chunk. */
  lemma ChunkObserved(m: Machine, a: Answers, e: Evidence)
    ensures var c1 := [Take(a.take, a.data)];
            var c2 := c1 + [Write(m.received, a.data, Ok)];
            var c3 := c2 + [Update(a.data, Ok)];
            && ObserveAll(e, c1) == e
            && ObserveAll(e, c3) == e.(contiguous := e.contiguous && m.received == |e.written|,
                                       written := e.written + a.data, digested := e.digested + a.data)
  {
    var c1 := [Take(a.take, a.data)];
    var c2 := c1 + [Write(m.received, a.data, Ok)];
    ObserveOne(e, Take(a.take, a.data));
    ObserveSnoc(e, c1, Write(m.received, a.data, Ok));
    ObserveSnoc(e, c2, Update(a.data, Ok));
  }

  lemma ReceiveMatches(m: Machine, a: Answers, e: Evidence)
    requires Matches(m, e) && m.state == Downloading && m.received < m.manifest.size
    ensures var r := ReceiveStep(m, a); Matches(r.0, ObserveAll(e, r.1))
  {
    var c1 := [Take(a.take, a.data)];
    var c2 := c1 + [Write(m.received, a.data, a.write)];
    var c3 := c2 + [Update(a.data, a.update)];
    ChunkObserved(m, a, e);
    FailObserved(e, c1);
    FailObserved(e, c2);
    FailObserved(e, c3);
    if a.take == Ok && a.write == Ok && a.update == Ok {
      var next := m.(received := Add32(m.received, |a.data|), requested := false);
      if m.manifest.size <= LARGEST_SAFE_IMAGE {
        NoWrap(m, |a.data|);
      }
      if next.received == m.manifest.size {
        VerifyMatches(next, a, e, c3);
      }
    }
  }

  lemma PollMatches(m: Machine, a: Answers, e: Evidence)
    requires Matches(m, e) && InBounds(m)
    ensures var r := PollStep(m, a); Matches(r.0, ObserveAll(e, r.1))
  {
    if m.state == Downloading {
      if m.requested {
        ReceiveMatches(m, a, e);
      } else {
        var c := [Request(m.received, Wanted(m), a.request)];
        ObserveOne(e, Request(m.received, Wanted(m), a.request));
        FailObserved(e, c);
      }
    }
  }

  lemma FailedMatches(m: Machine, e: Evidence)
    requires m.state == Failed
    ensures Matches(m, e)
  {
  }

  lemma ActivatingMatches(m: Machine, e: Evidence)
    requires m.state == Activating && e.activations <= 1
    ensures Matches(m, e)
  {
  }

  lemma ActivateMatches(m: Machine, status: Status, e: Evidence)
    requires Matches(m, e)
    ensures var r := ActivateStep(m, status); Matches(r.0, ObserveAll(e, r.1))
  {
    if m.state == ReadyToActivate {
      var r := ActivateStep(m, status);
      if status == Ok {
        ObserveOne(e, ActivateStaged(Ok));
        ActivatingMatches(r.0, Observe(e, ActivateStaged(Ok)));
      } else {
        FailedMatches(r.0, ObserveAll(e, r.1));
      }
    }
  }

  lemma StepMatches(m: Machine, event: Event, e: Evidence)
    requires Matches(m, e) && InBounds(m)
    ensures var r := Step(m, event); Matches(r.0, ObserveAll(e, r.1))
  {
    match event
    case Offer(offer, begin, digestBegin) => OfferMatches(m, e, offer, begin, digestBegin);
    case Poll(a) => PollMatches(m, a, e);
    case Activate(status) => ActivateMatches(m, status, e);
    case Cancel =>
      ObserveOne(e, Abort);
  }

  lemma {:induction false} EveryRunMatches(run: seq<Event>)
    ensures Matches(After(run), EvidenceOf(Trace(run)))
    decreases |run|
  {
    if run != [] {
      var before, event := run[..|run| - 1], run[|run| - 1];
      EveryRunMatches(before);
      StepMatches(After(before), event, EvidenceOf(Trace(before)));
      ObserveConcat(NOTHING, Trace(before), Step(After(before), event).1);
    }
  }

  /** Only activation in the ready state boots, and it is the first call of its step. */
  lemma OnlyReadyBoots(m: Machine, event: Event, i: nat)
    requires InBounds(m) && i < |Step(m, event).1| && Step(m, event).1[i].ActivateStaged?
    ensures m.state == ReadyToActivate && i == 0
  {
  }

  /**
   * Safety over every run: the boot port is asked to activate at most once per accepted offer,
   * and for images that fit the 32-bit arithmetic only when the image is proven.
   */
  lemma {:induction false} ActivationIsSafe(run: seq<Event>, i: nat)
    requires i < |Trace(run)| && Trace(run)[i].ActivateStaged?
    ensures var e := EvidenceOf(Trace(run)[..i]);
            && e.offered.Some? && e.activations == 0
            && (e.offered.value.size <= LARGEST_SAFE_IMAGE ==> Proven(e))
    decreases |run|
  {
    var before, event := run[..|run| - 1], run[|run| - 1];
    var t, calls := Trace(before), Step(After(before), event).1;
    if i < |t| {
      assert (t + calls)[..i] == t[..i];
      ActivationIsSafe(before, i);
    } else {
      OnlyReadyBoots(After(before), event, i - |t|);
      assert (t + calls)[..i] == t;
      EveryRunMatches(before);
    }
  }

  // ---------------------------------------------------------------- images too large for 32 bits

  /** A run that is downloading `offer`, stands at `received`, and has stored `written` octets. */
  ghost predicate At(run: seq<Event>, offer: Manifest, received: u32, written: nat) {
    && After(run) == Machine(Downloading, offer, received, false)
    && var e := EvidenceOf(Trace(run)); e.offered == Some(offer) && |e.written| == written
  }

  /** Ports that accept everything, and deliver `n` octets. */
  function Agreeable(offer: Manifest, n: nat): Answers
    requires n <= CHUNK_BYTES
  {
    Answers(Ok, Ok, Fill(0, n), Ok, Ok, Ok, offer.digest, Ok, Ok)
  }

  lemma OneMore(run: seq<Event>, event: Event)
    ensures var next := run + [event];
            && After(next) == Step(After(run), event).0
            && EvidenceOf(Trace(next)) == ObserveAll(EvidenceOf(Trace(run)), Step(After(run), event).1)
  {
    assert (run + [event])[..|run|] == run;
    ObserveConcat(NOTHING, Trace(run), Step(After(run), event).1);
  }

  /** The poll that requests the next chunk. */
  lemma Requested(run: seq<Event>, offer: Manifest, received: u32, written: nat) returns (next: seq<Event>)
    requires At(run, offer, received, written)
    ensures After(next) == Machine(Downloading, offer, received, true)
    ensures var e := EvidenceOf(Trace(next)); e.offered == Some(offer) && |e.written| == written
  {
    var event := Poll(Agreeable(offer, 0));
    OneMore(run, event);
    ObserveOne(EvidenceOf(Trace(run)), Request(received, Wanted(After(run)), Ok));
    next := run + [event];
  }

  /** A chunk of `n` octets that does not complete the image. */
  lemma Fed(run: seq<Event>, offer: Manifest, received: u32, written: nat, n: nat) returns (next: seq<Event>)
    requires At(run, offer, received, written) && 0 < n <= CHUNK_BYTES && Add32(received, n) < offer.size
    ensures At(next, offer, Add32(received, n), written + n)
  {
    var asked := Requested(run, offer, received, written);
    var m, a := After(asked), Agreeable(offer, n);
    OneMore(asked, Poll(a));
    ChunkObserved(m, a, EvidenceOf(Trace(asked)));
    assert Step(m, Poll(a)) == ReceiveStep(m, a);
    next := asked + [Poll(a)];
  }

  lemma LastChunk(m: Machine, a: Answers)
    requires m.received + |a.data| == m.manifest.size && a.data != []
    requires a.take == Ok && a.write == Ok && a.update == Ok
    ensures ReceiveStep(m, a) == VerifyStep(m.(received := m.manifest.size, requested := false), a,
                                            [Take(Ok, a.data)] + [Write(m.received, a.data, Ok)] + [Update(a.data, Ok)])
  {
  }

  lemma LastChunkObserved(m: Machine, offer: Manifest, e: Evidence)
    requires m.manifest == offer && m.state == Downloading && m.received + 1 == offer.size
    ensures var r := ReceiveStep(m, Agreeable(offer, 1)); var f := ObserveAll(e, r.1);
            r.0.state == ReadyToActivate && f.offered == e.offered && |f.written| == |e.written| + 1
  {
    var a, got := Agreeable(offer, 1), m.(received := offer.size, requested := false);
    LastChunk(m, a);
    ChunkObserved(m, a, e);
    VerifyObserved(got, a, e, [Take(Ok, a.data)] + [Write(m.received, a.data, Ok)] + [Update(a.data, Ok)]);
  }

  /** The last octet of an image whose digest and signature are accepted. */
  lemma Completed(run: seq<Event>, offer: Manifest, received: u32, written: nat) returns (next: seq<Event>)
    requires At(run, offer, received, written) && received + 1 == offer.size
    ensures After(next).state == ReadyToActivate
    ensures var e := EvidenceOf(Trace(next)); e.offered == Some(offer) && |e.written| == written + 1
  {
    var asked := Requested(run, offer, received, written);
    var m, event := After(asked), Poll(Agreeable(offer, 1));
    OneMore(asked, event);
    next := asked + [event];
    LastChunkObserved(m, offer, EvidenceOf(Trace(asked)));
    assert Step(m, event) == ReceiveStep(m, Agreeable(offer, 1));
  }

  /** Octet by octet, any position short of the end is reached. */
  lemma {:induction false} FedTo(run: seq<Event>, offer: Manifest, received: u32, written: nat, target: u32)
    returns (next: seq<Event>)
    requires At(run, offer, received, written) && received <= target < offer.size
    ensures At(next, offer, target, written + target - received)
    decreases target - received
  {
    if received == target {
      next := run;
    } else {
      next := Fed(run, offer, received, written, 1);
      next := FedTo(next, offer, received + 1, written + 1, target);
    }
  }

  lemma Offered(offer: Manifest) returns (run: seq<Event>)
    requires offer.size > 0
    ensures At(run, offer, 0, 0)
  {
    var event := Offer(offer, Ok, Ok);
    OneMore([], event);
    ObserveOne(NOTHING, Begin(offer.size, Ok));
    ObserveSnoc(NOTHING, [Begin(offer.size, Ok)], DigestBegin(Ok));
    ObserveSnoc(NOTHING, [Begin(offer.size, Ok), DigestBegin(Ok)], Accepted(offer));
    assert [Begin(offer.size, Ok)] + [DigestBegin(Ok)] == [Begin(offer.size, Ok), DigestBegin(Ok)];
    assert [] + [event] == [event];
    run := [event];
  }

  /**
   * Larger images escape: a chunk near the end wraps the addition, the download starts over
   * inside the image, and what is activated has more octets stored than the image has.
   */
  lemma LargeImageWraps(offer: Manifest) returns (run: seq<Event>)
    requires offer.size > LARGEST_SAFE_IMAGE
    ensures After(run).state == ReadyToActivate
    ensures var e := EvidenceOf(Trace(run)); e.offered == Some(offer) && !Proven(e)
  {
    var last: u32 := offer.size - 1;
    run := Offered(offer);
    run := FedTo(run, offer, 0, 0, last);
    var again := Add32(last, CHUNK_BYTES);
    run := Fed(run, offer, last, last, CHUNK_BYTES);
    run := FedTo(run, offer, again, last + CHUNK_BYTES, last);
    run := Completed(run, offer, last, last + CHUNK_BYTES + last - again);
  }

  /** In every run, an activation for an image of this size has the image proven. */
  ghost predicate SafeSize(size: u32) {
    forall run: seq<Event>, i: nat ::
      i < |Trace(run)| && Trace(run)[i].ActivateStaged? ==>
        var e := EvidenceOf(Trace(run)[..i]);
        e.offered.Some? && (e.offered.value.size == size ==> Proven(e))
  }

  /** Exactly the images of at most 2^32 - 1024 octets are safe. */
  lemma SafeExactlyUpTo(size: u32)
    ensures SafeSize(size) <==> size <= 0xFFFF_FC00
  {
    if size <= LARGEST_SAFE_IMAGE {
      forall run: seq<Event>, i: nat | i < |Trace(run)| && Trace(run)[i].ActivateStaged?
        ensures var e := EvidenceOf(Trace(run)[..i]);
                e.offered.Some? && (e.offered.value.size == size ==> Proven(e))
      {
        ActivationIsSafe(run, i);
      }
    } else {
      var run := LargeImageWraps(BLANK.(size := size));
      var next := run + [Activate(Ok)];
      assert next[..|run|] == run;
      assert Trace(next) == Trace(run) + [ActivateStaged(Ok)];
      assert Trace(next)[..|Trace(run)|] == Trace(run);
      assert Trace(next)[|Trace(run)|].ActivateStaged?;
    }
  }

  // ---------------------------------------------------------------- progress

  /** Twice what is missing, plus one while nothing is requested. */
  function Rank(m: Machine): nat
    requires m.received <= m.manifest.size
  {
    2 * (m.manifest.size - m.received) + (if m.requested then 0 else 1)
  }

  /** The poll takes and stores a chunk whose end is beyond 2^32. */
  predicate Wraps(m: Machine, a: Answers) {
    && m.requested && a.take == Ok && a.write == Ok && a.update == Ok
    && m.received + |a.data| >= 0x1_0000_0000
  }

  /** A poll whose take is not busy ends the download or lowers the rank, exactly unless it wraps. */
  lemma PollProgresses(m: Machine, a: Answers)
    requires m.state == Downloading && InBounds(m) && (m.requested ==> a.take != Busy)
    ensures var r := PollStep(m, a).0;
            (r.state == Downloading ==> r.manifest == m.manifest && r.received < r.manifest.size && Rank(r) < Rank(m))
            <==> !Wraps(m, a)
  {
    if !Wraps(m, a) {
      assert m.received + |a.data| < 0x1_0000_0000 ==> Add32(m.received, |a.data|) == m.received + |a.data|;
    } else {
      assert Add32(m.received, |a.data|) == m.received + |a.data| - 0x1_0000_0000;
    }
  }

  function PollAll(m: Machine, answers: seq<Answers>): (r: Machine)
    requires InBounds(m)
    ensures InBounds(r)
    decreases |answers|
  {
    if answers == [] then m else PollAll(Step(m, Poll(answers[0])).0, answers[1..])
  }

  lemma {:induction false} DownloadEndsWithin(m: Machine, answers: seq<Answers>)
    requires InBounds(m) && m.manifest.size <= LARGEST_SAFE_IMAGE
    requires forall i :: 0 <= i < |answers| ==> answers[i].take != Busy
    requires m.state == Downloading ==> |answers| + 2 > Rank(m)
    ensures PollAll(m, answers).state != Downloading
    decreases |answers|
  {
    if answers != [] {
      if m.state == Downloading {
        PollProgresses(m, answers[0]);
      }
      DownloadEndsWithin(Step(m, Poll(answers[0])).0, answers[1..]);
    }
  }

  /** No answer to a take is busy. */
  predicate Prompt(answers: seq<Answers>) {
    forall i :: 0 <= i < |answers| ==> answers[i].take != Busy
  }

  /** A download that has just begun. */
  predicate Begun(m: Machine, size: u32) {
    m.state == Downloading && m.manifest.size == size > 0 && m.received == 0 && !m.requested
  }

  /** A download ends within twice as many non-busy polls as the image has octets. */
  lemma DownloadEnds(m: Machine, answers: seq<Answers>)
    requires Begun(m, m.manifest.size) && m.manifest.size <= LARGEST_SAFE_IMAGE
    requires Prompt(answers) && |answers| == 2 * m.manifest.size
    ensures PollAll(m, answers).state != Downloading
  {
    DownloadEndsWithin(m, answers);
  }

  lemma {:induction false} PollAllConcat(m: Machine, a: seq<Answers>, b: seq<Answers>)
    requires InBounds(m)
    ensures PollAll(m, a + b) == PollAll(PollAll(m, a), b)
    decreases |a|
  {
    if a == [] {
      assert a + b == b;
    } else {
      assert (a + b)[1..] == a[1..] + b;
      PollAllConcat(Step(m, Poll(a[0])).0, a[1..], b);
    }
  }

  /** Two polls for a chunk that does not complete the image. */
  function ChunkPolls(offer: Manifest, n: nat): (answers: seq<Answers>)
    requires n <= CHUNK_BYTES
    ensures |answers| == 2 && Prompt(answers)
  {
    [Agreeable(offer, 0), Agreeable(offer, n)]
  }

  lemma ChunkPolled(offer: Manifest, received: u32, n: nat)
    requires received < offer.size && 0 < n <= CHUNK_BYTES && Add32(received, n) < offer.size
    ensures PollAll(Machine(Downloading, offer, received, false), ChunkPolls(offer, n))
            == Machine(Downloading, offer, Add32(received, n), false)
  {
    var m, answers := Machine(Downloading, offer, received, false), ChunkPolls(offer, n);
    var asked := m.(requested := true);
    assert Step(m, Poll(answers[0])).0 == asked;
    assert Step(asked, Poll(answers[1])) == ReceiveStep(asked, answers[1]);
    assert answers[1..] == [answers[1]] && answers[1..][1..] == [];
    var fed := Step(asked, Poll(answers[1])).0;
    assert fed == Machine(Downloading, offer, Add32(received, n), false);
    assert PollAll(fed, []) == fed && PollAll(asked, [answers[1]]) == PollAll(fed, []);
  }

  /** `answers` take a download of `offer` from one position to another. */
  ghost predicate Carries(offer: Manifest, received: u32, target: u32, answers: seq<Answers>) {
    && received <= target < offer.size && Prompt(answers) && |answers| == 2 * (target - received)
    && PollAll(Machine(Downloading, offer, received, false), answers) == Machine(Downloading, offer, target, false)
  }

  lemma CarriesOneMore(offer: Manifest, received: u32, target: u32, rest: seq<Answers>)
    requires received < target && Carries(offer, received + 1, target, rest)
    ensures Carries(offer, received, target, ChunkPolls(offer, 1) + rest)
  {
    assert Add32(received, 1) == received + 1;
    ChunkPolled(offer, received, 1);
    PollAllConcat(Machine(Downloading, offer, received, false), ChunkPolls(offer, 1), rest);
  }

  lemma {:induction false} PolledTo(offer: Manifest, received: u32, target: u32) returns (answers: seq<Answers>)
    requires received <= target < offer.size
    ensures Carries(offer, received, target, answers)
    decreases target - received
  {
    answers := [];
    if received < target {
      answers := PolledTo(offer, received + 1, target);
      CarriesOneMore(offer, received, target, answers);
      answers := ChunkPolls(offer, 1) + answers;
    }
  }

  /** With larger images the last chunk may wrap, and the download goes on. */
  lemma LargeDownloadGoesOn(offer: Manifest) returns (answers: seq<Answers>)
    requires offer.size > LARGEST_SAFE_IMAGE
    ensures Prompt(answers) && |answers| == 2 * offer.size
    ensures PollAll(Machine(Downloading, offer, 0, false), answers).state == Downloading
  {
    var last: u32 := offer.size - 1;
    var first := PolledTo(offer, 0, last);
    ChunkPolled(offer, last, CHUNK_BYTES);
    PollAllConcat(Machine(Downloading, offer, 0, false), first, ChunkPolls(offer, CHUNK_BYTES));
    answers := first + ChunkPolls(offer, CHUNK_BYTES);
  }

  /** Whatever the ports answer promptly, a download of this size is over after two polls per octet. */
  ghost predicate EndsInTime(size: u32) {
    forall m: Machine, answers: seq<Answers> ::
      Begun(m, size) && Prompt(answers) && |answers| == 2 * size ==> PollAll(m, answers).state != Downloading
  }

  /** Exactly the images of at most 2^32 - 1024 octets download within that many polls. */
  lemma EndsInTimeExactlyUpTo(size: u32)
    requires size > 0
    ensures EndsInTime(size) <==> size <= 0xFFFF_FC00
  {
    if size <= LARGEST_SAFE_IMAGE {
      forall m: Machine, answers: seq<Answers> | Begun(m, size) && Prompt(answers) && |answers| == 2 * size
        ensures PollAll(m, answers).state != Downloading
      {
        DownloadEnds(m, answers);
      }
    } else {
      var answers := LargeDownloadGoesOn(BLANK.(size := size));
      assert Begun(Machine(Downloading, BLANK.(size := size), 0, false), size);
    }
  }

  // ---------------------------------------------------------------- the ports

  /** The five injected ports.  They answer as they like; `calls` records what they were asked. */
  class Ports {
    ghost var calls: seq<Call>

    constructor ()
      ensures calls == []
    {
      calls := [];
    }

    method Begin(size: u32) returns (status: Status)
      modifies this
      ensures calls == old(calls) + [Call.Begin(size, status)]
    {
      status := *;
      calls := calls + [Call.Begin(size, status)];
    }

    method DigestBegin() returns (status: Status)
      modifies this
      ensures calls == old(calls) + [Call.DigestBegin(status)]
    {
      status := *;
      calls := calls + [Call.DigestBegin(status)];
    }

    method Request(offset: u32, count: nat) returns (status: Status)
      modifies this
      ensures calls == old(calls) + [Call.Request(offset, count, status)]
    {
      status := *;
      calls := calls + [Call.Request(offset, count, status)];
    }

    method Take(chunk: array<u8>) returns (status: Status, size: nat)
      modifies this, chunk
      ensures size <= chunk.Length && calls == old(calls) + [Call.Take(status, chunk[..size])]
    {
      status, size := *, *;
      size := if size <= chunk.Length then size else chunk.Length;
      for i := 0 to size
        invariant calls == old(calls)
      {
        chunk[i] := *;
      }
      calls := calls + [Call.Take(status, chunk[..size])];
    }

    method Write(offset: u32, chunk: array<u8>, size: nat) returns (status: Status)
      requires size <= chunk.Length
      modifies this
      ensures calls == old(calls) + [Call.Write(offset, chunk[..size], status)]
    {
      status := *;
      calls := calls + [Call.Write(offset, chunk[..size], status)];
    }

    method Update(chunk: array<u8>, size: nat) returns (status: Status)
      requires size <= chunk.Length
      modifies this
      ensures calls == old(calls) + [Call.Update(chunk[..size], status)]
    {
      status := *;
      calls := calls + [Call.Update(chunk[..size], status)];
    }

    method DigestFinish(calculated: array<u8>) returns (status: Status)
      requires calculated.Length == 32
      modifies this, calculated
      ensures calls == old(calls) + [Call.DigestFinish(status, calculated[..])]
    {
      status := *;
      for i := 0 to 32
        invariant calls == old(calls)
      {
        calculated[i] := *;
      }
      calls := calls + [Call.DigestFinish(status, calculated[..])];
    }

    method Verify(calculated: array<u8>, signature: Signature, keyId: u8) returns (status: Status)
      requires calculated.Length == 32
      modifies this
      ensures calls == old(calls) + [Call.Verify(calculated[..], signature, keyId, status)]
    {
      status := *;
      calls := calls + [Call.Verify(calculated[..], signature, keyId, status)];
    }

    method Finish() returns (status: Status)
      modifies this
      ensures calls == old(calls) + [Call.Finish(status)]
    {
      status := *;
      calls := calls + [Call.Finish(status)];
    }

    method Abort()
      modifies this
      ensures calls == old(calls) + [Call.Abort]
    {
      calls := calls + [Call.Abort];
    }

    method ActivateStaged() returns (status: Status)
      modifies this
      ensures calls == old(calls) + [Call.ActivateStaged(status)]
    {
      status := *;
      calls := calls + [Call.ActivateStaged(status)];
    }

    /** Marks the acceptance of an offer in the record. */
    ghost method Accept(m: Manifest)
      modifies this
      ensures calls == old(calls) + [Accepted(m)]
    {
      calls := calls + [Accepted(m)];
    }
  }

  // ---------------------------------------------------------------- the service

  class OtaService {
    const ports: Ports
    const chunk: array<u8>
    var manifest: Manifest
    var received: u32
    var requested: bool
    var state: State

    /** Everything that happened to the service. */
    ghost var run: seq<Event>

    ghost function Snapshot(): Machine
      reads this
    {
      Machine(state, manifest, received, requested)
    }

    /** The service is where the machine is after the same events, and its ports saw that trace. */
    ghost predicate Valid()
      reads this, ports
    {
      chunk.Length == CHUNK_BYTES && Snapshot() == After(run) && ports.calls == Trace(run)
    }

    constructor ()
      ensures Valid() && run == [] && fresh(ports) && fresh(chunk)
    {
      ports := new Ports();
      chunk := new u8[CHUNK_BYTES];
      manifest, received, requested, state := BLANK, 0, false, Idle;
      run := [];
    }

    method Fail()
      modifies this`state, this`requested, ports
      ensures state == Failed && !requested && ports.calls == old(ports.calls) + [Call.Abort]
    {
      ports.Abort();
      state, requested := Failed, false;
    }

    /** Records an event once state and ports are as its step leaves them. */
    ghost method Record(event: Event)
      requires chunk.Length == CHUNK_BYTES
      requires Snapshot() == Step(After(run), event).0 && ports.calls == Trace(run) + Step(After(run), event).1
      modifies this`run
      ensures Valid() && run == old(run) + [event]
    {
      assert (run + [event])[..|run|] == run;
      run := run + [event];
    }

    method Offer(m: Manifest) returns (status: Status, ghost event: Event)
      requires Valid()
      modifies this, ports
      ensures Valid() && event.Offer? && event.manifest == m && run == old(run) + [event]
      ensures status == Ok <==> old(state) == Idle && m.size != 0 && event.begin == Ok && event.digestBegin == Ok
      ensures status == Ok ==> state == Downloading
      ensures status == InvalidArgument <==> old(state) != Idle || m.size == 0
    {
      event := Event.Offer(m, Ok, Ok);
      if state != Idle || m.size == 0 {
        Record(event);
        return InvalidArgument, event;
      }
      var begin := ports.Begin(m.size);
      event := Event.Offer(m, begin, Ok);
      if begin != Ok {
        Fail();
        Record(event);
        return IoError, event;
      }
      var digestBegin := ports.DigestBegin();
      event := Event.Offer(m, begin, digestBegin);
      if digestBegin != Ok {
        Fail();
        Record(event);
        return IoError, event;
      }
      ports.Accept(m);
      manifest, received, requested, state := m, 0, false, Downloading;
      Record(event);
      status := Ok;
    }

    method Poll() returns (ghost event: Event)
      requires Valid()
      modifies this, chunk, ports
      ensures Valid() && event.Poll? && run == old(run) + [event]
    {
      ghost var answers := Answers(Ok, Ok, [], Ok, Ok, Ok, BLANK.digest, Ok, Ok);
      if state == Downloading {
        if !requested {
          var remaining := manifest.size - received;
          var wanted := if remaining < CHUNK_BYTES then remaining else CHUNK_BYTES;
          var status := ports.Request(received, wanted);
          answers := answers.(request := status);
          if status == Ok || status == Busy {
            requested := true;
          } else {
            Fail();
          }
        } else {
          answers := Receive();
        }
      }
      event := Event.Poll(answers);
      Record(event);
    }

    /** Takes a chunk, stores and digests it, and verifies the image when it was the last. */
    method Receive() returns (ghost a: Answers)
      requires chunk.Length == CHUNK_BYTES && state == Downloading
      modifies this`state, this`received, this`requested, chunk, ports
      ensures var r := ReceiveStep(old(Snapshot()), a);
              Snapshot() == r.0 && ports.calls == old(ports.calls) + r.1
    {
      ghost var m, base := Snapshot(), ports.calls;
      a := Answers(Ok, Ok, [], Ok, Ok, Ok, BLANK.digest, Ok, Ok);
      var take, size := ports.Take(chunk);
      ghost var data := chunk[..size];
      a := a.(take := take, data := data);
      if take == Busy {
        return;
      }
      if take != Ok || size == 0 || Add32(received, size) > manifest.size {
        Fail();
        return;
      }
      var write := ports.Write(received, chunk, size);
      a := a.(write := write);
      if write != Ok {
        Fail();
        return;
      }
      var update := ports.Update(chunk, size);
      a := a.(update := update);
      if update != Ok {
        Fail();
        return;
      }
      received, requested := Add32(received, size), false;
      if received == manifest.size {
        a := Verify(a, base, [Call.Take(take, data)] + [Call.Write(m.received, data, write)]
                             + [Call.Update(data, update)]);
      }
    }

    /** Compares the digest, checks the signature and closes the store. */
    method Verify(ghost before: Answers, ghost base: seq<Call>, ghost calls: seq<Call>) returns (ghost a: Answers)
      requires state == Downloading && ports.calls == base + calls
      modifies this`state, this`requested, ports
      ensures a == before.(digestFinish := a.digestFinish, digest := a.digest, verify := a.verify, finish := a.finish)
      ensures var r := VerifyStep(old(Snapshot()), a, calls);
              Snapshot() == r.0 && ports.calls == base + r.1
    {
      a := before;
      state := Verifying;
      var calculated := new u8[32];
      var digestFinish := ports.DigestFinish(calculated);
      a := a.(digestFinish := digestFinish, digest := calculated[..]);
      if digestFinish != Ok {
        Fail();
        return;
      }
      var same := SameDigest(calculated, manifest.digest);
      if !same {
        Fail();
        return;
      }
      var verified := ports.Verify(calculated, manifest.signature, manifest.keyId);
      a := a.(verify := verified);
      if verified != Ok {
        Fail();
        return;
      }
      var finished := ports.Finish();
      a := a.(finish := finished);
      if finished != Ok {
        Fail();
        return;
      }
      state := ReadyToActivate;
    }

    method SameDigest(calculated: array<u8>, digest: Digest) returns (same: bool)
      requires calculated.Length == 32
      ensures same <==> calculated[..] == digest
    {
      for i := 0 to 32
        invariant calculated[..i] == digest[..i]
      {
        if calculated[i] != digest[i] {
          return false;
        }
      }
      assert calculated[..32] == calculated[..] && digest[..32] == digest;
      same := true;
    }

    /** Boots the image; `ActivationIsSafe` says what the ports must have seen by then. */
    method Activate() returns (status: Status, ghost event: Event)
      requires Valid()
      modifies this, ports
      ensures Valid() && event.Activate? && run == old(run) + [event]
      ensures old(state) != ReadyToActivate ==> status == NotReady && ports.calls == old(ports.calls)
      ensures old(state) == ReadyToActivate ==> event.status == status
    {
      event := Event.Activate(Ok);
      if state != ReadyToActivate {
        Record(event);
        return NotReady, event;
      }
      state := Activating;
      status := ports.ActivateStaged();
      event := Event.Activate(status);
      if status != Ok {
        Fail();
      }
      Record(event);
    }

    method Cancel()
      requires Valid()
      modifies this, ports
      ensures Valid() && state == Idle && run == old(run) + [Event.Cancel]
    {
      ports.Abort();
      state, received, requested := Idle, 0, false;
      Record(Event.Cancel);
    }
  }
}
