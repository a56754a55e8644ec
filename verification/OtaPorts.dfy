/**
 * What the update service asks of its ports, in every run: the store and the digest are opened
 * before an offer is accepted, the image is requested piece by piece without gap or overlap, a
 * chunk is taken only when one was requested, and any refusal aborts.
 */
module OtaPorts {
  import opened Words
  import opened Status
  import opened Ota

  // ---------------------------------------------------------------- requests

  /** The piece that a request must ask for, by what the store has been given before. */
  ghost predicate AsksForNext(e: Evidence, c: Call)
    requires c.Request?
  {
    && e.offered.Some?
    && (e.offered.value.size <= 0xFFFF_FC00 ==>
          var missing := e.offered.value.size - |e.written|;
          c.offset == |e.written| && missing > 0 && c.count == if missing < 1024 then missing else 1024)
  }

  lemma RequestIsAlone(m: Machine, event: Event, i: nat)
    requires InBounds(m) && i < |Step(m, event).1| && Step(m, event).1[i].Request?
    ensures i == 0 && m.state == Downloading && !m.requested
  {
  }

  lemma RequestAsks(m: Machine, event: Event, e: Evidence)
    requires InBounds(m) && Matches(m, e) && Step(m, event).1 != [] && Step(m, event).1[0].Request?
    ensures AsksForNext(e, Step(m, event).1[0])
  {
  }

  /**
   * In every run, each request asks the fetcher for the octets that follow those stored, and
   * for a full chunk or all that is missing.
   */
  lemma {:induction false} RequestsWhatIsMissing(run: seq<Event>, i: nat)
    requires i < |Trace(run)| && Trace(run)[i].Request?
    ensures AsksForNext(EvidenceOf(Trace(run)[..i]), Trace(run)[i])
    decreases |run|
  {
    var before, event := run[..|run| - 1], run[|run| - 1];
    var t, calls := Trace(before), Step(After(before), event).1;
    if i < |t| {
      assert (t + calls)[..i] == t[..i];
      RequestsWhatIsMissing(before, i);
    } else {
      RequestIsAlone(After(before), event, i - |t|);
      assert (t + calls)[..i] == t;
      EveryRunMatches(before);
      RequestAsks(After(before), event, EvidenceOf(t));
    }
  }

  // ---------------------------------------------------------------- requests and chunks alternate

  /** The call ends the outstanding request: its chunk was delivered or refused, or all is given up. */
  predicate Settles(c: Call) {
    c.Accepted? || c.Abort? || (c.Take? && c.status != Busy)
  }

  /** A chunk has been requested and neither delivered nor given up since. */
  function Outstanding(trace: seq<Call>): bool {
    if trace == [] then false
    else
      var c := trace[|trace| - 1];
      if Settles(c) then false
      else if c.Request? && (c.status == Ok || c.status == Busy) then true
      else Outstanding(trace[..|trace| - 1])
  }

  lemma {:induction false} StaysSettled(t: seq<Call>, calls: seq<Call>)
    requires forall i :: 0 <= i < |calls| ==> !calls[i].Request?
    requires !Outstanding(t) || (calls != [] && Settles(calls[0]))
    ensures !Outstanding(t + calls)
    decreases |calls|
  {
    if calls == [] {
      assert t + calls == t;
    } else {
      var init := calls[..|calls| - 1];
      assert (t + calls)[..|t + calls| - 1] == t + init;
      if init != [] || !Outstanding(t) {
        StaysSettled(t, init);
      }
    }
  }

  lemma OneCall(t: seq<Call>, c: Call)
    ensures Outstanding(t + [c]) ==
            (!Settles(c) && ((c.Request? && (c.status == Ok || c.status == Busy)) || Outstanding(t)))
  {
    assert (t + [c])[..|t|] == t;
  }

  /** Requests are made only while downloading, and the machine knows of the outstanding one. */
  ghost predicate Waiting(m: Machine, t: seq<Call>) {
    m.requested == Outstanding(t) && (m.requested ==> m.state == Downloading)
  }

  /** What the calls of a step look like: a request, the taking of a chunk, or neither, come first. */
  ghost predicate AsksInTurn(m: Machine, next: Machine, calls: seq<Call>) {
    && (next.requested ==> next.state == Downloading)
    && (forall i :: 0 < i < |calls| ==> !calls[i].Request? && !calls[i].Take?)
    && if calls == [] then next.requested == m.requested
       else if calls[0].Request? then
         && !m.requested
         && if |calls| == 1 then next.requested && calls[0].status in {Ok, Busy}
            else !next.requested && calls == [calls[0], Abort]
       else if calls[0].Take? && calls[0].status == Busy then m.requested && next.requested && |calls| == 1
       else !next.requested && (m.requested ==> Settles(calls[0])) && (calls[0].Take? ==> m.requested)
  }

  lemma StepCalls(m: Machine, event: Event)
    requires InBounds(m) && (m.requested ==> m.state == Downloading)
    ensures AsksInTurn(m, Step(m, event).0, Step(m, event).1)
  {
  }

  lemma RequestOutstanding(t: seq<Call>, calls: seq<Call>)
    requires calls != [] && calls[0].Request? && (|calls| > 1 ==> calls == [calls[0], Abort])
    requires |calls| == 1 ==> calls[0].status in {Ok, Busy}
    ensures Outstanding(t + calls) == (|calls| == 1)
  {
    OneCall(t, calls[0]);
    if |calls| > 1 {
      OneCall(t + [calls[0]], Abort);
      assert t + calls == t + [calls[0]] + [Abort];
    } else {
      assert calls == [calls[0]];
    }
  }

  lemma StepKeepsWaiting(m: Machine, event: Event, t: seq<Call>)
    requires InBounds(m) && Waiting(m, t)
    ensures Waiting(Step(m, event).0, t + Step(m, event).1)
  {
    StepCalls(m, event);
    CallsKeepWaiting(m, Step(m, event).0, Step(m, event).1, t);
  }

  lemma CallsKeepWaiting(m: Machine, next: Machine, calls: seq<Call>, t: seq<Call>)
    requires Waiting(m, t) && AsksInTurn(m, next, calls)
    ensures Waiting(next, t + calls)
  {
    if calls == [] {
      assert t + calls == t;
    } else if calls[0].Request? {
      RequestOutstanding(t, calls);
    } else if calls[0].Take? && calls[0].status == Busy {
      OneCall(t, calls[0]);
      assert calls == [calls[0]];
    } else {
      StaysSettled(t, calls);
    }
  }

  lemma {:induction false} EveryRunWaits(run: seq<Event>)
    ensures Waiting(After(run), Trace(run))
    decreases |run|
  {
    if run != [] {
      EveryRunWaits(run[..|run| - 1]);
      StepKeepsWaiting(After(run[..|run| - 1]), run[|run| - 1], Trace(run[..|run| - 1]));
    }
  }

  /** The call may be made after `t`: a request if none is outstanding, a taking if one is. */
  predicate InTurn(t: seq<Call>, c: Call) {
    (c.Request? ==> !Outstanding(t)) && (c.Take? ==> Outstanding(t))
  }

  lemma CallsInTurn(m: Machine, next: Machine, calls: seq<Call>, t: seq<Call>, i: nat)
    requires Waiting(m, t) && AsksInTurn(m, next, calls) && i < |calls|
    ensures InTurn(t + calls[..i], calls[i])
  {
    if i == 0 {
      assert t + calls[..0] == t;
    }
  }

  /** In every run, a piece is requested only when none is outstanding, and taken only when one is. */
  lemma {:induction false} OneRequestPerChunk(run: seq<Event>, i: nat)
    requires i < |Trace(run)|
    ensures InTurn(Trace(run)[..i], Trace(run)[i])
    decreases |run|
  {
    var before, event := run[..|run| - 1], run[|run| - 1];
    var t, calls := Trace(before), Step(After(before), event).1;
    if i < |t| {
      assert (t + calls)[..i] == t[..i];
      OneRequestPerChunk(before, i);
    } else {
      EveryRunWaits(before);
      StepCalls(After(before), event);
      CallsInTurn(After(before), Step(After(before), event).0, calls, t, i - |t|);
      assert (t + calls)[..i] == t + calls[..i - |t|] && (t + calls)[i] == calls[i - |t|];
    }
  }

  // ---------------------------------------------------------------- offers

  lemma AcceptedLast(m: Machine, event: Event, i: nat)
    requires InBounds(m) && i < |Step(m, event).1| && Step(m, event).1[i].Accepted?
    ensures var calls := Step(m, event).1;
            && event.Offer? && calls[i].manifest == event.manifest && event.manifest.size > 0
            && calls == [Begin(event.manifest.size, Ok), DigestBegin(Ok), Accepted(event.manifest)] && i == 2
  {
  }

  /** Right before place `i`, store and digest were opened for the image accepted there. */
  predicate Opened(t: seq<Call>, i: nat)
    requires i < |t| && t[i].Accepted?
  {
    i >= 2 && t[i - 2] == Begin(t[i].manifest.size, Ok) && t[i - 1] == DigestBegin(Ok) && t[i].manifest.size > 0
  }

  lemma OpenedBefore(t: seq<Call>, calls: seq<Call>, i: nat)
    requires i < |t| && t[i].Accepted? && Opened(t, i)
    ensures (t + calls)[i].Accepted? && Opened(t + calls, i)
  {
  }

  lemma OpenedNow(t: seq<Call>, offer: Manifest)
    requires offer.size > 0
    ensures var all := t + [Begin(offer.size, Ok), DigestBegin(Ok), Accepted(offer)];
            all[|t| + 2] == Accepted(offer) && Opened(all, |t| + 2)
  {
  }

  /** An offer is accepted only right after store and digest were opened for it, for its very size. */
  lemma {:induction false} AcceptedWhenOpened(run: seq<Event>, i: nat)
    requires i < |Trace(run)| && Trace(run)[i].Accepted?
    ensures Opened(Trace(run), i)
    decreases |run|
  {
    var before, event := run[..|run| - 1], run[|run| - 1];
    var t, calls := Trace(before), Step(After(before), event).1;
    if i < |t| {
      AcceptedWhenOpened(before, i);
      OpenedBefore(t, calls, i);
    } else {
      AcceptedLast(After(before), event, i - |t|);
      OpenedNow(t, event.manifest);
    }
  }

  // ---------------------------------------------------------------- states

  /** The state that the last call of a port stands for; nothing else decides it. */
  ghost predicate StateShows(state: State, t: seq<Call>) {
    && state != Verifying
    && (state == Idle || state == Failed <==> t == [] || t[|t| - 1].Abort?)
    && (state == ReadyToActivate <==> t != [] && t[|t| - 1] == Finish(Ok))
    && (state == Activating <==> t != [] && t[|t| - 1] == ActivateStaged(Ok))
  }

  lemma StepShows(m: Machine, event: Event, t: seq<Call>)
    requires InBounds(m) && StateShows(m.state, t)
    ensures StateShows(Step(m, event).0.state, t + Step(m, event).1)
  {
    var (next, calls) := Step(m, event);
    if calls == [] {
      assert t + calls == t;
    } else {
      assert (t + calls)[|t + calls| - 1] == calls[|calls| - 1];
    }
  }

  /** In every run, the state is the one that the last call of a port stands for. */
  lemma {:induction false} StateFollowsCalls(run: seq<Event>)
    ensures StateShows(After(run).state, Trace(run))
    decreases |run|
  {
    if run != [] {
      StateFollowsCalls(run[..|run| - 1]);
      StepShows(After(run[..|run| - 1]), run[|run| - 1], Trace(run[..|run| - 1]));
    }
  }

  /** The chunk is one the service can use. */
  predicate Usable(m: Machine, a: Answers) {
    a.take == Ok && 0 < |a.data| && (m.received + |a.data|) % 0x1_0000_0000 <= m.manifest.size
  }

  /** The chunk completes the image. */
  predicate Completes(m: Machine, a: Answers) {
    (m.received + |a.data|) % 0x1_0000_0000 == m.manifest.size
  }

  predicate Genuine(m: Machine, a: Answers) {
    a.digestFinish == Ok && a.digest == m.manifest.digest && a.verify == Ok && a.finish == Ok
  }

  /** Some port refuses what the event makes the service ask for. */
  predicate Refused(m: Machine, event: Event) {
    match event
    case Offer(offer, begin, digestBegin) =>
      m.state == Idle && offer.size > 0 && (begin != Ok || digestBegin != Ok)
    case Poll(a) =>
      && m.state == Downloading
      && if !m.requested then a.request != Ok && a.request != Busy
         else
           && a.take != Busy
           && !(Usable(m, a) && a.write == Ok && a.update == Ok && (Completes(m, a) ==> Genuine(m, a)))
    case Activate(status) => m.state == ReadyToActivate && status != Ok
    case Cancel => false
  }

  /** The service fails exactly when a port refuses, and then aborts the store; else it is cancelled or goes on. */
  lemma FailsExactlyWhenRefused(m: Machine, event: Event)
    requires InBounds(m)
    ensures var (next, calls) := Step(m, event);
            && (Refused(m, event) <==> next.state == Failed && calls != [])
            && (calls != [] && calls[|calls| - 1] == Abort <==> Refused(m, event) || event.Cancel?)
            && (next.state == Idle <==> event.Cancel? || (m.state == Idle && calls == []))
  {
  }
}
