/**
 * The network manager: at most two links tried in order, each with a bounded budget of
 * attempts and growing delays, over a wrapping 32-bit clock.
 */
module Network {
  import opened Words
  import opened Clock
  import opened Status

  const LINK_CAPACITY: nat := 2
  const MAX_ATTEMPTS: nat := 10

  /** The delays issued, the last one for all further attempts. */
  function Delay(attempt: nat): (d: u32)
    ensures 30000 <= d <= 300000
  {
    if attempt == 0 then 30000
    else if attempt == 1 then 60000
    else if attempt == 2 then 120000
    else if attempt == 3 then 240000
    else 300000
  }

  /** The signed difference of the readings is not negative. */
  predicate Due(now: u32, retryAt: u32) {
    Since(now, retryAt) < 0x8000_0000
  }

  datatype Link = Link(attempt: nat, retryAt: u32)

  datatype Connectivity = ProvisioningRequired | Offline | Connecting | OnlinePrimary | OnlineBackup

  datatype Machine = Machine(links: seq<Link>, active: nat, state: Connectivity)

  const START := Machine([], LINK_CAPACITY, ProvisioningRequired)

  /** A poll at real time `at`, with what the links answer. */
  datatype Event = AddLink | Poll(at: nat, up: seq<bool>, starts: seq<Status>)

  predicate IsUp(e: Event, i: nat)
    requires e.Poll?
  {
    i < |e.up| && e.up[i]
  }

  function StartStatus(e: Event, i: nat): Status
    requires e.Poll?
  {
    if i < |e.starts| then e.starts[i] else NotReady
  }

  /** The first of the `n` links that is up, or `n`. */
  function FirstUp(e: Event, n: nat): (i: nat)
    requires e.Poll?
    ensures i <= n && (i < n ==> IsUp(e, i)) && forall k :: 0 <= k < i ==> !IsUp(e, k)
  {
    if n == 0 then 0
    else
      var i := FirstUp(e, n - 1);
      if i < n - 1 || IsUp(e, n - 1) then i else n
  }

  /** The links, which of them were started, and whether one accepted. */
  datatype Attempts = Attempts(links: seq<Link>, started: set<nat>, stopped: bool)

  /** Tries link `i`, unless one has accepted, its budget is spent, or its delay is running. */
  function TryNext(a: Attempts, e: Event, i: nat): (r: Attempts)
    requires e.Poll? && i < |a.links|
    ensures |r.links| == |a.links|
  {
    var l := a.links[i];
    if a.stopped || l.attempt >= MAX_ATTEMPTS || !Due(Seen(e.at), l.retryAt) then a
    else
      Attempts(a.links[i := Link(l.attempt + 1, Later(Seen(e.at), Delay(l.attempt)))],
               a.started + {i}, StartStatus(e, i) == Ok || StartStatus(e, i) == Busy)
  }

  /** Tries the first `k` links in order. */
  function TryUpTo(links: seq<Link>, e: Event, k: nat): (a: Attempts)
    requires e.Poll? && k <= |links|
    ensures |a.links| == |links|
  {
    if k == 0 then Attempts(links, {}, false) else TryNext(TryUpTo(links, e, k - 1), e, k - 1)
  }

  function Step(m: Machine, e: Event): Machine {
    match e
    case AddLink =>
      if |m.links| >= LINK_CAPACITY then m
      else m.(links := m.links + [Link(0, 0)], state := if m.state == ProvisioningRequired then Offline else m.state)
    case Poll(_, _, _) =>
      var n := |m.links|;
      var i := FirstUp(e, n);
      if i < n then
        Machine(m.links[i := m.links[i].(attempt := 0)], i, if i == 0 then OnlinePrimary else OnlineBackup)
      else
        var a := TryUpTo(m.links, e, n);
        Machine(a.links, LINK_CAPACITY, if a.started != {} then Connecting else Offline)
  }

  function After(run: seq<Event>): (m: Machine)
    ensures |m.links| <= LINK_CAPACITY
  {
    if run == [] then START else Step(After(run[..|run| - 1]), run[|run| - 1])
  }

  lemma OneMore(run: seq<Event>, e: Event)
    ensures After(run + [e]) == Step(After(run), e)
  {
    assert (run + [e])[..|run|] == run;
  }

  // ---------------------------------------------------------------- what happened to one link

  /** A start and the delay issued with it, or a reset of the budget. */
  datatype Mark = Started(at: nat, delay: u32) | Reset(at: nat)

  /** What a poll does to link `i`. */
  function Marks(m: Machine, e: Event, i: nat): seq<Mark> {
    if e.AddLink? || i >= |m.links| then []
    else if FirstUp(e, |m.links|) == i then [Reset(e.at)]
    else if FirstUp(e, |m.links|) == |m.links| && i in TryUpTo(m.links, e, |m.links|).started then
      [Started(e.at, Delay(m.links[i].attempt))]
    else []
  }

  function Log(run: seq<Event>, i: nat): seq<Mark> {
    if run == [] then []
    else Log(run[..|run| - 1], i) + Marks(After(run[..|run| - 1]), run[|run| - 1], i)
  }

  /** The starts since the last reset. */
  function Count(log: seq<Mark>): nat {
    if log == [] || log[|log| - 1].Reset? then 0 else Count(log[..|log| - 1]) + 1
  }

  /** The last start, or -1. */
  function LastStart(log: seq<Mark>): (s: int)
    ensures -1 <= s < |log| && (s >= 0 ==> log[s].Started?)
    ensures forall k :: s < k < |log| ==> log[k].Reset?
  {
    if log == [] then -1
    else if log[|log| - 1].Started? then |log| - 1
    else LastStart(log[..|log| - 1])
  }

  /** When, by the counter, the link may next be started. */
  function RetryAt(log: seq<Mark>): u32 {
    if LastStart(log) < 0 then 0 else Seen(Deadline(log))
  }

  /** The end of the delay last issued. */
  function Deadline(log: seq<Mark>): nat {
    var s := LastStart(log);
    if s < 0 then 0 else log[s].at + log[s].delay
  }

  predicate Ordered(log: seq<Mark>) {
    forall i, j :: 0 <= i <= j < |log| ==> log[i].at <= log[j].at
  }

  /** Every start keeps the delay issued with each earlier one, in real time. */
  predicate Spaced(log: seq<Mark>) {
    forall i, j :: 0 <= i < j < |log| && log[i].Started? && log[j].Started? ==>
                     log[j].at >= log[i].at + log[i].delay
  }

  /** Every start is within the budget and is issued the delay of its place since the last reset. */
  predicate Scheduled(log: seq<Mark>) {
    forall i :: 0 <= i < |log| && log[i].Started? ==>
                  Count(log[..i]) < MAX_ATTEMPTS && log[i].delay == Delay(Count(log[..i]))
  }

  predicate Before(log: seq<Mark>, t: nat) {
    forall i :: 0 <= i < |log| ==> log[i].at <= t
  }

  ghost predicate Kept(l: Link, log: seq<Mark>) {
    && l.attempt == Count(log) <= MAX_ATTEMPTS && l.retryAt == RetryAt(log)
    && Ordered(log) && Spaced(log) && Scheduled(log)
  }

  // ---------------------------------------------------------------- when a start is due

  /**
   * Exactly when a link started at `s` with delay `d` is due again: the delay has passed, and
   * the time since then shows as less than 2^31.
   */
  lemma DueExactly(t: nat, s: nat, d: u32)
    requires s <= t && d <= 300000
    ensures Due(Seen(t), Seen(s + d)) <==> t >= s + d && Seen(t - (s + d)) < 0x8000_0000
  {
    if t >= s + d {
      SinceIsElapsed(t, s + d);
    } else {
      SinceIsElapsed(s + d, t);
    }
  }

  // ---------------------------------------------------------------- every run

  lemma {:induction false} TryEffect(links: seq<Link>, e: Event, k: nat, i: nat)
    requires e.Poll? && k <= |links| && i < |links|
    ensures var a := TryUpTo(links, e, k);
            if i in a.started then
              && i < k && links[i].attempt < MAX_ATTEMPTS && Due(Seen(e.at), links[i].retryAt)
              && a.links[i] == Link(links[i].attempt + 1, Later(Seen(e.at), Delay(links[i].attempt)))
            else a.links[i] == links[i]
    decreases k
  {
    if k > 0 {
      TryEffect(links, e, k - 1, i);
      TryEffect(links, e, k - 1, k - 1);
    }
  }

  lemma OrderedMore(log: seq<Mark>, mark: Mark)
    requires Ordered(log) && Before(log, mark.at)
    ensures Ordered(log + [mark])
  {
  }

  lemma CountMore(log: seq<Mark>, mark: Mark)
    ensures Count(log + [mark]) == if mark.Reset? then 0 else Count(log) + 1
    ensures LastStart(log + [mark]) == if mark.Reset? then LastStart(log) else |log|
  {
    assert (log + [mark])[..|log|] == log;
  }

  lemma RetryAtMore(log: seq<Mark>, t: nat, d: u32)
    ensures RetryAt(log + [Started(t, d)]) == Later(Seen(t), d)
  {
    var more := log + [Started(t, d)];
    CountMore(log, Started(t, d));
    LaterIsSeen(t, d);
    assert Deadline(more) == t + d;
  }

  lemma ScheduledMore(log: seq<Mark>, mark: Mark)
    requires Scheduled(log)
    requires mark.Started? ==> Count(log) < MAX_ATTEMPTS && mark.delay == Delay(Count(log))
    ensures Scheduled(log + [mark])
  {
    var more := log + [mark];
    forall i | 0 <= i < |more| && more[i].Started?
      ensures Count(more[..i]) < MAX_ATTEMPTS && more[i].delay == Delay(Count(more[..i]))
    {
      assert more[..i] == log[..i];
      assert log[..|log|] == log;
    }
  }

  /** A start that keeps the last delay keeps them all. */
  lemma SpacedMore(log: seq<Mark>, t: nat, d: u32)
    requires Spaced(log)
    requires var s := LastStart(log); s >= 0 ==> t >= log[s].at + log[s].delay
    ensures Spaced(log + [Started(t, d)])
  {
    var more, s := log + [Started(t, d)], LastStart(log);
    forall i, j | 0 <= i < j < |more| && more[i].Started? && more[j].Started?
      ensures more[j].at >= more[i].at + more[i].delay
    {
      if j == |log| {
        assert more[i] == log[i] && i <= s;
        if i < s {
          SpacedAt(log, i, s);
        }
      } else {
        SpacedAt(log, i, j);
      }
    }
  }

  lemma SpacedAt(log: seq<Mark>, i: nat, j: nat)
    requires Spaced(log) && i < j < |log| && log[i].Started? && log[j].Started?
    ensures log[j].at >= log[i].at + log[i].delay
  {
  }

  lemma LastStartPassed(log: seq<Mark>, t: nat)
    requires Scheduled(log) && Before(log, t) && Due(Seen(t), RetryAt(log)) && LastStart(log) >= 0
    ensures var s := LastStart(log); t >= log[s].at + log[s].delay
  {
    var s := LastStart(log);
    assert log[s].delay == Delay(Count(log[..s]));
    assert log[s].at <= t;
    DueExactly(t, log[s].at, log[s].delay);
  }

  lemma StartKept(l: Link, log: seq<Mark>, t: nat)
    requires Kept(l, log) && Before(log, t) && l.attempt < MAX_ATTEMPTS && Due(Seen(t), l.retryAt)
    ensures var d := Delay(l.attempt); Kept(Link(l.attempt + 1, Later(Seen(t), d)), log + [Started(t, d)])
  {
    var mark := Started(t, Delay(l.attempt));
    RetryAtMore(log, t, mark.delay);
    if LastStart(log) >= 0 {
      LastStartPassed(log, t);
    }
    OrderedMore(log, mark);
    CountMore(log, mark);
    ScheduledMore(log, mark);
    SpacedMore(log, t, mark.delay);
  }

  lemma SpacedReset(log: seq<Mark>, t: nat)
    requires Spaced(log)
    ensures Spaced(log + [Reset(t)]) && RetryAt(log + [Reset(t)]) == RetryAt(log)
  {
    var more := log + [Reset(t)];
    CountMore(log, Reset(t));
    assert Deadline(more) == Deadline(log);
    forall i, j | 0 <= i < j < |more| && more[i].Started? && more[j].Started?
      ensures more[j].at >= more[i].at + more[i].delay
    {
      SpacedAt(log, i, j);
    }
  }

  lemma ResetKept(l: Link, log: seq<Mark>, t: nat)
    requires Kept(l, log) && Before(log, t)
    ensures Kept(l.(attempt := 0), log + [Reset(t)])
  {
    OrderedMore(log, Reset(t));
    CountMore(log, Reset(t));
    ScheduledMore(log, Reset(t));
    SpacedReset(log, t);
  }

  predicate Monotone(run: seq<Event>) {
    forall i, j :: 0 <= i <= j < |run| && run[i].Poll? && run[j].Poll? ==> run[i].at <= run[j].at
  }

  lemma {:induction false} LogBefore(run: seq<Event>, i: nat, t: nat)
    requires forall k :: 0 <= k < |run| && run[k].Poll? ==> run[k].at <= t
    ensures Before(Log(run, i), t)
    decreases |run|
  {
    if run != [] {
      LogBefore(run[..|run| - 1], i, t);
    }
  }

  lemma PollKept(m: Machine, e: Event, i: nat, log: seq<Mark>)
    requires e.Poll? && i < |m.links| && Kept(m.links[i], log) && Before(log, e.at)
    ensures Kept(Step(m, e).links[i], log + Marks(m, e, i))
  {
    var n := |m.links|;
    var first := FirstUp(e, n);
    if first == i {
      ResetKept(m.links[i], log, e.at);
    } else if first < n {
      assert log + [] == log;
    } else {
      TryEffect(m.links, e, n, i);
      if i in TryUpTo(m.links, e, n).started {
        StartKept(m.links[i], log, e.at);
      } else {
        assert log + [] == log;
      }
    }
  }

  lemma StepKept(m: Machine, e: Event, i: nat, log: seq<Mark>)
    requires i < |m.links| && Kept(m.links[i], log) && (e.Poll? ==> Before(log, e.at))
    ensures i < |Step(m, e).links| && Kept(Step(m, e).links[i], log + Marks(m, e, i))
  {
    if e.Poll? {
      PollKept(m, e, i, log);
    } else {
      assert log + [] == log;
    }
  }

  ghost predicate LinkKept(links: seq<Link>, i: nat, log: seq<Mark>) {
    if i < |links| then Kept(links[i], log) else log == []
  }

  lemma LinkStepKept(m: Machine, e: Event, i: nat, log: seq<Mark>)
    requires LinkKept(m.links, i, log) && (e.Poll? ==> Before(log, e.at))
    ensures LinkKept(Step(m, e).links, i, log + Marks(m, e, i))
  {
    if i < |m.links| {
      StepKept(m, e, i, log);
    }
  }

  /** After every run, attempts and retry time of each link are those of its log. */
  lemma {:induction false} EveryRunKept(run: seq<Event>, i: nat)
    requires Monotone(run)
    ensures LinkKept(After(run).links, i, Log(run, i))
    decreases |run|
  {
    if run != [] {
      var before, e := run[..|run| - 1], run[|run| - 1];
      EveryRunKept(before, i);
      if e.Poll? {
        LogBefore(before, i, e.at);
      }
      LinkStepKept(After(before), e, i, Log(before, i));
    }
  }

  /** Between resets, a link is started at most ten times. */
  lemma BudgetKept(run: seq<Event>, i: nat, a: nat, b: nat)
    requires Monotone(run) && a <= b <= |Log(run, i)| && forall k :: a <= k < b ==> Log(run, i)[k].Started?
    ensures b - a <= 10
  {
    if a < b {
      EveryRunKept(run, i);
      var log := Log(run, i);
      CountGrows(log, a, b - 1);
      assert log[b - 1].Started?;
    }
  }

  lemma {:induction false} CountGrows(log: seq<Mark>, a: nat, b: nat)
    requires a <= b <= |log| && forall k :: a <= k < b ==> log[k].Started?
    ensures Count(log[..b]) == Count(log[..a]) + (b - a)
    decreases b - a
  {
    if a < b {
      CountGrows(log, a, b - 1);
      assert log[..b][..b - 1] == log[..b - 1];
    }
  }

  /**
   * In real time, every start of a link comes no earlier than each earlier start of it plus
   * the delay then issued, across wraps of the clock and across resets.
   */
  lemma StartsSpaced(run: seq<Event>, i: nat, j: nat, k: nat)
    requires Monotone(run) && j < k < |Log(run, i)| && Log(run, i)[j].Started? && Log(run, i)[k].Started?
    ensures Log(run, i)[k].at >= Log(run, i)[j].at + Log(run, i)[j].delay
  {
    EveryRunKept(run, i);
  }

  /** The sum of the first `n` delays. */
  function Total(n: nat): nat {
    if n == 0 then 0 else Total(n - 1) + Delay(n - 1)
  }

  /** Start `k` is followed by another one no sooner than after the delay number `k - a`. */
  predicate Waits(log: seq<Mark>, a: nat, k: nat) {
    a <= k && k + 1 < |log| && log[k + 1].at >= log[k].at + Delay(k - a)
  }

  lemma {:induction false} WaitsAddUp(log: seq<Mark>, a: nat, n: nat)
    requires a + n < |log| && forall k :: a <= k < a + n ==> Waits(log, a, k)
    ensures log[a + n].at >= log[a].at + Total(n)
    decreases n
  {
    if n > 0 {
      WaitsAddUp(log, a, n - 1);
      assert Waits(log, a, a + n - 1);
    }
  }

  lemma DelayAt(log: seq<Mark>, k: nat)
    requires Scheduled(log) && k < |log| && log[k].Started?
    ensures log[k].delay == Delay(Count(log[..k]))
  {
  }

  lemma NineDelays()
    ensures Total(9) == 1_950_000
  {
    assert Total(4) == 450_000 && Total(6) == 1_050_000 && Total(8) == 1_650_000;
  }

  /** The log holds only starts in the ten places from `a` on. */
  predicate TenStarts(log: seq<Mark>, a: nat) {
    a + 10 <= |log| && forall k :: a <= k < a + 10 ==> log[k].Started?
  }

  lemma NoneBeforeTen(log: seq<Mark>, a: nat)
    requires Scheduled(log) && TenStarts(log, a)
    ensures Count(log[..a]) == 0
  {
    CountGrows(log, a, a + 9);
    assert log[a + 9].Started?;
  }

  lemma TenWait(log: seq<Mark>, a: nat, k: nat)
    requires Spaced(log) && Scheduled(log) && TenStarts(log, a) && a <= k < a + 9 && Count(log[..a]) == 0
    ensures Waits(log, a, k)
  {
    CountGrows(log, a, k);
    DelayAt(log, k);
    SpacedAt(log, k, k + 1);
  }

  /** Ten starts without a reset take at least 1950 seconds. */
  lemma TenStartsSpan(run: seq<Event>, i: nat, a: nat)
    requires Monotone(run) && TenStarts(Log(run, i), a)
    ensures Log(run, i)[a + 9].at - Log(run, i)[a].at >= 1_950_000
  {
    EveryRunKept(run, i);
    var log := Log(run, i);
    NoneBeforeTen(log, a);
    forall k | a <= k < a + 9
      ensures Waits(log, a, k)
    {
      TenWait(log, a, k);
    }
    WaitsAddUp(log, a, 9);
    NineDelays();
  }

  // ---------------------------------------------------------------- exactly when a link is started

  lemma {:induction false} LaterTriesKeep(links: seq<Link>, e: Event, i: nat, k: nat)
    requires e.Poll? && i < k <= |links|
    ensures i in TryUpTo(links, e, k).started <==> i in TryUpTo(links, e, i + 1).started
    decreases k
  {
    if i + 1 < k {
      LaterTriesKeep(links, e, i, k - 1);
    }
  }

  /** By its own log, the link may be started at real time `t`. */
  predicate MayStart(log: seq<Mark>, t: nat) {
    var s := LastStart(log);
    && Count(log) < 10
    && if s < 0 then Seen(t) < 0x8000_0000
       else t >= log[s].at + log[s].delay && Seen(t - (log[s].at + log[s].delay)) < 0x8000_0000
  }

  lemma MayStartIffDue(log: seq<Mark>, t: nat)
    requires Scheduled(log) && Before(log, t)
    ensures MayStart(log, t) <==> Count(log) < MAX_ATTEMPTS && Due(Seen(t), RetryAt(log))
  {
    var s := LastStart(log);
    if s >= 0 {
      DelayAt(log, s);
      assert log[s].at <= t;
      DueExactly(t, log[s].at, log[s].delay);
    }
  }

  lemma TriedExactly(links: seq<Link>, e: Event, i: nat)
    requires e.Poll? && i < |links| && !TryUpTo(links, e, i).stopped
    ensures i in TryUpTo(links, e, |links|).started <==>
              links[i].attempt < MAX_ATTEMPTS && Due(Seen(e.at), links[i].retryAt)
  {
    LaterTriesKeep(links, e, i, |links|);
    TryEffect(links, e, i, i);
  }

  /** Link `i` was started in the poll and accepted, now or later. */
  predicate AcceptedStart(m: Machine, e: Event, i: nat) {
    e.Poll? && Marks(m, e, i) != [] && Marks(m, e, i)[0].Started? && (StartStatus(e, i) == Ok || StartStatus(e, i) == Busy)
  }

  /** The trying has stopped exactly if one of the links tried so far accepted. */
  lemma {:induction false} StoppedExactly(links: seq<Link>, e: Event, k: nat)
    requires e.Poll? && k <= |links|
    ensures var a := TryUpTo(links, e, k);
            a.stopped <==> exists i :: i in a.started && (StartStatus(e, i) == Ok || StartStatus(e, i) == Busy)
    decreases k
  {
    if k > 0 {
      StoppedExactly(links, e, k - 1);
      var before, after := TryUpTo(links, e, k - 1), TryUpTo(links, e, k);
      assert forall i :: i in after.started <==> i in before.started || (i == k - 1 && after != before);
    }
  }

  lemma {:induction false} StartedBefore(links: seq<Link>, e: Event, k: nat)
    requires e.Poll? && k <= |links|
    ensures forall i: nat :: i in TryUpTo(links, e, k).started <==> i < k && i in TryUpTo(links, e, |links|).started
    decreases |links| - k
  {
    forall i: nat
      ensures i in TryUpTo(links, e, k).started <==> i < k && i in TryUpTo(links, e, |links|).started
    {
      if i < k {
        LaterTriesKeep(links, e, i, |links|);
        LaterTriesKeep(links, e, i, k);
      } else if i < |links| {
        TryEffect(links, e, k, i);
      } else {
        NoneBeyond(links, e, k, i);
      }
    }
  }

  lemma {:induction false} NoneBeyond(links: seq<Link>, e: Event, k: nat, i: nat)
    requires e.Poll? && k <= |links| <= i
    ensures i !in TryUpTo(links, e, k).started
    decreases k
  {
    if k > 0 {
      NoneBeyond(links, e, k - 1, i);
    }
  }

  lemma TriedUnlessStopped(links: seq<Link>, e: Event, i: nat)
    requires e.Poll? && i < |links|
    ensures i in TryUpTo(links, e, |links|).started <==>
              !TryUpTo(links, e, i).stopped && links[i].attempt < MAX_ATTEMPTS && Due(Seen(e.at), links[i].retryAt)
  {
    if TryUpTo(links, e, i).stopped {
      LaterTriesKeep(links, e, i, |links|);
      TryEffect(links, e, i, i);
    } else {
      TriedExactly(links, e, i);
    }
  }

  /** The trying has stopped before link `i` exactly if an earlier one accepted in the same poll. */
  lemma StoppedBefore(m: Machine, e: Event, i: nat)
    requires e.Poll? && i < |m.links| && FirstUp(e, |m.links|) == |m.links|
    ensures TryUpTo(m.links, e, i).stopped <==> exists k :: 0 <= k < i && AcceptedStart(m, e, k)
  {
    StoppedExactly(m.links, e, i);
    StartedBefore(m.links, e, i);
    var a := TryUpTo(m.links, e, i);
    if a.stopped {
      var k :| k in a.started && (StartStatus(e, k) == Ok || StartStatus(e, k) == Busy);
      assert AcceptedStart(m, e, k);
    }
    if k :| 0 <= k < i && AcceptedStart(m, e, k) {
      assert k in a.started;
    }
  }

  /**
   * A poll that finds no link up starts link `i` exactly if no earlier one accepted in the same
   * poll, its budget and its delay allow, and the clock has not gone half a turn past the delay.
   */
  lemma StartedExactly(run: seq<Event>, e: Event, i: nat)
    requires Monotone(run) && e.Poll? && i < |After(run).links| && Before(Log(run, i), e.at)
    requires forall k :: 0 <= k < |After(run).links| ==> !IsUp(e, k)
    ensures Marks(After(run), e, i) != [] <==>
              MayStart(Log(run, i), e.at) && forall k :: 0 <= k < i ==> !AcceptedStart(After(run), e, k)
  {
    var m := After(run);
    EveryRunKept(run, i);
    MayStartIffDue(Log(run, i), e.at);
    TriedUnlessStopped(m.links, e, i);
    StoppedBefore(m, e, i);
  }

  /** In one poll at most one start is accepted, and none is made after it. */
  lemma NoStartAfterAccepted(m: Machine, e: Event, i: nat, j: nat)
    requires i < j && AcceptedStart(m, e, i)
    ensures Marks(m, e, j) == []
  {
    if j < |m.links| {
      StoppedExactly(m.links, e, j);
      StartedBefore(m.links, e, j);
      TriedUnlessStopped(m.links, e, j);
      assert i in TryUpTo(m.links, e, j).started;
    }
  }

  // ---------------------------------------------------------------- what the state means

  /** The budget of a link is renewed exactly by a poll in which it is the first one up. */
  lemma RenewedExactly(m: Machine, e: Event, i: nat)
    requires e.Poll? && i < |m.links| <= LINK_CAPACITY
    ensures Marks(m, e, i) == [Reset(e.at)] <==> IsUp(e, i) && forall k :: 0 <= k < i ==> !IsUp(e, k)
    ensures Step(m, e).active == i <==> Marks(m, e, i) == [Reset(e.at)]
  {
  }

  lemma {:induction false} SomeStarted(links: seq<Link>, e: Event, k: nat)
    requires e.Poll? && k <= |links|
    ensures TryUpTo(links, e, k).started != {} <==> exists i :: 0 <= i < |links| && i in TryUpTo(links, e, k).started
    decreases k
  {
    if TryUpTo(links, e, k).started != {} {
      var i :| i in TryUpTo(links, e, k).started;
      if i >= |links| {
        NoneBeyond(links, e, k, i);
      }
    }
  }

  /**
   * After a poll: online by the first link if that is up, by the second if only that is; without
   * a link up, connecting if any was started, and offline if none was.
   */
  lemma StateMeans(run: seq<Event>, e: Event)
    requires e.Poll?
    ensures var m, state := After(run), After(run + [e]).state;
            var n := |m.links|;
            var up := exists i :: 0 <= i < n && IsUp(e, i);
            var started := exists i :: 0 <= i < n && Marks(m, e, i) != [];
            && n <= 2
            && (state == OnlinePrimary <==> n > 0 && IsUp(e, 0))
            && (state == OnlineBackup <==> n > 1 && !IsUp(e, 0) && IsUp(e, 1))
            && (state == Connecting <==> !up && started)
            && (state == Offline <==> !up && !started)
  {
    var m := After(run);
    OneMore(run, e);
    SomeStarted(m.links, e, |m.links|);
    if FirstUp(e, |m.links|) == |m.links| {
      assert forall i :: 0 <= i < |m.links| ==> (Marks(m, e, i) != [] <==> i in TryUpTo(m.links, e, |m.links|).started);
    }
  }

  /** Before anything has happened, and only then, provisioning is required. */
  lemma {:induction false} UnprovisionedExactly(run: seq<Event>)
    ensures After(run).state == ProvisioningRequired <==> run == []
    decreases |run|
  {
    if run != [] {
      UnprovisionedExactly(run[..|run| - 1]);
      if run[..|run| - 1] == [] {
        assert After(run[..|run| - 1]) == START;
      }
    }
  }

  /** The delays double from 30 seconds up to 300. */
  lemma DelayDoubles(attempt: nat)
    ensures Delay(0) == 30000 && Delay(attempt + 1) == if 2 * Delay(attempt) < 300000 then 2 * Delay(attempt) else 300000
  {
  }

  /** A new link is not started by a poll when the clock shows 2^31 ms. */
  lemma HalfTurnStartsNothing() returns (run: seq<Event>, e: Event)
    ensures Monotone(run) && e.Poll? && e.at == 0x8000_0000 && !IsUp(e, 0)
    ensures |After(run).links| == 1 && Marks(After(run), e, 0) == []
  {
    run, e := [AddLink], Poll(0x8000_0000, [false], [Ok]);
    assert run[..0] == [] && After([]) == START;
    assert After(run).links == [Link(0, 0)];
    LaterTriesKeep(After(run).links, e, 0, 1);
    TriedExactly(After(run).links, e, 0);
  }

  /** A link started once, at time zero. */
  lemma FirstStart() returns (run: seq<Event>)
    ensures Monotone(run) && |run| == 2 && run[0].AddLink? && run[1].Poll? && run[1].at == 0
    ensures |After(run).links| == 1 && Log(run, 0) == [Started(0, 30000)]
  {
    var added, first := [AddLink], Poll(0, [false], [NotReady]);
    run := added + [first];
    assert added[..0] == [] && After([]) == START && run[..1] == added;
    assert After(added).links == [Link(0, 0)] && Log(added, 0) == [];
    TriedExactly(After(added).links, first, 0);
    TryEffect(After(added).links, first, 1, 0);
  }

  /** A retry that is 2^31 ms overdue does not take place. */
  lemma OverdueRetryStartsNothing() returns (run: seq<Event>, e: Event)
    ensures Monotone(run) && e.Poll? && !IsUp(e, 0) && |After(run).links| == 1
    ensures Log(run, 0) == [Started(0, 30000)] && e.at == 30000 + 0x8000_0000 && Marks(After(run), e, 0) == []
  {
    run := FirstStart();
    e := Poll(30000 + 0x8000_0000, [false], [Ok]);
    StartedExactly(run, e, 0);
  }

  // ---------------------------------------------------------------- the classes

  lemma {:induction false} FoundStays(e: Event, i: nat, n: nat)
    requires e.Poll? && FirstUp(e, i) == i < n && IsUp(e, i)
    ensures FirstUp(e, n) == i
    decreases n
  {
    if i + 1 < n {
      FoundStays(e, i, n - 1);
    }
  }

  lemma {:induction false} StoppedStays(links: seq<Link>, e: Event, i: nat, k: nat)
    requires e.Poll? && i <= k <= |links| && TryUpTo(links, e, i).stopped
    ensures TryUpTo(links, e, k) == TryUpTo(links, e, i)
    decreases k
  {
    if i < k {
      StoppedStays(links, e, i, k - 1);
    }
  }

  const DELAYS: seq<u32> := [30000, 60000, 120000, 240000, 300000]

  class BackoffPolicy {
    const maxAttempts: u8
    var attempt: u8

    constructor (maxAttempts: u8)
      ensures this.maxAttempts == maxAttempts && attempt == 0
    {
      this.maxAttempts, attempt := maxAttempts, 0;
    }

    method NextDelay() returns (delay: u32)
      modifies this
      ensures delay == Delay(old(attempt))
      ensures attempt == if old(attempt) < maxAttempts then old(attempt) + 1 else old(attempt)
    {
      var index := if attempt < |DELAYS| then attempt else |DELAYS| - 1;
      if attempt < maxAttempts {
        attempt := attempt + 1;
      }
      delay := DELAYS[index];
    }

    method Reset()
      modifies this
      ensures attempt == 0
    {
      attempt := 0;
    }

    predicate Exhausted()
      reads this
    {
      attempt >= maxAttempts
    }
  }

  datatype LinkKind = Wifi | Cellular

  type Decibels = x: int | -0x80 <= x < 0x80

  datatype LinkQuality = LinkQuality(rssi: Decibels, metered: bool, bars: u8)

  /** What a link says of itself. */
  datatype Report = Report(kind: LinkKind, quality: LinkQuality)

  const NO_REPORT := Report(Wifi, LinkQuality(-127, false, 0))

  /**
   * The injected links: polling one settles whether it is up, what a start would answer, and
   * what it says of itself.
   */
  class Links {
    var up: seq<bool>
    var starts: seq<Status>
    var reports: seq<Report>

    constructor ()
      ensures |up| == |starts| == |reports| == LINK_CAPACITY
    {
      up, starts, reports := [false, false], [NotReady, NotReady], [NO_REPORT, NO_REPORT];
    }

    method Poll(i: nat)
      requires i < |up| == |starts| == |reports|
      modifies this
      ensures |up| == |starts| == |reports| == old(|up|)
    {
      var isUp: bool := *;
      var answer: Status := *;
      var report: Report := *;
      up, starts, reports := up[i := isUp], starts[i := answer], reports[i := report];
    }
  }

  /** A change of state, told with kind and quality of a link. */
  datatype Notice = Notice(state: Connectivity, link: Report)

  class NetworkManager {
    const links: Links
    const backoff: seq<BackoffPolicy>
    const retryAt: array<u32>
    var count: nat
    var active: nat
    var state: Connectivity

    /** Whether there is an observer. */
    var observed: bool

    /** What observers were told. */
    ghost var told: seq<Notice>
    ghost var run: seq<Event>

    ghost function LinkAt(i: nat): Link
      requires i < |backoff| && i < retryAt.Length
      reads backoff[i], retryAt
    {
      Link(backoff[i].attempt, retryAt[i])
    }

    /** The places not taken by a link are as they were made. */
    ghost predicate Shape()
      reads this, links, backoff, retryAt
    {
      && |links.up| == |links.starts| == |links.reports| == LINK_CAPACITY && retryAt.Length == LINK_CAPACITY
      && |backoff| == LINK_CAPACITY && backoff[0] != backoff[1] && count <= LINK_CAPACITY
      && (forall i :: 0 <= i < LINK_CAPACITY ==> backoff[i].attempt <= backoff[i].maxAttempts == MAX_ATTEMPTS)
      && (forall i :: count <= i < LINK_CAPACITY ==> LinkAt(i) == Link(0, 0))
    }

    ghost function AllLinks(): (r: seq<Link>)
      requires Shape()
      reads this, links, backoff, retryAt
      ensures |r| == count && forall i :: 0 <= i < count ==> r[i] == LinkAt(i)
    {
      if count == 0 then [] else if count == 1 then [LinkAt(0)] else [LinkAt(0), LinkAt(1)]
    }

    /** The manager is where the machine is after the same events. */
    ghost predicate Valid()
      reads this, links, backoff, retryAt
    {
      Shape() && Machine(AllLinks(), active, state) == After(run)
    }

    constructor ()
      ensures Valid() && run == [] && told == [] && !observed
      ensures fresh(links) && fresh(backoff[0]) && fresh(backoff[1]) && fresh(retryAt)
    {
      var first := new BackoffPolicy(MAX_ATTEMPTS);
      var second := new BackoffPolicy(MAX_ATTEMPTS);
      links := new Links();
      backoff := [first, second];
      retryAt := new u32[LINK_CAPACITY](_ => 0);
      count, active, state := 0, LINK_CAPACITY, ProvisioningRequired;
      observed := false;
      told, run := [], [];
    }

    /** Records an event once the state is as its step leaves it. */
    ghost method Record(e: Event)
      requires Shape() && Machine(AllLinks(), active, state) == Step(After(run), e)
      modifies this`run
      ensures Valid() && run == old(run) + [e]
    {
      OneMore(run, e);
      Note(e);
    }

    ghost method Note(e: Event)
      requires Shape()
      modifies this`run
      ensures Shape() && AllLinks() == old(AllLinks()) && run == old(run) + [e]
    {
      run := run + [e];
    }

    method SetObserver(present: bool)
      requires Valid()
      modifies this`observed
      ensures Valid() && observed == present
    {
      observed := present;
    }

    method Publish(to: Connectivity, index: nat)
      requires index < count ==> index < |links.reports|
      modifies this`state, this`told
      ensures state == to
      ensures told == old(told) + if observed && to != old(state) && index < count
                                  then [Notice(to, links.reports[index])] else []
    {
      if state != to {
        state := to;
        if observed && index < count {
          told := told + [Notice(to, links.reports[index])];
        }
      }
    }

    /** Registers a further link; both places taken, it refuses. */
    method Add() returns (status: Status)
      requires Valid()
      modifies this
      ensures Valid() && run == old(run) + [AddLink]
      ensures status == (if old(count) == LINK_CAPACITY then NoResources else Ok)
    {
      if count >= LINK_CAPACITY {
        Record(AddLink);
        return NoResources;
      }
      Enlist();
      status := Ok;
    }

    method Enlist()
      requires Valid() && count < LINK_CAPACITY
      modifies this`count, this`state, this`run
      ensures Valid() && run == old(run) + [AddLink]
    {
      Take();
      if state == ProvisioningRequired {
        state := Offline;
      }
      Record(AddLink);
    }

    /** Takes the next place. */
    method Take()
      requires Shape() && count < LINK_CAPACITY
      modifies this`count
      ensures Shape() && count == old(count) + 1 && AllLinks() == old(AllLinks()) + [Link(0, 0)]
    {
      assert LinkAt(count) == Link(0, 0);
      count := count + 1;
    }

    method PollLinks()
      requires Shape()
      modifies links
      ensures Shape()
    {
      for i := 0 to count
        invariant Shape()
      {
        links.Poll(i);
      }
    }

    method FindUp(ghost e: Event) returns (i: nat)
      requires Shape() && e.Poll? && e.up == links.up
      ensures i == FirstUp(e, count)
    {
      i := 0;
      while i < count
        invariant i <= count && FirstUp(e, i) == i
      {
        if links.up[i] {
          FoundStays(e, i, count);
          return;
        }
        i := i + 1;
      }
    }

    /** Starts link `i` if its budget and its delay allow; `now` is the reading at the time of `e`. */
    method TryLink(i: nat, now: u32, ghost e: Event, ghost a: Attempts) returns (tried: bool, stop: bool)
      requires Shape() && i < count && e.Poll? && e.starts == links.starts && now == Seen(e.at)
      requires AllLinks() == a.links && !a.stopped
      modifies backoff, retryAt
      ensures Shape()
      ensures var r := TryNext(a, e, i);
              AllLinks() == r.links && stop == r.stopped && r.started == if tried then a.started + {i} else a.started
    {
      tried, stop := false, false;
      if !backoff[i].Exhausted() && Due(now, retryAt[i]) {
        var status := StartLink(i, now);
        tried, stop := true, status == Ok || status == Busy;
      }
    }

    /** Starts link `i` and sets its retry time. */
    method StartLink(i: nat, now: u32) returns (status: Status)
      requires Shape() && i < count && backoff[i].attempt < MAX_ATTEMPTS
      modifies backoff[i], retryAt
      ensures Shape() && status == links.starts[i]
      ensures var l := old(AllLinks())[i];
              AllLinks() == old(AllLinks())[i := Link(l.attempt + 1, Later(now, Delay(l.attempt)))]
    {
      status := links.starts[i];
      var delay := backoff[i].NextDelay();
      retryAt[i] := Later(now, delay);
      assert forall k :: 0 <= k < LINK_CAPACITY && k != i ==> LinkAt(k) == old(LinkAt(k));
    }

    /** Tries the links in order, until one accepts. */
    method Try(now: u32, ghost e: Event) returns (attempted: bool)
      requires Shape() && e.Poll? && e.starts == links.starts && now == Seen(e.at)
      modifies backoff, retryAt
      ensures Shape()
      ensures var a := TryUpTo(old(AllLinks()), e, count); AllLinks() == a.links && attempted == (a.started != {})
    {
      ghost var before := AllLinks();
      ghost var a := TryUpTo(before, e, 0);
      attempted := false;
      var i := 0;
      while i < count
        invariant i <= count && Shape() && a == TryUpTo(before, e, i)
        invariant AllLinks() == a.links && attempted == (a.started != {}) && !a.stopped
      {
        var tried, stop := TryLink(i, now, e, a);
        a := TryNext(a, e, i);
        attempted := attempted || tried;
        i := i + 1;
        if stop {
          StoppedStays(before, e, i, count);
          return;
        }
      }
    }

    method Renew(i: nat)
      requires Shape() && i < count
      modifies backoff[i]
      ensures Shape() && AllLinks() == old(AllLinks())[i := old(AllLinks())[i].(attempt := 0)]
    {
      backoff[i].Reset();
    }

    method GoOnline(i: nat, ghost e: Event)
      requires Valid() && e.Poll? && i == FirstUp(e, count) < count
      modifies this`active, this`state, this`told, this`run, backoff
      ensures Valid() && run == old(run) + [e]
      ensures told == old(told) + if observed && state != old(state) then [Notice(state, links.reports[i])] else []
    {
      active := i;
      Renew(i);
      Publish(if i == 0 then OnlinePrimary else OnlineBackup, i);
      Record(e);
    }

    method Reconnect(now: u32, ghost e: Event)
      requires Valid() && e.Poll? && FirstUp(e, count) == count && e.starts == links.starts && now == Seen(e.at)
      modifies this`active, this`state, this`told, this`run, backoff, retryAt
      ensures Valid() && run == old(run) + [e]
      ensures told == old(told) + if observed && state != old(state) && count > 0
                                  then [Notice(state, links.reports[0])] else []
    {
      active := LINK_CAPACITY;
      var attempted := Try(now, e);
      Publish(if attempted then Connecting else Offline, 0);
      Record(e);
    }

    /** One poll at the reading `now` of the real time `at`. */
    method Poll(now: u32, ghost at: nat) returns (ghost e: Event)
      requires Valid() && now == Seen(at)
      modifies this, links, backoff, retryAt
      ensures Valid() && e.Poll? && e.at == at && run == old(run) + [e]
      ensures told == old(told) + if observed && state != old(state) && count > 0
                                  then [Notice(state, links.reports[if active < count then active else 0])] else []
    {
      PollLinks();
      e := Event.Poll(at, links.up, links.starts);
      var i := FindUp(e);
      if i < count {
        GoOnline(i, e);
      } else {
        Reconnect(now, e);
      }
    }
  }
}
