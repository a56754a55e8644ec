/**
 * Provisioning of network credentials, composed with the configuration service that is to
 * keep them.  The size of the credentials is a parameter; the source's is `CREDENTIAL_BYTES`.
 * So is the time the portal stays open, which the source takes from its configuration.
 */
module Provisioning {
  import opened Words
  import opened Clock
  import opened Status
  import opened SlotCodec
  import opened ConfigTable
  import Config = ConfigDevice
  import ConfigRuns
  import Store = ConfigService

  const SSID_CAPACITY: nat := 33
  const PASSPHRASE_CAPACITY: nat := 65
  const APN_CAPACITY: nat := 32
  const CREDENTIAL_BYTES: nat := SSID_CAPACITY + PASSPHRASE_CAPACITY + APN_CAPACITY

  /** "net.credentials" */
  const KEY: CString := [110, 101, 116, 46, 99, 114, 101, 100, 101, 110, 116, 105, 97, 108, 115]

  datatype State = Unprovisioned | PortalOpen | Validating | Provisioned | Failed

  /** The size of the credentials and the timeout of the portal. */
  datatype Setup = Setup(size: nat, timeout: u32)

  datatype Machine = Machine(state: State, pending: seq<u8>, openedAt: u32, failures: u8, timeout: u32)

  /** What is asked of the service, with the answers of its ports and how a commit ends. */
  datatype Event =
    | Start(open: Status, now: u32)
    | Stop(close: Status)
    | Poll(now: u32, offered: bool, take: Status, taken: seq<u8>, validation: Status, outcome: Config.CommitOutcome,
           close: Status)
    | FactoryReset(outcome: Config.CommitOutcome)
    /** Anything else that happens to the configuration service. */
    | Elsewhere(event: Config.Event)

  function Cleared(m: Machine): Machine {
    m.(pending := Fill(0, |m.pending|))
  }

  function Increment8(n: u8): u8 {
    if n == 0xFF then 0 else n + 1
  }

  function AttemptFailed(m: Machine): Machine {
    var failures := Increment8(m.failures);
    Cleared(m).(failures := failures, state := if failures >= 3 then Failed else PortalOpen)
  }

  function StopStep(m: Machine, close: Status): Machine {
    if close == Ok && m.state != Provisioned then Cleared(m).(state := Unprovisioned) else Cleared(m)
  }

  /** Takes credentials from an open portal; the buffer then holds `e.taken`. */
  function Taken(m: Machine, e: Event): Machine
    requires e.Poll?
  {
    if m.state == PortalOpen && e.offered then
      m.(pending := e.taken, state := if e.take == Ok then Validating else PortalOpen)
    else m
  }

  predicate TimedOut(m: Machine, now: u32) {
    m.state == PortalOpen && Since(now, m.openedAt) >= m.timeout
  }

  /** Storing the credentials, with what happens to the store. */
  ghost function StoreStep(m: Machine, d: Config.Device, outcome: Config.CommitOutcome): (Machine, seq<Config.Event>)
    requires Config.Formed(d)
  {
    if SetRecord(d.records, KEY, m.pending).0 != Ok then (AttemptFailed(m), [Config.Set(KEY, m.pending)])
    else
      (if outcome == Config.Done then Cleared(m).(state := Provisioned, failures := 0) else AttemptFailed(m),
       [Config.Set(KEY, m.pending), Config.Commit(outcome)])
  }

  ghost function PollStep(m: Machine, d: Config.Device, e: Event): (Machine, seq<Config.Event>)
    requires Config.Formed(d) && e.Poll?
  {
    if TimedOut(m, e.now) then (StopStep(m, e.close), [])
    else
      var t := Taken(m, e);
      if t.state != Validating || e.validation == Busy then (t, [])
      else if e.validation == Ok then StoreStep(t, d, e.outcome)
      else (AttemptFailed(t), [])
  }

  ghost function Step(m: Machine, d: Config.Device, e: Event): (Machine, seq<Config.Event>)
    requires Config.Formed(d)
  {
    match e
    case Start(open, now) => (if open == Ok then m.(state := PortalOpen, openedAt := now) else m, [])
    case Stop(close) => (StopStep(m, close), [])
    case Poll(_, _, _, _, _, _, _) => PollStep(m, d, e)
    case FactoryReset(outcome) =>
      (if outcome == Config.Done then Cleared(m).(state := Unprovisioned, failures := 0) else m,
       [Config.Unset(KEY), Config.Commit(outcome)])
    case Elsewhere(event) => (if event.Boot? then Fresh(Setup(|m.pending|, m.timeout)) else m, [event])
  }

  function Fresh(setup: Setup): Machine {
    Machine(Unprovisioned, Fill(0, setup.size), 0, 0, setup.timeout)
  }

  /** The service and the run of the store so far. */
  datatype System = System(service: Machine, store: seq<Config.Event>)

  ghost function After(setup: Setup, run: seq<Event>): System {
    if run == [] then System(Fresh(setup), [])
    else
      var before := After(setup, run[..|run| - 1]);
      var (service, events) := Step(before.service, Config.After(before.store), run[|run| - 1]);
      System(service, before.store + events)
  }

  /** All credentials offered have the given size. */
  predicate Sized(size: nat, run: seq<Event>) {
    forall i :: 0 <= i < |run| && run[i].Poll? ==> |run[i].taken| == size
  }

  // ---------------------------------------------------------------- what it takes to be provisioned

  /** The poll `e` validates `c` and stores and commits it. */
  ghost predicate Stores(before: System, e: Event, c: seq<u8>) {
    && e.Poll? && !TimedOut(before.service, e.now) && e.validation == Ok && e.outcome == Config.Done
    && c == Taken(before.service, e).pending && Taken(before.service, e).state == Validating
    && SetRecord(Config.After(before.store).records, KEY, c).0 == Ok
  }

  /**
   * Every entry to `Provisioned` is a poll that validated, set and committed the same
   * credentials, and nothing else happened to the store meanwhile.
   */
  lemma EntryIsStored(setup: Setup, run: seq<Event>) returns (c: seq<u8>)
    requires run != [] && After(setup, run).service.state == Provisioned
    requires After(setup, run[..|run| - 1]).service.state != Provisioned
    ensures var before, e := After(setup, run[..|run| - 1]), run[|run| - 1];
            && Stores(before, e, c)
            && After(setup, run).store == before.store + [Config.Set(KEY, c), Config.Commit(Config.Done)]
  {
    c := Taken(After(setup, run[..|run| - 1]).service, run[|run| - 1]).pending;
  }

  lemma OneMore(store: seq<Config.Event>, a: Config.Event)
    ensures Config.After(store + [a]) == Config.Perform(Config.After(store), a)
  {
    assert (store + [a])[..|store|] == store;
  }

  lemma SetThenCommit(store: seq<Config.Event>, c: seq<u8>) returns (more: seq<Config.Event>)
    requires Config.Lawful(store + [Config.Set(KEY, c), Config.Commit(Config.Done)])
    ensures more == store + [Config.Set(KEY, c), Config.Commit(Config.Done)]
    ensures Config.Lawful(store)
    ensures Contents(Config.BootStep(Config.After(more)).records)
         == Contents(Config.Perform(Config.After(store), Config.Set(KEY, c)).records)
  {
    var half := store + [Config.Set(KEY, c)];
    more := store + [Config.Set(KEY, c), Config.Commit(Config.Done)];
    assert more == half + [Config.Commit(Config.Done)] && more[..|half|] == half && more[|half| + 1..] == [];
    OneMore(store, Config.Set(KEY, c));
    ConfigRuns.DurableMap(more, |half|);
    ConfigRuns.PrefixOfRun(more, |store|);
    assert more[..|store|] == store;
  }

  /**
   * From then on the credentials survive: on lawful runs of the store, a reboot finds them
   * under their key, and everything else as it was in RAM.
   */
  lemma ProvisionedIsDurable(setup: Setup, run: seq<Event>) returns (c: seq<u8>)
    requires run != [] && After(setup, run).service.state == Provisioned
    requires After(setup, run[..|run| - 1]).service.state != Provisioned
    requires Config.Lawful(After(setup, run).store)
    ensures var before, now := After(setup, run[..|run| - 1]), After(setup, run);
            && Stores(before, run[|run| - 1], c)
            && Contents(Config.BootStep(Config.After(now.store)).records)
               == Contents(Config.After(before.store).records)[KEY := c]
  {
    c := EntryIsStored(setup, run);
    var store := After(setup, run[..|run| - 1]).store;
    var more := SetThenCommit(store, c);
    ConfigRuns.InvHolds(store);
    SetUpdatesMap(Config.After(store).records, KEY, c);
  }

  // ---------------------------------------------------------------- credentials that do not fit

  lemma StepKeepsSetup(m: Machine, d: Config.Device, e: Event)
    requires Config.Formed(d) && (e.Poll? ==> |e.taken| == |m.pending|)
    ensures var r := Step(m, d, e).0; |r.pending| == |m.pending| && r.timeout == m.timeout
  {
  }

  lemma StepNotProvisioned(m: Machine, d: Config.Device, e: Event)
    requires Config.Formed(d) && (e.Poll? ==> |e.taken| == |m.pending|)
    requires m.state != Provisioned && |m.pending| > VALUE_CAPACITY
    ensures Step(m, d, e).0.state != Provisioned
  {
  }

  /** Without any time to answer in, credentials are not even taken. */
  lemma StepNotTaken(m: Machine, d: Config.Device, e: Event)
    requires Config.Formed(d) && m.timeout == 0 && (m.state == Unprovisioned || m.state == PortalOpen)
    ensures var r := Step(m, d, e).0; r.state == Unprovisioned || r.state == PortalOpen
  {
  }

  lemma {:induction false} SetupKept(setup: Setup, run: seq<Event>)
    requires Sized(setup.size, run)
    ensures var m := After(setup, run).service; |m.pending| == setup.size && m.timeout == setup.timeout
    decreases |run|
  {
    if run != [] {
      var s := After(setup, run[..|run| - 1]);
      SetupKept(setup, run[..|run| - 1]);
      StepKeepsSetup(s.service, Config.After(s.store), run[|run| - 1]);
    }
  }

  /** Credentials that exceed the store's value capacity are never accepted. */
  lemma {:induction false} NeverProvisioned(setup: Setup, run: seq<Event>)
    requires Sized(setup.size, run) && setup.size > VALUE_CAPACITY
    ensures After(setup, run).service.state != Provisioned
    decreases |run|
  {
    if run != [] {
      var s := After(setup, run[..|run| - 1]);
      NeverProvisioned(setup, run[..|run| - 1]);
      SetupKept(setup, run[..|run| - 1]);
      StepNotProvisioned(s.service, Config.After(s.store), run[|run| - 1]);
    }
  }

  lemma {:induction false} NeverTaken(setup: Setup, run: seq<Event>)
    requires Sized(setup.size, run) && setup.timeout == 0
    ensures var state := After(setup, run).service.state; state == Unprovisioned || state == PortalOpen
    decreases |run|
  {
    if run != [] {
      var s := After(setup, run[..|run| - 1]);
      NeverTaken(setup, run[..|run| - 1]);
      SetupKept(setup, run[..|run| - 1]);
      StepNotTaken(s.service, Config.After(s.store), run[|run| - 1]);
    }
  }

  /** With the source's sizes, no run of the composed system ever becomes provisioned. */
  lemma ActualCredentialsNeverProvisioned(timeout: u32, run: seq<Event>)
    requires Sized(CREDENTIAL_BYTES, run)
    ensures After(Setup(CREDENTIAL_BYTES, timeout), run).service.state != Provisioned
  {
    NeverProvisioned(Setup(CREDENTIAL_BYTES, timeout), run);
  }

  lemma BlankStoreAccepts(value: seq<u8>)
    requires |value| <= VALUE_CAPACITY
    ensures SetRecord(Config.After([]).records, KEY, value).0 == Ok
  {
    var rs := Config.After([]).records;
    RestoredClean([]);
    Config.RestoredNothing();
    SetUpdatesMap(rs, KEY, value);
    assert |Contents(rs)| == 0;
  }

  lemma OneMoreEvent(setup: Setup, run: seq<Event>, e: Event)
    ensures var s := After(setup, run);
            var r := Step(s.service, Config.After(s.store), e);
            After(setup, run + [e]) == System(r.0, s.store + r.1)
  {
    assert (run + [e])[..|run|] == run;
  }

  /** A new device, whose portal gives blank credentials that pass validation. */
  lemma SmallCredentialsProvisioned(setup: Setup) returns (run: seq<Event>)
    requires setup.size <= VALUE_CAPACITY && setup.timeout > 0
    ensures Sized(setup.size, run) && After(setup, run).service.state == Provisioned
  {
    var start, poll := Start(Ok, 0), Poll(0, true, Ok, Fill(0, setup.size), Ok, Config.Done, Ok);
    OneMoreEvent(setup, [], start);
    assert [] + [start] == [start];
    OneMoreEvent(setup, [start], poll);
    BlankStoreAccepts(Fill(0, setup.size));
    run := [start] + [poll];
  }

  /** Exactly the credentials that fit a configuration value can be provisioned, given any time at all. */
  lemma ProvisionableExactly(setup: Setup)
    ensures (exists run :: Sized(setup.size, run) && After(setup, run).service.state == Provisioned) <==>
              setup.size <= 64 && setup.timeout > 0
  {
    if setup.size <= VALUE_CAPACITY && setup.timeout > 0 {
      var run := SmallCredentialsProvisioned(setup);
    } else {
      forall run | Sized(setup.size, run)
        ensures After(setup, run).service.state != Provisioned
      {
        if setup.size > VALUE_CAPACITY {
          NeverProvisioned(setup, run);
        } else {
          NeverTaken(setup, run);
        }
      }
    }
  }

  // ---------------------------------------------------------------- failed attempts

  /** The event is an attempt that fails: rejected, not stored, or not committed. */
  ghost predicate FailedAttempt(s: System, e: Event) {
    && e.Poll? && !TimedOut(s.service, e.now)
    && var t := Taken(s.service, e);
       && t.state == Validating && e.validation != Busy
       && !(e.validation == Ok && e.outcome == Config.Done
            && SetRecord(Config.After(s.store).records, KEY, t.pending).0 == Ok)
  }

  /** The event starts the count of failures afresh. */
  ghost predicate StartsAfresh(s: System, e: Event) {
    || (e.FactoryReset? && e.outcome == Config.Done)
    || (e.Elsewhere? && e.event.Boot?)
    || (e.Poll? && Stores(s, e, Taken(s.service, e).pending))
  }

  /** The failed attempts since the count last started afresh. */
  ghost function Failures(setup: Setup, run: seq<Event>): nat {
    if run == [] then 0
    else
      var before, e := run[..|run| - 1], run[|run| - 1];
      var s := After(setup, before);
      if StartsAfresh(s, e) then 0
      else if FailedAttempt(s, e) then Failures(setup, before) + 1
      else Failures(setup, before)
  }

  /** An 8-bit counter after `n` increments. */
  function Counter8(n: nat): u8 {
    if n == 0 then 0 else Increment8(Counter8(n - 1))
  }

  lemma {:induction false} Counter8IsModulo(n: nat)
    ensures Counter8(n) == n % 0x100
  {
    if n > 0 {
      Counter8IsModulo(n - 1);
    }
  }

  lemma StepCounts(s: System, e: Event)
    ensures Step(s.service, Config.After(s.store), e).0.failures ==
            if StartsAfresh(s, e) then 0
            else if FailedAttempt(s, e) then Increment8(s.service.failures)
            else s.service.failures
  {
  }

  lemma {:induction false} FailuresCounted(setup: Setup, run: seq<Event>)
    ensures After(setup, run).service.failures == Counter8(Failures(setup, run))
    decreases |run|
  {
    if run != [] {
      FailuresCounted(setup, run[..|run| - 1]);
      StepCounts(After(setup, run[..|run| - 1]), run[|run| - 1]);
    }
  }

  /**
   * A failed attempt ends in `Failed` exactly when the number of failures modulo 256 is at
   * least three; after 256 of them the portal opens again.
   */
  lemma FailedExactly(setup: Setup, run: seq<Event>)
    requires run != [] && FailedAttempt(After(setup, run[..|run| - 1]), run[|run| - 1])
    ensures var s := After(setup, run).service;
            && s.state == (if Failures(setup, run) % 0x100 >= 3 then Failed else PortalOpen)
            && s.pending == Fill(0, |s.pending|)
  {
    FailuresCounted(setup, run);
    Counter8IsModulo(Failures(setup, run));
  }

  lemma CountOneMore(setup: Setup, run: seq<Event>, e: Event)
    ensures var s, n := After(setup, run), Failures(setup, run);
            Failures(setup, run + [e]) ==
            if StartsAfresh(s, e) then 0 else if FailedAttempt(s, e) then n + 1 else n
  {
    assert (run + [e])[..|run|] == run;
  }

  /** Opening the portal and offering credentials that are denied. */
  lemma DeniedAttempt(s: System, size: nat) returns (start: Event, poll: Event, middle: System)
    requires |s.service.pending| == size && s.service.timeout > 0
    ensures start == Start(Ok, 0) && poll.Poll? && |poll.taken| == size
    ensures Step(s.service, Config.After(s.store), start) == (middle.service, []) && middle.store == s.store
    ensures FailedAttempt(middle, poll) && !StartsAfresh(middle, poll)
    ensures var r := Step(middle.service, Config.After(middle.store), poll).0;
            |r.pending| == size && r.timeout == s.service.timeout
  {
    start, poll := Start(Ok, 0), Poll(0, true, Ok, Fill(0, size), Denied, Config.Done, Ok);
    middle := System(s.service.(state := PortalOpen, openedAt := 0), s.store);
  }

  lemma OneMoreFailure(setup: Setup, run: seq<Event>) returns (next: seq<Event>)
    requires setup.timeout > 0 && Sized(setup.size, run)
    ensures Sized(setup.size, next) && |next| == |run| + 2 && Failures(setup, next) == Failures(setup, run) + 1
    ensures FailedAttempt(After(setup, next[..|next| - 1]), next[|next| - 1])
  {
    SetupKept(setup, run);
    var start, poll, middle := DeniedAttempt(After(setup, run), setup.size);
    var before := run + [start];
    OneMoreEvent(setup, run, start);
    CountOneMore(setup, run, start);
    CountOneMore(setup, before, poll);
    next := before + [poll];
    assert After(setup, run).store + [] == After(setup, run).store;
    assert next[..|next| - 1] == before;
  }

  /** Opening the portal and failing validation, `n` times over. */
  lemma {:induction false} ManyFailures(setup: Setup, n: nat) returns (run: seq<Event>)
    requires setup.timeout > 0
    ensures Sized(setup.size, run) && |run| == 2 * n && Failures(setup, run) == n
    ensures n > 0 ==> FailedAttempt(After(setup, run[..|run| - 1]), run[|run| - 1])
    decreases n
  {
    if n == 0 {
      run := [];
    } else {
      run := ManyFailures(setup, n - 1);
      run := OneMoreFailure(setup, run);
    }
  }

  /** Indeed, a run of 256 failed attempts ends with the portal open again. */
  lemma ManyFailuresReopen(setup: Setup) returns (run: seq<Event>)
    requires setup.timeout > 0
    ensures Sized(setup.size, run) && Failures(setup, run) == 256 && After(setup, run).service.state == PortalOpen
  {
    run := ManyFailures(setup, 256);
    FailedExactly(setup, run);
  }

  // ---------------------------------------------------------------- what a poll comes to

  /** The reading when the portal was last opened, since the last boot. */
  function OpenedAt(run: seq<Event>): Option<u32> {
    if run == [] then None
    else
      var e := run[|run| - 1];
      if e.Start? && e.open == Ok then Some(e.now)
      else if e.Elsewhere? && e.event.Boot? then None
      else OpenedAt(run[..|run| - 1])
  }

  lemma StepKeepsOpening(m: Machine, d: Config.Device, e: Event)
    requires Config.Formed(d)
    ensures var r := Step(m, d, e).0;
            && r.timeout == m.timeout
            && r.openedAt == (if e.Start? && e.open == Ok then e.now
                              else if e.Elsewhere? && e.event.Boot? then 0 else m.openedAt)
            && (r.state != Unprovisioned && r.state != Provisioned ==>
                  (e.Start? && e.open == Ok) || (m.state != Unprovisioned && m.state != Provisioned))
            && (r.state == Provisioned ==> m.state != Unprovisioned)
            && (e.Elsewhere? && e.event.Boot? ==> r.state == Unprovisioned)
  {
  }

  /** The portal is open, or credentials are validated, only after a start, whose time is remembered. */
  lemma {:induction false} OpeningRemembered(setup: Setup, run: seq<Event>)
    ensures var m := After(setup, run).service;
            && m.timeout == setup.timeout
            && (m.state != Unprovisioned && m.state != Provisioned ==> OpenedAt(run).Some?)
            && (OpenedAt(run).Some? ==> OpenedAt(run) == Some(m.openedAt))
    decreases |run|
  {
    if run != [] {
      var s := After(setup, run[..|run| - 1]);
      OpeningRemembered(setup, run[..|run| - 1]);
      StepKeepsOpening(s.service, Config.After(s.store), run[|run| - 1]);
    }
  }

  /** The store keeps the credentials: they are set, and the commit completes. */
  ghost predicate Kept(store: seq<Config.Event>, c: seq<u8>, outcome: Config.CommitOutcome) {
    outcome == Config.Done && SetRecord(Config.After(store).records, KEY, c).0 == Ok
  }

  /** An attempt with the credentials `c` is over: kept and provisioned, or counted as a failure. */
  ghost predicate Decided(before: System, after: System, e: Event, c: seq<u8>)
    requires e.Poll?
  {
    && after.service.pending == Fill(0, |c|)
    && if e.validation == Ok && Kept(before.store, c, e.outcome) then
         && after.service.state == Provisioned && after.service.failures == 0
         && after.store == before.store + [Config.Set(KEY, c), Config.Commit(Config.Done)]
       else
         && after.service.failures == (before.service.failures + 1) % 0x100
         && after.service.state == (if after.service.failures >= 3 then Failed else PortalOpen)
         && (e.validation != Ok ==> after.store == before.store)
  }

  /** What becomes of credentials under validation, when the answer is there. */
  ghost function Verdict(m: Machine, store: seq<Config.Event>, e: Event): (Machine, seq<Config.Event>)
    requires e.Poll?
  {
    if e.validation == Ok then StoreStep(m, Config.After(store), e.outcome) else (AttemptFailed(m), [])
  }

  lemma VerdictDecides(s: System, m: Machine, e: Event)
    requires e.Poll? && m.failures == s.service.failures
    ensures var v := Verdict(m, s.store, e); Decided(s, System(v.0, s.store + v.1), e, m.pending)
  {
    assert s.store + [] == s.store;
  }

  /** The step of a poll, by what it comes to. */
  lemma PollStepIs(m: Machine, store: seq<Config.Event>, e: Event)
    requires e.Poll? && (m.state == PortalOpen || m.state == Validating)
    ensures var t := m.(pending := e.taken, state := Validating);
            PollStep(m, Config.After(store), e) ==
            if m.state == PortalOpen && Since(e.now, m.openedAt) >= m.timeout then (StopStep(m, e.close), [])
            else if m.state == PortalOpen && !e.offered then (m, [])
            else if m.state == PortalOpen && e.take != Ok then (m.(pending := e.taken), [])
            else if e.validation == Busy then (if m.state == PortalOpen then t else m, [])
            else Verdict(if m.state == PortalOpen then t else m, store, e)
  {
  }

  /**
   * A poll at real time `t` of a portal that was opened at real time `since`, in full: past the
   * timeout, by the clock, it closes; before, it takes credentials if there are any, and decides.
   */
  lemma PortalPolled(setup: Setup, run: seq<Event>, e: Event, since: nat, t: nat)
    requires e.Poll? && e.now == Seen(t) && OpenedAt(run) == Some(Seen(since)) && since <= t
    requires After(setup, run).service.state == PortalOpen
    ensures var s, r := After(setup, run), After(setup, run + [e]);
            if Seen(t - since) >= setup.timeout then
              && r.store == s.store && r.service.pending == Fill(0, |s.service.pending|)
              && r.service.state == (if e.close == Ok then Unprovisioned else PortalOpen)
            else if !e.offered || e.take != Ok then r.service.state == PortalOpen && r.store == s.store
            else if e.validation == Busy then
              r.service.state == Validating && r.service.pending == e.taken && r.store == s.store
            else Decided(s, r, e, e.taken)
  {
    var s := After(setup, run);
    OneMoreEvent(setup, run, e);
    OpeningRemembered(setup, run);
    SinceIsElapsed(t, since);
    PollStepIs(s.service, s.store, e);
    VerdictDecides(s, s.service.(pending := e.taken, state := Validating), e);
    assert s.store + [] == s.store;
  }

  /** While credentials are validated there is no timeout: the answer alone decides. */
  lemma ValidationPolled(setup: Setup, run: seq<Event>, e: Event)
    requires e.Poll? && After(setup, run).service.state == Validating
    ensures var s, r := After(setup, run), After(setup, run + [e]);
            if e.validation == Busy then r == s else Decided(s, r, e, s.service.pending)
  {
    var s := After(setup, run);
    OneMoreEvent(setup, run, e);
    PollStepIs(s.service, s.store, e);
    VerdictDecides(s, s.service, e);
    assert s.store + [] == s.store;
  }

  /** In every other state a poll does nothing. */
  lemma OtherwisePolled(setup: Setup, run: seq<Event>, e: Event)
    requires e.Poll? && After(setup, run).service.state !in {PortalOpen, Validating}
    ensures After(setup, run + [e]) == After(setup, run)
  {
    OneMoreEvent(setup, run, e);
    assert After(setup, run).store + [] == After(setup, run).store;
  }

  /** Once provisioned, only opening the portal anew, a completed factory reset, or a boot ends it. */
  lemma ProvisionedStays(setup: Setup, run: seq<Event>, e: Event)
    requires After(setup, run).service.state == Provisioned
    ensures After(setup, run + [e]).service.state == Provisioned <==>
              && !(e.Start? && e.open == Ok)
              && !(e.FactoryReset? && e.outcome == Config.Done)
              && !(e.Elsewhere? && e.event.Boot?)
  {
    OneMoreEvent(setup, run, e);
  }

  /** Stopping wipes the credentials, and unless provisioned gives up if the portal closes. */
  lemma StopGivesUp(setup: Setup, run: seq<Event>, close: Status)
    ensures var s, r := After(setup, run), After(setup, run + [Stop(close)]);
            && r.service.pending == Fill(0, |s.service.pending|) && r.store == s.store
            && r.service.failures == s.service.failures
            && r.service.state ==
               (if s.service.state == Provisioned || close != Ok then s.service.state else Unprovisioned)
  {
    OneMoreEvent(setup, run, Stop(close));
    assert After(setup, run).store + [] == After(setup, run).store;
  }

  lemma UnsetThenCommit(store: seq<Config.Event>) returns (more: seq<Config.Event>)
    requires Config.Lawful(store + [Config.Unset(KEY), Config.Commit(Config.Done)])
    ensures more == store + [Config.Unset(KEY), Config.Commit(Config.Done)]
    ensures Config.Lawful(store)
    ensures Contents(Config.BootStep(Config.After(more)).records)
         == Contents(Config.Perform(Config.After(store), Config.Unset(KEY)).records)
  {
    var half := store + [Config.Unset(KEY)];
    more := store + [Config.Unset(KEY), Config.Commit(Config.Done)];
    assert more == half + [Config.Commit(Config.Done)] && more[..|half|] == half && more[|half| + 1..] == [];
    OneMore(store, Config.Unset(KEY));
    ConfigRuns.DurableMap(more, |half|);
    ConfigRuns.PrefixOfRun(more, |store|);
    assert more[..|store|] == store;
  }

  /** After a factory reset that completes, a reboot finds no credentials, and all other keys as they were. */
  lemma FactoryResetIsDurable(setup: Setup, run: seq<Event>)
    requires Config.Lawful(After(setup, run + [FactoryReset(Config.Done)]).store)
    ensures var before, now := After(setup, run), After(setup, run + [FactoryReset(Config.Done)]);
            && now.service.state == Unprovisioned && now.service.pending == Fill(0, |now.service.pending|)
            && now.service.failures == 0
            && Contents(Config.BootStep(Config.After(now.store)).records)
               == Contents(Config.After(before.store).records) - {KEY}
  {
    OneMoreEvent(setup, run, FactoryReset(Config.Done));
    var store := After(setup, run).store;
    var more := UnsetThenCommit(store);
    ConfigRuns.InvHolds(store);
    EraseUpdatesMap(Config.After(store).records, KEY);
  }

  // ---------------------------------------------------------------- secrets

  predicate Wiped(m: Machine) {
    m.state == PortalOpen || m.state == Validating || m.pending == Fill(0, |m.pending|)
  }

  lemma StepWiped(m: Machine, d: Config.Device, e: Event)
    requires Config.Formed(d) && Wiped(m)
    ensures Wiped(Step(m, d, e).0)
  {
  }

  /** Outside the portal and validation, no credentials are left in memory. */
  lemma {:induction false} SecretsWiped(setup: Setup, run: seq<Event>)
    ensures Wiped(After(setup, run).service)
    decreases |run|
  {
    if run != [] {
      var before := After(setup, run[..|run| - 1]);
      SecretsWiped(setup, run[..|run| - 1]);
      StepWiped(before.service, Config.After(before.store), run[|run| - 1]);
    }
  }

  // ---------------------------------------------------------------- the classes

  ghost function PerformAll(d: Config.Device, events: seq<Config.Event>): (r: Config.Device)
    requires Config.Formed(d)
    ensures Config.Formed(r)
    decreases |events|
  {
    if events == [] then d else PerformAll(Config.Perform(d, events[0]), events[1..])
  }

  lemma PerformTwo(d: Config.Device, a: Config.Event, b: Config.Event)
    requires Config.Formed(d)
    ensures PerformAll(d, [a, b]) == Config.Perform(Config.Perform(d, a), b)
  {
    var once := Config.Perform(d, a);
    assert [a, b][1..] == [b] && [b][1..] == [];
    assert PerformAll(once, [b]) == PerformAll(Config.Perform(once, b), []);
  }

  class Portal {
    method Open() returns (status: Status) {
      status := *;
    }

    method Close() returns (status: Status) {
      status := *;
    }

    method HasCredentials() returns (offered: bool) {
      offered := *;
    }

    /** May leave anything in the buffer, whatever it answers. */
    method TakeCredentials(buffer: array<u8>) returns (status: Status)
      modifies buffer
    {
      for i := 0 to buffer.Length {
        buffer[i] := *;
      }
      status := *;
    }
  }

  class Validator {
    method Validate(credentials: seq<u8>) returns (status: Status) {
      status := *;
    }
  }

  class ProvisioningService {
    const portal: Portal
    const validator: Validator
    const store: Store.ConfigService
    const pending: array<u8>
    const timeout: u32
    var state: State
    var openedAt: u32
    var failures: u8

    /** What was asked of the service, and what happened to its store elsewhere. */
    ghost var run: seq<Event>

    ghost predicate Valid()
      reads this, store, store.records, store.storage.data, store.scratch
    {
      store.Valid() && pending != store.scratch && pending != store.storage.data
    }

    ghost function Snapshot(): Machine
      reads this`state, this`openedAt, this`failures, pending
    {
      Machine(state, pending[..], openedAt, failures, timeout)
    }

    /** The service and its store are where the composed system is after the same events. */
    ghost predicate Tracked()
      requires Valid()
      reads this, pending, store, store.records, store.storage.data, store.scratch
    {
      store.Tracked() && System(Snapshot(), store.run) == After(Setup(pending.Length, timeout), run)
    }

    constructor (portal: Portal, validator: Validator, store: Store.ConfigService, setup: Setup)
      requires store.Valid()
      ensures Valid() && Snapshot() == Fresh(setup) && this.store == store && fresh(pending) && run == []
      ensures store.Tracked() && store.run == [] ==> Tracked()
    {
      this.portal, this.validator, this.store := portal, validator, store;
      pending := new u8[setup.size](_ => 0);
      timeout := setup.timeout;
      state, openedAt, failures, run := Unprovisioned, 0, 0, [];
      new;
      assert pending[..] == Fill(0, setup.size);
    }

    /** Records an event once service and store are as its step leaves them. */
    ghost method Note(before: Machine, log: seq<Config.Event>, device: Config.Device, tracked: bool, e: Event)
      requires Valid() && Config.Formed(device)
      requires (Snapshot(), store.run) == (Step(before, device, e).0, log + Step(before, device, e).1)
      requires tracked ==> store.Tracked() && device == Config.After(log)
                           && System(before, log) == After(Setup(pending.Length, timeout), run)
      modifies this`run
      ensures Valid() && run == old(run) + [e] && (tracked ==> Tracked())
    {
      OneMoreEvent(Setup(pending.Length, timeout), run, e);
      run := run + [e];
    }

    /** Records what was done to the store elsewhere, short of a boot. */
    ghost method NoteElsewhere(e: Config.Event)
      requires Valid() && !e.Boot? && store.run != [] && store.run[|store.run| - 1] == e
      modifies this`run
      ensures Valid() && run == old(run) + [Elsewhere(e)]
      ensures store.Tracked()
              && System(Snapshot(), store.run[..|store.run| - 1]) == After(Setup(pending.Length, timeout), old(run))
              ==> Tracked()
    {
      OneMoreEvent(Setup(pending.Length, timeout), run, Elsewhere(e));
      assert store.run[..|store.run| - 1] + [e] == store.run;
      run := run + [Elsewhere(e)];
    }

    method ClearPending()
      modifies pending
      ensures pending[..] == Fill(0, pending.Length)
    {
      for i := 0 to pending.Length
        invariant pending[..i] == Fill(0, i)
      {
        pending[i] := 0;
      }
      assert pending[..] == pending[..pending.Length];
    }

    method FailAttempt()
      modifies this`state, this`failures, pending
      ensures Snapshot() == AttemptFailed(old(Snapshot()))
    {
      ClearPending();
      failures := Increment8(failures);
      state := if failures >= 3 then Failed else PortalOpen;
    }

    method Start(now: u32) returns (status: Status)
      requires Valid()
      modifies this`state, this`openedAt, this`run
      ensures Valid() && (old(Tracked()) ==> Tracked()) && run == old(run) + [Event.Start(status, now)]
      ensures Snapshot() == if status == Ok then old(Snapshot()).(state := PortalOpen, openedAt := now) else old(Snapshot())
    {
      ghost var before, tracked := Snapshot(), Tracked();
      status := portal.Open();
      if status == Ok {
        state, openedAt := PortalOpen, now;
      }
      assert store.run + [] == store.run;
      Note(before, store.run, store.State(), tracked, Event.Start(status, now));
    }

    method ClosePortal() returns (status: Status)
      modifies this`state, pending
      ensures Snapshot() == StopStep(old(Snapshot()), status)
    {
      ClearPending();
      status := portal.Close();
      if status == Ok && state != Provisioned {
        state := Unprovisioned;
      }
    }

    method Stop() returns (status: Status)
      requires Valid()
      modifies this`state, this`run, pending
      ensures Valid() && (old(Tracked()) ==> Tracked()) && run == old(run) + [Event.Stop(status)]
      ensures Snapshot() == StopStep(old(Snapshot()), status)
    {
      ghost var before, tracked := Snapshot(), Tracked();
      status := ClosePortal();
      assert store.run + [] == store.run;
      Note(before, store.run, store.State(), tracked, Event.Stop(status));
    }

    method Poll(now: u32) returns (ghost e: Event)
      requires Valid()
      modifies this`state, this`failures, this`run, pending
      modifies store.records, store`sequence, store`activeSlot, store`run, store.scratch, store.storage.data
      ensures Valid() && e.Poll? && e.now == now && |e.taken| == pending.Length
      ensures var (m, events) := PollStep(old(Snapshot()), old(store.State()), e);
              Snapshot() == m && store.State() == PerformAll(old(store.State()), events)
      ensures run == old(run) + [e] && (old(Tracked()) ==> Tracked())
    {
      ghost var before, log, device, tracked := Snapshot(), store.run, store.State(), Tracked();
      e := Serve(now);
      Note(before, log, device, tracked, e);
    }

    /** One poll, without a record of it. */
    method Serve(now: u32) returns (ghost e: Event)
      requires Valid()
      modifies this`state, this`failures, pending
      modifies store.records, store`sequence, store`activeSlot, store`run, store.scratch, store.storage.data
      ensures Valid() && e.Poll? && e.now == now && |e.taken| == pending.Length
      ensures var (m, events) := PollStep(old(Snapshot()), old(store.State()), e);
              && Snapshot() == m && store.State() == PerformAll(old(store.State()), events)
              && store.run == old(store.run) + events
      ensures old(store.Tracked()) ==> store.Tracked()
    {
      e := Event.Poll(now, false, Ok, pending[..], Busy, Config.Done, Ok);
      if state == PortalOpen && Since(now, openedAt) >= timeout {
        var close := ClosePortal();
        e := e.(close := close);
        return;
      }
      if state == PortalOpen {
        var offered := portal.HasCredentials();
        if offered {
          var take := portal.TakeCredentials(pending);
          e := e.(offered := true, take := take, taken := pending[..]);
          if take == Ok {
            state := Validating;
          }
        }
      }
      if state != Validating {
        return;
      }
      var validation := validator.Validate(pending[..]);
      e := e.(validation := validation);
      if validation == Busy {
        return;
      }
      if validation == Ok {
        ghost var outcome := StoreCredentials();
        e := e.(outcome := outcome);
        return;
      }
      FailAttempt();
    }

    /** Sets and commits the pending credentials. */
    method Save() returns (saved: bool, ghost outcome: Config.CommitOutcome)
      requires Valid()
      modifies store.records, store`sequence, store`activeSlot, store`run, store.scratch, store.storage.data
      ensures Valid()
      ensures old(store.Tracked()) ==> store.Tracked()
      ensures var d, c := old(store.State()), pending[..]; var accepted := SetRecord(d.records, KEY, c).0 == Ok;
              var events := if accepted then [Config.Set(KEY, c), Config.Commit(outcome)] else [Config.Set(KEY, c)];
              && saved == (accepted && outcome == Config.Done)
              && store.State() == PerformAll(d, events) && store.run == old(store.run) + events
    {
      ghost var c, d := pending[..], store.State();
      saved, outcome := false, Config.Done;
      var stored := store.SetBlob(Some(KEY), Some(pending[..]));
      if stored == Ok {
        var committed;
        committed, outcome := store.Commit();
        saved := committed == Ok;
        PerformTwo(d, Config.Set(KEY, c), Config.Commit(outcome));
      } else {
        assert PerformAll(d, [Config.Set(KEY, c)]) == PerformAll(Config.Perform(d, Config.Set(KEY, c)), []);
      }
    }

    method StoreCredentials() returns (ghost outcome: Config.CommitOutcome)
      requires Valid()
      modifies this`state, this`failures, pending
      modifies store.records, store`sequence, store`activeSlot, store`run, store.scratch, store.storage.data
      ensures Valid() && (old(store.Tracked()) ==> store.Tracked())
      ensures var (m, events) := StoreStep(old(Snapshot()), old(store.State()), outcome);
              && Snapshot() == m && store.State() == PerformAll(old(store.State()), events)
              && store.run == old(store.run) + events
    {
      var saved;
      saved, outcome := Save();
      if saved {
        ClearPending();
        var _ := portal.Close();
        state, failures := Provisioned, 0;
      } else {
        FailAttempt();
      }
    }

    /** Erases the credentials and commits. */
    method Forget() returns (status: Status, ghost outcome: Config.CommitOutcome)
      requires Valid()
      modifies store.records, store`sequence, store`activeSlot, store`run, store.scratch, store.storage.data
      ensures Valid() && (status == Ok <==> outcome == Config.Done)
      ensures old(store.Tracked()) ==> store.Tracked()
      ensures var events := [Config.Unset(KEY), Config.Commit(outcome)];
              store.State() == PerformAll(old(store.State()), events) && store.run == old(store.run) + events
    {
      outcome := Config.EraseFailed(0);
      ghost var d := store.State();
      var erased := store.Erase(Some(KEY));
      // With this store, erasing has no other outcome that would have to be passed on.
      assert erased == Ok || erased == NotFound;
      status, outcome := store.Commit();
      PerformTwo(d, Config.Unset(KEY), Config.Commit(outcome));
    }

    method FactoryReset() returns (status: Status, ghost outcome: Config.CommitOutcome)
      requires Valid()
      modifies this`state, this`failures, this`run, pending
      modifies store.records, store`sequence, store`activeSlot, store`run, store.scratch, store.storage.data
      ensures Valid() && (status == Ok <==> outcome == Config.Done)
      ensures var (m, events) := Step(old(Snapshot()), old(store.State()), Event.FactoryReset(outcome));
              Snapshot() == m && store.State() == PerformAll(old(store.State()), events)
      ensures run == old(run) + [Event.FactoryReset(outcome)] && (old(Tracked()) ==> Tracked())
    {
      ghost var before, log, device, tracked := Snapshot(), store.run, store.State(), Tracked();
      status, outcome := Forget();
      if status == Ok {
        ClearPending();
        state, failures := Unprovisioned, 0;
      }
      Note(before, log, device, tracked, Event.FactoryReset(outcome));
    }
  }
}
