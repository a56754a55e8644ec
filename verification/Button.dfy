/**
 * The debouncing push button: an incremental machine over a wrapping clock, compared with the
 * whole history of its samples in real time.
 */
module Button {
  import opened Words
  import opened Clock

  datatype Event = Nothing | PressStarted | ShortPress | CommissioningPress | FactoryResetPress

  datatype Config = Config(debounce: u32, shortMax: u32, commissioningMin: u32, factoryResetMin: u32)

  datatype Machine = Machine(raw: bool, stable: bool, debouncing: bool, lastChange: u32, pressStart: u32)

  const START := Machine(false, false, false, 0, 0)

  /** A sample of the pin at real time `at`. */
  datatype Sample = Sample(pressed: bool, at: nat)

  /** The event of a release after a hold of `held` milliseconds; between the ranges there is none. */
  function Classify(c: Config, held: nat): Event {
    if held >= c.factoryResetMin then FactoryResetPress
    else if held >= c.commissioningMin then CommissioningPress
    else if held <= c.shortMax then ShortPress
    else Nothing
  }

  function Next(c: Config, m: Machine, pressed: bool, now: u32): (Machine, Event) {
    if pressed != m.raw then
      (m.(raw := pressed, debouncing := true, lastChange := now), Nothing)
    else if !m.debouncing || Since(now, m.lastChange) < c.debounce then (m, Nothing)
    else if m.stable == m.raw then (m.(debouncing := false), Nothing)
    else if m.raw then (m.(debouncing := false, stable := true, pressStart := now), PressStarted)
    else (m.(debouncing := false, stable := false), Classify(c, Since(now, m.pressStart)))
  }

  function After(c: Config, h: seq<Sample>): Machine {
    if h == [] then START
    else
      var s := h[|h| - 1];
      Next(c, After(c, h[..|h| - 1]), s.pressed, Seen(s.at)).0
  }

  /** The event reported with sample `n`. */
  function EventAt(c: Config, h: seq<Sample>, n: nat): Event
    requires n < |h|
  {
    Next(c, After(c, h[..n]), h[n].pressed, Seen(h[n].at)).1
  }

  /** The debounced level after the history `h`. */
  predicate Level(c: Config, h: seq<Sample>) {
    After(c, h).stable
  }

  /** Sample `n` changed the debounced level. */
  predicate Accepted(c: Config, h: seq<Sample>, n: nat)
    requires n < |h|
  {
    Level(c, h[..n + 1]) != Level(c, h[..n])
  }

  predicate Monotone(h: seq<Sample>) {
    forall i, j :: 0 <= i <= j < |h| ==> h[i].at <= h[j].at
  }

  // ---------------------------------------------------------------- the history

  predicate RawLevel(h: seq<Sample>) {
    h != [] && h[|h| - 1].pressed
  }

  /** The last raw change, or -1 if there was none. */
  function LastEdge(h: seq<Sample>): (e: int)
    ensures -1 <= e < |h|
  {
    if h == [] then -1
    else if RawLevel(h) != RawLevel(h[..|h| - 1]) then |h| - 1
    else LastEdge(h[..|h| - 1])
  }

  /** Sample `e` changed the raw level and no later one did. */
  predicate EdgeThenQuiet(h: seq<Sample>, e: nat) {
    && e < |h| && h[e].pressed != RawLevel(h[..e])
    && (forall i :: e <= i < |h| ==> h[i].pressed == h[e].pressed)
  }

  lemma {:induction false} LastEdgeIsLast(h: seq<Sample>)
    ensures LastEdge(h) >= 0 ==> EdgeThenQuiet(h, LastEdge(h))
    ensures LastEdge(h) < 0 ==> !RawLevel(h)
    decreases |h|
  {
    if h != [] && RawLevel(h) == RawLevel(h[..|h| - 1]) {
      var before := h[..|h| - 1];
      LastEdgeIsLast(before);
      if LastEdge(h) >= 0 {
        assert h[..LastEdge(h)] == before[..LastEdge(h)];
      }
    }
  }

  /** Sample `k` came at least the debounce time after sample `e`, by the counter. */
  predicate Settles(c: Config, h: seq<Sample>, e: nat, k: nat) {
    e < k < |h| && h[e].at <= h[k].at && Seen(h[k].at - h[e].at) >= c.debounce
  }

  ghost predicate SettledSince(c: Config, h: seq<Sample>, e: nat) {
    exists k: nat :: Settles(c, h, e, k)
  }

  /** What the machine remembers, in terms of the history. */
  ghost predicate Remembers(c: Config, h: seq<Sample>, m: Machine) {
    && m.raw == RawLevel(h)
    && (m.debouncing ==>
          && LastEdge(h) >= 0 && m.lastChange == Seen(h[LastEdge(h)].at)
          && !SettledSince(c, h, LastEdge(h)) && m.stable == Level(c, h[..LastEdge(h)]))
    && (!m.debouncing ==>
          && m.stable == m.raw
          && (LastEdge(h) >= 0 ==> SettledSince(c, h, LastEdge(h))))
  }

  lemma LastEdgeOfQuiet(h: seq<Sample>, s: Sample)
    requires s.pressed == RawLevel(h)
    ensures LastEdge(h + [s]) == LastEdge(h)
  {
    assert (h + [s])[..|h|] == h;
  }

  lemma LastEdgeOfChange(h: seq<Sample>, s: Sample)
    requires s.pressed != RawLevel(h)
    ensures LastEdge(h + [s]) == |h|
  {
    assert (h + [s])[..|h|] == h;
  }

  lemma SettledAfter(c: Config, h: seq<Sample>, s: Sample, e: nat)
    requires e < |h| && h[e].at <= s.at
    ensures SettledSince(c, h + [s], e) <==> SettledSince(c, h, e) || Seen(s.at - h[e].at) >= c.debounce
  {
    var g := h + [s];
    if SettledSince(c, h, e) {
      var k: nat :| Settles(c, h, e, k);
      assert Settles(c, g, e, k);
    }
    if Seen(s.at - h[e].at) >= c.debounce {
      assert Settles(c, g, e, |h|);
    }
    if SettledSince(c, g, e) {
      var k: nat :| Settles(c, g, e, k);
      assert k < |h| ==> Settles(c, h, e, k);
    }
  }

  lemma ChangeRemembered(c: Config, h: seq<Sample>, s: Sample, m: Machine)
    requires s.pressed != m.raw && Remembers(c, h, m) && m == After(c, h)
    ensures Remembers(c, h + [s], Next(c, m, s.pressed, Seen(s.at)).0)
  {
    LastEdgeOfChange(h, s);
    assert (h + [s])[..|h|] == h;
  }

  lemma QuietRemembered(c: Config, h: seq<Sample>, s: Sample, m: Machine)
    requires s.pressed == m.raw && Remembers(c, h, m)
    requires LastEdge(h) >= 0 ==> h[LastEdge(h)].at <= s.at
    ensures Remembers(c, h + [s], Next(c, m, s.pressed, Seen(s.at)).0)
  {
    var g, e := h + [s], LastEdge(h);
    LastEdgeOfQuiet(h, s);
    if e >= 0 {
      assert g[..e] == h[..e];
      SettledAfter(c, h, s, e);
      SinceIsElapsed(s.at, h[e].at);
    }
  }

  lemma StepRemembers(c: Config, h: seq<Sample>, s: Sample, m: Machine)
    requires Monotone(h + [s]) && Remembers(c, h, m) && m == After(c, h)
    ensures Remembers(c, h + [s], Next(c, m, s.pressed, Seen(s.at)).0)
  {
    if s.pressed != m.raw {
      ChangeRemembered(c, h, s, m);
    } else {
      var g, e := h + [s], LastEdge(h);
      assert e >= 0 ==> g[e].at <= g[|h|].at;
      QuietRemembered(c, h, s, m);
    }
  }

  lemma {:induction false} EveryHistoryRemembered(c: Config, h: seq<Sample>)
    requires Monotone(h)
    ensures Remembers(c, h, After(c, h))
    decreases |h|
  {
    if h != [] {
      var before := h[..|h| - 1];
      EveryHistoryRemembered(c, before);
      StepRemembers(c, before, h[|h| - 1], After(c, before));
      assert before + [h[|h| - 1]] == h;
    }
  }

  // ---------------------------------------------------------------- the level

  /**
   * The level, from the history alone: that of the last raw change if some sample since then
   * came a debounce time later, and otherwise the level before that change.
   */
  lemma LevelFromHistory(c: Config, h: seq<Sample>)
    requires Monotone(h)
    ensures LastEdge(h) < 0 ==> !Level(c, h)
    ensures LastEdge(h) >= 0 ==>
              Level(c, h) == if SettledSince(c, h, LastEdge(h)) then h[LastEdge(h)].pressed
                             else Level(c, h[..LastEdge(h)])
  {
    EveryHistoryRemembered(c, h);
    LastEdgeIsLast(h);
  }

  lemma SettledWithinOneTurn(c: Config, h: seq<Sample>, e: nat)
    requires Monotone(h) && e < |h| && h[|h| - 1].at - h[e].at < WRAP
    ensures SettledSince(c, h, e) <==> e < |h| - 1 && h[|h| - 1].at - h[e].at >= c.debounce
  {
    if SettledSince(c, h, e) {
      var k: nat :| Settles(c, h, e, k);
      assert h[k].at <= h[|h| - 1].at;
    }
    if e < |h| - 1 && h[|h| - 1].at - h[e].at >= c.debounce {
      assert h[e].at <= h[|h| - 1].at;
      assert Settles(c, h, e, |h| - 1);
    }
  }

  /**
   * In real time, while the counter has not come round since the last raw change: the change
   * is taken over exactly when a later sample shows the debounce time has passed.
   */
  lemma LevelInRealTime(c: Config, h: seq<Sample>)
    requires Monotone(h) && LastEdge(h) >= 0 && h[|h| - 1].at - h[LastEdge(h)].at < WRAP
    ensures var e := LastEdge(h);
            Level(c, h) == if e < |h| - 1 && h[|h| - 1].at - h[e].at >= c.debounce then h[e].pressed
                           else Level(c, h[..e])
  {
    LevelFromHistory(c, h);
    SettledWithinOneTurn(c, h, LastEdge(h));
  }

  /**
   * A level change is accepted only if all samples since the last raw change agree on it and
   * at least the debounce time of real time has passed; this needs no bound on the clock.
   */
  lemma AcceptedOnlyWhenSettled(c: Config, h: seq<Sample>, n: nat)
    requires Monotone(h) && n < |h| && Accepted(c, h, n)
    ensures var e := LastEdge(h[..n + 1]);
            && 0 <= e < n && EdgeThenQuiet(h[..n + 1], e)
            && Level(c, h[..n + 1]) == h[e].pressed && h[n].at - h[e].at >= c.debounce
  {
    var g := h[..n + 1];
    assert g[..n] == h[..n];
    EveryHistoryRemembered(c, h[..n]);
    EveryHistoryRemembered(c, g);
    LastEdgeIsLast(g);
    var e := LastEdge(h[..n]);
    assert h[..n] + [h[n]] == g;
    if h[n].pressed == RawLevel(h[..n]) {
      LastEdgeOfQuiet(h[..n], h[n]);
      if e >= 0 {
        SinceIsElapsed(h[n].at, h[e].at);
      }
    }
  }

  // ---------------------------------------------------------------- presses and releases

  /** Between two samples without an accepted change the level stays. */
  lemma {:induction false} LevelStays(c: Config, h: seq<Sample>, i: nat, j: nat)
    requires i <= j <= |h| && forall n :: i <= n < j ==> !Accepted(c, h, n)
    ensures Level(c, h[..i]) == Level(c, h[..j])
    decreases j - i
  {
    if i < j {
      assert !Accepted(c, h, j - 1);
      LevelStays(c, h, i, j - 1);
    }
  }

  /** Accepted presses and releases strictly alternate, beginning with a press. */
  lemma Alternates(c: Config, h: seq<Sample>, i: nat, j: nat)
    requires i < j < |h| && Accepted(c, h, j) && forall n :: i < n < j ==> !Accepted(c, h, n)
    ensures Accepted(c, h, i) ==> Level(c, h[..i + 1]) != Level(c, h[..j + 1])
    ensures (i == 0 && !Accepted(c, h, 0)) ==> EventAt(c, h, j) == PressStarted
  {
    LevelStays(c, h, i + 1, j);
    assert h[..j + 1][..j] == h[..j];
    assert h[..0] == [] && h[..0 + 1][..0] == h[..0];
  }

  /** The sample of the last accepted press, or -1. */
  function LastPress(c: Config, h: seq<Sample>): (p: int)
    ensures -1 <= p < |h|
  {
    if h == [] then -1
    else if Level(c, h) && !Level(c, h[..|h| - 1]) then |h| - 1
    else LastPress(c, h[..|h| - 1])
  }

  /** While the level is pressed, its start is the reading at the last accepted press. */
  lemma {:induction false} PressRemembered(c: Config, h: seq<Sample>)
    requires Level(c, h)
    ensures LastPress(c, h) >= 0 && After(c, h).pressStart == Seen(h[LastPress(c, h)].at)
    decreases |h|
  {
    var before := h[..|h| - 1];
    if Level(c, before) {
      PressRemembered(c, before);
    }
  }

  /** The real time between the last accepted press and sample `n`. */
  function Hold(c: Config, h: seq<Sample>, n: nat): nat
    requires n < |h|
  {
    var p := LastPress(c, h[..n]);
    if p >= 0 && h[p].at <= h[n].at then h[n].at - h[p].at else 0
  }

  /**
   * What is reported: the start of an accepted press; for an accepted release, the class of
   * the hold since its own press, as the counter shows it; otherwise nothing.
   */
  lemma EventFromHistory(c: Config, h: seq<Sample>, n: nat)
    requires Monotone(h) && n < |h|
    ensures EventAt(c, h, n) ==
            if !Accepted(c, h, n) then Nothing
            else if Level(c, h[..n + 1]) then PressStarted
            else Classify(c, Seen(Hold(c, h, n)))
  {
    assert h[..n + 1][..n] == h[..n];
    if Level(c, h[..n]) {
      PressRemembered(c, h[..n]);
      SinceIsElapsed(h[n].at, h[LastPress(c, h[..n])].at);
    }
  }

  /** The four answers to a release, by the ranges of the hold as the counter shows it. */
  lemma ReleaseByRange(c: Config, h: seq<Sample>, n: nat)
    requires Monotone(h) && n < |h|
    ensures var held, event := Seen(Hold(c, h, n)), EventAt(c, h, n);
            var released := Accepted(c, h, n) && !Level(c, h[..n + 1]);
            && (event == FactoryResetPress <==> released && held >= c.factoryResetMin)
            && (event == CommissioningPress <==> released && c.commissioningMin <= held < c.factoryResetMin)
            && (event == ShortPress <==>
                released && held <= c.shortMax && held < c.commissioningMin && held < c.factoryResetMin)
            && (event == PressStarted <==> Accepted(c, h, n) && Level(c, h[..n + 1]))
  {
    EventFromHistory(c, h, n);
  }

  /** With the default settings, a button released after less than 2^32 ms: up to 1, from 5, from 10 seconds. */
  lemma DefaultRanges(h: seq<Sample>, n: nat)
    requires Monotone(h) && n < |h| && Accepted(DEFAULTS, h, n) && !Level(DEFAULTS, h[..n + 1])
    requires Hold(DEFAULTS, h, n) < WRAP
    ensures var held, event := Hold(DEFAULTS, h, n), EventAt(DEFAULTS, h, n);
            && (event == ShortPress <==> held <= 1000)
            && (event == Nothing <==> 1000 < held < 5000)
            && (event == CommissioningPress <==> 5000 <= held < 10000)
            && (event == FactoryResetPress <==> 10000 <= held)
  {
    EventFromHistory(DEFAULTS, h, n);
  }

  /**
   * A release is classified by its real hold exactly when that is below 2^32 ms, or shows as
   * a factory reset anyway.
   */
  lemma ReleaseClassifiedExactly(c: Config, h: seq<Sample>, n: nat)
    requires Monotone(h) && n < |h| && Accepted(c, h, n) && !Level(c, h[..n + 1])
    ensures EventAt(c, h, n) == Classify(c, Hold(c, h, n)) <==>
              Hold(c, h, n) < WRAP || Seen(Hold(c, h, n)) >= c.factoryResetMin
  {
    EventFromHistory(c, h, n);
  }

  function Held(m: Machine, now: u32): u32 {
    if m.stable then Since(now, m.pressStart) else 0
  }

  /** At time `t`, the time a pressed button has been held since its own accepted press. */
  lemma HoldFromHistory(c: Config, h: seq<Sample>, t: nat)
    requires forall i :: 0 <= i < |h| ==> h[i].at <= t
    ensures Level(c, h) ==> LastPress(c, h) >= 0 && Held(After(c, h), Seen(t)) == Seen(t - h[LastPress(c, h)].at)
    ensures !Level(c, h) ==> Held(After(c, h), Seen(t)) == 0
  {
    if Level(c, h) {
      PressRemembered(c, h);
      SinceIsElapsed(t, h[LastPress(c, h)].at);
    }
  }

  const DEFAULTS := Config(25, 1000, 5000, 10000)

  lemma AfterOneMore(c: Config, h: seq<Sample>, s: Sample)
    ensures After(c, h + [s]) == Next(c, After(c, h), s.pressed, Seen(s.at)).0
    ensures LastPress(c, h + [s]) == if Level(c, h + [s]) && !Level(c, h) then |h| else LastPress(c, h)
  {
    assert (h + [s])[..|h|] == h;
  }

  /** A press, accepted 25 ms later, and a release more than 2^32 ms after that. */
  lemma LongHold() returns (h: seq<Sample>)
    ensures Monotone(h) && |h| == 3 && h[1].at == 25 && h[2].at == WRAP + 100
    ensures After(DEFAULTS, h) == Machine(false, true, true, 100, 25) && LastPress(DEFAULTS, h) == 1
  {
    var a, b, c := Sample(true, 0), Sample(true, 25), Sample(false, WRAP + 100);
    assert [] + [a] == [a];
    AfterOneMore(DEFAULTS, [], a);
    assert After(DEFAULTS, [a]) == Machine(true, false, true, 0, 0);
    AfterOneMore(DEFAULTS, [a], b);
    assert After(DEFAULTS, [a] + [b]) == Machine(true, true, false, 0, 25);
    AfterOneMore(DEFAULTS, [a] + [b], c);
    assert Seen(WRAP + 100) == 100;
    h := [a] + [b] + [c];
  }

  /** A button held for 2^32 + 100 ms reports a short press. */
  lemma LongHoldReportsShortPress() returns (h: seq<Sample>)
    ensures Monotone(h) && |h| == 4 && EventAt(DEFAULTS, h, 3) == ShortPress
    ensures Accepted(DEFAULTS, h, 3) && Classify(DEFAULTS, Hold(DEFAULTS, h, 3)) == FactoryResetPress
  {
    var held := LongHold();
    var last := Sample(false, WRAP + 125);
    AfterOneMore(DEFAULTS, held, last);
    assert Seen(WRAP + 125) == 125;
    h := held + [last];
    assert h[..3] == held && h[..4] == h;
  }

  // ---------------------------------------------------------------- the class

  class ButtonInput {
    const config: Config
    var rawLast: bool
    var stablePressed: bool
    var debouncing: bool
    var lastChange: u32
    var pressStart: u32
    /** The samples since construction, in real time. */
    ghost var history: seq<Sample>

    /** The state is the one the history leads to. */
    ghost predicate Valid()
      reads this
    {
      Snapshot() == After(config, history)
    }

    function Snapshot(): Machine
      reads this
    {
      Machine(rawLast, stablePressed, debouncing, lastChange, pressStart)
    }

    constructor (config: Config)
      ensures Valid() && this.config == config && Snapshot() == START && history == []
    {
      this.config := config;
      history := [];
      rawLast, stablePressed, debouncing, lastChange, pressStart := false, false, false, 0, 0;
    }

    /** `at` is the real time the sample is taken at, of which the machine sees the counter only. */
    method Update(pressed: bool, now: u32, ghost at: nat) returns (event: Event)
      requires Valid() && now == Seen(at)
      modifies this
      ensures Valid() && history == old(history) + [Sample(pressed, at)]
      ensures event == EventAt(config, history, |old(history)|)
      ensures (Snapshot(), event) == Next(config, old(Snapshot()), pressed, now)
    {
      AfterOneMore(config, history, Sample(pressed, at));
      assert (history + [Sample(pressed, at)])[..|history|] == history;
      history := history + [Sample(pressed, at)];
      if pressed != rawLast {
        rawLast, debouncing, lastChange := pressed, true, now;
        return Nothing;
      }
      if !debouncing || Since(now, lastChange) < config.debounce {
        return Nothing;
      }
      debouncing := false;
      if stablePressed == rawLast {
        return Nothing;
      }
      stablePressed := rawLast;
      if stablePressed {
        pressStart := now;
        return PressStarted;
      }
      var held := Since(now, pressStart);
      if held >= config.factoryResetMin {
        return FactoryResetPress;
      }
      if held >= config.commissioningMin {
        return CommissioningPress;
      }
      event := if held <= config.shortMax then ShortPress else Nothing;
    }

    method HoldMs(now: u32) returns (held: u32)
      requires Valid()
      ensures held == Held(After(config, history), now)
    {
      held := if stablePressed then Since(now, pressStart) else 0;
    }
  }
}
