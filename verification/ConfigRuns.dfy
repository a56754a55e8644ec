/**
 * What every run of the configuration service keeps: crash safety, durability, and recovery
 * of the previous commit when the newest slot is damaged.
 */
module ConfigRuns {
  import opened Words
  import opened Lfsr
  import opened Status
  import opened SlotCodec
  import opened SlotTears
  import opened ConfigTable
  import opened ConfigDevice

  // ---------------------------------------------------------------- the two slots

  /** The standby slot holds nothing, an older table, or the one attempt made since. */
  ghost predicate StandbyOk(s: Option<Snapshot>, sequence: u32, attempt: Option<seq<Entry>>, writes: nat) {
    s.Some? ==>
      && s.value.sequence > 0
      && (s.value.sequence < sequence
          || (s.value.sequence == sequence + 1 <= writes && attempt == Some(s.value.entries)))
  }

  /** The active slot holds the table in force, or nothing has been stored yet. */
  ghost predicate ActiveOk(s: Option<Snapshot>, f: Flash, base: seq<Entry>) {
    if s.None? then f.sequence == 0 && f.active == 0 && base == []
    else s.value.sequence == f.sequence > 0 && s.value.entries == base
  }

  ghost predicate FlashInv(f: Flash, x: Outlook, writes: nat) {
    && f.active < 2
    && ActiveOk(f.Held(f.active), f, x.base)
    && StandbyOk(f.Held(1 - f.active), f.sequence, x.attempt, writes)
    && f.sequence <= writes < 0x1_0000_0000
  }

  lemma {:induction false} BootKeepsFlash(f: Flash, x: Outlook, writes: nat)
    requires FlashInv(f, x, writes)
    ensures f.Loaded() == x.base || x.attempt == Some(f.Loaded())
    ensures FlashInv(f.Booted(), Outlook(f.Loaded(), None), writes)
  {
  }

  lemma {:induction false} CommitKeepsFlash(f: Flash, x: Outlook, writes: nat, es: seq<Entry>)
    requires FlashInv(f, x, writes) && writes + 1 < 0x1_0000_0000
    ensures FlashInv(f.Committed(es), Outlook(es, None), writes + 1)
  {
  }

  lemma {:induction false} DropKeepsFlash(f: Flash, x: Outlook, writes: nat)
    requires FlashInv(f, x, writes)
    ensures FlashInv(f.WithHeld(1 - f.active, None), x.(attempt := None), writes)
  {
  }

  lemma {:induction false} AttemptKeepsFlash(f: Flash, x: Outlook, writes: nat, s: Option<Snapshot>, es: seq<Entry>)
    requires FlashInv(f, x, writes) && writes + 1 < 0x1_0000_0000
    requires s == None || s == Some(Snapshot(Successor(f.sequence), es))
    ensures FlashInv(f.WithHeld(1 - f.active, s), x.(attempt := Some(es)), writes + 1)
  {
  }

  // ---------------------------------------------------------------- one step

  ghost predicate Inv(d: Device, x: Outlook, writes: nat) {
    && Formed(d) && Clean(d.records)
    && CleanEntries(x.base) && (x.attempt.Some? ==> CleanEntries(x.attempt.value))
    && FlashInv(FlashOf(d), x, writes)
  }

  lemma {:induction false} ImageIsRead(d: Device)
    requires Formed(d) && Clean(d.records)
    ensures CleanEntries(Entries(d.records))
    ensures ReadSlot(Image(d)) == Some(Snapshot(NextSequence(d), Entries(d.records)))
  {
    EntriesClean(d.records);
    SlotRoundTrip(NextSequence(d), Entries(d.records));
  }

  lemma {:induction false} CommittedFlash(d: Device)
    requires Formed(d) && Clean(d.records)
    ensures FlashOf(CommitStep(d, Done)) == FlashOf(d).Committed(Entries(d.records))
  {
    ImageIsRead(d);
  }

  lemma {:induction false} FailedEraseFlash(d: Device, j: SlotSize)
    requires Formed(d)
    ensures var f := FlashOf(d);
            FlashOf(CommitStep(d, EraseFailed(j))) == if j == 0 then f else f.WithHeld(1 - f.active, None)
  {
    var b := d.slots[Target(d)];
    if j == 0 {
      assert HalfErased(b, 0) == b;
    } else {
      HalfErasedIsCorrupt(b, j);
    }
  }

  lemma {:induction false} WrittenFlash(d: Device, k: SlotSize)
    requires Formed(d)
    ensures FlashOf(CommitStep(d, WriteFailed(k))) ==
            FlashOf(d).WithHeld(1 - d.active, ReadSlot(Torn(Image(d), k)))
  {
  }

  lemma {:induction false} FailedWriteIsRead(d: Device, k: SlotSize)
    requires Formed(d) && Clean(d.records) && Honest(d, Commit(WriteFailed(k)))
    ensures var s := ReadSlot(Torn(Image(d), k));
            s == None || s == Some(Snapshot(NextSequence(d), Entries(d.records)))
  {
    EntriesClean(d.records);
    TornOutcome(NextSequence(d), Entries(d.records), k);
  }

  lemma {:induction false} BootedFlash(d: Device)
    requires Formed(d)
    ensures FlashOf(BootStep(d)) == FlashOf(d).Booted()
  {
  }

  /** A sound boot loads the newest table, whatever the other read reports. */
  lemma {:induction false} SoundBootIs(d: Device, read0: Status, read1: Status)
    requires Formed(d) && SoundBoot(d, read0, read1)
    ensures BootWith(d, read0, read1) == (Ok, BootStep(d))
  {
  }

  lemma {:induction false} BootKeepsInv(d: Device, x: Outlook, writes: nat)
    requires Inv(d, x, writes)
    ensures BootEntries(d) == x.base || x.attempt == Some(BootEntries(d))
    ensures Entries(BootStep(d).records) == BootEntries(d)
    ensures Inv(BootStep(d), Outlook(BootEntries(d), None), writes)
  {
    BootKeepsFlash(FlashOf(d), x, writes);
    BootedFlash(d);
    RestoredClean(BootEntries(d));
  }

  lemma {:induction false} CommitKeepsInv(d: Device, x: Outlook, writes: nat)
    requires Inv(d, x, writes) && writes + 1 < 0x1_0000_0000
    ensures Inv(CommitStep(d, Done), Outlook(Entries(d.records), None), writes + 1)
  {
    EntriesClean(d.records);
    CommittedFlash(d);
    CommitKeepsFlash(FlashOf(d), x, writes, Entries(d.records));
  }

  lemma {:induction false} FailedEraseKeepsInv(d: Device, x: Outlook, writes: nat, j: SlotSize)
    requires Inv(d, x, writes)
    ensures Inv(CommitStep(d, EraseFailed(j)), if j == 0 then x else x.(attempt := None), writes)
  {
    FailedEraseFlash(d, j);
    DropKeepsFlash(FlashOf(d), x, writes);
  }

  lemma {:induction false} AttemptKeepsInv(d: Device, after: Device, x: Outlook, writes: nat, s: Option<Snapshot>)
    requires Inv(d, x, writes) && writes + 1 < 0x1_0000_0000
    requires Formed(after) && after.records == d.records
    requires FlashOf(after) == FlashOf(d).WithHeld(1 - d.active, s)
    requires s == None || s == Some(Snapshot(NextSequence(d), Entries(d.records)))
    ensures Inv(after, x.(attempt := Some(Entries(d.records))), writes + 1)
  {
    EntriesClean(d.records);
    AttemptKeepsFlash(FlashOf(d), x, writes, s, Entries(d.records));
  }

  lemma {:induction false} FailedWriteKeepsInv(d: Device, x: Outlook, writes: nat, k: SlotSize)
    requires Inv(d, x, writes) && writes + 1 < 0x1_0000_0000
    requires Honest(d, Commit(WriteFailed(k)))
    ensures Inv(CommitStep(d, WriteFailed(k)), x.(attempt := Some(Entries(d.records))), writes + 1)
  {
    WrittenFlash(d, k);
    FailedWriteIsRead(d, k);
    AttemptKeepsInv(d, CommitStep(d, WriteFailed(k)), x, writes, ReadSlot(Torn(Image(d), k)));
  }

  lemma {:induction false} EditKeepsInv(d: Device, records: seq<Record>, x: Outlook, writes: nat)
    requires Inv(d, x, writes)
    requires |records| == RECORD_CAPACITY && AllShaped(records) && Clean(records)
    ensures Inv(d.(records := records), x, writes)
  {
    assert FlashOf(d.(records := records)) == FlashOf(d);
  }

  // ---------------------------------------------------------------- every run

  lemma {:induction false} BlankInv()
    ensures Inv(BlankDevice(), Outlook([], None), 0)
  {
    WrongMagic(Fill(0xFF, SLOT_BYTES), 0);
    RestoredClean([]);
  }

  lemma {:induction false} CommitStepKeepsInv(d: Device, o: CommitOutcome, x: Outlook, writes: nat)
    requires Inv(d, x, writes) && writes + WritesOf(Commit(o)) < 0x1_0000_0000
    requires Honest(d, Commit(o))
    ensures Inv(CommitStep(d, o), NextOutlook(x, d, Commit(o)), writes + WritesOf(Commit(o)))
  {
    match o
    case Done => CommitKeepsInv(d, x, writes);
    case EraseFailed(j) => FailedEraseKeepsInv(d, x, writes, j);
    case WriteFailed(k) => FailedWriteKeepsInv(d, x, writes, k);
  }

  lemma {:induction false} StepKeepsInv(d: Device, e: Event, x: Outlook, writes: nat)
    requires Inv(d, x, writes) && writes + WritesOf(e) < 0x1_0000_0000
    requires Honest(d, e)
    ensures Inv(Perform(d, e), NextOutlook(x, d, e), writes + WritesOf(e))
  {
    match e
    case Set(key, value) =>
      SetUpdatesMap(d.records, key, value);
      EditKeepsInv(d, SetRecord(d.records, key, value).1, x, writes);
    case Unset(key) =>
      EraseUpdatesMap(d.records, key);
      EditKeepsInv(d, EraseRecord(d.records, key).1, x, writes);
    case Commit(o) => CommitStepKeepsInv(d, o, x, writes);
    case Boot(read0, read1) =>
      SoundBootIs(d, read0, read1);
      BootKeepsInv(d, x, writes);
  }

  lemma {:induction false} InvHolds(run: seq<Event>)
    requires Lawful(run)
    ensures Inv(After(run), OutlookOf(run), Writes(run))
    decreases |run|
  {
    if run == [] {
      BlankInv();
    } else {
      var before, e := run[..|run| - 1], run[|run| - 1];
      InvHolds(before);
      StepKeepsInv(After(before), e, OutlookOf(before), Writes(before));
    }
  }

  /**
   * Crash safety: whatever happens, a reboot comes up with the last table committed or loaded,
   * or with the one table whose write was begun last.
   */
  lemma {:induction false} CrashSafety(run: seq<Event>)
    requires Lawful(run)
    ensures var x, loaded := OutlookOf(run), BootEntries(After(run));
            loaded == x.base || x.attempt == Some(loaded)
    ensures Entries(BootStep(After(run)).records) == BootEntries(After(run))
  {
    InvHolds(run);
    BootKeepsInv(After(run), OutlookOf(run), Writes(run));
  }

  /** Events that begin no write: table changes, boots, commits that fail while erasing. */
  ghost predicate Quiet(run: seq<Event>) {
    forall i :: 0 <= i < |run| ==> run[i].Commit? ==> run[i].outcome.EraseFailed?
  }

  lemma {:induction false} PrefixOfRun(run: seq<Event>, n: nat)
    requires n <= |run|
    ensures Writes(run[..n]) <= Writes(run)
    ensures HonestRun(run) ==> HonestRun(run[..n])
    decreases |run|
  {
    if n < |run| {
      PrefixOfRun(run[..|run| - 1], n);
      assert run[..|run| - 1][..n] == run[..n];
    } else {
      assert run[..n] == run;
    }
  }

  lemma {:induction false} QuietPrefix(run: seq<Event>, n: nat)
    requires n < |run| && Quiet(run[n..])
    ensures Quiet(run[..|run| - 1][n..]) && Quiet([run[|run| - 1]])
  {
    var rest := run[n..];
    assert run[..|run| - 1][n..] == rest[..|rest| - 1];
    assert run[|run| - 1] == rest[|rest| - 1];
  }

  lemma {:induction false} QuietStep(d: Device, e: Event, es: seq<Entry>)
    requires Formed(d) && Quiet([e]) && (e.Boot? ==> BootEntries(d) == es)
    ensures NextOutlook(Outlook(es, None), d, e) == Outlook(es, None)
  {
    assert [e][0] == e;
  }

  lemma {:induction false} QuietEvent(run: seq<Event>, es: seq<Entry>)
    requires run != [] && Lawful(run)
    requires OutlookOf(run[..|run| - 1]) == Outlook(es, None) && Quiet([run[|run| - 1]])
    ensures OutlookOf(run) == Outlook(es, None)
  {
    var before := run[..|run| - 1];
    CrashSafety(before);
    QuietStep(After(before), run[|run| - 1], es);
  }

  lemma {:induction false} QuietKeepsOutlook(run: seq<Event>, n: nat, es: seq<Entry>)
    requires n <= |run| && Lawful(run)
    requires OutlookOf(run[..n]) == Outlook(es, None) && Quiet(run[n..])
    ensures OutlookOf(run) == Outlook(es, None)
    decreases |run|
  {
    if n == |run| {
      assert run[..n] == run;
    } else {
      assert run[..|run| - 1][..n] == run[..n];
      QuietPrefix(run, n);
      PrefixOfRun(run, |run| - 1);
      QuietKeepsOutlook(run[..|run| - 1], n, es);
      QuietEvent(run, es);
    }
  }

  lemma {:induction false} AfterCommit(run: seq<Event>, n: nat)
    requires n < |run| && run[n] == Commit(Done)
    ensures After(run[..n + 1]) == CommitStep(After(run[..n]), Done)
    ensures OutlookOf(run[..n + 1]) == Outlook(Entries(After(run[..n]).records), None)
  {
    assert run[..n + 1][..n] == run[..n];
  }

  /** Durability: after a successful commit, a reboot restores exactly the committed table. */
  lemma {:induction false} Durable(run: seq<Event>, n: nat)
    requires n < |run| && Lawful(run)
    requires run[n] == Commit(Done) && Quiet(run[n + 1..])
    ensures BootEntries(After(run)) == Entries(After(run[..n]).records)
  {
    AfterCommit(run, n);
    QuietKeepsOutlook(run, n + 1, Entries(After(run[..n]).records));
    CrashSafety(run);
  }

  /** The same for the map that callers see. */
  lemma {:induction false} DurableMap(run: seq<Event>, n: nat)
    requires n < |run| && Lawful(run)
    requires run[n] == Commit(Done) && Quiet(run[n + 1..])
    ensures Contents(BootStep(After(run)).records) == Contents(After(run[..n]).records)
  {
    Durable(run, n);
    CrashSafety(run);
  }

  // ---------------------------------------------------------------- recovery

  /** Changes of the table in RAM, and boots. */
  ghost predicate Calm(run: seq<Event>) {
    forall i :: 0 <= i < |run| ==> !run[i].Commit?
  }

  lemma {:induction false} CalmPrefix(run: seq<Event>, n: nat)
    requires n < |run| && Calm(run[n..])
    ensures Calm(run[..|run| - 1][n..]) && !run[|run| - 1].Commit?
  {
    var rest := run[n..];
    assert run[..|run| - 1][n..] == rest[..|rest| - 1];
    assert run[|run| - 1] == rest[|rest| - 1];
  }

  /** Loading a table that was just committed changes nothing. */
  lemma {:induction false} BootAfterCommit(f: Flash, x: Outlook, writes: nat, es: seq<Entry>)
    requires FlashInv(f, x, writes) && writes + 1 < 0x1_0000_0000
    ensures f.Committed(es).Booted() == f.Committed(es)
  {
  }

  /** A calm event keeps the slots, and the flash if booting would. */
  lemma {:induction false} CalmStep(d: Device, e: Event)
    requires Formed(d) && !e.Commit? && Honest(d, e)
    requires e.Boot? ==> FlashOf(d).Booted() == FlashOf(d)
    ensures Perform(d, e).slots == d.slots && FlashOf(Perform(d, e)) == FlashOf(d)
  {
    if e.Boot? {
      SoundBootIs(d, e.read0, e.read1);
      BootedFlash(d);
    }
  }

  /** The flash, and the table in RAM, after the first `n` events. */
  ghost function FlashAt(run: seq<Event>, n: nat): (f: Flash)
    requires n <= |run|
    ensures f.active < 2
  {
    FlashOf(After(run[..n]))
  }

  ghost function TableAt(run: seq<Event>, n: nat): seq<Entry>
    requires n <= |run|
  {
    Entries(After(run[..n]).records)
  }

  lemma {:induction false} FlashAtCommit(run: seq<Event>, n: nat)
    requires n < |run| && Lawful(run)
    requires run[n] == Commit(Done)
    ensures FlashAt(run, n + 1) == FlashAt(run, n).Committed(TableAt(run, n))
    ensures FlashAt(run, n + 1).Booted() == FlashAt(run, n + 1)
  {
    CleanAt(run, n);
    AfterCommit(run, n);
    CommittedFlash(After(run[..n]));
    WritesAtCommit(run, n);
    PrefixOfRun(run, n);
    InvHolds(run[..n]);
    BootAfterCommit(FlashAt(run, n), OutlookOf(run[..n]), Writes(run[..n]), TableAt(run, n));
  }

  lemma {:induction false} WritesAtCommit(run: seq<Event>, n: nat)
    requires n < |run| && run[n] == Commit(Done)
    ensures Writes(run[..n]) + 1 <= Writes(run)
  {
    assert run[..n + 1][..n] == run[..n];
    PrefixOfRun(run, n + 1);
  }

  lemma {:induction false} CalmKeepsFlash(run: seq<Event>, n: nat)
    requires n <= |run| && HonestRun(run) && Calm(run[n..])
    requires FlashAt(run, n).Booted() == FlashAt(run, n)
    ensures After(run).slots == After(run[..n]).slots && FlashOf(After(run)) == FlashAt(run, n)
    decreases |run|
  {
    if n == |run| {
      assert run[..n] == run;
    } else {
      CalmPrefix(run, n);
      var before := run[..|run| - 1];
      assert before[..n] == run[..n];
      CalmKeepsFlash(before, n);
      CalmStep(After(before), run[|run| - 1]);
    }
  }

  lemma {:induction false} CommitThenCalm(run: seq<Event>, n: nat)
    requires n < |run| && Lawful(run) && run[n] == Commit(Done) && Calm(run[n + 1..])
    ensures FlashOf(After(run)) == FlashAt(run, n).Committed(TableAt(run, n))
    ensures After(run).slots == CommitStep(After(run[..n]), Done).slots
  {
    FlashAtCommit(run, n);
    CalmKeepsFlash(run, n + 1);
    AfterCommit(run, n);
  }

  lemma {:induction false} LawfulPrefix(run: seq<Event>, n: nat)
    requires n <= |run| && Lawful(run)
    ensures Lawful(run[..n])
  {
    PrefixOfRun(run, n);
  }

  lemma {:induction false} FlashAfterTwoCommits(run: seq<Event>, first: nat, second: nat)
    requires first < second < |run| && Lawful(run)
    requires run[first] == Commit(Done) && run[second] == Commit(Done)
    requires Calm(run[first + 1..second]) && Calm(run[second + 1..])
    ensures FlashOf(After(run)) == FlashAt(run, first).Committed(TableAt(run, first)).Committed(TableAt(run, second))
  {
    var before := run[..second];
    LawfulPrefix(run, second);
    assert before[..first] == run[..first] && before[first + 1..] == run[first + 1..second];
    CommitThenCalm(before, first);
    CommitThenCalm(run, second);
  }

  /** The device with the slot in force overwritten by `b`. */
  function Damaged(d: Device, b: seq<u8>): (r: Device)
    requires Formed(d) && |b| == SLOT_BYTES
    ensures Formed(r)
  {
    d.(slots := d.slots[d.active := b])
  }

  /** Once committed, damage by a burst leaves the slot in force unreadable. */
  lemma {:induction false} DamagedFlash(d0: Device, d: Device, b: seq<u8>)
    requires Formed(d0) && Clean(d0.records) && Formed(d)
    requires d.slots == CommitStep(d0, Done).slots && d.active == Target(d0)
    requires |b| == SLOT_BYTES && Burst(Newest(d), b, 32)
    ensures FlashOf(Damaged(d, b)) == FlashOf(d).WithHeld(d.active, None)
  {
    EntriesClean(d0.records);
    BurstIsCorrupt(NextSequence(d0), Entries(d0.records), b);
  }

  lemma {:induction false} TwoCommitsThenLoss(f: Flash, es1: seq<Entry>, es2: seq<Entry>)
    requires f.active < 2
    ensures f.Committed(es1).Committed(es2).WithHeld(f.active, None).Loaded() == es1
  {
  }

  lemma {:induction false} NewestDamaged(run: seq<Event>, second: nat, b: seq<u8>)
    requires second < |run| && Lawful(run)
    requires run[second] == Commit(Done) && Calm(run[second + 1..])
    requires |b| == SLOT_BYTES && Burst(Newest(After(run)), b, 32)
    ensures FlashOf(Damaged(After(run), b)) == FlashOf(After(run)).WithHeld(After(run).active, None)
  {
    CleanAt(run, second);
    CommitThenCalm(run, second);
    DamagedFlash(After(run[..second]), After(run), b);
  }

  /**
   * Recovery: after two successful commits, with only table changes and boots in between and
   * since, damaging the newest slot by any burst of up to 32 bits makes a reboot load exactly
   * the table of the commit before.
   */
  lemma {:induction false} PreviousCommitRecovered(run: seq<Event>, first: nat, second: nat, b: seq<u8>)
    requires first < second < |run| && Lawful(run)
    requires run[first] == Commit(Done) && run[second] == Commit(Done)
    requires Calm(run[first + 1..second]) && Calm(run[second + 1..])
    requires |b| == SLOT_BYTES && Burst(Newest(After(run)), b, 32)
    ensures BootEntries(Damaged(After(run), b)) == TableAt(run, first)
  {
    FlashAfterTwoCommits(run, first, second);
    NewestDamaged(run, second, b);
    TwoCommitsThenLoss(FlashAt(run, first), TableAt(run, first), TableAt(run, second));
  }

  /** The table in RAM after that reboot is the one of the commit before. */
  lemma {:induction false} PreviousMapRecovered(run: seq<Event>, first: nat, second: nat, b: seq<u8>)
    requires first < second < |run| && Lawful(run)
    requires run[first] == Commit(Done) && run[second] == Commit(Done)
    requires Calm(run[first + 1..second]) && Calm(run[second + 1..])
    requires |b| == SLOT_BYTES && Burst(Newest(After(run)), b, 32)
    ensures Contents(BootStep(Damaged(After(run), b)).records) == Contents(After(run[..first]).records)
  {
    PreviousCommitRecovered(run, first, second, b);
    CleanAt(run, first);
    RestoredClean(Entries(After(run[..first]).records));
  }

  /** And so every key is looked up as it was at that commit. */
  lemma PreviousLookupRecovered(run: seq<Event>, first: nat, second: nat, b: seq<u8>, key: CString)
    requires first < second < |run| && Lawful(run)
    requires run[first] == Commit(Done) && run[second] == Commit(Done)
    requires Calm(run[first + 1..second]) && Calm(run[second + 1..])
    requires |b| == SLOT_BYTES && Burst(Newest(After(run)), b, 32)
    ensures Lookup(BootStep(Damaged(After(run), b)).records, key) == Lookup(After(run[..first]).records, key)
  {
    PreviousCommitRecovered(run, first, second, b);
    PreviousMapRecovered(run, first, second, b);
    CleanAt(run, first);
    RestoredClean(TableAt(run, first));
    FoundIffMapped(BootStep(Damaged(After(run), b)).records, key);
    FoundIffMapped(After(run[..first]).records, key);
  }

  lemma {:induction false} CleanAt(run: seq<Event>, n: nat)
    requires n <= |run| && Lawful(run)
    ensures Clean(After(run[..n]).records) && CleanEntries(Entries(After(run[..n]).records))
  {
    PrefixOfRun(run, n);
    InvHolds(run[..n]);
    EntriesClean(After(run[..n]).records);
  }

  /** The same for any change confined to four adjacent octets, wherever they lie. */
  lemma {:induction false} FourOctetsRecovered(run: seq<Event>, first: nat, second: nat, b: seq<u8>, at: nat)
    requires first < second < |run| && Lawful(run)
    requires run[first] == Commit(Done) && run[second] == Commit(Done)
    requires Calm(run[first + 1..second]) && Calm(run[second + 1..])
    requires SameOutside(Newest(After(run)), b, at, 4) && Newest(After(run)) != b
    ensures BootEntries(Damaged(After(run), b)) == TableAt(run, first)
  {
    AdjacentOctetsAreBurst(Newest(After(run)), b, at, 4, 32);
    PreviousCommitRecovered(run, first, second, b);
  }

  // ---------------------------------------------------------------- boots that miss the newest table

  /** On every lawful run, a boot loads the newest table exactly if the reads that matter succeed. */
  lemma {:induction false} BootLoadsNewestExactly(run: seq<Event>, read0: Status, read1: Status)
    requires Lawful(run)
    ensures BootWith(After(run), read0, read1) == (Ok, BootStep(After(run))) <==> SoundBoot(After(run), read0, read1)
  {
    InvHolds(run);
    UnsoundBootDiffers(After(run), read0, read1);
    if SoundBoot(After(run), read0, read1) {
      SoundBootIs(After(run), read0, read1);
    }
  }

  lemma {:induction false} UnsoundBootDiffers(d: Device, read0: Status, read1: Status)
    requires Formed(d) && (FlashOf(d).first.Some? ==> FlashOf(d).first.value.sequence > 0)
    ensures !SoundBoot(d, read0, read1) ==> BootWith(d, read0, read1) != (Ok, BootStep(d))
  {
  }

  /**
   * After two commits, a boot that can read only the older slot reports success with the older
   * table, and the next commit would use the newest table's number a second time.
   */
  lemma {:induction false} StaleBoot(run: seq<Event>, first: nat, second: nat, read0: Status, read1: Status)
    requires first < second < |run| && Lawful(run)
    requires run[first] == Commit(Done) && run[second] == Commit(Done)
    requires Calm(run[first + 1..second]) && Calm(run[second + 1..])
    requires if After(run).active == 0 then read0 != Ok && read1 == Ok else read0 == Ok && read1 != Ok
    ensures var r := BootWith(After(run), read0, read1);
            r.0 == Ok && Entries(r.1.records) == TableAt(run, first) && NextSequence(r.1) == After(run).sequence
  {
    CleanAt(run, first);
    FlashAfterTwoCommits(run, first, second);
    StaleFlash(FlashAt(run, first), TableAt(run, first), TableAt(run, second));
    RestoredClean(TableAt(run, first));
  }

  lemma {:induction false} StaleFlash(f: Flash, es1: seq<Entry>, es2: seq<Entry>)
    requires f.active < 2
    ensures var g := f.Committed(es1).Committed(es2);
            && g.active == f.active && g.Held(1 - f.active) == Some(Snapshot(Successor(f.sequence), es1))
            && g.sequence == Successor(Successor(f.sequence))
  {
  }

  // ---------------------------------------------------------------- the two limits

  lemma {:induction false} CommittedLoads(f: Flash, es: seq<Entry>)
    requires f.active < 2
    requires var s := f.Held(f.active); s.Some? ==> s.value.sequence == f.sequence
    ensures var s := f.Held(f.active);
            f.Committed(es).Loaded() == if s.None? || f.sequence != 0xFFFF_FFFF then es else s.value.entries
  {
  }

  /**
   * The comparison of sequence numbers does not wrap: a successful commit survives a reboot
   * unless the number was the largest one, and is then lost to the table before it.
   */
  lemma {:induction false} CommitSurvivesUnlessWrapped(d: Device)
    requires Formed(d) && Clean(d.records)
    requires var s := ReadSlot(d.slots[d.active]); s.Some? ==> s.value.sequence == d.sequence
    ensures var s := ReadSlot(d.slots[d.active]);
            BootEntries(CommitStep(d, Done)) ==
            if s.None? || d.sequence != 0xFFFF_FFFF then Entries(d.records) else s.value.entries
  {
    CommittedFlash(d);
    CommittedLoads(FlashOf(d), Entries(d.records));
  }

  lemma {:induction false} FirstRecordSet(e: Entry)
    requires Storable(e) && 0 !in e.key
    ensures SetRecord(Restored([]), e.key, e.value).1 == Restored([])[0 := RecordOf(e)]
  {
    var rs := Restored([]);
    assert forall i :: 0 <= i < |rs| ==> !Holds(rs[i], e.key);
    assert FindFrom(rs, e.key, 0) == |rs|;
    assert FreeFrom(rs, 0) == 0;
  }

  lemma {:induction false} OneRecordTable(e: Entry)
    requires Storable(e) && 0 !in e.key
    ensures Entries(SetRecord(Restored([]), e.key, e.value).1) == [e]
  {
    FirstRecordSet(e);
    EntryOfRecord(e);
    EntriesOfUsed(Restored([])[0 := RecordOf(e)], [e]);
  }

  /** A deceptive tear is read as a non-empty table other than the one being written. */
  lemma {:induction false} DeceptiveIsRead(sequence: u32, e: Entry, k: SlotSize)
    requires Storable(e) && Deceptive(sequence, [e], k)
    ensures var r := ReadSlot(Torn(Slot(sequence, [e]), k));
            r.Some? && r.value.sequence == sequence && r.value.entries != [e] && r.value.entries != []
  {
    TornOutcome(sequence, [e], k);
    TornTail(sequence, [e], k);
    var p := Torn(Slot(sequence, [e]), k)[..PAYLOAD_BYTES];
    var h := Header(sequence, 1);
    assert Slot(sequence, [e])[..9] == Body(sequence, [e])[..9] == h;
    TornPrefix(Slot(sequence, [e]), k, 9);
    assert p[8] == p[..9][8] == h[8] == 1;
  }

  lemma {:induction false} BlankWithOne(e: Entry) returns (d: Device)
    requires Storable(e) && 0 !in e.key
    ensures d == Perform(BlankDevice(), Set(e.key, e.value)) && Entries(d.records) == [e]
    ensures d.sequence == 0 && d.active == 0 && FlashOf(d).first == None
  {
    d := Perform(BlankDevice(), Set(e.key, e.value));
    BlankInv();
    OneRecordTable(e);
    WrongMagic(Fill(0xFF, SLOT_BYTES), 0);
  }

  lemma {:induction false} SecondIsLoaded(f: Flash, s: Option<Snapshot>)
    requires f.first == None && s.Some?
    ensures f.WithHeld(1, s).Loaded() == s.value.entries
  {
  }

  lemma {:induction false} DeceptiveImage(d: Device, sequence: u32, e: Entry, k: SlotSize) returns (s: Option<Snapshot>)
    requires Formed(d) && Storable(e) && Entries(d.records) == [e] && NextSequence(d) == sequence
    requires Deceptive(sequence, [e], k)
    ensures s == ReadSlot(Torn(Image(d), k)) && s.Some? && s.value.entries !in {[], [e]}
  {
    DeceptiveIsRead(sequence, e, k);
    s := ReadSlot(Torn(Slot(sequence, [e]), k));
  }

  lemma {:induction false} DeceptiveCommitLoads(d: Device, e: Entry, k: SlotSize)
    requires Formed(d) && Storable(e) && Entries(d.records) == [e]
    requires d.sequence == 0 && d.active == 0 && FlashOf(d).first == None && Deceptive(1, [e], k)
    ensures BootEntries(CommitStep(d, WriteFailed(k))) !in {[], [e]}
  {
    var s := DeceptiveImage(d, 1, e, k);
    WrittenFlash(d, k);
    SecondIsLoaded(FlashOf(d), s);
  }

  lemma {:induction false} Extended(run: seq<Event>, e: Event)
    ensures After(run + [e]) == Perform(After(run), e)
    ensures OutlookOf(run + [e]) == NextOutlook(OutlookOf(run), After(run), e)
    ensures Writes(run + [e]) == Writes(run) + WritesOf(e)
    ensures HonestRun(run + [e]) <==> HonestRun(run) && Honest(After(run), e)
  {
    assert (run + [e])[..|run|] == run;
  }

  lemma {:induction false} FirstEvent(e: Event)
    requires e.Set?
    ensures After([e]) == Perform(BlankDevice(), e)
    ensures OutlookOf([e]) == Outlook([], None) && Writes([e]) == 0
  {
    assert [e][..0] == [];
  }

  lemma {:induction false} CutFirstWrite(e: Entry, d: Device, k: SlotSize) returns (run: seq<Event>)
    requires Storable(e) && 0 !in e.key
    requires d == Perform(BlankDevice(), Set(e.key, e.value)) && Entries(d.records) == [e]
    ensures |run| == 2 && run[0].Set? && run[1].Commit?
    ensures Writes(run) == 1
    ensures After(run) == CommitStep(d, WriteFailed(k)) && OutlookOf(run) == Outlook([], Some([e]))
  {
    var edit, cut := Set(e.key, e.value), Commit(WriteFailed(k));
    FirstEvent(edit);
    Extended([edit], cut);
    run := [edit] + [cut];
  }

  lemma {:induction false} CutFirstWriteLoads(e: Entry, k: SlotSize) returns (run: seq<Event>)
    requires Storable(e) && 0 !in e.key && Deceptive(1, [e], k)
    ensures |run| == 2 && run[0].Set? && run[1].Commit? && Writes(run) == 1
    ensures BootEntries(After(run)) !in {[], [e]} && OutlookOf(run) == Outlook([], Some([e]))
  {
    var d := BlankWithOne(e);
    DeceptiveCommitLoads(d, e, k);
    run := CutFirstWrite(e, d, k);
  }

  /** A run of two events, one cut write, after which a reboot loads a table never to be stored. */
  lemma {:induction false} CrashSafetyNeedsTheHypothesis() returns (run: seq<Event>)
    ensures |run| == 2 && run[0].Set? && run[1].Commit? && Writes(run) == 1
    ensures var x, loaded := OutlookOf(run), BootEntries(After(run));
            loaded != x.base && x.attempt != Some(loaded)
  {
    var e := DeceptiveTearExists(1);
    run := CutFirstWriteLoads(e, 16);
  }

  // ---------------------------------------------------------------- 2^32 writes

  /** An honest run of `n` writes that leaves the empty table, committed if `n > 0`. */
  ghost predicate EmptyAfter(run: seq<Event>, n: u32) {
    && HonestRun(run) && Writes(run) == n && After(run).sequence == n && After(run).records == Restored([])
    && (n > 0 ==> ReadSlot(Newest(After(run))) == Some(Snapshot(n, [])))
  }

  lemma {:induction false} EmptyCommitStep(d: Device)
    requires Formed(d) && d.records == Restored([]) && d.sequence < 0xFFFF_FFFF
    ensures var c := CommitStep(d, Done);
            && c.sequence == d.sequence + 1 && c.records == d.records
            && ReadSlot(Newest(c)) == Some(Snapshot(d.sequence + 1, []))
  {
    RestoredClean([]);
    RestoredNothing();
    ImageIsRead(d);
  }

  lemma {:induction false} OneMoreEmptyCommit(run: seq<Event>, n: u32)
    requires EmptyAfter(run, n) && n < 0xFFFF_FFFF
    ensures EmptyAfter(run + [Commit(Done)], n + 1)
  {
    Extended(run, Commit(Done));
    EmptyCommitStep(After(run));
  }

  /** A new device after `n` successful commits of the empty table. */
  lemma {:induction false} EmptyCommits(n: u32) returns (run: seq<Event>)
    ensures EmptyAfter(run, n)
    decreases n
  {
    run := [];
    if n > 0 {
      run := EmptyCommits(n - 1);
      OneMoreEmptyCommit(run, n - 1);
      run := run + [Commit(Done)];
    }
  }

  /** The same with one record set after the last commit. */
  lemma {:induction false} EmptyCommitsThenSet(n: u32, e: Entry) returns (run: seq<Event>)
    requires n > 0 && Storable(e) && 0 !in e.key
    ensures HonestRun(run) && Writes(run) == n && After(run).sequence == n
    ensures ReadSlot(Newest(After(run))) == Some(Snapshot(n, []))
    ensures Entries(After(run).records) == [e] && Clean(After(run).records)
  {
    var edit := Set(e.key, e.value);
    run := EmptyCommits(n);
    Extended(run, edit);
    OneRecordTable(e);
    RestoredClean([]);
    SetUpdatesMap(Restored([]), e.key, e.value);
    run := run + [edit];
  }

  /**
   * The bound on the number of writes is exact: there is an honest run of 2^32 of them that ends
   * in a successful commit, and a reboot then loads the table before it.
   */
  lemma {:induction false} WrappedCommitIsLost() returns (run: seq<Event>, e: Entry)
    ensures Writes(run) == 0x1_0000_0000 && HonestRun(run) && run != [] && run[|run| - 1] == Commit(Done)
    ensures Entries(After(run).records) == [e] && BootEntries(After(run)) == []
  {
    e := Entry([0x61], []);
    run := EmptyCommitsThenSet(0xFFFF_FFFF, e);
    Extended(run, Commit(Done));
    CommitSurvivesUnlessWrapped(After(run));
    run := run + [Commit(Done)];
  }
}
