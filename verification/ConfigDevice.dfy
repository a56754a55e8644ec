/**
 * The configuration service as a state machine over its table in RAM and its two slots in
 * flash, with commits that may stop at any point.
 */
module ConfigDevice {
  import opened Words
  import opened Status
  import opened SlotCodec
  import opened SlotTears
  import opened ConfigTable

  datatype Device = Device(slots: seq<seq<u8>>, records: seq<Record>, sequence: u32, active: nat)

  predicate Formed(d: Device) {
    && |d.slots| == 2 && |d.slots[0]| == SLOT_BYTES && |d.slots[1]| == SLOT_BYTES
    && |d.records| == RECORD_CAPACITY && AllShaped(d.records)
    && d.active < 2
  }

  /** A number of octets within one slot. */
  type SlotSize = n: int | 0 <= n <= SLOT_BYTES

  /** How a commit ends: completed, or stopped after some octets of its erase or its write. */
  datatype CommitOutcome = Done | EraseFailed(erased: SlotSize) | WriteFailed(written: SlotSize)

  function NextSequence(d: Device): u32 {
    Successor(d.sequence)
  }

  function Target(d: Device): nat
    requires Formed(d)
    ensures Target(d) < 2 && Target(d) != d.active
  {
    1 - d.active
  }

  /** The octets of the slot in force. */
  function Newest(d: Device): (b: seq<u8>)
    requires Formed(d)
    ensures |b| == SLOT_BYTES
  {
    d.slots[d.active]
  }

  ghost function Image(d: Device): (w: seq<u8>)
    requires Formed(d)
    ensures |w| == SLOT_BYTES
  {
    Slot(NextSequence(d), Entries(d.records))
  }

  ghost function CommitStep(d: Device, o: CommitOutcome): (r: Device)
    requires Formed(d)
    ensures Formed(r) && r.records == d.records && r.slots[d.active] == d.slots[d.active]
  {
    var t := Target(d);
    match o
    case Done => d.(slots := d.slots[t := Image(d)], active := t, sequence := NextSequence(d))
    case EraseFailed(j) => d.(slots := d.slots[t := HalfErased(d.slots[t], j)])
    case WriteFailed(k) => d.(slots := d.slots[t := Torn(Image(d), k)])
  }

  /** What the two slots hold, without their octets. */
  datatype Flash = Flash(first: Option<Snapshot>, second: Option<Snapshot>, sequence: u32, active: nat)
  {
    function Held(slot: nat): Option<Snapshot> {
      if slot == 0 then first else second
    }

    function WithHeld(slot: nat, s: Option<Snapshot>): Flash {
      if slot == 0 then this.(first := s) else this.(second := s)
    }

    /** The slot `initialize` selects; it is meant for flash that holds at least one table. */
    function Selected(): nat {
      if second.None? || (first.Some? && first.value.sequence >= second.value.sequence) then 0 else 1
    }

    function Loaded(): seq<Entry> {
      var s := Held(Selected());
      if s.None? then [] else s.value.entries
    }

    function Booted(): Flash {
      var s := Held(Selected());
      if s.None? then this.(sequence := 0, active := 0)
      else this.(sequence := s.value.sequence, active := Selected())
    }

    function Committed(es: seq<Entry>): Flash
      requires active < 2
    {
      var next := Successor(sequence);
      WithHeld(1 - active, Some(Snapshot(next, es))).(sequence := next, active := 1 - active)
    }
  }

  ghost function FlashOf(d: Device): (f: Flash)
    requires Formed(d)
    ensures f.Held(0) == ReadSlot(d.slots[0]) && f.Held(1) == ReadSlot(d.slots[1])
    ensures f.sequence == d.sequence && f.active == d.active
  {
    Flash(ReadSlot(d.slots[0]), ReadSlot(d.slots[1]), d.sequence, d.active)
  }

  lemma LoadedStorable(d: Device)
    requires Formed(d)
    ensures AllStorable(FlashOf(d).Loaded()) && |FlashOf(d).Loaded()| <= RECORD_CAPACITY
  {
  }

  /** The table a reboot would load. */
  ghost function BootEntries(d: Device): (es: seq<Entry>)
    requires Formed(d)
    ensures AllStorable(es) && |es| <= RECORD_CAPACITY
  {
    LoadedStorable(d);
    FlashOf(d).Loaded()
  }

  /** `initialize` when both slots are readable: defaults if neither holds a table. */
  ghost function BootStep(d: Device): (r: Device)
    requires Formed(d)
    ensures Formed(r) && r.slots == d.slots
  {
    var f := FlashOf(d).Booted();
    d.(records := Restored(BootEntries(d)), sequence := f.sequence, active := f.active)
  }

  lemma RestoredNothing()
    ensures Entries(Restored([])) == []
  {
    EntriesOfBlanks(Restored([]));
  }

  // ---------------------------------------------------------------- booting when reads fail

  /** The status of reading a slot, given the status of reading its octets. */
  ghost function SlotStatus(b: seq<u8>, read: Status): Status
    requires |b| == SLOT_BYTES
  {
    if read != Ok then read else if ReadSlot(b).None? then Corrupt else Ok
  }

  predicate Absent(s: Status) {
    s == Corrupt || s == NotFound
  }

  /** `initialize`, given the statuses of the two storage reads. */
  ghost function BootWith(d: Device, read0: Status, read1: Status): (r: (Status, Device))
    requires Formed(d)
    ensures Formed(r.1)
  {
    var s0, s1 := SlotStatus(d.slots[0], read0), SlotStatus(d.slots[1], read1);
    if s0 != Ok && s1 != Ok then
      if Absent(s0) && Absent(s1) then (Ok, d.(records := Restored([]), sequence := 0, active := 0))
      else (IoError, d)
    else
      var first, second := ReadSlot(d.slots[0]), ReadSlot(d.slots[1]);
      var i := if s1 != Ok || (s0 == Ok && first.value.sequence >= second.value.sequence) then 0 else 1;
      var s := if i == 0 then first.value else second.value;
      (Ok, d.(records := Restored(s.entries), sequence := s.sequence, active := i))
  }

  /**
   * The reads that matter succeed: that of the slot with the newest table or, if no slot holds
   * a table, none reports more than that there is nothing to read.
   */
  ghost predicate SoundBoot(d: Device, read0: Status, read1: Status)
    requires Formed(d)
  {
    var f := FlashOf(d);
    if f.first.None? && f.second.None? then (read0 == Ok || Absent(read0)) && (read1 == Ok || Absent(read1))
    else (if f.Selected() == 0 then read0 else read1) == Ok
  }

  /** With both slots read, the one with the larger sequence number is taken, and the first one of two equal. */
  lemma BootTakes(d: Device)
    requires Formed(d)
    ensures var first, second, r := ReadSlot(d.slots[0]), ReadSlot(d.slots[1]), BootWith(d, Ok, Ok);
            && r.0 == Ok && r.1.slots == d.slots
            && (r.1.active == 1 <==>
                second.Some? && (first.None? || first.value.sequence < second.value.sequence))
            && (first.None? && second.None? ==> r.1.sequence == 0 && r.1.records == Restored([]))
            && (first.Some? || second.Some? ==>
                  && ReadSlot(d.slots[r.1.active]).Some?
                  && var s := ReadSlot(d.slots[r.1.active]).value;
                     r.1.sequence == s.sequence && r.1.records == Restored(s.entries))
  {
  }

  // ---------------------------------------------------------------- runs

  datatype Event =
    | Set(key: CString, value: seq<u8>)
    | Unset(key: CString)
    | Commit(outcome: CommitOutcome)
    | Boot(read0: Status, read1: Status)

  ghost function Perform(d: Device, e: Event): (r: Device)
    requires Formed(d)
    ensures Formed(r)
  {
    match e
    case Set(key, value) => d.(records := SetRecord(d.records, key, value).1)
    case Unset(key) => d.(records := EraseRecord(d.records, key).1)
    case Commit(o) => CommitStep(d, o)
    case Boot(read0, read1) => BootWith(d, read0, read1).1
  }

  /** A factory-new device: both slots erased, nothing in RAM. */
  ghost function BlankDevice(): (d: Device)
    ensures Formed(d)
  {
    Device([Fill(0xFF, SLOT_BYTES), Fill(0xFF, SLOT_BYTES)], Restored([]), 0, 0)
  }

  /** The device after a run. */
  ghost function After(run: seq<Event>): (d: Device)
    ensures Formed(d)
  {
    if run == [] then BlankDevice()
    else Perform(After(run[..|run| - 1]), run[|run| - 1])
  }

  /**
   * What a reboot may come up with, as far as the caller can tell: the last table committed or
   * loaded, and the one whose write was begun last, if the standby slot has not been erased since.
   */
  datatype Outlook = Outlook(base: seq<Entry>, attempt: Option<seq<Entry>>)

  ghost function NextOutlook(x: Outlook, d: Device, e: Event): Outlook
    requires Formed(d)
  {
    match e
    case Commit(Done) => Outlook(Entries(d.records), None)
    case Commit(WriteFailed(_)) => x.(attempt := Some(Entries(d.records)))
    case Commit(EraseFailed(j)) => if j == 0 then x else x.(attempt := None)
    case Boot(_, _) => Outlook(BootEntries(d), None)
    case _ => x
  }

  ghost function OutlookOf(run: seq<Event>): Outlook {
    if run == [] then Outlook([], None)
    else
      var before := run[..|run| - 1];
      NextOutlook(OutlookOf(before), After(before), run[|run| - 1])
  }

  function WritesOf(e: Event): nat {
    if e.Commit? && !e.outcome.EraseFailed? then 1 else 0
  }

  /** The commits that wrote to flash: each may use up one sequence number. */
  function Writes(run: seq<Event>): nat {
    if run == [] then 0 else Writes(run[..|run| - 1]) + WritesOf(run[|run| - 1])
  }

  /** If `e` cuts a write, it does not do so deceptively; if it boots, the reads that matter succeed. */
  ghost predicate Honest(d: Device, e: Event)
    requires Formed(d)
  {
    && (e.Commit? && e.outcome.WriteFailed? && AllStorable(Entries(d.records))
        ==> !Deceptive(NextSequence(d), Entries(d.records), e.outcome.written))
    && (e.Boot? ==> SoundBoot(d, e.read0, e.read1))
  }

  /** No write of the run was cut deceptively, and no boot missed the newest table. */
  ghost predicate HonestRun(run: seq<Event>)
  {
    run == [] ||
    (HonestRun(run[..|run| - 1]) && Honest(After(run[..|run| - 1]), run[|run| - 1]))
  }

  /**
   * The runs the guarantees are about: honest ones with fewer than 2^32 writes, since sequence
   * numbers are not compared modulo their width.
   */
  ghost predicate Lawful(run: seq<Event>) {
    Writes(run) < 0x1_0000_0000 && HonestRun(run)
  }
}
