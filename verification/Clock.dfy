/** Real time in milliseconds, and what a 32-bit millisecond counter shows of it. */
module Clock {
  import opened Words

  const WRAP: nat := 0x1_0000_0000

  /** The counter's reading at real time `t`. */
  function Seen(t: nat): (r: u32)
    ensures r <= t
  {
    if t < WRAP then t else Seen(t - WRAP)
  }

  lemma {:induction false} SeenIsModulo(t: nat)
    ensures Seen(t) == t % WRAP
  {
    if t >= WRAP {
      SeenIsModulo(t - WRAP);
    }
  }

  /** Unsigned 32-bit subtraction of readings. */
  function Since(now: u32, before: u32): u32 {
    if now >= before then now - before else now - before + WRAP
  }

  /** Unsigned 32-bit addition to a reading. */
  function Later(now: u32, delay: u32): u32 {
    if now + delay < WRAP then now + delay else now + delay - WRAP
  }

  /** Subtracting readings gives the elapsed time modulo 2^32, however often the counter wrapped. */
  lemma {:induction false} SinceIsElapsed(t: nat, before: nat)
    requires before <= t
    ensures Since(Seen(t), Seen(before)) == Seen(t - before)
    decreases t
  {
    if before >= WRAP {
      SinceIsElapsed(t - WRAP, before - WRAP);
    } else if t - WRAP >= before {
      SinceIsElapsed(t - WRAP, before);
    }
  }

  /** Adding to a reading gives the reading at the later time. */
  lemma {:induction false} LaterIsSeen(t: nat, delay: u32)
    ensures Later(Seen(t), delay) == Seen(t + delay)
  {
    if t >= WRAP {
      LaterIsSeen(t - WRAP, delay);
    }
  }
}
