/**
 * The binary frame: sync word, payload length, opcode, payload, one octet of padding, CRC-16.
 * The header is declared five octets long but the payload is stored from octet four on, so the
 * octet after the payload is never written, and yet is covered by the checksum.
 */
module Frame {
  import opened Words
  import opened Lfsr
  import opened Crc
  import opened Status

  const HEADER: nat := 5
  const CRC_SIZE: nat := 2
  const SYNC_HIGH: u8 := 0xA5
  const SYNC_LOW: u8 := 0x5A

  /** `payload` is the fixed array of `MaximumPayload` octets; `size` says how many count. */
  datatype Frame = Frame(opcode: u8, payload: seq<u8>, size: nat)

  // ---------------------------------------------------------------- specification

  /** Everything the checksum covers, given the octet left in the unwritten place. */
  function Covered(f: Frame, stale: u8): (r: seq<u8>)
    requires f.size <= |f.payload|
    ensures |r| == HEADER + f.size
  {
    [SYNC_HIGH, SYNC_LOW, f.size % 0x100, f.opcode] + f.payload[..f.size] + [stale]
  }

  ghost function Encoded(f: Frame, stale: u8): (r: seq<u8>)
    requires f.size <= |f.payload|
    ensures |r| == HEADER + f.size + CRC_SIZE
  {
    Covered(f, stale) + LittleEndian16(Checksum16(Covered(f, stale)))
  }

  /** The sixteen bits stored little-endian at the end of `b`. */
  function StoredCrc(b: seq<u8>): u16
    requires |b| >= 2
  {
    var low: int, high: int := b[|b| - 2], b[|b| - 1];
    low + 0x100 * high
  }

  ghost function Decoded(maximum: nat, b: seq<u8>): (r: Result<Frame>)
    ensures r.Success? ==> |r.value.payload| == maximum && r.value.size <= maximum
  {
    if |b| < HEADER + CRC_SIZE then Failure(InvalidArgument)
    else if b[0] != SYNC_HIGH || b[1] != SYNC_LOW then Failure(Nack)
    else if b[2] > maximum || |b| != HEADER + b[2] + CRC_SIZE then Failure(InvalidArgument)
    else if Checksum16(b[..|b| - CRC_SIZE]) != StoredCrc(b) then Failure(IoError)
    else Success(Frame(b[3], b[4..4 + b[2]] + Fill(0, maximum - b[2]), b[2]))
  }

  // ---------------------------------------------------------------- the codec

  method Encode(maximum: nat, frame: Frame, output: array?<u8>, capacity: nat) returns (r: Result<nat>)
    requires |frame.payload| == maximum
    requires output != null ==> capacity <= output.Length
    modifies if output == null then {} else {output}
    ensures r.Success? <==>
            output != null && frame.size <= maximum && HEADER + frame.size + CRC_SIZE <= capacity
    ensures r.Failure? ==> r.status == InvalidArgument && (output != null ==> output[..] == old(output[..]))
    ensures r.Success? ==>
            && r.value == HEADER + frame.size + CRC_SIZE
            && output[..r.value] == Encoded(frame, old(output[4 + frame.size]))
            && output[r.value..] == old(output[HEADER + frame.size + CRC_SIZE..])
  {
    if output == null || frame.size > maximum {
      return Failure(InvalidArgument);
    }
    var size := HEADER + frame.size + CRC_SIZE;
    if capacity < size {
      return Failure(InvalidArgument);
    }
    output[0] := 0xA5;
    output[1] := 0x5A;
    output[2] := frame.size % 0x100;
    output[3] := frame.opcode;
    var index := 0;
    while index < frame.size
      invariant 0 <= index <= frame.size
      invariant output[..4] == [SYNC_HIGH, SYNC_LOW, frame.size % 0x100, frame.opcode]
      invariant output[4..4 + index] == frame.payload[..index]
      invariant forall i :: 4 + index <= i < output.Length ==> output[i] == old(output[i])
    {
      output[4 + index] := frame.payload[index];
      index := index + 1;
    }
    ghost var covered := Covered(frame, old(output[4 + frame.size]));
    assert output[..HEADER + frame.size] == covered by {
      assert output[..HEADER + frame.size] == output[..4] + output[4..4 + frame.size] + [output[4 + frame.size]];
    }
    var crc := Crc16(output, HEADER + frame.size);
    output[HEADER + frame.size] := crc % 0x100;
    output[HEADER + frame.size + 1] := crc / 0x100;
    assert output[..size] == output[..HEADER + frame.size] + [crc % 0x100, crc / 0x100];
    assert output[..HEADER + frame.size] == covered;
    r := Success(size);
  }

  method CopyPayload(maximum: nat, input: array<u8>, size: nat) returns (payload: seq<u8>)
    requires size <= maximum && 4 + size <= input.Length
    ensures payload == input[4..4 + size] + Fill(0, maximum - size)
  {
    payload := Fill(0, maximum);
    var index := 0;
    while index < size
      invariant 0 <= index <= size
      invariant payload == input[4..4 + index] + Fill(0, maximum - index)
    {
      payload := payload[index := input[4 + index]];
      index := index + 1;
    }
  }

  /** The checksum of the first octets is the one stored behind them. */
  method Intact(input: array<u8>, size: nat) returns (intact: bool)
    requires CRC_SIZE <= size <= input.Length
    ensures intact == (Checksum16(input[..size][..size - CRC_SIZE]) == StoredCrc(input[..size]))
  {
    var low: int, high: int := input[size - 2], input[size - 1];
    var crc := Crc16(input, size - CRC_SIZE);
    assert input[..size][..size - CRC_SIZE] == input[..size - CRC_SIZE];
    intact := crc == low + 0x100 * high;
  }

  method Decode(maximum: nat, input: array?<u8>, size: nat) returns (r: Result<Frame>)
    requires input != null ==> size <= input.Length
    ensures input == null ==> r == Failure(InvalidArgument)
    ensures input != null ==> r == Decoded(maximum, input[..size])
  {
    if input == null || size < HEADER + CRC_SIZE {
      return Failure(InvalidArgument);
    }
    if input[0] != 0xA5 || input[1] != 0x5A {
      return Failure(Nack);
    }
    r := DecodeRest(maximum, input, size);
  }

  /** Decoding, once the synchronisation word has been found. */
  method DecodeRest(maximum: nat, input: array<u8>, size: nat) returns (r: Result<Frame>)
    requires HEADER + CRC_SIZE <= size <= input.Length && input[0] == SYNC_HIGH && input[1] == SYNC_LOW
    ensures r == Decoded(maximum, input[..size])
  {
    var payloadSize: nat := input[2];
    var frameSize := HEADER + payloadSize + CRC_SIZE;
    if payloadSize > maximum || size != frameSize {
      return Failure(InvalidArgument);
    }
    var intact := Intact(input, frameSize);
    if !intact {
      return Failure(IoError);
    }
    var payload := CopyPayload(maximum, input, payloadSize);
    assert input[..size][4..4 + payloadSize] == input[4..4 + payloadSize];
    r := Success(Frame(input[3], payload, payloadSize));
  }

  // ---------------------------------------------------------------- round trips

  /**
   * Decoding what was encoded, whatever octet was left unwritten: it gives the frame back when
   * the size fits its octet, and only then.
   */
  lemma RoundTrip(maximum: nat, f: Frame, stale: u8)
    requires |f.payload| == maximum && f.size <= maximum
    ensures Decoded(maximum, Encoded(f, stale)) ==
            if f.size <= 255 then Success(Frame(f.opcode, f.payload[..f.size] + Fill(0, maximum - f.size), f.size))
            else Failure(InvalidArgument)
  {
    var b, c := Encoded(f, stale), Covered(f, stale);
    assert b[..|b| - CRC_SIZE] == c;
    assert b[0] == SYNC_HIGH && b[1] == SYNC_LOW && b[2] == f.size % 0x100 && b[3] == f.opcode;
    assert b[4..4 + f.size] == f.payload[..f.size];
  }

  lemma AcceptedCovered(maximum: nat, b: seq<u8>)
    requires Decoded(maximum, b).Success?
    ensures var f := Decoded(maximum, b).value; Covered(f, b[4 + f.size]) == b[..|b| - CRC_SIZE]
  {
    var f := Decoded(maximum, b).value;
    assert f.payload[..f.size] == b[4..4 + f.size];
  }

  lemma CrcStored(b: seq<u8>, crc: u16)
    requires |b| >= CRC_SIZE && StoredCrc(b) == crc
    ensures LittleEndian16(crc) == b[|b| - CRC_SIZE..]
  {
  }

  /** Encoding an accepted input over its own octets reproduces it. */
  lemma ReencodeAccepted(maximum: nat, b: seq<u8>)
    requires Decoded(maximum, b).Success?
    ensures var f := Decoded(maximum, b).value; Encoded(f, b[4 + f.size]) == b
  {
    AcceptedCovered(maximum, b);
    CrcStored(b, Checksum16(b[..|b| - CRC_SIZE]));
    assert b == b[..|b| - CRC_SIZE] + b[|b| - CRC_SIZE..];
  }

  /** What is accepted, octet by octet, and what each octet means. */
  lemma AcceptedExactly(maximum: nat, b: seq<u8>)
    ensures Decoded(maximum, b).Success? <==>
              && |b| >= 7 && b[0] == 0xA5 && b[1] == 0x5A && b[2] <= maximum && |b| - 7 == b[2]
              && b[|b| - 2] == Checksum16(b[..|b| - 2]) % 0x100 && b[|b| - 1] == Checksum16(b[..|b| - 2]) / 0x100
    ensures Decoded(maximum, b).Success? ==>
              var f := Decoded(maximum, b).value;
              && f.size == b[2] && f.opcode == b[3] && |f.payload| == maximum
              && forall i :: 0 <= i < maximum ==> f.payload[i] == if i < b[2] then b[4 + i] else 0
  {
  }

  /** Why anything else is refused. */
  lemma RefusedExactly(maximum: nat, b: seq<u8>)
    ensures Decoded(maximum, b) == Failure(Nack) <==> |b| >= 7 && !(b[0] == 0xA5 && b[1] == 0x5A)
    ensures Decoded(maximum, b) == Failure(IoError) <==>
              && |b| >= 7 && b[0] == 0xA5 && b[1] == 0x5A && b[2] <= maximum && |b| - 7 == b[2]
              && !(b[|b| - 2] == Checksum16(b[..|b| - 2]) % 0x100 && b[|b| - 1] == Checksum16(b[..|b| - 2]) / 0x100)
    ensures Decoded(maximum, b) == Failure(InvalidArgument) <==>
              |b| < 7 || (b[0] == 0xA5 && b[1] == 0x5A && (b[2] > maximum || |b| - 7 != b[2]))
  {
  }

  /** The octets of an encoded frame, place by place. */
  lemma WireForm(f: Frame, stale: u8)
    requires f.size <= |f.payload| && f.size <= 255
    ensures var b := Encoded(f, stale);
            && |b| == 7 + f.size && b[0] == 0xA5 && b[1] == 0x5A && b[2] == f.size && b[3] == f.opcode
            && (forall i :: 0 <= i < f.size ==> b[4 + i] == f.payload[i]) && b[4 + f.size] == stale
            && b[5 + f.size] == Checksum16(b[..5 + f.size]) % 0x100 && b[6 + f.size] == Checksum16(b[..5 + f.size]) / 0x100
  {
    var b := Encoded(f, stale);
    assert b[..5 + f.size] == Covered(f, stale);
    var crc: nat := Checksum16(Covered(f, stale));
    assert b[5 + f.size] == crc % 0x100 && b[6 + f.size] == crc / 0x100;
  }

  // ---------------------------------------------------------------- error detection

  lemma AcceptedIsChecksummed(maximum: nat, b: seq<u8>)
    requires Decoded(maximum, b).Success?
    ensures var s := b[..|b| - CRC_SIZE]; b == s + LittleEndian16(Checksum16(s))
  {
    ReencodeAccepted(maximum, b);
    var f := Decoded(maximum, b).value;
    assert Encoded(f, b[4 + f.size])[..|b| - CRC_SIZE] == Covered(f, b[4 + f.size]);
  }

  /** A frame changed in any burst of up to sixteen consecutive bits is rejected. */
  lemma BurstRejected(maximum: nat, f: Frame, stale: u8, b: seq<u8>)
    requires f.size <= |f.payload|
    requires Burst(Encoded(f, stale), b, 16)
    ensures Decoded(maximum, b).Failure?
  {
    if Decoded(maximum, b).Success? {
      AcceptedIsChecksummed(maximum, b);
      Crc16DetectsBursts(Covered(f, stale), b[..|b| - CRC_SIZE]);
    }
  }

  /** In particular when the change is confined to two adjacent octets, wherever they lie. */
  lemma TwoOctetsRejected(maximum: nat, f: Frame, stale: u8, b: seq<u8>, at: nat)
    requires f.size <= |f.payload|
    requires SameOutside(Encoded(f, stale), b, at, 2) && b != Encoded(f, stale)
    ensures Decoded(maximum, b).Failure?
  {
    AdjacentOctetsAreBurst(Encoded(f, stale), b, at, 2, 16);
    BurstRejected(maximum, f, stale, b);
  }
}
