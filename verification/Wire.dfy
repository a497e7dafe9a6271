/** The sockperf message header (sockperf/sockperf.hpp) and the packed sequence
    numbers of the multi-queue extension (sockperf/x.hpp). */
module Wire {
  import opened Bits
  import opened Bytes

  const SEQN_SIZE: nat := 8
  const TYPE_SIZE: nat := 2
  const LENGTH_SIZE: nat := 4
  const HEADER_SIZE: nat := SEQN_SIZE + TYPE_SIZE + LENGTH_SIZE

  const PONG: U16 := 2
  const PING: U16 := 3

  const TWO_28: nat := 0x1000_0000
  const TWO_56: nat := 0x100_0000_0000_0000
  const WARMUP_MASK: nat := 0x8000_0000_0000_0000

  // ---- packed sequence numbers ------------------------------------------

  function MakeSeqn(queue: Byte, seqn: nat): nat {
    BitOr(queue as int * TWO_56, seqn)
  }

  function SplitSeqn(packed: nat): (nat, nat) {
    (packed / TWO_56, BitAnd(packed, TWO_28 - 1))
  }

  predicate IsWarmup(seqn: nat) {
    BitAnd(seqn, WARMUP_MASK) != 0
  }

  function Warmup(seqn: nat): nat {
    BitOr(seqn, WARMUP_MASK)
  }

  lemma Powers()
    ensures Pow2(28) == TWO_28
    ensures Pow2(56) == TWO_56
    ensures Pow2(63) == WARMUP_MASK
    ensures Pow2(64) == TWO_64
    ensures Pow256(2) == 0x1_0000
    ensures Pow256(4) == 0x1_0000_0000
    ensures Pow256(7) == TWO_56 && Pow256(8) == TWO_64
  {
    Pow2Values();
  }

  /** Any mask that is or-ed in marks the number as a warmup message. */
  lemma WarmupIsRecognised(seqn: nat)
    ensures IsWarmup(Warmup(seqn))
  {
    BitAndAbsorbs(seqn, WARMUP_MASK);
  }

  lemma SplitSeqnIsRemainder(packed: nat)
    ensures SplitSeqn(packed) == (packed / TWO_56, packed % TWO_28)
  {
    Powers();
    BitAndLowMask(packed, 28);
    LowIsRemainder(packed, 28);
  }

  lemma IsWarmupIsBit63(seqn: nat)
    ensures IsWarmup(seqn) <==> (seqn / WARMUP_MASK) % 2 == 1
  {
    Powers();
    BitAndSingle(seqn, 63);
    ShiftIsDivision(seqn, 63);
  }

  /** The parts of a packed number: bits of the sequence number above 2^56 run
      into the queue, and those between 2^28 and 2^56 are lost.  So the pair comes
      back exactly when the number fits the 28-bit mask of the splitter, and it
      reads as a warmup message exactly when bit 7 of the queue or bit 63 of the
      number is set. */
  lemma PackedSeqnSplits(queue: Byte, seqn: U64)
    ensures SplitSeqn(MakeSeqn(queue, seqn)) == (BitOr(queue, seqn / TWO_56), seqn % TWO_28)
    ensures SplitSeqn(MakeSeqn(queue, seqn)) == (queue, seqn) <==> seqn < TWO_28
    ensures IsWarmup(MakeSeqn(queue, seqn)) <==> queue >= 128 || seqn >= WARMUP_MASK
    ensures MakeSeqn(queue, seqn) < TWO_64
  {
    PackedParts(queue, seqn);
    SplitSeqnIsRemainder(MakeSeqn(queue, seqn));
    PackedWarmup(queue, seqn);
    if seqn < TWO_28 {
      ModUnique(seqn, TWO_56, 0, seqn);
      ModUnique(seqn, TWO_28, 0, seqn);
      BitOrZero(queue);
    }
  }

  lemma PackedParts(queue: Byte, seqn: U64)
    ensures MakeSeqn(queue, seqn) / TWO_56 == BitOr(queue, seqn / TWO_56)
    ensures MakeSeqn(queue, seqn) % TWO_28 == seqn % TWO_28
    ensures MakeSeqn(queue, seqn) < TWO_64
  {
    Powers();
    var high := queue as int * TWO_56;
    ModUnique(high, TWO_56, queue, 0);
    HighOfPacked(high, seqn, 56);
    BitOrLow(queue, 56, seqn, 28);
    LowIsRemainder(MakeSeqn(queue, seqn), 28);
    LowIsRemainder(seqn, 28);
    BitOrBound(high, seqn, 64);
  }

  lemma HighOfPacked(high: nat, seqn: nat, k: nat)
    ensures BitOr(high, seqn) / Pow2(k) == BitOr(ShiftRight(high, k), ShiftRight(seqn, k))
    ensures ShiftRight(high, k) == high / Pow2(k) && ShiftRight(seqn, k) == seqn / Pow2(k)
  {
    BitOrHigh(high, seqn, k);
    ShiftIsDivision(BitOr(high, seqn), k);
    ShiftIsDivision(high, k);
    ShiftIsDivision(seqn, k);
  }

  lemma PackedWarmup(queue: Byte, seqn: U64)
    ensures IsWarmup(MakeSeqn(queue, seqn)) <==> queue >= 128 || seqn >= WARMUP_MASK
  {
    hide BitOr, IsWarmup, ShiftRight, Pow2;
    Powers();
    var high := queue as int * TWO_56;
    IsWarmupIsBit63(MakeSeqn(queue, seqn));
    HighOfPacked(high, seqn, 63);
    TopBit(high);
    TopBit(seqn);
    OrOfBits(ShiftRight(high, 63), ShiftRight(seqn, 63));
  }

  lemma OrOfBits(a: nat, b: nat)
    requires a <= 1 && b <= 1
    ensures BitOr(a, b) == if a == 1 || b == 1 then 1 else 0
  {
    assert BitOr(0, 0) == 0 && BitOr(0, 1) == 1 && BitOr(1, 0) == 1 && BitOr(1, 1) == 1;
  }

  lemma TopBit(x: nat)
    requires x < TWO_64
    ensures x / WARMUP_MASK == if x >= WARMUP_MASK then 1 else 0
  {
    if x >= WARMUP_MASK {
      ModUnique(x, WARMUP_MASK, 1, x - WARMUP_MASK);
    } else {
      ModUnique(x, WARMUP_MASK, 0, x);
    }
  }

  // ---- header accessors, and what they read ---------------------------------------------------

  function Seqn(packet: seq<Byte>): nat
    requires SEQN_SIZE <= |packet|
  {
    FromBigEndian(packet[..SEQN_SIZE])
  }

  function MessageType(packet: seq<Byte>): nat
    requires SEQN_SIZE + TYPE_SIZE <= |packet|
  {
    FromBigEndian(packet[SEQN_SIZE..SEQN_SIZE + TYPE_SIZE])
  }

  function MessageSize(packet: seq<Byte>): nat
    requires HEADER_SIZE <= |packet|
  {
    FromBigEndian(packet[SEQN_SIZE + TYPE_SIZE..HEADER_SIZE])
  }

  function Payload(packet: seq<Byte>): seq<Byte>
    requires HEADER_SIZE <= |packet|
  {
    packet[HEADER_SIZE..]
  }

  /** In bytes: the message type is the two bytes behind the number. */
  lemma TypeInBytes(s: seq<Byte>)
    requires |s| >= 10
    ensures MessageType(s) == 256 * s[8] as int + s[9] as int
  {
    var field := s[8..10];
    assert field[..1] == [s[8]] && [s[8]][..0] == [];
    assert FromBigEndian([s[8]]) == s[8] as int;
  }

  /** The number is a warmup's exactly if its first byte has the top bit. */
  lemma WarmupInBytes(s: seq<Byte>)
    requires |s| >= 8
    ensures IsWarmup(Seqn(s)) <==> s[0] >= 128
  {
    hide IsWarmup, FromBigEndian;
    Powers();
    IsWarmupIsBit63(Seqn(s));
    FirstByte(s[..8]);
    var rest := FromBigEndian(s[1..8]);
    FromBigEndianBound(s[1..8]);
    assert s[..8][1..] == s[1..8] && s[..8][0] == s[0];
    var seqn := s[0] as int * TWO_56 + rest;
    assert Seqn(s) == seqn && 0 <= rest < TWO_56;
    TopBit(seqn);
  }

  /** The first byte is the most significant one. */
  lemma {:induction false} FirstByte(s: seq<Byte>)
    requires |s| >= 1
    ensures FromBigEndian(s) == s[0] as int * Pow256(|s| - 1) + FromBigEndian(s[1..])
  {
    if |s| > 1 {
      var k := |s| - 1;
      FirstByte(s[..k]);
      assert s[..k][1..] == s[1..][..k - 1];
    } else {
      assert s[..0] == [] && s[1..] == [];
    }
  }

  lemma {:induction false} FromBigEndianBound(s: seq<Byte>)
    ensures FromBigEndian(s) < Pow256(|s|)
  {
    if |s| != 0 {
      FromBigEndianBound(s[..|s| - 1]);
    }
  }

  /** What the accessors read from a buffer that may be shorter than the header. */
  ghost predicate SameFrom(a: seq<Byte>, b: seq<Byte>, from: nat) {
    |a| == |b| >= from && a[from..] == b[from..]
  }

  /** Buffers that agree behind the sequence number agree on all that follows. */
  lemma SameBehindSeqn(a: seq<Byte>, b: seq<Byte>)
    requires SameFrom(a, b, SEQN_SIZE)
    ensures |a| >= SEQN_SIZE + TYPE_SIZE ==> MessageType(a) == MessageType(b)
    ensures |a| >= HEADER_SIZE ==> MessageSize(a) == MessageSize(b) && Payload(a) == Payload(b)
  {
    if |a| >= SEQN_SIZE + TYPE_SIZE {
      SliceOfTail(a, b, SEQN_SIZE, SEQN_SIZE, SEQN_SIZE + TYPE_SIZE);
      if |a| >= HEADER_SIZE {
        SliceOfTail(a, b, SEQN_SIZE, SEQN_SIZE + TYPE_SIZE, HEADER_SIZE);
        SliceOfTail(a, b, SEQN_SIZE, HEADER_SIZE, |a|);
      }
    }
  }

  lemma SameBehindType(a: seq<Byte>, b: seq<Byte>)
    requires SameFrom(a, b, SEQN_SIZE + TYPE_SIZE)
    ensures |a| >= HEADER_SIZE ==> MessageSize(a) == MessageSize(b) && Payload(a) == Payload(b)
  {
    if |a| >= HEADER_SIZE {
      SliceOfTail(a, b, SEQN_SIZE + TYPE_SIZE, SEQN_SIZE + TYPE_SIZE, HEADER_SIZE);
      SliceOfTail(a, b, SEQN_SIZE + TYPE_SIZE, HEADER_SIZE, |a|);
    }
  }

  lemma SliceOfTail(a: seq<Byte>, b: seq<Byte>, from: nat, i: nat, j: nat)
    requires SameFrom(a, b, from) && from <= i <= j <= |a|
    ensures a[i..j] == b[i..j]
    ensures a[i..] == b[i..]
  {
    forall k | from <= k < |a|
      ensures a[k] == b[k]
    {
      assert a[from..][k - from] == b[from..][k - from];
    }
  }

  lemma SeqnWritten(s: seq<Byte>, value: U64)
    requires SEQN_SIZE <= |s|
    ensures var r := Splice(s, 0, BigEndian(value, SEQN_SIZE));
            Seqn(r) == value && SameFrom(s, r, SEQN_SIZE)
  {
    hide Splice, BigEndian, FromBigEndian;
    Powers();
    BigEndianRoundTrip(value, SEQN_SIZE);
    SpliceInside(s, 0, BigEndian(value, SEQN_SIZE));
    SpliceOutside(s, 0, BigEndian(value, SEQN_SIZE), SEQN_SIZE, |s|);
  }

  lemma TypeWritten(s: seq<Byte>, value: U16)
    requires SEQN_SIZE + TYPE_SIZE <= |s|
    ensures var r := Splice(s, SEQN_SIZE, BigEndian(value, TYPE_SIZE));
            MessageType(r) == value && Seqn(r) == Seqn(s) && SameFrom(s, r, SEQN_SIZE + TYPE_SIZE)
  {
    hide Splice, BigEndian, FromBigEndian;
    Powers();
    BigEndianRoundTrip(value, TYPE_SIZE);
    var x := BigEndian(value, TYPE_SIZE);
    SpliceInside(s, SEQN_SIZE, x);
    SpliceOutside(s, SEQN_SIZE, x, 0, SEQN_SIZE);
    SpliceOutside(s, SEQN_SIZE, x, SEQN_SIZE + TYPE_SIZE, |s|);
  }

  lemma SizeWritten(s: seq<Byte>, value: U32)
    requires HEADER_SIZE <= |s|
    ensures var r := Splice(s, SEQN_SIZE + TYPE_SIZE, BigEndian(value, LENGTH_SIZE));
            && MessageSize(r) == value && Seqn(r) == Seqn(s)
            && MessageType(r) == MessageType(s) && Payload(r) == Payload(s)
  {
    hide Splice, BigEndian, FromBigEndian;
    Powers();
    BigEndianRoundTrip(value, LENGTH_SIZE);
    var x := BigEndian(value, LENGTH_SIZE);
    SpliceInside(s, SEQN_SIZE + TYPE_SIZE, x);
    SpliceOutside(s, SEQN_SIZE + TYPE_SIZE, x, 0, SEQN_SIZE);
    SpliceOutside(s, SEQN_SIZE + TYPE_SIZE, x, SEQN_SIZE, SEQN_SIZE + TYPE_SIZE);
    SpliceOutside(s, SEQN_SIZE + TYPE_SIZE, x, HEADER_SIZE, |s|);
  }

  /** Writes the sequence number; everything behind it stays, so also the other
      fields and the payload as far as the buffer reaches. */
  method SetSeqn(value: U64, packet: array<Byte>)
    requires SEQN_SIZE <= packet.Length
    modifies packet
    ensures Seqn(packet[..]) == value
    ensures SameFrom(packet[..], old(packet[..]), SEQN_SIZE)
    ensures packet.Length >= SEQN_SIZE + TYPE_SIZE ==> MessageType(packet[..]) == MessageType(old(packet[..]))
    ensures packet.Length >= HEADER_SIZE ==>
              MessageSize(packet[..]) == MessageSize(old(packet[..])) && Payload(packet[..]) == Payload(old(packet[..]))
  {
    SeqnWritten(packet[..], value);
    Store(packet, 0, BigEndian(value, SEQN_SIZE));
    SameBehindSeqn(old(packet[..]), packet[..]);
  }

  method SetMessageType(value: U16, packet: array<Byte>)
    requires SEQN_SIZE + TYPE_SIZE <= packet.Length
    modifies packet
    ensures MessageType(packet[..]) == value && Seqn(packet[..]) == Seqn(old(packet[..]))
    ensures SameFrom(packet[..], old(packet[..]), SEQN_SIZE + TYPE_SIZE)
    ensures packet.Length >= HEADER_SIZE ==>
              MessageSize(packet[..]) == MessageSize(old(packet[..])) && Payload(packet[..]) == Payload(old(packet[..]))
  {
    TypeWritten(packet[..], value);
    Store(packet, SEQN_SIZE, BigEndian(value, TYPE_SIZE));
    SameBehindType(old(packet[..]), packet[..]);
  }

  method SetMessageSize(value: U32, packet: array<Byte>)
    requires HEADER_SIZE <= packet.Length
    modifies packet
    ensures MessageSize(packet[..]) == value
    ensures Seqn(packet[..]) == Seqn(old(packet[..])) && MessageType(packet[..]) == MessageType(old(packet[..]))
    ensures Payload(packet[..]) == Payload(old(packet[..]))
  {
    SizeWritten(packet[..], value);
    Store(packet, SEQN_SIZE + TYPE_SIZE, BigEndian(value, LENGTH_SIZE));
  }

  /** The payload part of `prepare_packet`: what a sender writes for queue
      `queue`, a receiver splits back to the same queue and number exactly if the
      number fits 28 bits, and mistakes for a warmup message exactly if bit 7 of
      the queue or bit 63 of the number is set. */
  method PreparePacket(queue: Byte, seqn: U64, messageType: U16, packet: array<Byte>)
    requires SEQN_SIZE + TYPE_SIZE <= packet.Length
    modifies packet
    ensures Seqn(packet[..]) == MakeSeqn(queue, seqn) && MessageType(packet[..]) == messageType
    ensures SplitSeqn(Seqn(packet[..])) == (queue, seqn) <==> seqn < TWO_28
    ensures IsWarmup(Seqn(packet[..])) <==> queue >= 128 || seqn >= WARMUP_MASK
    ensures SameFrom(packet[..], old(packet[..]), SEQN_SIZE + TYPE_SIZE)
    ensures packet.Length >= HEADER_SIZE ==>
              MessageSize(packet[..]) == MessageSize(old(packet[..])) && Payload(packet[..]) == Payload(old(packet[..]))
  {
    PackedSeqnSplits(queue, seqn);
    SetSeqn(MakeSeqn(queue, seqn), packet);
    label numbered:
    SetMessageType(messageType, packet);
    SliceOfTail(old(packet[..]), old@numbered(packet[..]), SEQN_SIZE, SEQN_SIZE + TYPE_SIZE, packet.Length);
  }
}
