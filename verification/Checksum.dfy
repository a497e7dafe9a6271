/** Internet checksums (section 2 of RFC 1071) and the incremental update the
    device applies when it turns an echo request into a reply (section 3 of
    RFC 1624).  16-bit words are loaded little-endian, as on the hosts the
    program runs on. */
module Checksum {
  import opened Bits
  import opened Bytes

  const ONES: int := 0xffff

  const ECHO_REQUEST: Byte := 8
  const ECHO_REPLY: Byte := 0

  function LoadWord(a: Byte, b: Byte): U16 {
    a as int + 256 * b as int
  }

  function StoreWord(w: U16): (s: seq<Byte>)
    ensures |s| == 2 && LoadWord(s[0], s[1]) == w
  {
    [w % 256, w / 256]
  }

  /** Plain sum of the 16-bit words; an odd last byte is padded with zero. */
  function WordSum(s: seq<Byte>): nat {
    if |s| == 0 then 0
    else if |s| == 1 then s[0]
    else LoadWord(s[0], s[1]) as int + WordSum(s[2..])
  }

  /** One end-around carry: (x & 0xffff) + (x >> 16). */
  function Fold(x: nat): nat {
    LowBits(x, 16) + ShiftRight(x, 16)
  }

  lemma FoldIs(x: nat)
    ensures Fold(x) == x % 0x1_0000 + x / 0x1_0000
  {
    hide LowBits, ShiftRight, Pow2;
    LowIsRemainder(x, 16);
    ShiftIsDivision(x, 16);
    Pow2Values();
  }

  /** Carries folded in until 16 bits are left. */
  function FoldAll(x: nat): nat {
    if x < 0x1_0000 then x
    else
      FoldIs(x);
      FoldAll(Fold(x))
  }

  /** The checksum that goes on the wire. */
  function Complement(x: int): int {
    ONES - x
  }

  /** A receiver accepts a message whose words, checksum included, sum to all ones. */
  predicate Accepted(message: seq<Byte>) {
    AllOnes(WordSum(message))
  }

  predicate AllOnes(x: nat) {
    FoldAll(x) == ONES
  }

  // ---- what folding computes ----------------------------------------------

  /** The end-around sum is the remainder by 2^16 - 1 taken in 1..2^16 - 1,
      except that zero stays zero. */
  lemma {:induction false} FoldAllIsRemainder(x: nat)
    ensures FoldAll(x) == if x == 0 then 0 else (x - 1) % ONES + 1
  {
    if x >= 0x1_0000 {
      var h, l := x / 0x1_0000, x % 0x1_0000;
      FoldIs(x);
      assert Fold(x) == h + l && x == ONES * h + (h + l);
      FoldAllIsRemainder(Fold(x));
      var q := (Fold(x) - 1) / ONES;
      ModUnique(x - 1, ONES, q + h, (Fold(x) - 1) % ONES);
    }
  }

  lemma FoldAllIsOnes(x: nat)
    ensures FoldAll(x) == ONES <==> x > 0 && x % ONES == 0
  {
    FoldAllIsRemainder(x);
    if x > 0 {
      DivisibleBefore(x);
    }
  }

  lemma DivisibleBefore(x: int)
    requires x > 0
    ensures (x - 1) % ONES + 1 == ONES <==> x % ONES == 0
  {
    var q, r := (x - 1) / ONES, (x - 1) % ONES;
    assert x - 1 == q * ONES + r;
    if r == ONES - 1 {
      ModUnique(x, ONES, q + 1, 0);
    } else {
      ModUnique(x, ONES, q, r + 1);
    }
  }

  /** One's-complement subtraction: if a + s is a multiple of 2^16 - 1, the
      remainder of a complements the end-around sum of s. */
  lemma ComplementOfSum(a: nat, s: nat)
    requires s > 0 && (a + s) % ONES == 0
    ensures a % ONES == Complement((s - 1) % ONES + 1)
  {
    var q, r := (s - 1) / ONES, (s - 1) % ONES;
    var k := (a + s) / ONES;
    assert s - 1 == q * ONES + r;
    assert a + s == k * ONES;
    ModUnique(a, ONES, k - q - 1, ONES - 1 - r);
  }

  lemma RemainderShift(a: nat, s: nat)
    ensures (a % ONES + s) % ONES == (a + s) % ONES
  {
    var q := a / ONES;
    var q', r' := (a % ONES + s) / ONES, (a % ONES + s) % ONES;
    assert a == q * ONES + a % ONES;
    assert a % ONES + s == q' * ONES + r';
    ModUnique(a + s, ONES, q + q', r');
  }

  lemma {:induction false} WordSumZero(s: seq<Byte>)
    ensures WordSum(s) == 0 <==> AllZero(s)
  {
    if |s| >= 2 {
      WordSumZero(s[2..]);
      assert forall i :: 2 <= i < |s| ==> s[i] == s[2..][i - 2];
      assert forall i :: 0 <= i < |s| - 2 ==> s[2..][i] == s[i + 2];
    }
  }

  /** An odd last byte counts as if a zero byte followed (section 4.1 of RFC 1071). */
  lemma {:induction false} OddByteIsPadded(s: seq<Byte>)
    requires |s| % 2 == 1
    ensures WordSum(s + [0]) == WordSum(s)
  {
    if |s| > 1 {
      assert (s + [0])[2..] == s[2..] + [0];
      OddByteIsPadded(s[2..]);
    } else {
      assert (s + [0])[2..] == [];
    }
  }

  lemma {:induction false} WordSumSplit(a: seq<Byte>, b: seq<Byte>)
    requires |a| % 2 == 0
    ensures WordSum(a + b) == WordSum(a) + WordSum(b)
  {
    if |a| == 0 {
      assert a + b == b;
    } else {
      WordSumSplit(a[2..], b);
      assert (a + b)[2..] == a[2..] + b;
    }
  }

  // ---- echo reply ---------------------------------------------------------

  /** Lines 545-550: the new checksum from the old one alone. */
  function EchoUpdate(cksum: U16): U16 {
    var sum0 := Complement(cksum);
    var sum1 := sum0 + Complement(LoadWord(ECHO_REQUEST, 0));
    var sum2 := sum1 + LoadWord(ECHO_REPLY, 0);
    TwoFolds(sum2);
    var sum3 := Fold(sum2);
    var sum4 := Fold(sum3);
    Complement(sum4)
  }

  /** Two folds bring the sum of two 16-bit words back to 16 bits. */
  lemma TwoFolds(x: nat)
    requires x <= 2 * ONES
    ensures Fold(Fold(x)) == if x <= ONES then x else x - ONES
  {
    hide Fold;
    var once := if x <= ONES then x else x - ONES;
    FoldIs(x);
    ModUnique(x, 0x1_0000, if x <= ONES then 0 else 1, if x <= ONES then x else x - 0x1_0000);
    FoldIs(once);
    ModUnique(once, 0x1_0000, 0, once);
  }

  /** An ICMP message of type `kind`, code 0. */
  function IcmpMessage(kind: Byte, cksum: U16, rest: seq<Byte>): seq<Byte> {
    [kind, 0] + StoreWord(cksum) + rest
  }

  /** The checksum computed over the message with a zeroed checksum field. */
  function Recomputed(kind: Byte, rest: seq<Byte>): int {
    Complement(FoldAll(WordSum(IcmpMessage(kind, 0, rest))))
  }

  predicate AllZero(s: seq<Byte>) {
    forall i :: 0 <= i < |s| ==> s[i] == 0
  }

  lemma IcmpSum(kind: Byte, cksum: U16, rest: seq<Byte>)
    ensures WordSum(IcmpMessage(kind, cksum, rest)) == kind as int + cksum as int + WordSum(rest)
  {
    var s := IcmpMessage(kind, cksum, rest);
    assert s[2..] == StoreWord(cksum) + rest;
    assert s[2..][2..] == rest;
  }

  /** The updated field in closed form: one's-complement subtraction of the
      type word, never the all-ones representation of zero. */
  lemma EchoUpdateValue(cksum: U16)
    ensures EchoUpdate(cksum) as int == (cksum as int + ECHO_REQUEST as int) % ONES
  {
    var sum := Complement(cksum) + Complement(ECHO_REQUEST as int);
    TwoFolds(sum);
    var asked := cksum as int + ECHO_REQUEST as int;
    if asked < ONES {
      ModUnique(asked, ONES, 0, asked);
    } else {
      ModUnique(asked, ONES, 1, asked - ONES);
    }
  }

  lemma FoldedMessage(kind: Byte, cksum: U16, rest: seq<Byte>)
    ensures FoldAll(WordSum(IcmpMessage(kind, cksum, rest)))
         == var sum := kind as int + cksum as int + WordSum(rest);
            if sum == 0 then 0 else (sum - 1) % ONES + 1
  {
    IcmpSum(kind, cksum, rest);
    FoldAllIsRemainder(kind as int + cksum as int + WordSum(rest));
  }

  lemma AcceptedRequestSum(cksum: U16, rest: seq<Byte>)
    ensures Accepted(IcmpMessage(ECHO_REQUEST, cksum, rest))
       <==> (cksum as int + ECHO_REQUEST as int + WordSum(rest)) % ONES == 0
  {
    IcmpSum(ECHO_REQUEST, cksum, rest);
    FoldAllIsOnes(cksum as int + ECHO_REQUEST as int + WordSum(rest));
  }

  /** For every request a receiver accepts, the incremental update equals the
      checksum recomputed over the reply exactly when some byte behind the
      checksum is not zero. */
  lemma EchoUpdateIsRecomputed(cksum: U16, rest: seq<Byte>)
    requires Accepted(IcmpMessage(ECHO_REQUEST, cksum, rest))
    ensures EchoUpdate(cksum) as int == Recomputed(ECHO_REPLY, rest) <==> !AllZero(rest)
  {
    hide EchoUpdate, FoldAll, WordSum, IcmpMessage;
    AcceptedRequestSum(cksum, rest);
    FoldedMessage(ECHO_REPLY, 0, rest);
    WordSumZero(rest);
    EchoUpdateValue(cksum);
    ComplementExactly(cksum as int + ECHO_REQUEST as int, WordSum(rest));
  }

  lemma ComplementExactly(a: nat, s: nat)
    requires (a + s) % ONES == 0
    ensures a % ONES == Complement(if s == 0 then 0 else (s - 1) % ONES + 1) <==> s > 0
  {
    if s > 0 {
      ComplementOfSum(a, s);
    }
  }

  /** The reply is accepted by its receiver exactly when the request was
      acceptable and not all bytes behind the checksum are zero: a damaged
      request never becomes a good reply. */
  lemma EchoReplyAccepted(cksum: U16, rest: seq<Byte>)
    ensures Accepted(IcmpMessage(ECHO_REPLY, EchoUpdate(cksum), rest))
       <==> Accepted(IcmpMessage(ECHO_REQUEST, cksum, rest)) && !AllZero(rest)
  {
    EchoUpdateValue(cksum);
    ReplyAccepted(cksum, EchoUpdate(cksum), rest);
  }

  lemma ReplyAccepted(cksum: U16, updated: U16, rest: seq<Byte>)
    requires updated == (cksum as int + ECHO_REQUEST as int) % ONES
    ensures Accepted(IcmpMessage(ECHO_REPLY, updated, rest))
       <==> Accepted(IcmpMessage(ECHO_REQUEST, cksum, rest)) && !AllZero(rest)
  {
    IcmpSum(ECHO_REQUEST, cksum, rest);
    IcmpSum(ECHO_REPLY, updated, rest);
    WordSumZero(rest);
    UpdatedSum(cksum, updated, WordSum(rest));
  }

  lemma UpdatedSum(cksum: U16, updated: U16, sum: nat)
    requires updated == (cksum as int + ECHO_REQUEST as int) % ONES
    ensures AllOnes(ECHO_REPLY as int + updated as int + sum)
       <==> AllOnes(ECHO_REQUEST as int + cksum as int + sum) && sum > 0
  {
    FoldAllIsOnes(updated as int + sum);
    FoldAllIsOnes(ECHO_REQUEST as int + cksum as int + sum);
    RemainderShift(cksum as int + ECHO_REQUEST as int, sum);
    if sum == 0 {
      ModUnique(updated as int, ONES, 0, updated as int);
    }
  }

  /** The excluded case does occur, for every length: an accepted request of zeros
      whose reply is not. */
  lemma AllZeroEchoIsRefused(rest: seq<Byte>)
    requires AllZero(rest)
    ensures Accepted(IcmpMessage(ECHO_REQUEST, 0xfff7, rest))
    ensures !Accepted(IcmpMessage(ECHO_REPLY, EchoUpdate(0xfff7), rest))
  {
    hide Accepted, IcmpMessage, EchoUpdate;
    WordSumZero(rest);
    AcceptedRequestSum(0xfff7, rest);
    EchoReplyAccepted(0xfff7, rest);
  }

  // ---- IPv4 header of the reply -------------------------------------------

  const SRC_ADDR: nat := 12
  const DST_ADDR: nat := 16
  const IP4_HEADER: nat := 20

  /** Lines 541-542: the sender becomes the destination, the device the source. */
  function TurnAround(header: seq<Byte>, own: seq<Byte>): (r: seq<Byte>)
    requires |header| >= IP4_HEADER && |own| == 4
    ensures |r| == |header|
  {
    header[..SRC_ADDR] + own + header[SRC_ADDR..DST_ADDR] + header[IP4_HEADER..]
  }

  /** Field by field: the source is the device, the destination who asked, and
      nothing else changes. */
  lemma TurnAroundFields(header: seq<Byte>, own: seq<Byte>)
    requires |header| >= IP4_HEADER && |own| == 4
    ensures var r := TurnAround(header, own);
            && r[..12] == header[..12] && r[12..16] == own && r[16..20] == header[12..16] && r[20..] == header[20..]
  {
  }

  lemma HeaderSum(header: seq<Byte>)
    requires |header| >= IP4_HEADER
    ensures WordSum(header) == WordSum(header[..SRC_ADDR]) + WordSum(header[SRC_ADDR..DST_ADDR])
                             + WordSum(header[DST_ADDR..IP4_HEADER]) + WordSum(header[IP4_HEADER..])
  {
    WordSumSplit(header[DST_ADDR..IP4_HEADER], header[IP4_HEADER..]);
    assert header[DST_ADDR..IP4_HEADER] + header[IP4_HEADER..] == header[DST_ADDR..];
    WordSumSplit(header[SRC_ADDR..DST_ADDR], header[DST_ADDR..]);
    assert header[SRC_ADDR..DST_ADDR] + header[DST_ADDR..] == header[SRC_ADDR..];
    WordSumSplit(header[..SRC_ADDR], header[SRC_ADDR..]);
    assert header[..SRC_ADDR] + header[SRC_ADDR..] == header;
  }

  /** The word sums are the same modulo 2^16 - 1. */
  predicate SumsAgree(a: seq<Byte>, b: seq<Byte>) {
    (WordSum(a) - WordSum(b)) % ONES == 0
  }

  /** The untouched header checksum stays valid exactly when the device's
      address and the address that was pinged have the same word sum modulo
      2^16 - 1; in particular whenever the request was sent to the device itself. */
  lemma TurnAroundKeepsHeaderValid(header: seq<Byte>, own: seq<Byte>)
    requires |header| >= IP4_HEADER && |own| == 4
    requires header[0] != 0
    requires Accepted(header)
    ensures Accepted(TurnAround(header, own))
       <==> SumsAgree(own, header[DST_ADDR..IP4_HEADER])
    ensures own == header[DST_ADDR..IP4_HEADER] ==> Accepted(TurnAround(header, own))
  {
    var turned := TurnAround(header, own);
    HeaderSum(header);
    HeaderSum(turned);
    assert turned[..SRC_ADDR] == header[..SRC_ADDR];
    assert turned[SRC_ADDR..DST_ADDR] == own;
    assert turned[DST_ADDR..IP4_HEADER] == header[SRC_ADDR..DST_ADDR];
    assert turned[IP4_HEADER..] == header[IP4_HEADER..];
    assert turned[0] == header[0];
    WordSumZero(turned);
    FoldAllIsOnes(WordSum(header));
    FoldAllIsOnes(WordSum(turned));
    DivisibleShift(WordSum(header), WordSum(own) - WordSum(header[DST_ADDR..IP4_HEADER]));
  }

  lemma DivisibleShift(a: int, b: int)
    requires a % ONES == 0
    ensures (a + b) % ONES == 0 <==> b % ONES == 0
  {
  }
}
