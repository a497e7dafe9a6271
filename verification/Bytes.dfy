/** Byte buffers, network-order integers and memcpy. */
module Bytes {

  type Byte = x: int | 0 <= x < 256
  type U16 = x: int | 0 <= x < 0x1_0000
  type U32 = x: int | 0 <= x < 0x1_0000_0000
  type U64 = x: int | 0 <= x < 0x1_0000_0000_0000_0000

  /** The value the k bytes of `s` hold, most significant byte first. */
  function FromBigEndian(s: seq<Byte>): nat
  {
    if |s| == 0 then 0 else 256 * FromBigEndian(s[..|s| - 1]) + s[|s| - 1]
  }

  /** `value` in exactly `k` bytes, most significant byte first; higher bits are cut off. */
  function BigEndian(value: nat, k: nat): (s: seq<Byte>)
    ensures |s| == k
  {
    if k == 0 then [] else BigEndian(value / 256, k - 1) + [value % 256]
  }

  function Pow256(k: nat): (p: nat)
    ensures p >= 1
  {
    if k == 0 then 1 else 256 * Pow256(k - 1)
  }

  lemma {:induction false} BigEndianRoundTrip(value: nat, k: nat)
    requires value < Pow256(k)
    ensures FromBigEndian(BigEndian(value, k)) == value
  {
    if k != 0 {
      BigEndianRoundTrip(value / 256, k - 1);
      assert BigEndian(value, k)[..k - 1] == BigEndian(value / 256, k - 1);
    }
  }

  /** `s` with `patch` written over it at `offset`. */
  function Splice(s: seq<Byte>, offset: nat, patch: seq<Byte>): (r: seq<Byte>)
    requires offset + |patch| <= |s|
    ensures |r| == |s|
  {
    seq(|s|, i requires 0 <= i < |s| => if offset <= i < offset + |patch| then patch[i - offset] else s[i])
  }

  lemma SpliceInside(s: seq<Byte>, offset: nat, patch: seq<Byte>)
    requires offset + |patch| <= |s|
    ensures Splice(s, offset, patch)[offset..offset + |patch|] == patch
    ensures Splice(s, offset, patch) == s[..offset] + patch + s[offset + |patch|..]
  {
  }

  lemma SpliceSlice(s: seq<Byte>, offset: nat, patch: seq<Byte>, from: nat, to: nat)
    requires from <= offset && offset + |patch| <= to <= |s|
    ensures Splice(s, offset, patch)[from..to] == s[from..offset] + patch + s[offset + |patch|..to]
  {
    var left, right := Splice(s, offset, patch)[from..to], s[from..offset] + patch + s[offset + |patch|..to];
    assert |left| == |right|;
    forall i | 0 <= i < |left|
      ensures left[i] == right[i]
    {
      assert left[i] == Splice(s, offset, patch)[from + i];
    }
  }

  /** Beside the patch nothing changes. */
  lemma SpliceOutside(s: seq<Byte>, offset: nat, patch: seq<Byte>, from: nat, to: nat)
    requires offset + |patch| <= |s| && from <= to <= |s| && (to <= offset || offset + |patch| <= from)
    ensures Splice(s, offset, patch)[from..to] == s[from..to]
    ensures from == 0 ==> Splice(s, offset, patch)[..to] == s[..to]
    ensures to == |s| ==> Splice(s, offset, patch)[from..] == s[from..]
  {
  }

  lemma SliceOfSlice(s: seq<Byte>, from: nat, to: nat, i: nat, j: nat)
    requires i <= j <= to - from && from <= to <= |s|
    ensures s[from..to][i..j] == s[from + i..from + j]
  {
    forall k | 0 <= k < j - i
      ensures s[from..to][i..j][k] == s[from + i..from + j][k]
    {
      assert s[from..to][i..j][k] == s[from..to][i + k];
    }
  }

  /** memcpy of `patch` into a buffer. */
  method Store(buffer: array<Byte>, offset: nat, patch: seq<Byte>)
    requires offset + |patch| <= buffer.Length
    modifies buffer
    ensures buffer[..] == Splice(old(buffer[..]), offset, patch)
  {
    ghost var before := buffer[..];
    for i := 0 to |patch|
      invariant forall j :: 0 <= j < i ==> buffer[offset + j] == patch[j]
      invariant forall j :: 0 <= j < buffer.Length && !(offset <= j < offset + i) ==> buffer[j] == before[j]
    {
      buffer[offset + i] := patch[i];
    }
    ghost var after := Splice(before, offset, patch);
    forall j | 0 <= j < buffer.Length
      ensures buffer[j] == after[j]
    {
      if offset <= j < offset + |patch| {
        assert buffer[offset + (j - offset)] == patch[j - offset];
      }
    }
  }

  lemma TwoBytes(value: U16)
    ensures BigEndian(value, 2) == [value / 256, value % 256]
  {
    assert BigEndian(value / 256, 1) == [value / 256];
  }

  /** Two bytes in network order. */
  function Be16(s: seq<Byte>, offset: nat): U16
    requires offset + 2 <= |s|
  {
    var high: int, low: int := s[offset], s[offset + 1];
    256 * high + low
  }
}
