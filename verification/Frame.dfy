/** Received frames and the walk over their VLAN tags (dpdkx/detail/utils.hpp). */
module Frame {
  import opened Bits
  import opened Bytes

  const ETHER_HEADER: nat := 14
  const VLAN_HEADER: nat := 4
  const ETHER_TYPE_AT: nat := 12

  const TYPE_IPV4: U16 := 0x0800
  const TYPE_ARP: U16 := 0x0806
  const TYPE_VLAN: U16 := 0x8100
  const TYPE_QINQ: U16 := 0x88A8

  /** The mbuf field for the layer 2 length is 7 bits wide. */
  const L2_LEN_RANGE: nat := 128

  /** No offset the receive path computes from 7-bit l2_len, a 4-bit IHL and
      fixed header sizes reaches this far into the data room. */
  const DATA_ROOM: nat := 256

  /** A packet buffer: an identity, its data room, how many bytes of the room
      the NIC filled, and the layer lengths written by the receive path. */
  datatype Mbuf = Mbuf(id: nat, room: seq<Byte>, dataLen: nat, l2Len: nat, l3Len: nat, l4Len: nat, olFlags: U64) {
    predicate Valid() {
      DATA_ROOM <= |room| && dataLen <= |room|
    }

    /** The layer 2 length has been set and fits its field. */
    predicate Walked() {
      Valid() && 2 <= l2Len < L2_LEN_RANGE
    }
  }

  predicate IsTagType(t: U16) {
    t == TYPE_VLAN || t == TYPE_QINQ
  }

  predicate TagAt(m: Mbuf, offset: nat)
    requires offset + 2 <= |m.room|
  {
    IsTagType(Be16(m.room, offset))
  }

  /** In bytes: the tag types of 802.1Q and 802.1ad. */
  lemma TagInBytes(m: Mbuf, offset: nat)
    requires offset + 2 <= |m.room|
    ensures TagAt(m, offset) <==> m.room[offset..offset + 2] == [0x81, 0] || m.room[offset..offset + 2] == [0x88, 0xA8]
  {
    var high, low := m.room[offset], m.room[offset + 1];
    assert m.room[offset..offset + 2] == [high, low];
  }

  /** `eth_proto`: the two bytes in front of the recorded layer 2 length. */
  function EthProto(m: Mbuf): U16
    requires m.Walked()
  {
    Be16(m.room, m.l2Len - 2)
  }

  // ---- reference: the tag stack read recursively -------------------------

  datatype Parsed = Truncated | EtherType(etherType: U16, payloadAt: nat)

  /** Clause 9 of IEEE 802.1Q: skip four bytes per tag, stop at the first
      EtherType that is not one, look at no byte behind the frame's end. */
  function Parse(m: Mbuf, typeAt: nat): Parsed
    requires m.dataLen <= |m.room|
    decreases m.dataLen - typeAt
  {
    if typeAt + 2 > m.dataLen then Truncated
    else if TagAt(m, typeAt) then Parse(m, typeAt + VLAN_HEADER)
    else EtherType(Be16(m.room, typeAt), typeAt + 2)
  }

  // ---- the walk -----------------------------------------------------------

  /** l2_len after k rounds; the bit field wraps. */
  function L2After(k: nat): nat {
    (ETHER_HEADER + VLAN_HEADER * k) % L2_LEN_RANGE
  }

  /** Where the type inspected after k rounds was read. */
  function TypeAfter(k: nat): nat {
    if k == 0 then ETHER_TYPE_AT else L2After(k - 1) + 2
  }

  /** k rounds complete without the walk returning. */
  ghost predicate Survives(m: Mbuf, k: nat)
    requires m.Valid()
  {
    && ETHER_HEADER <= m.dataLen
    && forall j :: 0 <= j < k ==> TagAt(m, TypeAfter(j)) && L2After(j + 1) <= m.dataLen
  }

  /** Every type position the wrapped walk can visit holds a tag. */
  predicate EndlessTags(m: Mbuf)
    requires m.Valid()
  {
    126 <= m.dataLen && forall j :: 0 <= j < 32 ==> TagAt(m, TypeAfter(j))
  }

  /** The tag stack ends, or the frame does, before l2_len would wrap. */
  predicate StackFits(m: Mbuf)
    requires m.Valid()
  {
    m.dataLen < 126 || exists j :: 0 <= j < 29 && !TagAt(m, TypeAfter(j))
  }

  lemma WalkIsPeriodic(k: nat)
    ensures L2After(k + 32) == L2After(k)
    ensures TypeAfter(k + 32) == TypeAfter(k)
    ensures L2After(k) % 4 == 2
  {
    ShiftedL2(k);
    if k > 0 {
      ShiftedL2(k - 1);
    }
  }

  lemma ShiftedL2(k: nat)
    ensures L2After(k + 32) == L2After(k)
    ensures L2After(k) % 4 == 2
  {
    var x := ETHER_HEADER + VLAN_HEADER * k;
    var q, r := x / L2_LEN_RANGE, x % L2_LEN_RANGE;
    ModUnique(x + L2_LEN_RANGE, L2_LEN_RANGE, q + 1, r);
    ModUnique(r, 4, 3 + k - 32 * q, 2);
  }

  lemma NextL2(k: nat)
    ensures L2After(k + 1) == (L2After(k) + VLAN_HEADER) % L2_LEN_RANGE
    ensures TypeAfter(k + 1) == L2After(k) + 2
  {
    var x := ETHER_HEADER + VLAN_HEADER * k;
    var q, r := x / L2_LEN_RANGE, x % L2_LEN_RANGE;
    if r + VLAN_HEADER < L2_LEN_RANGE {
      ModUnique(x + VLAN_HEADER, L2_LEN_RANGE, q, r + VLAN_HEADER);
    } else {
      ModUnique(x + VLAN_HEADER, L2_LEN_RANGE, q + 1, r + VLAN_HEADER - L2_LEN_RANGE);
    }
  }

  lemma SurvivesOneMore(m: Mbuf, k: nat)
    requires m.Valid() && Survives(m, k)
    requires TagAt(m, TypeAfter(k)) && L2After(k + 1) <= m.dataLen
    ensures Survives(m, k + 1)
  {
  }

  lemma SurvivesAll(m: Mbuf)
    requires m.Valid() && Survives(m, 32)
    ensures EndlessTags(m)
  {
    assert TagAt(m, TypeAfter(27)) && L2After(27 + 1) <= m.dataLen;
  }

  /** The walk runs for ever exactly on the frames `EndlessTags` describes. */
  lemma EndlessExactly(m: Mbuf)
    requires m.Valid()
    ensures (forall k: nat :: Survives(m, k)) <==> EndlessTags(m)
  {
    if forall k: nat :: Survives(m, k) {
      SurvivesAll(m);
    }
    if EndlessTags(m) {
      forall k: nat
        ensures Survives(m, k)
      {
        forall j | 0 <= j < k
          ensures TagAt(m, TypeAfter(j)) && L2After(j + 1) <= m.dataLen
        {
          TagsRecur(m, j);
          WalkIsPeriodic(j + 1);
        }
      }
    }
  }

  lemma {:induction false} TagsRecur(m: Mbuf, j: nat)
    requires m.Valid() && EndlessTags(m)
    ensures TagAt(m, TypeAfter(j))
  {
    if j >= 32 {
      TagsRecur(m, j - 32);
      WalkIsPeriodic(j - 32);
    }
  }

  /** Before the wrap the walk stands where the recursive parser stands, and
      everything it has read lies inside the frame. */
  lemma {:induction false} SurvivesFollowsParse(m: Mbuf, k: nat)
    requires m.Valid() && Survives(m, k) && k <= 28
    ensures L2After(k) == ETHER_HEADER + VLAN_HEADER * k <= m.dataLen
    ensures TypeAfter(k) + 2 == L2After(k)
    ensures Parse(m, ETHER_TYPE_AT) == Parse(m, TypeAfter(k))
  {
    if k > 0 {
      assert TagAt(m, TypeAfter(k - 1)) && L2After(k - 1 + 1) <= m.dataLen;
      SurvivesFollowsParse(m, k - 1);
    }
  }

  /** A parser that has seen 29 tags is past every offset l2_len can hold. */
  lemma ParseBeyondField(m: Mbuf)
    requires m.Valid() && !StackFits(m)
    ensures var p := Parse(m, ETHER_TYPE_AT); p.Truncated? || p.payloadAt >= L2_LEN_RANGE
  {
    forall j | 0 <= j < 28
      ensures TagAt(m, TypeAfter(j)) && L2After(j + 1) <= m.dataLen
    {
    }
    SurvivesFollowsParse(m, 28);
    assert TagAt(m, TypeAfter(28));
    ParseMovesOn(m, TypeAfter(28) + VLAN_HEADER);
  }

  lemma {:induction false} ParseMovesOn(m: Mbuf, typeAt: nat)
    requires m.dataLen <= |m.room|
    ensures var p := Parse(m, typeAt); p.Truncated? || p.payloadAt >= typeAt + 2
    decreases m.dataLen - typeAt
  {
    if typeAt + 2 <= m.dataLen && TagAt(m, typeAt) {
      ParseMovesOn(m, typeAt + VLAN_HEADER);
    }
  }

  /** The length the walk leaves behind when it continues from round k; 32
      rounds visit every position. */
  function L2From(m: Mbuf, k: nat): (l2: nat)
    requires m.Valid() && k <= 32
    ensures l2 % 4 == 2 && l2 < L2_LEN_RANGE
    decreases 32 - k
  {
    ShiftedL2(k);
    ShiftedL2(k + 1);
    if k == 32 || !TagAt(m, TypeAfter(k)) then L2After(k)
    else if L2After(k + 1) > m.dataLen then L2After(k + 1)
    else L2From(m, k + 1)
  }

  function L2Walked(m: Mbuf): nat
    requires m.Valid()
  {
    if m.dataLen < ETHER_HEADER then ETHER_HEADER else L2From(m, 0)
  }

  /** What the walk reports: l2_len beyond the frame means truncated. */
  function Observed(m: Mbuf, proto: U16): Parsed {
    if m.l2Len > m.dataLen then Truncated else EtherType(proto, m.l2Len)
  }

  /** The walk stops after k rounds at a type that is not a tag. */
  lemma WalkStops(m: Mbuf, k: nat)
    requires m.Valid() && Survives(m, k) && k < 32 && !TagAt(m, TypeAfter(k))
    requires L2After(k) <= m.dataLen
    ensures EtherType(Be16(m.room, TypeAfter(k)), L2After(k)) == Parse(m, ETHER_TYPE_AT) <==> StackFits(m)
    ensures StackFits(m) ==> TypeAfter(k) + 2 == L2After(k)
  {
    if k <= 28 {
      SurvivesFollowsParse(m, k);
    } else {
      assert TagAt(m, TypeAfter(27)) && L2After(27 + 1) <= m.dataLen;
      assert forall j :: 0 <= j < 29 ==> TagAt(m, TypeAfter(j));
      ParseBeyondField(m);
    }
  }

  /** The walk runs out of frame in round k + 1. */
  lemma WalkTruncates(m: Mbuf, k: nat)
    requires m.Valid() && Survives(m, k) && k < 32 && TagAt(m, TypeAfter(k))
    requires L2After(k + 1) > m.dataLen
    ensures Parse(m, ETHER_TYPE_AT) == Truncated && StackFits(m)
  {
    if k <= 28 {
      SurvivesFollowsParse(m, k);
    } else {
      assert false;
    }
  }

  /** The walk after k rounds. */
  ghost predicate Walking(m: Mbuf, k: nat, l2: nat, proto: U16)
    requires m.Valid()
  {
    && Survives(m, k) && k < 32
    && l2 == L2After(k) <= m.dataLen
    && L2Walked(m) == L2From(m, k)
    && proto == Be16(m.room, TypeAfter(k))
  }

  /** The next round either ends the frame or goes on, and never to round 32. */
  lemma WalksOn(m: Mbuf, k: nat, l2: nat, proto: U16)
    requires m.Valid() && !EndlessTags(m) && Walking(m, k, l2, proto) && IsTagType(proto)
    ensures var l2' := (l2 + VLAN_HEADER) % L2_LEN_RANGE;
            if l2' > m.dataLen then L2Walked(m) == l2' && Parse(m, ETHER_TYPE_AT) == Truncated && StackFits(m)
            else k + 1 < 32 && Walking(m, k + 1, l2', Be16(m.room, l2 + 2))
  {
    NextL2(k);
    if L2After(k + 1) > m.dataLen {
      WalkTruncates(m, k);
    } else {
      SurvivesOneMore(m, k);
      if k + 1 == 32 {
        SurvivesAll(m);
        assert false;
      }
    }
  }

  lemma WalkEnds(m: Mbuf, k: nat, l2: nat, proto: U16)
    requires m.Valid() && Walking(m, k, l2, proto) && !IsTagType(proto)
    ensures var r := m.(l2Len := l2);
            && l2 == L2Walked(m) && r.Walked()
            && (Observed(r, proto) == Parse(m, ETHER_TYPE_AT) <==> StackFits(m))
            && (StackFits(m) ==> EthProto(r) == proto)
  {
    WalkLength(m, k, l2, proto);
    WalkAnswer(m, k);
  }

  lemma WalkLength(m: Mbuf, k: nat, l2: nat, proto: U16)
    requires m.Valid() && Walking(m, k, l2, proto) && !IsTagType(proto)
    ensures l2 == L2Walked(m) && m.(l2Len := l2).Walked()
  {
    hide Survives;
    L2Range(k);
  }

  lemma L2Range(k: nat)
    ensures 2 <= L2After(k) < L2_LEN_RANGE
  {
    ShiftedL2(k);
  }

  lemma WalkAnswer(m: Mbuf, k: nat)
    requires m.Valid() && Survives(m, k) && k < 32 && !TagAt(m, TypeAfter(k)) && 2 <= L2After(k) <= m.dataLen
    ensures var r, proto := m.(l2Len := L2After(k)), Be16(m.room, TypeAfter(k));
            && (Observed(r, proto) == Parse(m, ETHER_TYPE_AT) <==> StackFits(m))
            && (StackFits(m) ==> EthProto(r) == proto)
  {
    WalkStops(m, k);
  }

  /** `update_l2size`.  It ends on every frame that is not endless; its answer
      is the recursive parser's exactly when the tag stack fits the 7-bit field,
      and then a later `eth_proto` on an accepted frame gives the same type. */
  method UpdateL2Size(m: Mbuf) returns (r: Mbuf, proto: U16)
    requires m.Valid() && !EndlessTags(m)
    ensures r == m.(l2Len := L2Walked(m)) && r.Walked()
    ensures Observed(r, proto) == Parse(m, ETHER_TYPE_AT) <==> StackFits(m)
    ensures StackFits(m) && r.l2Len <= r.dataLen ==> EthProto(r) == proto && !IsTagType(proto)
    ensures r.l2Len > r.dataLen ==> proto == 0
  {
    var l2: nat := ETHER_HEADER;
    if l2 > m.dataLen {
      return m.(l2Len := l2), 0;
    }
    proto := Be16(m.room, ETHER_TYPE_AT);
    ghost var k := 0;
    while IsTagType(proto)
      invariant Walking(m, k, l2, proto)
      decreases 32 - k
    {
      WalksOn(m, k, l2, proto);
      var vlanHeader := l2;
      l2 := (l2 + VLAN_HEADER) % L2_LEN_RANGE;
      if l2 > m.dataLen {
        return m.(l2Len := l2), 0;
      }
      proto := Be16(m.room, vlanHeader + 2);
      k := k + 1;
    }
    WalkEnds(m, k, l2, proto);
    return m.(l2Len := l2), proto;
  }

  // ---- frames that do not fit -------------------------------------------------

  /** Tags wherever the walk can look up to the wrap of l2_len, and behind it the two
      bytes given. */
  function TaggedFrame(high: Byte, low: Byte): (m: Mbuf)
    ensures m.Valid()
  {
    Mbuf(0, seq(DATA_ROOM, i requires 0 <= i => if i == 128 then high else if i == 129 then low
                                                else if i % 4 == 0 then 0x81 else 0),
         126, 0, 0, 0, 0)
  }

  lemma TaggedBefore(high: Byte, low: Byte, j: nat)
    requires j < 29
    ensures TagAt(TaggedFrame(high, low), TypeAfter(j))
  {
    TypeBeforeWrap(j);
    var m, at := TaggedFrame(high, low), TypeAfter(j);
    assert at % 4 == 0 && at < 128;
    assert m.room[at] == 0x81 && m.room[at + 1] == 0;
  }

  lemma TypeBeforeWrap(j: nat)
    requires j < 29
    ensures TypeAfter(j) == 12 + 4 * j
  {
    if j > 0 {
      ModUnique(ETHER_HEADER + VLAN_HEADER * (j - 1), L2_LEN_RANGE, 0, ETHER_HEADER + VLAN_HEADER * (j - 1));
    }
  }

  /** The walk over a frame of nothing but tags never ends. */
  lemma SomeFrameIsEndless()
    ensures EndlessTags(TaggedFrame(0x81, 0)) && forall k: nat :: Survives(TaggedFrame(0x81, 0), k)
  {
    var m := TaggedFrame(0x81, 0);
    forall j | 0 <= j < 32
      ensures TagAt(m, TypeAfter(j))
    {
      if j < 29 {
        TaggedBefore(0x81, 0, j);
      } else {
        assert TypeAfter(29) == 128 && TypeAfter(30) == 4 && TypeAfter(31) == 8;
        assert m.room[4] == 0x81 && m.room[8] == 0x81 && m.room[128] == 0x81;
      }
    }
    EndlessExactly(m);
  }

  lemma {:induction false} WalkSkips(m: Mbuf, k: nat)
    requires m.Valid() && Survives(m, k) && k <= 32
    ensures L2From(m, 0) == L2From(m, k)
  {
    if k > 0 {
      WalkSkips(m, k - 1);
      assert TagAt(m, TypeAfter(k - 1)) && L2After(k - 1 + 1) <= m.dataLen;
    }
  }

  /** The same frame with IPv4 behind the wrap: the walk takes the two bytes behind
      the frame for its type and places the payload at offset 2, where the parser
      runs out of frame. */
  lemma SomeFrameIsMisread()
    ensures var m := TaggedFrame(8, 0);
            && !EndlessTags(m) && !StackFits(m)
            && L2Walked(m) == 2 && EtherType(TYPE_IPV4, 2) == Observed(m.(l2Len := L2Walked(m)), TYPE_IPV4)
            && Be16(m.room, TypeAfter(29)) == TYPE_IPV4 && Parse(m, ETHER_TYPE_AT) == Truncated
  {
    var m := TaggedFrame(8, 0);
    assert TypeAfter(29) == 128 && L2After(29) == 2;
    assert !TagAt(m, TypeAfter(29));
    forall j | 0 <= j < 29
      ensures TagAt(m, TypeAfter(j))
    {
      TaggedBefore(8, 0, j);
    }
    TaggedSurvives(8, 0, 28);
    TaggedSurvives(8, 0, 29);
    WalkSkips(m, 29);
    SurvivesFollowsParse(m, 28);
    assert TypeAfter(28) == 124;
  }

  lemma TaggedSurvives(high: Byte, low: Byte, k: nat)
    requires k <= 29
    ensures Survives(TaggedFrame(high, low), k)
  {
    forall j | 0 <= j < k
      ensures TagAt(TaggedFrame(high, low), TypeAfter(j)) && L2After(j + 1) <= 126
    {
      TaggedBefore(high, low, j);
      L2BeforeWrap(j);
    }
  }

  lemma L2BeforeWrap(j: nat)
    requires j < 29
    ensures L2After(j + 1) <= 126
  {
    ShiftedL2(j + 1);
  }
}
