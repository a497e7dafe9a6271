/** Sending a UDP payload as a chain of buffers (dpdkx/udptx_channel.cpp:35-137). */
module UdpTx {
  import opened Bits
  import opened Bytes
  import opened Service

  const HEADERS: nat := 42

  // ---- headers --------------------------------------------------------------------

  datatype Destination = Destination(mac: Mac, ip: Ip4, port: U16)

  /** What the device puts into every packet: its addresses and ports, the packet
      number, and the checksums the library computes. */
  datatype Source = Source(mac: Mac, ip: Ip4, port: U16, packetId: U16, ipChecksum: U16, udpChecksum: U16)

  function DatagramLength(payload: nat): U16 {
    (8 + payload) % 0x1_0000
  }

  function TotalLength(payload: nat): U16 {
    (20 + DatagramLength(payload)) % 0x1_0000
  }

  /** Ethernet, IPv4 and UDP header of a packet. */
  function Headers(src: Source, dst: Destination, payload: nat): (h: seq<Byte>)
    ensures |h| == HEADERS
  {
    EthernetHeader(src, dst) + Ip4Header(src, dst, payload) + UdpHeader(src, dst, payload)
  }

  function EthernetHeader(src: Source, dst: Destination): (h: seq<Byte>)
    ensures |h| == 14
  {
    dst.mac + src.mac + BigEndian(0x0800, 2)
  }

  function Ip4Header(src: Source, dst: Destination, payload: nat): (h: seq<Byte>)
    ensures |h| == 20
  {
    [0x45, 0] + BigEndian(TotalLength(payload), 2) + BigEndian(src.packetId, 2) + [0, 0, 64, 17]
    + BigEndian(src.ipChecksum, 2) + src.ip + dst.ip
  }

  function UdpHeader(src: Source, dst: Destination, payload: nat): (h: seq<Byte>)
    ensures |h| == 8
  {
    BigEndian(src.port, 2) + BigEndian(dst.port, 2) + BigEndian(DatagramLength(payload), 2)
    + BigEndian(src.udpChecksum, 2)
  }

  /** The headers in three parts. */
  lemma HeaderPlaces(src: Source, dst: Destination, payload: nat, i: nat, j: nat)
    requires i <= j
    ensures var h := Headers(src, dst, payload);
            && (j <= 14 ==> h[i..j] == EthernetHeader(src, dst)[i..j])
            && (j <= 20 ==> h[14 + i..14 + j] == Ip4Header(src, dst, payload)[i..j])
            && (j <= 8 ==> h[34 + i..34 + j] == UdpHeader(src, dst, payload)[i..j])
  {
    hide EthernetHeader, Ip4Header, UdpHeader;
  }

  lemma HeaderFields(src: Source, dst: Destination, payload: nat)
    ensures var h := Headers(src, dst, payload);
            h[16..18] == BigEndian(TotalLength(payload), 2) && h[38..40] == BigEndian(DatagramLength(payload), 2)
  {
    hide Headers, BigEndian, TotalLength, DatagramLength;
    HeaderPlaces(src, dst, payload, 2, 4);
    HeaderPlaces(src, dst, payload, 4, 6);
  }

  /** The length fields tell the truth exactly up to what 16 bits can say. */
  lemma LengthsAreTrue(src: Source, dst: Destination, payload: nat)
    ensures var h := Headers(src, dst, payload);
            && (FromBigEndian(h[16..18]) == 28 + payload <==> payload <= 65507)
            && (FromBigEndian(h[38..40]) == 8 + payload <==> payload <= 65527)
  {
    HeaderFields(src, dst, payload);
    FieldRoundTrip(TotalLength(payload));
    FieldRoundTrip(DatagramLength(payload));
    TotalIs(payload);
  }

  lemma FieldRoundTrip(value: U16)
    ensures FromBigEndian(BigEndian(value, 2)) == value
  {
    assert Pow256(2) == 0x1_0000 by {
      assert Pow256(1) == 256 * Pow256(0);
    }
    BigEndianRoundTrip(value, 2);
  }

  lemma TotalIs(payload: nat)
    ensures TotalLength(payload) == 28 + payload <==> payload <= 65507
    ensures DatagramLength(payload) == 8 + payload <==> payload <= 65527
  {
  }

  // ---- segmentation -----------------------------------------------------------------

  /** Buffers for `left` bytes, at least one. */
  function Pieces(left: nat, room: nat): (n: nat)
    requires room >= 1 || left == 0
    ensures n >= 1
  {
    if left <= room then 1 else 1 + Pieces(left - room, room)
  }

  /** Buffers for a whole packet. */
  function Needed(payload: nat, room: nat): nat
    requires room >= 1 || payload == 0
  {
    if HEADERS + payload <= room then 1 else 1 + Pieces(payload, room)
  }

  /** One buffer for a packet that fits, else one for the headers and as many as hold the
      payload. */
  lemma NeededIs(payload: nat, room: nat)
    requires room >= 1
    ensures Needed(payload, room)
         == if 42 + payload <= room then 1 else if payload == 0 then 2 else 1 + (payload + room - 1) / room
  {
    PiecesIs(payload, room);
  }

  lemma {:induction false} PiecesIs(left: nat, room: nat)
    requires room >= 1
    ensures Pieces(left, room) == if left == 0 then 1 else (left + room - 1) / room
  {
    if left > room {
      PiecesIs(left - room, room);
      var n, r := (left - 1) / room, (left - 1) % room;
      assert left + room - 1 == (n + 1) * room + r;
      ModUnique(left + room - 1, room, n + 1, r);
    } else if left > 0 {
      ModUnique(left + room - 1, room, 1, left - 1);
    }
  }

  /** What is left of the payload after k turns of the loop. */
  function LeftAfter(payload: nat, room: nat, k: nat): nat {
    if k == 0 then payload
    else
      var left := LeftAfter(payload, room, k - 1);
      if left > room then left - room else 0
  }

  lemma {:induction false} LeftIs(payload: nat, room: nat, k: nat)
    ensures LeftAfter(payload, room, k) == if payload > k * room then payload - k * room else 0
  {
    if k > 0 {
      LeftIs(payload, room, k - 1);
      assert k * room == (k - 1) * room + room;
    }
  }

  /** The loop has an end, however often buffers are granted, exactly if the
      buffers have room or there is nothing to send. */
  lemma LoopEndsExactly(payload: nat, room: nat)
    ensures (exists k :: k >= 1 && LeftAfter(payload, room, k) == 0) <==> room >= 1 || payload == 0
  {
    if room >= 1 {
      LeftIs(payload, room, payload + 1);
      assert (payload + 1) * room >= payload + 1;
    } else if payload == 0 {
      LeftIs(payload, room, 1);
    } else {
      forall k: nat
        ensures LeftAfter(payload, room, k) == payload
      {
        LeftIs(payload, room, k);
      }
    }
  }

  /** The bytes of all segments in order. */
  function Concat(segments: seq<seq<Byte>>): seq<Byte> {
    if |segments| == 0 then [] else Concat(segments[..|segments| - 1]) + segments[|segments| - 1]
  }

  function Total(segments: seq<seq<Byte>>): nat {
    if |segments| == 0 then 0 else Total(segments[..|segments| - 1]) + |segments[|segments| - 1]|
  }

  lemma {:induction false} ConcatLength(segments: seq<seq<Byte>>)
    ensures |Concat(segments)| == Total(segments)
  {
    if |segments| > 0 {
      ConcatLength(segments[..|segments| - 1]);
    }
  }

  lemma ConcatOneMore(segments: seq<seq<Byte>>, part: seq<Byte>)
    ensures Concat(segments + [part]) == Concat(segments) + part
  {
    assert (segments + [part])[..|segments|] == segments;
  }

  /** A packet within the limit of UDP needs no more segments than 16 bits count. */
  lemma {:induction false} SegmentsAreCounted(left: nat, room: nat)
    requires room >= 1
    ensures Pieces(left, room) <= left + 1
    decreases left
  {
    if left > room {
      SegmentsAreCounted(left - room, room);
    }
  }

  // ---- buffers -------------------------------------------------------------------------

  class Mbuf {
    var next: Mbuf?
    var data: seq<Byte>
    var dataLen: nat
    var nbSegs: U16
    var pktLen: U32

    constructor (room: nat)
      ensures next == null && |data| == room && dataLen == 0 && nbSegs == 1 && pktLen == 0
    {
      next, data, dataLen, nbSegs, pktLen := null, seq(room, _ => 0), 0, 1, 0;
    }
  }

  ghost predicate Holds(m: Mbuf, part: seq<Byte>)
    reads m`data, m`dataLen
  {
    m.dataLen == |part| <= |m.data| && m.data[..m.dataLen] == part
  }

  ghost predicate Filled(chain: seq<Mbuf>, segments: seq<seq<Byte>>)
    reads chain`data, chain`dataLen
  {
    |chain| == |segments| && forall i :: 0 <= i < |chain| ==> Holds(chain[i], segments[i])
  }

  ghost predicate Different(chain: seq<Mbuf>) {
    forall i, j :: 0 <= i < j < |chain| ==> chain[i] != chain[j]
  }

  ghost predicate Linked(chain: seq<Mbuf>)
    reads chain`next
  {
    forall i :: 0 <= i < |chain| ==> chain[i].next == At(chain, i + 1)
  }

  /** The buffers are linked in this order and hold these segments. */
  ghost predicate Chained(chain: seq<Mbuf>, segments: seq<seq<Byte>>)
    reads chain`next, chain`data, chain`dataLen
  {
    chain != [] && Different(chain) && Linked(chain) && Filled(chain, segments)
  }

  /** Buffer i of the chain, null behind its end. */
  ghost function At(chain: seq<Mbuf>, i: nat): Mbuf? {
    if i < |chain| then chain[i] else null
  }

  /** The two pools; grants(k) tells whether the k-th request is met. */
  class Pools {
    var asked: nat
    var out: set<Mbuf>
    const grants: nat -> bool

    constructor (grants: nat -> bool)
      ensures asked == 0 && out == {} && this.grants == grants
    {
      asked, out, this.grants := 0, {}, grants;
    }

    /** `rte_pktmbuf_alloc`. */
    method Alloc(room: nat) returns (m: Mbuf?)
      modifies this
      ensures asked == old(asked) + 1 && (m != null <==> grants(old(asked)))
      ensures m != null ==> fresh(m) && m.next == null && |m.data| == room && m.nbSegs == 1
      ensures out == if m != null then old(out) + {m} else old(out)
    {
      m := null;
      if grants(asked) {
        m := new Mbuf(room);
        out := out + {m};
      }
      asked := asked + 1;
    }

    /** `rte_pktmbuf_free`: the whole chain goes back. */
    method Free(head: Mbuf, ghost chain: seq<Mbuf>)
      requires Linked(chain) && chain != [] && chain[0] == head
      modifies this
      ensures asked == old(asked) && out == old(out) - Members(chain)
    {
      var m: Mbuf? := head;
      ghost var i := 0;
      while m != null
        invariant i <= |chain| && m == At(chain, i)
        invariant asked == old(asked) && out == old(out) - Members(chain[..i])
        decreases |chain| - i
      {
        MembersOneMore(chain, i);
        out := out - {m};
        m := m.next;
        i := i + 1;
      }
      assert chain[..i] == chain;
    }
  }

  ghost function Members(chain: seq<Mbuf>): set<Mbuf> {
    set m | m in chain
  }

  lemma MembersOneMore(chain: seq<Mbuf>, i: nat)
    requires i < |chain|
    ensures Members(chain[..i + 1]) == Members(chain[..i]) + {chain[i]}
  {
    assert chain[..i + 1] == chain[..i] + [chain[i]];
  }

  // ---- building the chain -----------------------------------------------------------------

  /** The chain of one packet, all of it taken from the pools since `was`. */
  ghost predicate Building(chain: seq<Mbuf>, segments: seq<seq<Byte>>, head: Mbuf, pools: Pools, was: set<Mbuf>)
    reads chain`next, chain`data, chain`dataLen, head`nbSegs, pools
  {
    && Chained(chain, segments) && head == chain[0]
    && head.nbSegs == Count16(|chain|)
    && Taken(pools.out, was, chain)
  }

  /** The buffers of the chain are out of the pools in addition to those out before. */
  ghost predicate Taken(out: set<Mbuf>, was: set<Mbuf>, chain: seq<Mbuf>) {
    Members(chain) !! was && out == was + Members(chain)
  }

  lemma TakenOneMore(out: set<Mbuf>, was: set<Mbuf>, chain: seq<Mbuf>, m: Mbuf)
    requires Taken(out, was, chain) && m !in out
    ensures m !in chain && Taken(out + {m}, was, chain + [m])
  {
    assert m in Members(chain) <==> m in chain;
    assert Members(chain + [m]) == Members(chain) + {m};
  }

  /** Lines 64-67: a new buffer takes the next part of the payload. The three
      writes are independent of each other. */
  method Append(head: Mbuf, last: Mbuf, m: Mbuf, part: seq<Byte>, ghost chain: seq<Mbuf>,
                ghost segments: seq<seq<Byte>>)
    requires Chained(chain, segments) && head == chain[0] && last == chain[|chain| - 1]
    requires head.nbSegs == Count16(|chain|)
    requires m !in chain && m.next == null && |part| <= |m.data|
    modifies head`nbSegs, last`next, m`data, m`dataLen
    ensures Chained(chain + [m], segments + [part])
    ensures head.nbSegs == Count16(|chain| + 1)
  {
    CountSegment(head, |chain|);
    Fill(m, part, chain, segments);
    Link(last, m, chain);
  }

  /** A number of segments in a 16-bit field. */
  function Count16(n: nat): U16 {
    n % 0x1_0000
  }

  method CountSegment(head: Mbuf, ghost n: nat)
    requires head.nbSegs == Count16(n)
    modifies head`nbSegs
    ensures head.nbSegs == Count16(n + 1)
  {
    head.nbSegs := (head.nbSegs + 1) % 0x1_0000;
  }

  method Link(last: Mbuf, m: Mbuf, ghost chain: seq<Mbuf>)
    requires chain != [] && Different(chain) && Linked(chain) && last == chain[|chain| - 1]
    requires m !in chain && m.next == null
    modifies last`next
    ensures Different(chain + [m]) && Linked(chain + [m])
  {
    last.next := m;
  }

  method Fill(m: Mbuf, part: seq<Byte>, ghost chain: seq<Mbuf>, ghost segments: seq<seq<Byte>>)
    requires |part| <= |m.data| && Filled(chain, segments) && m !in chain
    modifies m`dataLen, m`data
    ensures Filled(chain + [m], segments + [part])
  {
    m.dataLen := |part|;
    m.data := part + m.data[|part|..];
  }

  /** A packet given up leaves nothing out of the pools. */
  method Abandon(pools: Pools, head: Mbuf, ghost chain: seq<Mbuf>, ghost segments: seq<seq<Byte>>, ghost was: set<Mbuf>)
    requires Building(chain, segments, head, pools, was)
    modifies pools
    ensures pools.out == was && pools.asked == old(pools.asked)
  {
    pools.Free(head, chain);
  }

  /** One turn of the loop: null if the pool is empty. */
  method Extend(pools: Pools, head: Mbuf, last: Mbuf, part: seq<Byte>, room: nat,
                ghost chain: seq<Mbuf>, ghost segments: seq<seq<Byte>>, ghost was: set<Mbuf>)
    returns (m: Mbuf?)
    requires Building(chain, segments, head, pools, was) && last == chain[|chain| - 1] && |part| <= room
    modifies pools, head`nbSegs, last`next
    ensures pools.asked == old(pools.asked) + 1 && (m != null <==> pools.grants(old(pools.asked)))
    ensures m == null ==> Building(chain, segments, head, pools, was)
    ensures m != null ==> fresh(m) && Building(chain + [m], segments + [part], head, pools, was)
  {
    m := pools.Alloc(room);
    assert Chained(chain, segments);
    if m == null {
      return;
    }
    TakenOneMore(old(pools.out), was, chain, m);
    Append(head, last, m, part, chain, segments);
  }

  /** How far the loop has come: `sent` bytes of the payload behind the header
      segment, and what is still needed. */
  ghost predicate Midway(segments: seq<seq<Byte>>, header: seq<Byte>, payload: seq<Byte>, sent: nat, room: nat,
                         more: bool)
    requires room >= 1 || payload == []
  {
    && |segments| >= 1 && segments[0] == header && sent <= |payload|
    && Concat(segments) == header + payload[..sent]
    && (!more ==> sent == |payload|)
    && |segments| - 1 + (if more then Pieces(|payload| - sent, room) else 0) == Pieces(|payload|, room)
  }

  function Part(payload: seq<Byte>, sent: nat, room: nat): (r: seq<Byte>)
    requires sent <= |payload|
    ensures |r| <= room && sent + |r| <= |payload|
  {
    payload[sent..sent + if |payload| - sent > room then room else |payload| - sent]
  }

  lemma PartJoins(payload: seq<Byte>, sent: nat, room: nat)
    requires sent <= |payload|
    ensures var part := Part(payload, sent, room);
            payload[..sent] + part == payload[..sent + |part|]
  {
  }

  lemma OnePart(segments: seq<seq<Byte>>, header: seq<Byte>, payload: seq<Byte>, sent: nat, room: nat)
    requires room >= 1 || payload == []
    requires Midway(segments, header, payload, sent, room, true)
    ensures var part := Part(payload, sent, room);
            var sent' := sent + |part|;
            && Midway(segments + [part], header, payload, sent', room, sent' != |payload|)
            && (sent' == |payload| || sent' > sent)
  {
    var part := Part(payload, sent, room);
    ConcatOneMore(segments, part);
    PartJoins(payload, sent, room);
    assert header + payload[..sent] + part == header + (payload[..sent] + part);
  }

  /** All of the loop's progress that lies outside the buffers: `asked` requests
      met since `from`, one segment each. */
  ghost predicate Advanced(segments: seq<seq<Byte>>, header: seq<Byte>, payload: seq<Byte>, left: nat, room: nat,
                           more: bool,
                           grants: nat -> bool, from: nat, asked: nat)
    requires room >= 1 || payload == []
  {
    && left <= |payload| && Midway(segments, header, payload, |payload| - left, room, more)
    && asked == from + |segments| - 1 && Granted(grants, from, |segments| - 1)
  }

  lemma AdvancesOn(segments: seq<seq<Byte>>, header: seq<Byte>, payload: seq<Byte>, left: nat, room: nat,
                   grants: nat -> bool, from: nat, asked: nat)
    requires room >= 1 || payload == []
    requires Advanced(segments, header, payload, left, room, true, grants, from, asked) && grants(asked)
    ensures var part := Part(payload, |payload| - left, room);
            var left' := left - |part|;
            && Advanced(segments + [part], header, payload, left', room, left' != 0, grants, from, asked + 1)
            && (left' == 0 || left' < left)
  {
    OnePart(segments, header, payload, |payload| - left, room);
  }

  lemma PoolIsEmpty(segments: seq<seq<Byte>>, header: seq<Byte>, payload: seq<Byte>, left: nat, room: nat,
                    grants: nat -> bool, from: nat, asked: nat)
    requires room >= 1 || payload == []
    requires Advanced(segments, header, payload, left, room, true, grants, from, asked) && !grants(asked)
    ensures !Granted(grants, from, Pieces(|payload|, room))
  {
  }

  /** Lines 59-70: one turn, with the way out when a pool is empty. */
  method Turn(pools: Pools, head: Mbuf, last: Mbuf, payload: seq<Byte>, left: nat, room: nat, ghost header: seq<Byte>,
              ghost chain: seq<Mbuf>, ghost segments: seq<seq<Byte>>, ghost was: set<Mbuf>, ghost from: nat)
    returns (m: Mbuf?, left': nat, ghost chain': seq<Mbuf>, ghost segments': seq<seq<Byte>>)
    requires room >= 1 || payload == []
    requires Building(chain, segments, head, pools, was) && last == chain[|chain| - 1]
    requires Advanced(segments, header, payload, left, room, true, pools.grants, from, pools.asked)
    modifies pools, head`nbSegs, last`next
    ensures m == null ==> pools.out == was && !Granted(pools.grants, from, Pieces(|payload|, room))
    ensures m != null ==> fresh(m) && Building(chain', segments', head, pools, was) && m == chain'[|chain'| - 1]
    ensures m != null ==> Advanced(segments', header, payload, left', room, left' != 0, pools.grants, from, pools.asked)
    ensures m != null ==> left' == 0 || left' < left
  {
    var part := Part(payload, |payload| - left, room);
    ghost var asked := pools.asked;
    m := Extend(pools, head, last, part, room, chain, segments, was);
    left', chain', segments' := left - |part|, chain, segments + [part];
    if m == null {
      PoolIsEmpty(segments, header, payload, left, room, pools.grants, from, asked);
      Abandon(pools, head, chain, segments, was);
    } else {
      AdvancesOn(segments, header, payload, left, room, pools.grants, from, asked);
      chain' := chain + [m];
    }
  }

  /** Lines 57-70: the payload goes into buffers behind the head. */
  method Scatter(pools: Pools, head: Mbuf, payload: seq<Byte>, room: nat, ghost header: seq<Byte>, ghost was: set<Mbuf>)
    returns (ok: bool, ghost chain: seq<Mbuf>, ghost segments: seq<seq<Byte>>)
    requires room >= 1 || payload == []
    requires Building([head], [header], head, pools, was)
    modifies pools, head`nbSegs, head`next
    ensures ok <==> Granted(pools.grants, old(pools.asked), Pieces(|payload|, room))
    ensures ok ==> Building(chain, segments, head, pools, was) && Concat(segments) == header + payload
                   && |segments| == 1 + Pieces(|payload|, room) && segments[0] == header
    ensures !ok ==> pools.out == was
  {
    var last, left, more := head, |payload|, true;
    chain, segments := [head], [header];
    MidwayBegins(header, payload, room);
    ghost var from := pools.asked;
    while more
      invariant 0 <= left && (last == head || fresh(last))
      invariant Building(chain, segments, head, pools, was) && last == chain[|chain| - 1]
      invariant Advanced(segments, header, payload, left, room, more, pools.grants, from, pools.asked)
      decreases left + if more then 1 else 0
    {
      var m;
      m, left, chain, segments := Turn(pools, head, last, payload, left, room, header, chain, segments, was, from);
      if m == null {
        return false, chain, segments;
      }
      last, more := m, left != 0;
    }
    assert payload[..|payload|] == payload;
    ok := true;
  }

  /** n requests from the k-th on are met. */
  ghost predicate Granted(grants: nat -> bool, k: nat, n: nat) {
    forall i :: k <= i < k + n ==> grants(i)
  }

  lemma MidwayBegins(header: seq<Byte>, payload: seq<Byte>, room: nat)
    requires room >= 1 || payload == []
    ensures Midway([header], header, payload, 0, room, true)
  {
    assert [header] == [] + [header];
    ConcatOneMore([], header);
    assert payload[..0] == [];
  }

  // ---- the whole packet --------------------------------------------------------------------

  const HEADER_ROOM: nat := 128

  /** A single buffer just taken from its pool. */
  lemma SingleBuilding(head: Mbuf, header: seq<Byte>, pools: Pools, was: set<Mbuf>)
    requires head.next == null && Holds(head, header) && head.nbSegs == 1
    requires head !in was && pools.out == was + {head}
    ensures Building([head], [header], head, pools, was)
  {
    assert Members([head]) == {head};
  }

  /** What lines 47-79 leave behind, with `needed` buffers asked for. */
  ghost predicate Gathered(head: Mbuf?, chain: seq<Mbuf>, segments: seq<seq<Byte>>, payload: seq<Byte>,
                           needed: nat, pools: Pools, was: set<Mbuf>)
    reads chain`next, chain`data, chain`dataLen, if head != null then {head} else {}, pools
  {
    if head == null then pools.out == was
    else Building(chain, segments, head, pools, was) && |segments| == needed && WithHeadroom(segments, payload)
  }

  /** Lines 71-79: headers and payload in one buffer. */
  method GatherOne(pools: Pools, payload: seq<Byte>, room: nat)
    returns (head: Mbuf?, ghost chain: seq<Mbuf>, ghost segments: seq<seq<Byte>>)
    requires HEADERS + |payload| <= room
    modifies pools
    ensures head != null ==> fresh(head)
    ensures head != null <==> Granted(pools.grants, old(pools.asked), 1)
    ensures Gathered(head, chain, segments, payload, 1, pools, old(pools.out))
  {
    chain, segments := [], [];
    head := pools.Alloc(room);
    if head != null {
      head.data := head.data[..HEADERS] + payload + head.data[HEADERS + |payload|..];
      head.dataLen := HEADERS + |payload|;
      chain, segments := [head], [head.data[..head.dataLen]];
      SingleBuilding(head, segments[0], pools, old(pools.out));
      ConcatOneMore([], segments[0]);
      assert [] + segments == segments;
    }
  }

  /** Lines 48-70: the headers in a buffer of their own. */
  method GatherMany(pools: Pools, payload: seq<Byte>, room: nat)
    returns (head: Mbuf?, ghost chain: seq<Mbuf>, ghost segments: seq<seq<Byte>>)
    requires room >= 1 || payload == []
    modifies pools
    ensures head != null ==> fresh(head)
    ensures head != null <==> Granted(pools.grants, old(pools.asked), 1 + Pieces(|payload|, room))
    ensures Gathered(head, chain, segments, payload, 1 + Pieces(|payload|, room), pools, old(pools.out))
  {
    chain, segments := [], [];
    head := pools.Alloc(HEADER_ROOM);
    GrantedOneMore(pools.grants, old(pools.asked), Pieces(|payload|, room));
    if head != null {
      head.dataLen := HEADERS;
      ghost var header := head.data[..HEADERS];
      SingleBuilding(head, header, pools, old(pools.out));
      var ok;
      ok, chain, segments := Scatter(pools, head, payload, room, header, old(pools.out));
      if !ok {
        return null, chain, segments;
      }
      FromInside(header, payload, HEADERS);
    }
  }

  /** Lines 47-79: null if some buffer cannot be had, and then none is kept. */
  method Gather(pools: Pools, payload: seq<Byte>, room: nat)
    returns (head: Mbuf?, ghost chain: seq<Mbuf>, ghost segments: seq<seq<Byte>>)
    requires room >= 1 || payload == []
    modifies pools
    ensures head != null ==> fresh(head)
    ensures head != null <==> Granted(pools.grants, old(pools.asked), Needed(|payload|, room))
    ensures Gathered(head, chain, segments, payload, Needed(|payload|, room), pools, old(pools.out))
  {
    if room < HEADERS + |payload| {
      head, chain, segments := GatherMany(pools, payload, room);
    } else {
      head, chain, segments := GatherOne(pools, payload, room);
    }
  }

  /** The first segment has the headers' place in front, the payload follows. */
  ghost predicate WithHeadroom(segments: seq<seq<Byte>>, payload: seq<Byte>) {
    && |segments| >= 1 && |segments[0]| >= HEADERS
    && |Concat(segments)| >= HEADERS && Concat(segments)[HEADERS..] == payload
  }

  lemma GrantedOneMore(grants: nat -> bool, k: nat, n: nat)
    ensures Granted(grants, k, 1 + n) <==> grants(k) && Granted(grants, k + 1, n)
  {
  }

  lemma {:induction false} HeadReplaced(segments: seq<seq<Byte>>, x: seq<Byte>)
    requires |segments| >= 1 && |x| == |segments[0]|
    ensures |Concat(segments)| >= |x| && Concat(segments[0 := x]) == x + Concat(segments)[|x|..]
  {
    var n := |segments| - 1;
    var replaced := segments[0 := x];
    if n == 0 {
      assert segments[..0] == [] && replaced[..0] == [];
    } else {
      HeadReplaced(segments[..n], x);
      assert replaced[..n] == segments[..n][0 := x];
      FromInside(Concat(segments[..n]), segments[n], |x|);
      JoinedInOrder(x, Concat(segments[..n])[|x|..], segments[n]);
    }
  }

  lemma FromInside(a: seq<Byte>, b: seq<Byte>, k: nat)
    requires k <= |a|
    ensures (a + b)[k..] == a[k..] + b
  {
  }

  lemma JoinedInOrder(a: seq<Byte>, b: seq<Byte>, c: seq<Byte>)
    ensures (a + b) + c == a + (b + c)
  {
  }

  /** The first segment with the headers written over its beginning. */
  function Headed(segment: seq<Byte>, headers: seq<Byte>): (r: seq<Byte>)
    requires |headers| <= |segment|
    ensures |r| == |segment|
  {
    headers + segment[|headers|..]
  }

  lemma HeadersWritten(segments: seq<seq<Byte>>, headers: seq<Byte>, payload: seq<Byte>)
    requires WithHeadroom(segments, payload) && |headers| == HEADERS
    ensures Concat(segments[0 := Headed(segments[0], headers)]) == headers + payload
  {
    var first, all := segments[0], Concat(segments);
    HeadReplaced(segments, first);
    assert segments[0 := first] == segments;
    HeadReplaced(segments, Headed(first, headers));
    assert all == first + all[|first|..];
    assert all[HEADERS..] == first[HEADERS..] + all[|first|..];
    assert Headed(first, headers) + all[|first|..] == headers + (first[HEADERS..] + all[|first|..]);
  }

  /** Lines 80-113: the headers go into the first segment. */
  method WriteHeaders(head: Mbuf, headers: seq<Byte>, payload: seq<Byte>, pools: Pools, ghost chain: seq<Mbuf>,
                      ghost segments: seq<seq<Byte>>, ghost was: set<Mbuf>)
    returns (ghost segments': seq<seq<Byte>>)
    requires Building(chain, segments, head, pools, was) && WithHeadroom(segments, payload) && |headers| == HEADERS
    modifies head`data, head`pktLen
    ensures Building(chain, segments', head, pools, was)
    ensures Concat(segments') == headers + payload
    ensures head.pktLen == (HEADERS + |payload|) % 0x1_0000_0000
  {
    assert Holds(chain[0], segments[0]);
    HeadersWritten(segments, headers, payload);
    segments' := segments[0 := Headed(segments[0], headers)];
    head.data := headers + head.data[|headers|..];
    assert Holds(head, Headed(segments[0], headers));
    head.pktLen := (14 + 20 + 8 + |payload|) % 0x1_0000_0000;
  }

  class Ring {
    var entries: seq<Mbuf>

    constructor ()
      ensures entries == []
    {
      entries := [];
    }

    method Enqueue(m: Mbuf, accepted: bool) returns (ok: bool)
      modifies this
      ensures ok == accepted && entries == if ok then old(entries) + [m] else old(entries)
    {
      ok := accepted;
      if ok {
        entries := entries + [m];
      }
    }
  }

  /** `updtx_channel::send`. A packet in the ring is a chain whose segments join to
      the headers and the payload; a packet that is not sent leaves no buffer out. */
  method Send(pools: Pools, ring: Ring, room: U16, src: Source, dst: Destination, payload: seq<Byte>, accepted: bool)
    returns (ok: bool, ghost chain: seq<Mbuf>, ghost segments: seq<seq<Byte>>)
    requires room >= 1 || payload == []
    modifies pools, ring
    ensures ok <==> Granted(pools.grants, old(pools.asked), Needed(|payload|, room)) && accepted
    ensures !ok ==> ring.entries == old(ring.entries) && pools.out == old(pools.out)
    ensures ok ==> Sent(pools, ring, room, Headers(src, dst, |payload|), payload, chain, segments,
                        old(pools.out), old(ring.entries))
  {
    var head;
    head, chain, segments := Gather(pools, payload, room);
    if head == null {
      return false, chain, segments;
    }
    segments := WriteHeaders(head, Headers(src, dst, |payload|), payload, pools, chain, segments, old(pools.out));
    ok := ring.Enqueue(head, accepted);
    if !ok {
      Abandon(pools, head, chain, segments, old(pools.out));
    }
  }

  /** What a sent packet looks like. */
  ghost predicate Sent(pools: Pools, ring: Ring, room: nat, headers: seq<Byte>, payload: seq<Byte>, chain: seq<Mbuf>,
                       segments: seq<seq<Byte>>, out: set<Mbuf>, entries: seq<Mbuf>)
    requires room >= 1 || payload == []
    reads chain, pools, ring
  {
    && |chain| == Needed(|payload|, room) && Building(chain, segments, chain[0], pools, out)
    && Concat(segments) == headers + payload
    && chain[0].pktLen == (HEADERS + |payload|) % 0x1_0000_0000
    && ring.entries == entries + [chain[0]]
  }

  /** The packet's own length fields, read back from its bytes. */
  lemma PacketTellsTruth(src: Source, dst: Destination, payload: seq<Byte>)
    requires |payload| <= 65507
    ensures var packet := Headers(src, dst, |payload|) + payload;
            && packet[HEADERS..] == payload
            && FromBigEndian(packet[16..18]) == |packet| - 14 && FromBigEndian(packet[38..40]) == |packet| - 34
  {
    LengthsAreTrue(src, dst, |payload|);
    var h := Headers(src, dst, |payload|);
    assert (h + payload)[16..18] == h[16..18] && (h + payload)[38..40] == h[38..40];
  }

  /** A 16-bit field reads back. */
  lemma FieldReads(packet: seq<Byte>, offset: nat, value: U16)
    requires offset + 2 <= |packet| && packet[offset..offset + 2] == BigEndian(value, 2)
    ensures Be16(packet, offset) == value
  {
    TwoBytes(value);
    assert packet[offset] == packet[offset..offset + 2][0] && packet[offset + 1] == packet[offset..offset + 2][1];
  }

  /** Every field but the lengths. */
  lemma HeadersAre(src: Source, dst: Destination, payload: nat)
    ensures var h := Headers(src, dst, payload);
            && h[0..6] == dst.mac && h[6..12] == src.mac && h[12..14] == BigEndian(0x0800, 2)
            && h[14..16] == [0x45, 0] && h[18..20] == BigEndian(src.packetId, 2) && h[20..24] == [0, 0, 64, 17]
            && h[24..26] == BigEndian(src.ipChecksum, 2) && h[26..30] == src.ip && h[30..34] == dst.ip
            && h[34..36] == BigEndian(src.port, 2) && h[36..38] == BigEndian(dst.port, 2)
            && h[40..42] == BigEndian(src.udpChecksum, 2)
  {
    hide Headers, EthernetHeader, Ip4Header, UdpHeader;
    EthernetFields(src, dst);
    Ip4Fields(src, dst, payload);
    UdpFields(src, dst, payload);
    HeaderPlaces(src, dst, payload, 0, 6);
    HeaderPlaces(src, dst, payload, 6, 12);
    HeaderPlaces(src, dst, payload, 12, 14);
    HeaderPlaces(src, dst, payload, 0, 2);
    HeaderPlaces(src, dst, payload, 2, 4);
    HeaderPlaces(src, dst, payload, 4, 6);
    HeaderPlaces(src, dst, payload, 6, 10);
    HeaderPlaces(src, dst, payload, 10, 12);
    HeaderPlaces(src, dst, payload, 12, 16);
    HeaderPlaces(src, dst, payload, 16, 20);
    HeaderPlaces(src, dst, payload, 6, 8);
  }

  lemma EthernetFields(src: Source, dst: Destination)
    ensures var h := EthernetHeader(src, dst);
            h[0..6] == dst.mac && h[6..12] == src.mac && h[12..14] == BigEndian(0x0800, 2)
  {
    hide BigEndian;
  }

  lemma Ip4Fields(src: Source, dst: Destination, payload: nat)
    ensures var h := Ip4Header(src, dst, payload);
            && h[0..2] == [0x45, 0] && h[4..6] == BigEndian(src.packetId, 2) && h[6..10] == [0, 0, 64, 17]
            && h[10..12] == BigEndian(src.ipChecksum, 2) && h[12..16] == src.ip && h[16..20] == dst.ip
  {
    hide BigEndian, TotalLength;
  }

  lemma UdpFields(src: Source, dst: Destination, payload: nat)
    ensures var h := UdpHeader(src, dst, payload);
            && h[0..2] == BigEndian(src.port, 2) && h[2..4] == BigEndian(dst.port, 2)
            && h[6..8] == BigEndian(src.udpChecksum, 2)
  {
    hide BigEndian, DatagramLength;
  }

  /** Every header field of the joined packet, byte by byte, but for the lengths:
      from the device, by all its addresses, to the destination. */
  lemma PacketFields(src: Source, dst: Destination, payload: seq<Byte>)
    ensures var p := Headers(src, dst, |payload|) + payload;
            && p[0..6] == dst.mac && p[6..12] == src.mac && p[12] == 8 && p[13] == 0
            && p[14] == 0x45 && p[15] == 0 && Be16(p, 18) == src.packetId && p[20] == 0 && p[21] == 0
            && p[22] == 64 && p[23] == 17 && Be16(p, 24) == src.ipChecksum
            && p[26..30] == src.ip && p[30..34] == dst.ip
            && Be16(p, 34) == src.port && Be16(p, 36) == dst.port && Be16(p, 40) == src.udpChecksum
            && p[42..] == payload
  {
    var h := Headers(src, dst, |payload|);
    var p := h + payload;
    HeadersAre(src, dst, |payload|);
    hide Headers, BigEndian;
    assert forall i, j :: 0 <= i <= j <= 42 ==> p[i..j] == h[i..j];
    TwoBytes(0x0800);
    assert p[12] == h[12..14][0] && p[13] == h[12..14][1] && p[14] == h[14..16][0] && p[15] == h[14..16][1];
    assert p[20] == h[20..24][0] && p[21] == h[20..24][1] && p[22] == h[20..24][2] && p[23] == h[20..24][3];
    FieldReads(p, 18, src.packetId);
    FieldReads(p, 24, src.ipChecksum);
    FieldReads(p, 34, src.port);
    FieldReads(p, 36, dst.port);
    FieldReads(p, 40, src.udpChecksum);
  }

  /** Up to the limit of UDP the counters of the first buffer tell the truth. */
  lemma SentTellsTruth(pools: Pools, ring: Ring, room: nat, headers: seq<Byte>, payload: seq<Byte>, chain: seq<Mbuf>,
                       segments: seq<seq<Byte>>, out: set<Mbuf>, entries: seq<Mbuf>)
    requires room >= 1 && |payload| <= 65507 && |headers| == HEADERS
    requires Sent(pools, ring, room, headers, payload, chain, segments, out, entries)
    ensures chain[0].nbSegs == |chain|
    ensures chain[0].pktLen == Total(segments) == HEADERS + |payload|
  {
    SegmentsAreCounted(|payload|, room);
    ConcatLength(segments);
  }
}
