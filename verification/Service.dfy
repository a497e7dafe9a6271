/** What the device does with a frame no channel wants: it learns from ARP and
    answers ARP requests and echo requests in place (dpdkx/device.cpp:499-607). */
module Service {
  import opened Bits
  import opened Bytes
  import opened Checksum
  import opened Collections
  import opened Frame

  const PROTO_ICMP: Byte := 1
  const ICMP_HEADER: nat := 8
  const ARP_HEADER: nat := 28
  const ARP_HRD_ETHER: U16 := 1
  const ARP_REQUEST: U16 := 1
  const ARP_REPLY: U16 := 2

  /** RTE_MBUF_F_TX_IPV4 | RTE_MBUF_F_TX_IP_CKSUM: the NIC is to fill in the
      IPv4 header checksum. */
  const TX_IP_CHECKSUM: U64 := 0x00C0_0000_0000_0000

  type Mac = s: seq<Byte> | |s| == 6 witness [0, 0, 0, 0, 0, 0]
  type Ip4 = s: seq<Byte> | |s| == 4 witness [0, 0, 0, 0]

  datatype Config = Config(mac: Mac, ip: Ip4, icmp: bool, arpTable: bool, ipCksumOffload: bool)

  /** `rte_ipv4_hdr_len` of the header behind the layer 2 header. */
  function Ip4HeaderLen(m: Mbuf): (l3: nat)
    requires m.Walked()
    ensures l3 <= 60
  {
    var versionIhl: int := m.room[m.l2Len];
    versionIhl % 16 * 4
  }

  /** The Ethernet header of an answer: back to the sender, from this device. */
  function TurnEthernet(room: seq<Byte>, mac: Mac): (r: seq<Byte>)
    requires |room| >= ETHER_HEADER
    ensures |r| == |room|
  {
    Splice(room, 0, room[6..12] + mac)
  }

  // ---- echo ---------------------------------------------------------------

  predicate IsEchoRequest(cfg: Config, m: Mbuf)
    requires m.Walked()
  {
    var l3 := Ip4HeaderLen(m);
    var at := m.l2Len + l3;
    && EthProto(m) == TYPE_IPV4
    && m.dataLen >= at
    && m.room[m.l2Len + 9] == PROTO_ICMP
    && m.room[at] == ECHO_REQUEST && m.room[at + 1] == 0
    && cfg.icmp
    && m.dataLen >= at + ICMP_HEADER
  }

  /** The first octet decides. */
  predicate ToMulticast(m: Mbuf)
    requires m.Walked()
  {
    m.room[m.l2Len + DST_ADDR] == 0xE0
  }

  /** The neighbour of the sender that answers a multicast echo: the low two
      bits become 2 if they were 1 and 1 otherwise. */
  function MulticastSource(src: Ip4): Ip4 {
    var last: int := src[3];
    src[..3] + [last - last % 4 + if last % 4 == 1 then 2 else 1]
  }

  lemma FoldAllFits(x: nat)
    ensures 0 <= Complement(FoldAll(x)) <= ONES
  {
    FoldAllIsRemainder(x);
  }

  /** A multicast answer's IPv4 header with the checksum recomputed over its
      first l3 bytes, or left zero for the NIC. */
  function MulticastHeader(header: seq<Byte>, l3: nat, offload: bool): (r: seq<Byte>)
    requires |header| >= IP4_HEADER && l3 <= |header|
    ensures |r| == |header|
  {
    var src := header[SRC_ADDR..DST_ADDR];
    var blank := Splice(header, 10, [0, 0] + MulticastSource(src) + src);
    if offload then blank
    else
      FoldAllFits(WordSum(blank[..l3]));
      Splice(blank, 10, StoreWord(Complement(FoldAll(WordSum(blank[..l3])))))
  }

  /** Lines 524-543: the IPv4 header of the answer. */
  function TurnIp4(cfg: Config, m: Mbuf, room: seq<Byte>): (r: seq<Byte>)
    requires m.Walked() && |room| == |m.room|
    ensures |r| == |room|
  {
    var at, l3 := m.l2Len, Ip4HeaderLen(m);
    if !ToMulticast(m) then
      Splice(room, at + SRC_ADDR, cfg.ip + room[at + SRC_ADDR..at + DST_ADDR])
    else
      var span := if l3 < IP4_HEADER then IP4_HEADER else l3;
      Splice(room, at, MulticastHeader(room[at..at + span], l3, cfg.ipCksumOffload))
  }

  function TurnIcmp(room: seq<Byte>, at: nat): (r: seq<Byte>)
    requires at + ICMP_HEADER <= |room|
    ensures |r| == |room|
  {
    Splice(Splice(room, at, [ECHO_REPLY]), at + 2, StoreWord(EchoUpdate(LoadWord(room[at + 2], room[at + 3]))))
  }

  function EchoReply(cfg: Config, m: Mbuf): (r: Mbuf)
    requires m.Walked() && IsEchoRequest(cfg, m)
    ensures r == m.(room := r.room, l3Len := r.l3Len, olFlags := r.olFlags) && |r.room| == |m.room|
  {
    var r1 := TurnEthernet(m.room, cfg.mac);
    var r2 := TurnIp4(cfg, m, r1);
    var room := TurnIcmp(r2, m.l2Len + Ip4HeaderLen(m));
    if ToMulticast(m)
    then m.(room := room, l3Len := Ip4HeaderLen(m), olFlags := if cfg.ipCksumOffload then TX_IP_CHECKSUM else 0)
    else m.(room := room)
  }

  // ---- ARP ----------------------------------------------------------------

  /** An Ethernet/IPv4 ARP packet long enough to hold its header. */
  predicate IsArp(m: Mbuf)
    requires m.Walked()
  {
    && EthProto(m) == TYPE_ARP
    && m.dataLen >= m.l2Len + ARP_HEADER
    && Be16(m.room, m.l2Len) == ARP_HRD_ETHER
    && Be16(m.room, m.l2Len + 2) == TYPE_IPV4
  }

  function ArpOpcode(m: Mbuf): U16
    requires m.Walked()
  {
    Be16(m.room, m.l2Len + 6)
  }

  function ArpSenderMac(m: Mbuf): Mac
    requires m.Walked()
  {
    m.room[m.l2Len + 8..m.l2Len + 14]
  }

  function ArpSenderIp(m: Mbuf): Ip4
    requires m.Walked()
  {
    m.room[m.l2Len + 14..m.l2Len + 18]
  }

  function ArpTargetMac(m: Mbuf): Mac
    requires m.Walked()
  {
    m.room[m.l2Len + 18..m.l2Len + 24]
  }

  function ArpTargetIp(m: Mbuf): Ip4
    requires m.Walked()
  {
    m.room[m.l2Len + 24..m.l2Len + 28]
  }

  /** Both requests and replies are learnt from. */
  predicate TeachesArp(cfg: Config, m: Mbuf)
    requires m.Walked()
  {
    cfg.arpTable && IsArp(m) && (ArpOpcode(m) == ARP_REQUEST || ArpOpcode(m) == ARP_REPLY)
  }

  predicate IsArpForUs(cfg: Config, m: Mbuf)
    requires m.Walked()
  {
    IsArp(m) && ArpOpcode(m) == ARP_REQUEST && ArpTargetIp(m) == cfg.ip
  }

  /** Lines 573-579. */
  function ArpAnswer(cfg: Config, m: Mbuf): (r: Mbuf)
    requires m.Walked() && IsArpForUs(cfg, m)
    ensures r == m.(room := r.room) && |r.room| == |m.room|
  {
    var at := m.l2Len;
    var r1 := Splice(m.room, at + 6, BigEndian(ARP_REPLY, 2));
    var r2 := TurnEthernet(r1, cfg.mac);
    m.(room := Splice(r2, at + 8, cfg.mac + cfg.ip + r2[at + 8..at + 14] + r2[at + 14..at + 18]))
  }

  // ---- the answer, if any -------------------------------------------------

  /** The edited frame the device tries to put on the service ring. */
  function Answer(cfg: Config, m: Mbuf): (r: Option<Mbuf>)
    requires m.Walked()
    ensures r.Some? ==>
              && r.value == m.(room := r.value.room, l3Len := r.value.l3Len, olFlags := r.value.olFlags)
              && |r.value.room| == |m.room|
  {
    if IsEchoRequest(cfg, m) then Some(EchoReply(cfg, m))
    else if IsArpForUs(cfg, m) then Some(ArpAnswer(cfg, m))
    else None
  }

  // ---- properties of the answers ------------------------------------------

  lemma AsIcmpMessage(message: seq<Byte>)
    requires |message| >= 4 && message[1] == 0
    ensures message == IcmpMessage(message[0], LoadWord(message[2], message[3]), message[4..])
  {
    assert StoreWord(LoadWord(message[2], message[3])) == [message[2], message[3]];
  }

  /** In-place rewriting of an echo request into the reply. */
  lemma TurnIcmpMessage(room: seq<Byte>, at: nat, end: nat)
    requires at + ICMP_HEADER <= end <= |room| && room[at + 1] == 0
    ensures TurnIcmp(room, at)[at..end]
         == IcmpMessage(ECHO_REPLY, EchoUpdate(LoadWord(room[at + 2], room[at + 3])), room[at..end][4..])
    ensures forall i :: 0 <= i < at ==> TurnIcmp(room, at)[i] == room[i]
  {
  }

  /** The steps before the ICMP rewrite touch nothing behind the IPv4 header. */
  lemma HeadersStopBeforeIcmp(cfg: Config, m: Mbuf)
    requires m.Walked() && m.l2Len >= ETHER_HEADER && Ip4HeaderLen(m) >= IP4_HEADER
    ensures var r2 := TurnIp4(cfg, m, TurnEthernet(m.room, cfg.mac));
            forall i :: m.l2Len + Ip4HeaderLen(m) <= i < |m.room| ==> r2[i] == m.room[i]
  {
  }

  /** Request and answer as ICMP messages. */
  lemma EchoAnswerMessage(cfg: Config, m: Mbuf, end: nat)
    requires m.Walked() && IsEchoRequest(cfg, m)
    requires m.l2Len >= ETHER_HEADER && Ip4HeaderLen(m) >= IP4_HEADER
    requires m.l2Len + Ip4HeaderLen(m) + ICMP_HEADER <= end <= |m.room|
    ensures var at := m.l2Len + Ip4HeaderLen(m);
            var asked, told := m.room[at..end], EchoReply(cfg, m).room[at..end];
            var cksum := LoadWord(asked[2], asked[3]);
            && asked == IcmpMessage(ECHO_REQUEST, cksum, asked[4..])
            && told == IcmpMessage(ECHO_REPLY, EchoUpdate(cksum), asked[4..])
  {
    hide Splice, TurnIp4, TurnIcmp, TurnEthernet, IcmpMessage, EchoUpdate, LoadWord;
    var at := m.l2Len + Ip4HeaderLen(m);
    var asked := m.room[at..end];
    var r2 := TurnIp4(cfg, m, TurnEthernet(m.room, cfg.mac));
    HeadersStopBeforeIcmp(cfg, m);
    assert r2[at..end] == asked;
    assert r2[at + 1] == 0 && r2[at + 2] == asked[2] && r2[at + 3] == asked[3];
    AsIcmpMessage(asked);
    TurnIcmpMessage(r2, at, end);
  }

  lemma MessageParts(kind: Byte, cksum: U16, rest: seq<Byte>)
    ensures var message := IcmpMessage(kind, cksum, rest);
            |message| == 4 + |rest| && message[0] == kind && message[1] == 0 && message[4..] == rest
  {
  }

  /** Behind an intact header stack, an echo answer carries the request's
      identifier, sequence number and data, and its receiver accepts it exactly
      when the request was acceptable and not all zero behind the checksum. */
  lemma EchoAnswerAccepted(cfg: Config, m: Mbuf, end: nat)
    requires m.Walked() && IsEchoRequest(cfg, m)
    requires m.l2Len >= ETHER_HEADER && Ip4HeaderLen(m) >= IP4_HEADER
    requires m.l2Len + Ip4HeaderLen(m) + ICMP_HEADER <= end <= |m.room|
    ensures var at := m.l2Len + Ip4HeaderLen(m);
            var asked, told := m.room[at..end], EchoReply(cfg, m).room[at..end];
            && told[0] == 0 && told[1] == 0 && told[4..] == asked[4..]
            && (Accepted(told) <==> Accepted(asked) && !AllZero(asked[4..]))
  {
    hide EchoReply, IcmpMessage, Accepted, AllZero, EchoUpdate, LoadWord, IsEchoRequest, Ip4HeaderLen;
    EchoAnswerMessage(cfg, m, end);
    var at := m.l2Len + Ip4HeaderLen(m);
    var asked := m.room[at..end];
    var cksum := LoadWord(asked[2], asked[3]);
    MessageParts(ECHO_REPLY, EchoUpdate(cksum), asked[4..]);
    EchoReplyAccepted(cksum, asked[4..]);
  }

  lemma TurnIp4Unicast(cfg: Config, m: Mbuf, room: seq<Byte>, at: nat)
    requires m.Walked() && |room| == |m.room| && !ToMulticast(m)
    requires m.l2Len + IP4_HEADER <= at <= |room|
    ensures TurnIp4(cfg, m, room)[m.l2Len..at] == TurnAround(room[m.l2Len..at], cfg.ip)
    ensures m.l2Len >= 12 ==> TurnIp4(cfg, m, room)[..12] == room[..12]
  {
    hide Splice;
    var l2 := m.l2Len;
    var patch := cfg.ip + room[l2 + SRC_ADDR..l2 + DST_ADDR];
    if l2 >= 12 {
      SpliceOutside(room, l2 + SRC_ADDR, patch, 0, 12);
    }
    SpliceSlice(room, l2 + SRC_ADDR, patch, l2, at);
    SliceOfSlice(room, l2, at, 0, SRC_ADDR);
    SliceOfSlice(room, l2, at, SRC_ADDR, DST_ADDR);
    SliceOfSlice(room, l2, at, IP4_HEADER, at - l2);
  }

  /** The frame of an answered echo goes back to the Ethernet address it came
      from; the IPv4 header of a unicast answer is the request's turned around. */
  lemma EchoAnswerHeaders(cfg: Config, m: Mbuf)
    requires m.Walked() && IsEchoRequest(cfg, m) && !ToMulticast(m)
    requires m.l2Len >= ETHER_HEADER && Ip4HeaderLen(m) >= IP4_HEADER
    ensures var at := m.l2Len + Ip4HeaderLen(m);
            var room := EchoReply(cfg, m).room;
            && room[..12] == m.room[6..12] + cfg.mac
            && room[m.l2Len..at] == TurnAround(m.room[m.l2Len..at], cfg.ip)
  {
    hide Splice, TurnIp4, TurnIcmp, TurnAround, IsEchoRequest, Ip4HeaderLen, ToMulticast;
    var at := m.l2Len + Ip4HeaderLen(m);
    var r1 := TurnEthernet(m.room, cfg.mac);
    var r2 := TurnIp4(cfg, m, r1);
    SpliceInside(m.room, 0, m.room[6..12] + cfg.mac);
    SpliceOutside(m.room, 0, m.room[6..12] + cfg.mac, m.l2Len, at);
    TurnIp4Unicast(cfg, m, r1, at);
    TurnIcmpBefore(r2, 0, 12, at);
    TurnIcmpBefore(r2, m.l2Len, at, at);
  }

  /** In bytes: a unicast answer goes from this device, by both its addresses, to
      whoever asked, and the rest of the IPv4 header is the request's. */
  lemma EchoAnswerAddresses(cfg: Config, m: Mbuf)
    requires m.Walked() && IsEchoRequest(cfg, m) && !ToMulticast(m)
    requires m.l2Len >= ETHER_HEADER && Ip4HeaderLen(m) >= IP4_HEADER
    ensures var l2, at, room := m.l2Len, m.l2Len + Ip4HeaderLen(m), EchoReply(cfg, m).room;
            && room[0..6] == m.room[6..12] && room[6..12] == cfg.mac
            && room[l2 + 12..l2 + 16] == cfg.ip && room[l2 + 16..l2 + 20] == m.room[l2 + 12..l2 + 16]
            && room[l2..l2 + 12] == m.room[l2..l2 + 12] && room[l2 + 20..at] == m.room[l2 + 20..at]
  {
    hide EchoReply, TurnAround, IsEchoRequest;
    var l2, at := m.l2Len, m.l2Len + Ip4HeaderLen(m);
    EchoAnswerHeaders(cfg, m);
    var room := EchoReply(cfg, m).room;
    EthernetParts(room, m.room, cfg.mac);
    TurnAroundFields(m.room[l2..at], cfg.ip);
    HeaderParts(room, l2, at);
    HeaderParts(m.room, l2, at);
  }

  /** The fields of a header inside a frame. */
  lemma HeaderParts(room: seq<Byte>, l2: nat, at: nat)
    requires l2 + IP4_HEADER <= at <= |room|
    ensures var header := room[l2..at];
            && header[..12] == room[l2..l2 + 12] && header[12..16] == room[l2 + 12..l2 + 16]
            && header[16..20] == room[l2 + 16..l2 + 20] && header[20..] == room[l2 + 20..at]
  {
    SliceOfSlice(room, l2, at, 0, 12);
    SliceOfSlice(room, l2, at, 12, 16);
    SliceOfSlice(room, l2, at, 16, 20);
    SliceOfSlice(room, l2, at, 20, at - l2);
  }

  lemma EthernetParts(room: seq<Byte>, was: seq<Byte>, mac: Mac)
    requires |room| >= 12 && |was| >= 12 && room[..12] == was[6..12] + mac
    ensures room[0..6] == was[6..12] && room[6..12] == mac
  {
    assert room[0..6] == room[..12][0..6];
    assert room[6..12] == room[..12][6..12];
  }

  /** An answered echo that was addressed to this device leaves with a valid
      IPv4 header checksum although the code does not touch it. */
  lemma EchoAnswerHeaderValid(cfg: Config, m: Mbuf)
    requires m.Walked() && IsEchoRequest(cfg, m) && !ToMulticast(m)
    requires m.l2Len >= ETHER_HEADER && Ip4HeaderLen(m) >= IP4_HEADER
    requires Accepted(m.room[m.l2Len..m.l2Len + Ip4HeaderLen(m)])
    ensures var header := m.room[m.l2Len..m.l2Len + Ip4HeaderLen(m)];
            var answer := EchoReply(cfg, m).room[m.l2Len..m.l2Len + Ip4HeaderLen(m)];
            var pinged := header[DST_ADDR..IP4_HEADER];
            && (Accepted(answer) <==> SumsAgree(cfg.ip, pinged))
            && (pinged == cfg.ip ==> Accepted(answer))
  {
    EchoAnswerHeaders(cfg, m);
    HeaderIsNotZero(m);
    TurnAroundKeepsHeaderValid(m.room[m.l2Len..m.l2Len + Ip4HeaderLen(m)], cfg.ip);
  }

  /** A header with a length does not start with a zero byte. */
  lemma HeaderIsNotZero(m: Mbuf)
    requires m.Walked() && Ip4HeaderLen(m) >= IP4_HEADER
    ensures m.room[m.l2Len] != 0
  {
  }

  lemma RecomputedIsAccepted(a: seq<Byte>, b: seq<Byte>, cksum: U16)
    requires |a| == 10 && a[0] != 0
    requires cksum == Complement(FoldAll(WordSum(a + [0, 0] + b)))
    ensures Accepted(a + StoreWord(cksum) + b)
  {
    hide WordSum, FoldAll, StoreWord, Complement, AllOnes;
    var sum := WordSum(a) + WordSum(b);
    SumAround(a, [0, 0], b);
    SumAround(a, StoreWord(cksum), b);
    WordSumZero([0, 0]);
    StoredSum(cksum);
    WordSumZero(a);
    assert !AllZero(a);
    ComplementCompletes(sum, cksum);
  }

  lemma StoredSum(w: U16)
    ensures WordSum(StoreWord(w)) == w
  {
    assert StoreWord(w)[2..] == [];
  }

  lemma ComplementCompletes(sum: nat, cksum: U16)
    requires sum > 0 && cksum == Complement(FoldAll(sum))
    ensures AllOnes(sum + cksum)
  {
    hide FoldAll;
    FoldAllIsRemainder(sum);
    FoldAllIsOnes(sum + cksum);
    Completed(sum, (sum - 1) / ONES, (sum - 1) % ONES, cksum);
  }

  lemma Completed(sum: nat, q: int, r: int, cksum: U16)
    requires sum - 1 == q * ONES + r && cksum == ONES - (r + 1)
    ensures (sum + cksum) % ONES == 0
  {
    ModUnique(sum + cksum, ONES, q + 1, 0);
  }

  lemma SumAround(a: seq<Byte>, w: seq<Byte>, b: seq<Byte>)
    requires |a| % 2 == 0 && |w| == 2
    ensures WordSum(a + w + b) == WordSum(a) + LoadWord(w[0], w[1]) + WordSum(b)
  {
    WordSumSplit(a + w, b);
    WordSumSplit(a, w);
    assert w[2..] == [];
  }

  /** The header of a multicast answer either carries a valid checksum, or a zero
      one for the NIC to replace. */
  lemma MulticastHeaderChecksum(header: seq<Byte>, offload: bool)
    requires |header| >= IP4_HEADER && header[0] != 0
    ensures var r := MulticastHeader(header, |header|, offload);
            if offload then r[10..12] == [0, 0] else Accepted(r)
  {
    var src := header[SRC_ADDR..DST_ADDR];
    var patch := [0, 0] + MulticastSource(src) + src;
    var blank := Splice(header, 10, patch);
    assert blank[10] == patch[0] == 0 && blank[11] == patch[1] == 0;
    assert blank[10..12] == [0, 0];
    if !offload {
      var a, b := blank[..10], blank[12..];
      assert blank[..|header|] == blank == a + [0, 0] + b;
      FoldAllFits(WordSum(blank));
      var cksum := Complement(FoldAll(WordSum(blank)));
      SpliceInside(blank, 10, StoreWord(cksum));
      RecomputedIsAccepted(a, b, cksum);
    }
  }

  /** The addresses of a multicast answer: it goes to whoever asked, from the
      neighbour whose last two address bits are 2 if the asker's were 1 and 1
      otherwise; but for the checksum nothing else changes. */
  lemma MulticastHeaderFields(header: seq<Byte>, l3: nat, offload: bool)
    requires |header| >= IP4_HEADER && l3 <= |header|
    ensures var r := MulticastHeader(header, l3, offload);
            && r[16..20] == header[12..16] && r[12..15] == header[12..15]
            && r[15] as int / 4 == header[15] as int / 4
            && r[15] as int % 4 == (if header[15] as int % 4 == 1 then 2 else 1)
            && r[..10] == header[..10] && r[20..] == header[20..]
  {
    var src := header[SRC_ADDR..DST_ADDR];
    var patch := [0, 0] + MulticastSource(src) + src;
    var blank := Splice(header, 10, patch);
    NeighbourBits(src);
    PatchParts(MulticastSource(src), src);
    SliceOfSlice(header, 12, 16, 0, 3);
    assert src[3] == header[15];
    PatchFields(header, patch, blank);
    if !offload {
      FoldAllFits(WordSum(blank[..l3]));
      var cksum := StoreWord(Complement(FoldAll(WordSum(blank[..l3]))));
      var r := Splice(blank, 10, cksum);
      SpliceOutside(blank, 10, cksum, 0, 10);
      SpliceOutside(blank, 10, cksum, 12, 15);
      SpliceOutside(blank, 10, cksum, 15, 16);
      SpliceOutside(blank, 10, cksum, 16, 20);
      SpliceOutside(blank, 10, cksum, 20, |blank|);
      assert r[15] == r[15..16][0] == blank[15..16][0] == blank[15];
    }
  }

  lemma NeighbourBits(src: Ip4)
    ensures var n := MulticastSource(src);
            && n[..3] == src[..3] && n[3] as int / 4 == src[3] as int / 4
            && n[3] as int % 4 == if src[3] as int % 4 == 1 then 2 else 1
  {
  }

  lemma PatchParts(n: Ip4, src: Ip4)
    ensures var patch := [0, 0] + n + src;
            patch[2..5] == n[..3] && patch[5] == n[3] && patch[6..10] == src
  {
  }

  lemma PatchFields(header: seq<Byte>, patch: seq<Byte>, r: seq<Byte>)
    requires |header| >= IP4_HEADER && |patch| == 10 && r == Splice(header, 10, patch)
    ensures r[12..15] == patch[2..5] && r[15] == patch[5] && r[16..20] == patch[6..10]
    ensures r[..10] == header[..10] && r[20..] == header[20..]
  {
    hide Splice;
    SpliceInside(header, 10, patch);
    SpliceOutside(header, 10, patch, 0, 10);
    SpliceOutside(header, 10, patch, 20, |header|);
    SliceOfSlice(r, 10, 20, 2, 5);
    SliceOfSlice(r, 10, 20, 6, 10);
    assert r[15] == r[10..20][5];
  }

  lemma TurnIp4Multicast(cfg: Config, m: Mbuf, room: seq<Byte>)
    requires m.Walked() && |room| == |m.room| && ToMulticast(m) && Ip4HeaderLen(m) >= IP4_HEADER
    ensures var l2, at := m.l2Len, m.l2Len + Ip4HeaderLen(m);
            TurnIp4(cfg, m, room)[l2..at] == MulticastHeader(room[l2..at], Ip4HeaderLen(m), cfg.ipCksumOffload)
  {
    hide MulticastHeader, Splice;
    var l2, l3 := m.l2Len, Ip4HeaderLen(m);
    SpliceInside(room, l2, MulticastHeader(room[l2..l2 + l3], l3, cfg.ipCksumOffload));
  }

  lemma MulticastAnswerHeader(cfg: Config, m: Mbuf)
    requires m.Walked() && IsEchoRequest(cfg, m) && ToMulticast(m)
    requires m.l2Len >= ETHER_HEADER && Ip4HeaderLen(m) >= IP4_HEADER
    ensures var l2, at := m.l2Len, m.l2Len + Ip4HeaderLen(m);
            EchoReply(cfg, m).room[l2..at] == MulticastHeader(m.room[l2..at], Ip4HeaderLen(m), cfg.ipCksumOffload)
    ensures EchoReply(cfg, m).l3Len == Ip4HeaderLen(m)
    ensures EchoReply(cfg, m).olFlags == if cfg.ipCksumOffload then TX_IP_CHECKSUM else 0
  {
    hide MulticastHeader, TurnIp4, Splice;
    var l2, at := m.l2Len, m.l2Len + Ip4HeaderLen(m);
    var r1 := TurnEthernet(m.room, cfg.mac);
    var r2 := TurnIp4(cfg, m, r1);
    SpliceOutside(m.room, 0, m.room[6..12] + cfg.mac, l2, at);
    TurnIp4Multicast(cfg, m, r1);
    TurnIcmpBefore(r2, l2, at, at);
  }

  /** The ICMP rewrite touches nothing in front of it. */
  lemma TurnIcmpBefore(room: seq<Byte>, from: nat, to: nat, at: nat)
    requires from <= to <= at && at + ICMP_HEADER <= |room|
    ensures TurnIcmp(room, at)[from..to] == room[from..to]
    ensures from == 0 ==> TurnIcmp(room, at)[..to] == room[..to]
  {
    hide Splice;
    var typed := Splice(room, at, [ECHO_REPLY]);
    SpliceOutside(room, at, [ECHO_REPLY], from, to);
    SpliceOutside(typed, at + 2, StoreWord(EchoUpdate(LoadWord(room[at + 2], room[at + 3]))), from, to);
  }

  /** In bytes, on the frame. */
  lemma MulticastAnswerAddresses(cfg: Config, m: Mbuf)
    requires m.Walked() && IsEchoRequest(cfg, m) && ToMulticast(m)
    requires m.l2Len >= ETHER_HEADER && Ip4HeaderLen(m) >= IP4_HEADER
    ensures var l2, room := m.l2Len, EchoReply(cfg, m).room;
            && room[0..6] == m.room[6..12] && room[6..12] == cfg.mac
            && room[l2 + 16..l2 + 20] == m.room[l2 + 12..l2 + 16] && room[l2 + 12..l2 + 15] == m.room[l2 + 12..l2 + 15]
            && room[l2 + 15] as int / 4 == m.room[l2 + 15] as int / 4
            && room[l2 + 15] as int % 4 == (if m.room[l2 + 15] as int % 4 == 1 then 2 else 1)
  {
    hide EchoReply, MulticastHeader, IsEchoRequest, Ip4HeaderLen;
    MulticastAnswerHeader(cfg, m);
    MulticastAnswerEthernet(cfg, m);
    var room := EchoReply(cfg, m).room;
    EthernetParts(room, m.room, cfg.mac);
    MulticastFieldsIn(room, m.room, m.l2Len, m.l2Len + Ip4HeaderLen(m), cfg.ipCksumOffload);
  }

  lemma MulticastFieldsIn(room: seq<Byte>, was: seq<Byte>, l2: nat, at: nat, offload: bool)
    requires l2 + IP4_HEADER <= at <= |room| && at <= |was|
    requires room[l2..at] == MulticastHeader(was[l2..at], at - l2, offload)
    ensures room[l2 + 16..l2 + 20] == was[l2 + 12..l2 + 16] && room[l2 + 12..l2 + 15] == was[l2 + 12..l2 + 15]
    ensures room[l2 + 15] as int / 4 == was[l2 + 15] as int / 4
    ensures room[l2 + 15] as int % 4 == if was[l2 + 15] as int % 4 == 1 then 2 else 1
  {
    hide MulticastHeader;
    MulticastHeaderFields(was[l2..at], at - l2, offload);
    HeaderParts(room, l2, at);
    HeaderParts(was, l2, at);
    SliceOfSlice(room, l2, at, 12, 15);
    SliceOfSlice(was, l2, at, 12, 15);
    assert room[l2..at][15] == room[l2 + 15] && was[l2..at][15] == was[l2 + 15];
  }

  lemma MulticastAnswerEthernet(cfg: Config, m: Mbuf)
    requires m.Walked() && IsEchoRequest(cfg, m) && ToMulticast(m)
    requires m.l2Len >= ETHER_HEADER && Ip4HeaderLen(m) >= IP4_HEADER
    ensures EchoReply(cfg, m).room[..12] == m.room[6..12] + cfg.mac
  {
    hide MulticastHeader, Splice, TurnIcmp, IsEchoRequest, Ip4HeaderLen, ToMulticast;
    var l2, l3 := m.l2Len, Ip4HeaderLen(m);
    var r1 := TurnEthernet(m.room, cfg.mac);
    SpliceInside(m.room, 0, m.room[6..12] + cfg.mac);
    SpliceOutside(r1, l2, MulticastHeader(r1[l2..l2 + l3], l3, cfg.ipCksumOffload), 0, 12);
    TurnIcmpBefore(TurnIp4(cfg, m, r1), 0, 12, l2 + l3);
  }

  /** A multicast answer leaves with a valid IPv4 header checksum, or with a zero
      one and the order to the NIC to compute it, bits 54 and 55 of the flags. */
  lemma MulticastAnswerChecksum(cfg: Config, m: Mbuf)
    requires m.Walked() && IsEchoRequest(cfg, m) && ToMulticast(m)
    requires m.l2Len >= ETHER_HEADER && Ip4HeaderLen(m) >= IP4_HEADER
    ensures var answer, at := EchoReply(cfg, m), m.l2Len + Ip4HeaderLen(m);
            && answer.l3Len == Ip4HeaderLen(m)
            && if cfg.ipCksumOffload
               then answer.olFlags == 0x00C0_0000_0000_0000 && answer.room[m.l2Len..at][10..12] == [0, 0]
               else answer.olFlags == 0 && Accepted(answer.room[m.l2Len..at])
  {
    hide MulticastHeader, EchoReply, Accepted;
    MulticastAnswerHeader(cfg, m);
    HeaderIsNotZero(m);
    var header := m.room[m.l2Len..m.l2Len + Ip4HeaderLen(m)];
    assert |header| == Ip4HeaderLen(m) && header[0] == m.room[m.l2Len];
    MulticastHeaderChecksum(header, cfg.ipCksumOffload);
  }

  /** The byte layout of an ARP answer. */
  lemma ArpAnswerLayout(cfg: Config, m: Mbuf)
    requires m.Walked() && IsArpForUs(cfg, m) && m.l2Len >= ETHER_HEADER
    ensures var at, room := m.l2Len, ArpAnswer(cfg, m).room;
            && room[..12] == m.room[6..12] + cfg.mac
            && room[12..at + 6] == m.room[12..at + 6]
            && room[at + 6..at + 8] == [0, 2]
            && room[at + 8..at + 28] == cfg.mac + cfg.ip + m.room[at + 8..at + 14] + m.room[at + 14..at + 18]
  {
    ReplyCode();
    hide Splice, BigEndian;
    var at := m.l2Len;
    var r1 := Splice(m.room, at + 6, [0, 2]);
    var r2 := TurnEthernet(r1, cfg.mac);
    var addresses := cfg.mac + cfg.ip + r2[at + 8..at + 14] + r2[at + 14..at + 18];
    AnswerFront(m.room, r1, r2, at, cfg.mac);
    SpliceInside(r2, at + 8, addresses);
    SpliceOutside(r2, at + 8, addresses, 0, 12);
    SpliceOutside(r2, at + 8, addresses, 12, at + 6);
    SpliceOutside(r2, at + 8, addresses, at + 6, at + 8);
  }

  lemma ReplyCode()
    ensures BigEndian(ARP_REPLY, 2) == [0, 2]
  {
    assert BigEndian(ARP_REPLY / 256, 1) == [0];
  }

  /** The answer before its addresses are written. */
  lemma AnswerFront(room: seq<Byte>, r1: seq<Byte>, r2: seq<Byte>, at: nat, mac: Mac)
    requires ETHER_HEADER <= at && at + ARP_HEADER <= |room|
    requires r1 == Splice(room, at + 6, [0, 2]) && r2 == TurnEthernet(r1, mac)
    ensures r2[..12] == room[6..12] + mac && r2[12..at + 6] == room[12..at + 6] && r2[at + 6..at + 8] == [0, 2]
    ensures r2[at + 8..at + 14] == room[at + 8..at + 14] && r2[at + 14..at + 18] == room[at + 14..at + 18]
  {
    hide Splice;
    SpliceInside(room, at + 6, [0, 2]);
    SpliceOutside(room, at + 6, [0, 2], 6, 12);
    SpliceOutside(room, at + 6, [0, 2], 12, at + 6);
    SpliceOutside(room, at + 6, [0, 2], at + 8, at + 14);
    SpliceOutside(room, at + 6, [0, 2], at + 14, at + 18);
    var front := r1[6..12] + mac;
    SpliceInside(r1, 0, front);
    SpliceOutside(r1, 0, front, 12, at + 6);
    SpliceOutside(r1, 0, front, at + 6, at + 8);
    SpliceOutside(r1, 0, front, at + 8, at + 14);
    SpliceOutside(r1, 0, front, at + 14, at + 18);
  }

  lemma FourParts(a: seq<Byte>, b: seq<Byte>, c: seq<Byte>, d: seq<Byte>)
    requires |a| == 6 && |b| == 4 && |c| == 6 && |d| == 4
    ensures var s := a + b + c + d; s[0..6] == a && s[6..10] == b && s[10..16] == c && s[16..20] == d
  {
  }

  lemma ArpAnswerAddresses(cfg: Config, m: Mbuf)
    requires m.Walked() && IsArpForUs(cfg, m) && m.l2Len >= ETHER_HEADER
    ensures var r := ArpAnswer(cfg, m);
            && ArpSenderMac(r) == cfg.mac && ArpSenderIp(r) == cfg.ip
            && ArpTargetMac(r) == ArpSenderMac(m) && ArpTargetIp(r) == ArpSenderIp(m)
  {
    hide ArpAnswer;
    var at, room := m.l2Len, ArpAnswer(cfg, m).room;
    ArpAnswerLayout(cfg, m);
    FourParts(cfg.mac, cfg.ip, m.room[at + 8..at + 14], m.room[at + 14..at + 18]);
    SliceOfSlice(room, at + 8, at + 28, 0, 6);
    SliceOfSlice(room, at + 8, at + 28, 6, 10);
    SliceOfSlice(room, at + 8, at + 28, 10, 16);
    SliceOfSlice(room, at + 8, at + 28, 16, 20);
  }

  lemma ArpAnswerKind(cfg: Config, m: Mbuf)
    requires m.Walked() && IsArpForUs(cfg, m) && m.l2Len >= ETHER_HEADER
    ensures var r := ArpAnswer(cfg, m);
            && IsArp(r) && ArpOpcode(r) == ARP_REPLY
            && r.room[..6] == m.room[6..12] && r.room[6..12] == cfg.mac
  {
    hide ArpAnswer;
    var at, room := m.l2Len, ArpAnswer(cfg, m).room;
    ArpAnswerLayout(cfg, m);
    assert room[..6] == room[..12][..6];
    assert room[6..12] == room[..12][6..];
    assert room[at + 6] == room[at + 6..at + 8][0] && room[at + 7] == room[at + 6..at + 8][1];
    forall i | 12 <= i < at + 6
      ensures room[i] == m.room[i]
    {
      assert room[i] == room[12..at + 6][i - 12];
    }
  }

  /** Packet Reception in RFC 826: the answer to an ARP request for this device
      is a reply from this device to the asker, on the Ethernet address the
      request came from. */
  lemma ArpAnswerIsReply(cfg: Config, m: Mbuf)
    requires m.Walked() && IsArpForUs(cfg, m) && m.l2Len >= ETHER_HEADER
    ensures var r := ArpAnswer(cfg, m);
            && IsArp(r) && ArpOpcode(r) == ARP_REPLY
            && ArpSenderMac(r) == cfg.mac && ArpSenderIp(r) == cfg.ip
            && ArpTargetMac(r) == ArpSenderMac(m) && ArpTargetIp(r) == ArpSenderIp(m)
            && r.room[..6] == m.room[6..12] && r.room[6..12] == cfg.mac
  {
    ArpAnswerKind(cfg, m);
    ArpAnswerAddresses(cfg, m);
  }

  // ---- which frames are answered --------------------------------------------------

  /** Two bytes of a frame as a number. */
  lemma WordIs(room: seq<Byte>, offset: nat, high: Byte, low: Byte)
    requires offset + 2 <= |room|
    ensures Be16(room, offset) == 256 * high as int + low as int <==> room[offset] == high && room[offset + 1] == low
  {
  }

  /** Untagged frames with a plain IPv4 header, byte by byte: what is an echo request
      to answer, and when the multicast rule applies. */
  lemma EchoRequestExactly(cfg: Config, m: Mbuf)
    requires m.Walked() && m.l2Len == 14 && m.room[14] == 0x45
    ensures IsEchoRequest(cfg, m)
       <==> cfg.icmp && m.dataLen >= 42 && m.room[12] == 8 && m.room[13] == 0 && m.room[23] == 1
            && m.room[34] == 8 && m.room[35] == 0
    ensures ToMulticast(m) <==> m.room[30] == 224
  {
    WordIs(m.room, 12, 8, 0);
  }

  /** What is an ARP request to answer, and what is learnt from. */
  lemma ArpExactly(cfg: Config, m: Mbuf)
    requires m.Walked() && m.l2Len == 14
    ensures IsArp(m)
       <==> m.dataLen >= 42 && m.room[12] == 8 && m.room[13] == 6 && m.room[14] == 0 && m.room[15] == 1
            && m.room[16] == 8 && m.room[17] == 0
    ensures IsArpForUs(cfg, m) <==> IsArp(m) && m.room[20] == 0 && m.room[21] == 1 && m.room[38..42] == cfg.ip
    ensures TeachesArp(cfg, m) <==> cfg.arpTable && IsArp(m) && m.room[20] == 0 && 1 <= m.room[21] <= 2
  {
    WordIs(m.room, 12, 8, 6);
    WordIs(m.room, 14, 0, 1);
    WordIs(m.room, 16, 8, 0);
    WordIs(m.room, 20, 0, 1);
    WordIs(m.room, 20, 0, 2);
  }
}
