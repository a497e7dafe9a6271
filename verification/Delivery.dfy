/** What becomes of single frames: which are dropped, served or delivered, and runs of
    the receive job that show it (dpdkx/device.cpp:107-158 and 499-607). */
module Delivery {
  import opened Bytes
  import opened Collections
  import opened Frame
  import opened Sinks
  import opened Service
  import opened RxSpec
  import RxPath
  import U = UdpTx
  import R = Recorder
  import T = RxTheorems
  import RxRefresh

  // ---- routing over all frames ------------------------------------------------------

  /** Everything the device answers or learns from reaches the service stage,
      whatever the table. */
  lemma ServiceIsParked(cfg: Config, t: Table, m: Mbuf)
    requires m.Walked() && (Answer(cfg, m).Some? || TeachesArp(cfg, m))
    ensures RouteOf(LogicOf(cfg), t, m) == Serve
  {
  }

  /** A UDP packet shorter than its headers say. */
  predicate CutShort(m: Mbuf)
    requires m.Walked()
  {
    var at := m.l2Len + m.room[m.l2Len] as int % 16 * 4;
    m.dataLen < at + 8 || m.dataLen < at + 256 * m.room[at + 4] as int + m.room[at + 5] as int
  }

  predicate IsUdp(m: Mbuf)
    requires m.Walked()
  {
    m.room[m.l2Len - 2] == 8 && m.room[m.l2Len - 1] == 0 && m.room[m.l2Len + 9] == 17
  }

  /** Exactly the frames without a type and the cut-short UDP packets are dropped;
      exactly the other UDP packets with an entry for their port are delivered. */
  lemma RoutedExactly(cfg: Config, t: Table, m: Mbuf)
    requires m.Walked()
    ensures RouteOf(LogicOf(cfg), t, m) == Drop
       <==> (m.room[m.l2Len - 2] == 0 && m.room[m.l2Len - 1] == 0) || (IsUdp(m) && CutShort(m))
    ensures RouteOf(LogicOf(cfg), t, m).Deliver?
       <==> IsUdp(m) && !CutShort(m) && Lookup(t, DestinationPort(m)).Some?
    ensures RouteOf(LogicOf(cfg), t, m).Deliver? ==>
              Lookup(t, DestinationPort(m)) == Some(RouteOf(LogicOf(cfg), t, m).channel)
  {
    WordIs(m.room, m.l2Len - 2, 0, 0);
    WordIs(m.room, m.l2Len - 2, 8, 0);
  }

  function DestinationPort(m: Mbuf): U16
    requires m.Walked()
  {
    var at := m.l2Len + m.room[m.l2Len] as int % 16 * 4;
    256 * m.room[at + 2] as int + m.room[at + 3] as int
  }

  // ---- from sender to channel --------------------------------------------------------

  /** The packet fills the buffer's room from the start, and `length` bytes of it came. */
  ghost predicate Carries(m: Mbuf, packet: seq<Byte>, length: nat) {
    m.Valid() && |packet| <= |m.room| && m.room[..|packet|] == packet && m.dataLen == length <= |packet|
  }

  lemma SentIsUntagged(src: U.Source, dst: U.Destination, payload: seq<Byte>, m: Mbuf, length: nat)
    requires Carries(m, U.Headers(src, dst, |payload|) + payload, length)
    ensures !EndlessTags(m) && L2Walked(m) == 14
    ensures var w := m.(l2Len := 14);
            && IsUdp(w) && w.room[14] as int % 16 * 4 == 20 && DestinationPort(w) == dst.port
            && 256 * w.room[38] as int + w.room[39] as int == U.DatagramLength(|payload|)
            && m.room[42..42 + |payload|] == payload
  {
    hide U.Headers, EndlessTags, L2Walked;
    SentBytes(src, dst, payload, m, length);
    UntaggedWalk(m);
  }

  lemma UntaggedWalk(m: Mbuf)
    requires m.Valid() && m.room[12] == 8 && m.room[13] == 0
    ensures !EndlessTags(m) && L2Walked(m) == 14
  {
    assert Be16(m.room, 12) == 0x0800;
    assert !TagAt(m, TypeAfter(0));
  }

  /** What the receiver finds in the buffer. */
  lemma SentBytes(src: U.Source, dst: U.Destination, payload: seq<Byte>, m: Mbuf, length: nat)
    requires Carries(m, U.Headers(src, dst, |payload|) + payload, length)
    ensures m.room[12] == 8 && m.room[13] == 0 && m.room[14] == 0x45 && m.room[23] == 17
    ensures 256 * m.room[36] as int + m.room[37] as int == dst.port
    ensures 256 * m.room[38] as int + m.room[39] as int == U.DatagramLength(|payload|)
    ensures m.room[42..42 + |payload|] == payload
  {
    hide U.Headers, U.DatagramLength;
    var packet := U.Headers(src, dst, |payload|) + payload;
    U.PacketFields(src, dst, payload);
    LengthReads(src, dst, payload);
    forall i | 0 <= i < |packet|
      ensures m.room[i] == packet[i]
    {
      assert m.room[i] == m.room[..|packet|][i];
    }
    assert m.room[42..42 + |payload|] == packet[42..];
  }

  lemma LengthReads(src: U.Source, dst: U.Destination, payload: seq<Byte>)
    ensures Be16(U.Headers(src, dst, |payload|) + payload, 38) == U.DatagramLength(|payload|)
  {
    var h := U.Headers(src, dst, |payload|);
    U.HeaderFields(src, dst, |payload|);
    assert (h + payload)[38..40] == h[38..40];
    U.FieldReads(h + payload, 38, U.DatagramLength(|payload|));
  }

  /** A packet made by `updtx_channel::send` and received whole goes to the channel the
      table has for its destination port, or to the service stage if there is none;
      received in part, if its length field tells the truth, it is dropped. */
  lemma SentIsRouted(cfg: Config, t: Table, src: U.Source, dst: U.Destination, payload: seq<Byte>, m: Mbuf, length: nat)
    requires Carries(m, U.Headers(src, dst, |payload|) + payload, length)
    ensures length == 42 + |payload| ==>
              RouteOf(LogicOf(cfg), t, m.(l2Len := L2Walked(m)))
              == match Lookup(t, dst.port) case Some(c) => Deliver(c) case None => Serve
    ensures length < 42 + |payload| && |payload| <= 65507 ==>
              RouteOf(LogicOf(cfg), t, m.(l2Len := L2Walked(m))) == Drop
  {
    SentIsUntagged(src, dst, payload, m, length);
    U.TotalIs(|payload|);
    DatagramFits(|payload|);
    hide U.Headers, LogicOf;
    RoutedExactly(cfg, t, m.(l2Len := 14));
  }

  lemma DatagramFits(n: nat)
    ensures U.DatagramLength(n) <= 8 + n
  {
  }

  /** The channel finds the payload behind the layer lengths the receive job set. */
  lemma ChannelFindsPayload(src: U.Source, dst: U.Destination, payload: seq<Byte>, m: Mbuf)
    requires Carries(m, U.Headers(src, dst, |payload|) + payload, 42 + |payload|)
    ensures R.Message(Prepared(m.(l2Len := L2Walked(m)))) == if |payload| >= 14 then Some(payload) else None
  {
    SentIsUntagged(src, dst, payload, m, 42 + |payload|);
  }

  // ---- runs of the receive job -------------------------------------------------------

  /** A run with the table unchanged and one packet in the burst. */
  function OnePacket(t: Table, accept: bool, clock: U64, recycle: (Channel, seq<Mbuf>) -> nat): RxPath.Env {
    RxPath.Env([t, t], [accept], [clock], recycle)
  }

  lemma OneRoute(pl: PacketLogic, w: Mbuf, routes: seq<Route>, t: Table, snaps: seq<Table>)
    requires History(pl, [w], routes, t, snaps, [t, t]) && |routes| == 1
    ensures routes == [RouteOf(pl, t, w)]
  {
    assert snaps[0] == t;
  }

  /** A lone packet for the service stage is parked and nothing else happens to it. */
  lemma LoneService(pl: PacketLogic, w: Mbuf, p: Progress, recycle: (Channel, seq<Mbuf>) -> nat)
    requires Settled(pl, [w], p) && Batched(pl, [w], p, recycle) && p.routes == [Serve]
    ensures p.parked == [w] && p.batches == [] && p.freed == []
  {
    RunsOneMore([], Serve);
    assert [] + [Serve] == [Serve] && [w][..0] == [] && p.routes[..0] == [];
    assert Runs(p.routes) == [];
    assert Leftover([w], p.routes) == [w] && Dropped([w], p.routes) == [] && Reclaimed(p.batches) == [];
    assert |multiset(p.freed)| == |p.freed|;
  }

  lemma OneServed(pl: PacketLogic, w: Mbuf, accepts: seq<bool>)
    requires |accepts| == 1
    ensures Answered(pl, [w], accepts, 1) == Sent(pl, w, accepts[0])
    ensures Unanswered(pl, [w], accepts, 1) == Unsent(pl, w, accepts[0])
  {
    assert Answered(pl, [w], accepts, 0) == [] && Unanswered(pl, [w], accepts, 0) == [];
  }

  /** What the device has to say to a frame. */
  function Reply(cfg: Config, w: Mbuf): (r: seq<Mbuf>)
    requires w.Walked()
    ensures |r| <= 1
  {
    if IsEchoRequest(cfg, w) then [EchoReply(cfg, w)]
    else if IsArpForUs(cfg, w) then [ArpAnswer(cfg, w)]
    else []
  }

  /** A call that receives just one frame that no channel gets.  The reply to an echo
      request, or to an ARP request for the device, goes on the service ring, or is freed
      if the ring has no room; any other frame is freed as it is.  No channel is called,
      and ARP packets are learnt from. */
  method ServeOne(job: RxPath.RxJob, m: Mbuf, accept: bool, clock: U64)
    requires job.Valid() && job.burstSize >= 1 && job.device.logic == LogicOf(job.device.config)
    requires m.Valid() && !EndlessTags(m) && m.(l2Len := L2Walked(m)).Walked()
    requires RouteOf(job.device.logic, job.sinks, m.(l2Len := L2Walked(m))) == Serve
    modifies job`sinks, job`checkpoint, job`last, job.device, job.buffers
    ensures var cfg, w := job.device.config, m.(l2Len := L2Walked(m));
            var reply := Reply(cfg, w);
            && job.device.ring == old(job.device.ring) + (if accept then reply else [])
            && job.device.freed == old(job.device.freed) + (if reply == [] then [w] else if accept then [] else reply)
            && job.device.handed == old(job.device.handed)
            && job.device.arp == if TeachesArp(cfg, w)
                                 then old(job.device.arp)[ArpSenderIp(w) := ArpRecord(ArpSenderMac(w), clock)]
                                 else old(job.device.arp)
  {
    hide Settled, Batched, History, Answered, Unanswered, Learnt, Reply, TeachesArp, LogicOf, ArpSenderIp,
         ArpSenderMac, Staying, L2Walked, RouteOf;
    ghost var cfg, w, t := job.device.config, m.(l2Len := L2Walked(m)), job.sinks;
    var env := OnePacket(job.sinks, accept, clock, (c, mbufs) => 0);
    OneWalked(m);
    var _, p, snaps := job.Process([m], env);
    ServedLikeThis(cfg, w, t, p, snaps, env);
  }

  lemma OneWalked(m: Mbuf)
    requires m.Valid()
    ensures WalkAll([m]) == [m.(l2Len := L2Walked(m))]
  {
  }

  lemma ServedLikeThis(cfg: Config, w: Mbuf, t: Table, p: Progress, snaps: seq<Table>, env: RxPath.Env)
    requires w.Walked() && RouteOf(LogicOf(cfg), t, w) == Serve && |env.accepts| == |env.clocks| == 1
    requires Settled(LogicOf(cfg), [w], p) && Batched(LogicOf(cfg), [w], p, env.recycle)
    requires History(LogicOf(cfg), [w], p.routes, t, snaps, [t, t])
    ensures p.parked == [w] && p.batches == [] && p.freed == []
    ensures Answered(LogicOf(cfg), [w], env.accepts, 1) == if env.accepts[0] then Reply(cfg, w) else []
    ensures Unanswered(LogicOf(cfg), [w], env.accepts, 1)
         == if Reply(cfg, w) == [] then [w] else if env.accepts[0] then [] else Reply(cfg, w)
    ensures forall arp :: Learnt(LogicOf(cfg), arp, [w], env.clocks, 1)
                       == if TeachesArp(cfg, w) then arp[ArpSenderIp(w) := ArpRecord(ArpSenderMac(w), env.clocks[0])]
                          else arp
  {
    OneRoute(LogicOf(cfg), w, p.routes, t, snaps);
    LoneService(LogicOf(cfg), w, p, env.recycle);
    OneServed(LogicOf(cfg), w, env.accepts);
    OneReply(cfg, w, env.accepts[0]);
    OneLesson(cfg, w, env.clocks);
  }

  lemma OneReply(cfg: Config, w: Mbuf, accept: bool)
    requires w.Walked()
    ensures Sent(LogicOf(cfg), w, accept) == if accept then Reply(cfg, w) else []
    ensures Unsent(LogicOf(cfg), w, accept) == if Reply(cfg, w) == [] then [w] else if accept then [] else Reply(cfg, w)
  {
    hide EchoReply, ArpAnswer, IsEchoRequest, IsArpForUs;
  }

  lemma OneLesson(cfg: Config, w: Mbuf, clocks: seq<U64>)
    requires w.Walked() && |clocks| == 1
    ensures forall arp :: Learnt(LogicOf(cfg), arp, [w], clocks, 1)
                       == if TeachesArp(cfg, w) then arp[ArpSenderIp(w) := ArpRecord(ArpSenderMac(w), clocks[0])]
                          else arp
  {
    forall arp
      ensures Learnt(LogicOf(cfg), arp, [w], clocks, 1)
           == if TeachesArp(cfg, w) then arp[ArpSenderIp(w) := ArpRecord(ArpSenderMac(w), clocks[0])] else arp
    {
      assert Learnt(LogicOf(cfg), arp, [w], clocks, 0) == arp;
    }
  }

  /** A lone packet for a channel is handed to it alone. */
  lemma LoneDelivery(pl: PacketLogic, w: Mbuf, c: Channel, p: Progress, recycle: (Channel, seq<Mbuf>) -> nat)
    requires Settled(pl, [w], p) && Batched(pl, [w], p, recycle) && p.routes == [Deliver(c)]
    ensures p.parked == [] && p.freed == [] && |p.batches| == 1
    ensures p.batches[0].channel == c && p.batches[0].mbufs == [pl.prepare(w)]
  {
    RunsOneMore([], Deliver(c));
    assert [] + [Deliver(c)] == [Deliver(c)] && [w][..0] == [] && p.routes[..0] == [];
    assert Runs(p.routes) == [Run(0, 1, c)];
    assert p.batches[0] == BatchOf(pl, [w], p.routes, recycle, Run(0, 1, c));
    assert PreparedRun(pl, [w], 0, 1) == [pl.prepare(w)] && p.batches[..0] == [];
    assert Reclaimed(p.batches) == [] && Dropped([w], p.routes) == [] && Leftover([w], p.routes) == [];
    assert |multiset(p.freed)| == |p.freed|;
  }

  lemma DeliveredLikeThis(cfg: Config, w: Mbuf, c: Channel, t: Table, p: Progress, snaps: seq<Table>, env: RxPath.Env)
    requires w.Walked() && RouteOf(LogicOf(cfg), t, w) == Deliver(c)
    requires Settled(LogicOf(cfg), [w], p) && Batched(LogicOf(cfg), [w], p, env.recycle)
    requires History(LogicOf(cfg), [w], p.routes, t, snaps, [t, t])
    ensures p.parked == [] && p.freed == [] && |p.batches| == 1
    ensures p.batches[0].channel == c && p.batches[0].mbufs == [Prepared(w)]
    ensures Answered(LogicOf(cfg), [], env.accepts, 0) == [] == Unanswered(LogicOf(cfg), [], env.accepts, 0)
  {
    OneRoute(LogicOf(cfg), w, p.routes, t, snaps);
    LoneDelivery(LogicOf(cfg), w, c, p, env.recycle);
  }

  /** A call that receives just one packet made by `updtx_channel::send` for a port
      that has a channel: exactly this channel is handed it, with the payload where
      its layer lengths say; nothing is freed or sent. */
  method DeliverOne(job: RxPath.RxJob, src: U.Source, dst: U.Destination, payload: seq<Byte>, m: Mbuf, c: Channel)
    requires job.Valid() && job.burstSize >= 1 && job.device.logic == LogicOf(job.device.config)
    requires Carries(m, U.Headers(src, dst, |payload|) + payload, 42 + |payload|)
    requires Lookup(job.sinks, dst.port) == Some(c)
    modifies job`sinks, job`checkpoint, job`last, job.device, job.buffers
    ensures job.device.freed == old(job.device.freed) && job.device.ring == old(job.device.ring)
    ensures |job.device.handed| == |old(job.device.handed)| + 1
    ensures var batch := job.device.handed[|old(job.device.handed)|];
            && job.device.handed == old(job.device.handed) + [batch]
            && batch.channel == c && |batch.mbufs| == 1 && batch.mbufs[0].id == m.id
            && (|payload| >= 14 ==> R.Message(batch.mbufs[0]) == Some(payload))
  {
    hide Settled, Batched, History, Answered, Unanswered, Learnt, LogicOf, Staying, L2Walked, U.Headers, R.Message,
         Lookup;
    ghost var cfg, w, t := job.device.config, m.(l2Len := L2Walked(m)), job.sinks;
    var env := OnePacket(job.sinks, true, 1, (c, mbufs) => 0);
    SentIsUntagged(src, dst, payload, m, 42 + |payload|);
    SentIsRouted(cfg, t, src, dst, payload, m, 42 + |payload|);
    ChannelFindsPayload(src, dst, payload, m);
    OneWalked(m);
    var _, p, snaps := job.Process([m], env);
    DeliveredLikeThis(cfg, w, c, t, p, snaps, env);
  }

  // ---- an echo request there is ----------------------------------------------------------

  /** An echo request to the address, all other bytes zero. */
  function EchoFrame(id: nat, ip: Ip4): (m: Mbuf)
    ensures m.Valid() && m.id == id
  {
    Mbuf(id, seq(DATA_ROOM, i requires 0 <= i => if i == 12 then 8 else if i == 14 then 0x45 else if i == 23 then 1
                                                 else if i == 34 then 8 else if 30 <= i < 34 then ip[i - 30] else 0),
         60, 0, 0, 0, 0)
  }

  lemma EchoFrameIsAnswered(cfg: Config, id: nat)
    requires cfg.icmp
    ensures !EndlessTags(EchoFrame(id, cfg.ip)) && L2Walked(EchoFrame(id, cfg.ip)) == 14
    ensures var w := EchoFrame(id, cfg.ip).(l2Len := 14);
            IsEchoRequest(cfg, w) && Answer(cfg, w).Some?
  {
    var m := EchoFrame(id, cfg.ip);
    assert Be16(m.room, 12) == 0x0800;
    assert !TagAt(m, TypeAfter(0));
    EchoRequestExactly(cfg, m.(l2Len := 14));
  }

  /** A ping of the device: the reply goes on the ring. */
  method PingOne(job: RxPath.RxJob, id: nat)
    requires job.Valid() && job.burstSize >= 1 && job.device.logic == LogicOf(job.device.config)
    requires job.device.config.icmp
    modifies job`sinks, job`checkpoint, job`last, job.device, job.buffers
    ensures var w := EchoFrame(id, job.device.config.ip).(l2Len := 14);
            && w.Walked() && IsEchoRequest(job.device.config, w)
            && job.device.ring == old(job.device.ring) + [EchoReply(job.device.config, w)]
            && job.device.freed == old(job.device.freed) && job.device.handed == old(job.device.handed)
  {
    EchoFrameIsAnswered(job.device.config, id);
    ServiceIsParked(job.device.config, job.sinks, EchoFrame(id, job.device.config.ip).(l2Len := 14));
    hide EchoFrame, EchoReply, IsEchoRequest, RouteOf, L2Walked, EndlessTags;
    ServeOne(job, EchoFrame(id, job.device.config.ip), true, 1);
  }

  /** A call that receives n ARP frames.  The refresh counter advances by two burst sizes
      more exactly if these do not fill the burst. */
  method ReceiveArp(job: RxPath.RxJob, n: nat)
    requires job.Valid() && job.device.logic == LogicOf(job.device.config) && n <= job.burstSize && n <= 256
    modifies job`sinks, job`checkpoint, job`last, job.device, job.buffers
    ensures var start: int := if old(job.checkpoint) >= job.reloadCheckpoint then 0 else old(job.checkpoint);
            job.checkpoint == (start + (if n < job.burstSize then 2 * job.burstSize as int else 0) + 1) % 0x1_0000
  {
    hide Settled, Batched, History, Answered, Unanswered, Learnt, LogicOf, L2Walked, EndlessTags, T.ArpFrame,
         Staying;
    var burst := ArpFrames(n);
    var env := RxRefresh.Unchanging(job.sinks, n);
    ghost var cfg, first := job.device.config, job.sinks;
    ArpFramesWalk(burst);
    assert job.BurstFits(burst, job.OpeningTable(env));
    var _, p, snaps := job.Process(burst, env);
    ArpFramesParked(cfg, burst, p, first, snaps, env.views);
  }

  function ArpFrames(n: nat): (burst: seq<Mbuf>)
    ensures |burst| == n && forall i :: 0 <= i < n ==> burst[i] == T.ArpFrame(i)
  {
    seq(n, i requires 0 <= i < n => T.ArpFrame(i))
  }

  lemma ArpFramesParked(cfg: Config, burst: seq<Mbuf>, p: Progress, first: Table, snaps: seq<Table>, views: seq<Table>)
    requires forall i :: 0 <= i < |burst| ==> burst[i].Valid() && burst[i] == T.ArpFrame(i)
    requires Settled(LogicOf(cfg), WalkAll(burst), p)
    requires History(LogicOf(cfg), WalkAll(burst), p.routes, first, snaps, views)
    ensures |p.parked| == |burst|
  {
    hide RouteOf, LogicOf, Leftover, Delivered, Dropped, Reclaimed, Flatten;
    ArpFramesStay(cfg, burst, p.routes, snaps);
  }

  lemma ArpFramesWalk(burst: seq<Mbuf>)
    requires forall i :: 0 <= i < |burst| ==> burst[i] == T.ArpFrame(i)
    ensures forall i :: 0 <= i < |burst| ==> burst[i].Valid() && !EndlessTags(burst[i])
  {
    forall i | 0 <= i < |burst|
      ensures !EndlessTags(burst[i])
    {
      T.ArpFrameStays(Config([0, 0, 0, 0, 0, 0], [0, 0, 0, 0], false, false, false), [], i);
    }
  }

  lemma ArpFramesStay(cfg: Config, burst: seq<Mbuf>, routes: seq<Route>, snaps: seq<Table>)
    requires forall i :: 0 <= i < |burst| ==> burst[i].Valid() && burst[i] == T.ArpFrame(i)
    requires |routes| == |burst| <= |snaps|
    requires forall i :: 0 <= i < |burst| ==> routes[i] == RouteOf(LogicOf(cfg), snaps[i], WalkAll(burst)[i])
    ensures |Leftover(WalkAll(burst), routes)| == |burst|
  {
    forall i | 0 <= i < |burst|
      ensures routes[i] == Serve
    {
      T.ArpFrameStays(cfg, snaps[i], i);
    }
    T.AllLeftOver(WalkAll(burst), routes);
  }

  // ---- order -----------------------------------------------------------------------------

  lemma ServedStep(pl: PacketLogic, rest: seq<Mbuf>, accepts: seq<bool>, k: nat)
    requires 0 < k <= |rest| && k <= |accepts|
    ensures Answered(pl, rest, accepts, k)
         == Answered(pl, rest, accepts, k - 1) + Sent(pl, rest[k - 1], accepts[k - 1])
    ensures Unanswered(pl, rest, accepts, k)
         == Unanswered(pl, rest, accepts, k - 1) + Unsent(pl, rest[k - 1], accepts[k - 1])
  {
  }

  lemma NoneServed(pl: PacketLogic, rest: seq<Mbuf>, accepts: seq<bool>)
    ensures Answered(pl, rest, accepts, 0) == [] == Unanswered(pl, rest, accepts, 0)
  {
  }

  lemma SentOrLeft(pl: PacketLogic, m: Mbuf)
    ensures pl.answer(m).Some? ==> Sent(pl, m, true) == [pl.answer(m).value] && Unsent(pl, m, true) == []
    ensures pl.answer(m).None? ==> forall accept :: Sent(pl, m, accept) == [] && Unsent(pl, m, accept) == [m]
  {
  }

  /** Packets that are all answered and all taken by the ring leave in their order. */
  lemma {:induction false} AnswersKeepOrder(pl: PacketLogic, rest: seq<Mbuf>, accepts: seq<bool>, k: nat)
    requires k <= |rest| <= |accepts|
    requires forall i :: 0 <= i < |rest| ==> accepts[i] && pl.answer(rest[i]).Some?
    ensures |Answered(pl, rest, accepts, k)| == k && Unanswered(pl, rest, accepts, k) == []
    ensures forall i :: 0 <= i < k ==> Answered(pl, rest, accepts, k)[i] == pl.answer(rest[i]).value
  {
    hide Answered, Unanswered, Sent, Unsent;
    if k == 0 {
      NoneServed(pl, rest, accepts);
    } else {
      AnswersKeepOrder(pl, rest, accepts, k - 1);
      ServedStep(pl, rest, accepts, k);
      SentOrLeft(pl, rest[k - 1]);
    }
  }

  /** Packets without an answer are left in their order. */
  lemma {:induction false} LeftoversKeepOrder(pl: PacketLogic, rest: seq<Mbuf>, accepts: seq<bool>, k: nat)
    requires k <= |rest| <= |accepts| && forall i :: 0 <= i < |rest| ==> pl.answer(rest[i]).None?
    ensures Answered(pl, rest, accepts, k) == [] && Unanswered(pl, rest, accepts, k) == rest[..k]
  {
    hide Answered, Unanswered, Sent, Unsent;
    if k == 0 {
      NoneServed(pl, rest, accepts);
    } else {
      LeftoversKeepOrder(pl, rest, accepts, k - 1);
      ServedStep(pl, rest, accepts, k);
      SentOrLeft(pl, rest[k - 1]);
      assert rest[..k] == rest[..k - 1] + [rest[k - 1]];
    }
  }
}
