/** Specification of the receive path: what happens to each packet of a burst
    when packets are looked at one at a time, with no batching, no cache and no
    shared array (dpdkx/device.cpp:86-171). */
module RxSpec {
  import opened Bytes
  import opened Collections
  import opened Frame
  import opened Sinks
  import opened Service

  const MAX_PKT_BURST: nat := 256
  const PROTO_UDP: Byte := 17
  const UDP_HEADER: nat := 8

  // ---- reading one packet -------------------------------------------------

  datatype Kind = Broken | Udp(port: U16) | Other

  function KindOf(m: Mbuf): Kind
    requires m.Walked()
  {
    if EthProto(m) == 0 then Broken
    else if EthProto(m) == TYPE_IPV4 && m.room[m.l2Len + 9] == PROTO_UDP then
      var at := m.l2Len + Ip4HeaderLen(m);
      if m.dataLen < at + UDP_HEADER || m.dataLen < at + Be16(m.room, at + 4) then Broken
      else Udp(Be16(m.room, at + 2))
    else Other
  }

  /** The layer lengths a channel finds in what it receives. */
  function Prepared(m: Mbuf): Mbuf
    requires m.Walked()
  {
    m.(l3Len := Ip4HeaderLen(m), l4Len := UDP_HEADER)
  }

  /** The decisions the receive path takes from the bytes of one packet.  The
      plumbing around them is proved for any such decisions. */
  datatype PacketLogic = PacketLogic(
    kindOf: Mbuf -> Kind,
    prepare: Mbuf -> Mbuf,
    answer: Mbuf -> Option<Mbuf>,
    lesson: Mbuf -> Option<(Ip4, Mac)>)
  {
    /** Editing a packet does not make it another packet. */
    ghost predicate KeepsIdentity() {
      forall m :: prepare(m).id == m.id && (answer(m).Some? ==> answer(m).value.id == m.id)
    }
  }

  /** The decisions this device takes. */
  function LogicOf(cfg: Config): PacketLogic {
    PacketLogic(
      (m: Mbuf) => if m.Walked() then KindOf(m) else Broken,
      (m: Mbuf) => if m.Walked() then Prepared(m) else m,
      (m: Mbuf) => if m.Walked() then Answer(cfg, m) else None,
      (m: Mbuf) => if m.Walked() && TeachesArp(cfg, m) then Some((ArpSenderIp(m), ArpSenderMac(m))) else None)
  }

  lemma LogicKeepsIdentity(cfg: Config)
    ensures LogicOf(cfg).KeepsIdentity()
  {
  }

  /** The burst behind the `update_l2size` pass. */
  function WalkAll(burst: seq<Mbuf>): (rx: seq<Mbuf>)
    requires forall i :: 0 <= i < |burst| ==> burst[i].Valid()
    ensures |rx| == |burst|
  {
    seq(|burst|, i requires 0 <= i < |burst| => burst[i].(l2Len := L2Walked(burst[i])))
  }

  // ---- routing one packet -------------------------------------------------

  datatype Route = Drop | Serve | Deliver(channel: Channel)

  /** Where a packet goes, given the sink table in force. */
  function RouteOf(pl: PacketLogic, t: Table, m: Mbuf): Route {
    match pl.kindOf(m)
    case Broken => Drop
    case Other => Serve
    case Udp(port) => match Lookup(t, port)
      case Some(channel) => Deliver(channel)
      case None => Serve
  }

  /** How many of the first k packets the table leaves to the service stage. */
  function Staying(pl: PacketLogic, t: Table, rx: seq<Mbuf>, k: nat): (n: nat)
    requires k <= |rx|
    ensures n <= k
  {
    if k == 0 then 0 else Staying(pl, t, rx, k - 1) + if RouteOf(pl, t, rx[k - 1]) == Serve then 1 else 0
  }

  lemma {:induction false} StayingGrows(pl: PacketLogic, t: Table, rx: seq<Mbuf>, j: nat, k: nat)
    requires j <= k <= |rx|
    ensures Staying(pl, t, rx, j) <= Staying(pl, t, rx, k)
  {
    if j < k {
      StayingGrows(pl, t, rx, j, k - 1);
    }
  }

  /** A packet a grown table leaves to the service stage, the table before left there too. */
  lemma ServeStays(pl: PacketLogic, t: Table, t': Table, m: Mbuf)
    requires t <= t' && RouteOf(pl, t', m) == Serve
    ensures RouteOf(pl, t, m) == Serve
  {
    var kind := pl.kindOf(m);
    if kind.Udp? {
      LookupStable(t, t'[|t|..], kind.port);
      assert t + t'[|t|..] == t';
      if forall j :: 0 <= j < |t| ==> t[j].port != kind.port {
        LookupNone(t, kind.port);
      }
    }
  }

  /** So a grown table leaves no more of a burst. */
  lemma {:induction false} StayingShrinks(pl: PacketLogic, t: Table, t': Table, rx: seq<Mbuf>, k: nat)
    requires t <= t' && k <= |rx|
    ensures Staying(pl, t', rx, k) <= Staying(pl, t, rx, k)
  {
    if k > 0 {
      StayingShrinks(pl, t, t', rx, k - 1);
      if RouteOf(pl, t', rx[k - 1]) == Serve {
        ServeStays(pl, t, t', rx[k - 1]);
      }
    }
  }

  /** There is room for packet i behind those parked before, if there is for all
      that the first table leaves. */
  lemma RoomToPark(pl: PacketLogic, first: Table, t: Table, rx: seq<Mbuf>, i: nat)
    requires first <= t && i < |rx|
    ensures Staying(pl, first, rx, i) <= Staying(pl, first, rx, i + 1)
    ensures RouteOf(pl, t, rx[i]) == Serve ==>
              && Staying(pl, first, rx, i) + 1 == Staying(pl, first, rx, i + 1)
              && Staying(pl, first, rx, i) < Staying(pl, first, rx, |rx|)
  {
    if RouteOf(pl, t, rx[i]) == Serve {
      ServeStays(pl, first, t, rx[i]);
      StayingGrows(pl, first, rx, i + 1, |rx|);
    }
  }

  // ---- one burst, packet by packet ----------------------------------------

  function Delivered(pl: PacketLogic, rx: seq<Mbuf>, routes: seq<Route>): seq<(Channel, Mbuf)>
    requires |rx| == |routes|
  {
    if |rx| == 0 then []
    else
      var i := |rx| - 1;
      var before := Delivered(pl, rx[..i], routes[..i]);
      if routes[i].Deliver? then before + [(routes[i].channel, pl.prepare(rx[i]))] else before
  }

  function Dropped(rx: seq<Mbuf>, routes: seq<Route>): seq<Mbuf>
    requires |rx| == |routes|
  {
    if |rx| == 0 then []
    else
      var i := |rx| - 1;
      var before := Dropped(rx[..i], routes[..i]);
      if routes[i].Drop? then before + [rx[i]] else before
  }

  function Leftover(rx: seq<Mbuf>, routes: seq<Route>): (r: seq<Mbuf>)
    requires |rx| == |routes|
    ensures |r| <= |rx|
  {
    if |rx| == 0 then []
    else
      var i := |rx| - 1;
      var before := Leftover(rx[..i], routes[..i]);
      if routes[i].Serve? then before + [rx[i]] else before
  }

  /** Looking at one packet more. */
  lemma OneMore(pl: PacketLogic, rx: seq<Mbuf>, routes: seq<Route>, m: Mbuf, route: Route)
    requires |rx| == |routes|
    ensures Delivered(pl, rx + [m], routes + [route])
         == Delivered(pl, rx, routes) + if route.Deliver? then [(route.channel, pl.prepare(m))] else []
    ensures Dropped(rx + [m], routes + [route]) == Dropped(rx, routes) + if route.Drop? then [m] else []
    ensures Leftover(rx + [m], routes + [route]) == Leftover(rx, routes) + if route.Serve? then [m] else []
  {
    assert (rx + [m])[..|rx|] == rx;
    assert (routes + [route])[..|routes|] == routes;
  }

  // ---- what channels were handed ------------------------------------------

  /** One call of a channel's `enqueue`: how many of the buffers, from the
      start, the channel gave back, and whether the caller freed those. */
  datatype Batch = Batch(channel: Channel, mbufs: seq<Mbuf>, returned: nat, reclaimed: bool) {
    predicate Valid() {
      returned <= |mbufs|
    }
  }

  predicate AllValid(batches: seq<Batch>) {
    forall i :: 0 <= i < |batches| ==> batches[i].Valid()
  }

  function Tagged(channel: Channel, mbufs: seq<Mbuf>): seq<(Channel, Mbuf)> {
    seq(|mbufs|, i requires 0 <= i < |mbufs| => (channel, mbufs[i]))
  }

  /** All hand-overs, in order, as if every packet had come alone. */
  function Flatten(batches: seq<Batch>): seq<(Channel, Mbuf)> {
    if |batches| == 0 then []
    else
      var b := batches[|batches| - 1];
      Flatten(batches[..|batches| - 1]) + Tagged(b.channel, b.mbufs)
  }

  /** Buffers that stay with the channels. */
  function Kept(batches: seq<Batch>): seq<Mbuf>
    requires AllValid(batches)
  {
    if |batches| == 0 then []
    else
      var b := batches[|batches| - 1];
      Kept(batches[..|batches| - 1]) + b.mbufs[b.returned..]
  }

  /** Buffers channels gave back and the caller freed. */
  function Reclaimed(batches: seq<Batch>): seq<Mbuf>
    requires AllValid(batches)
  {
    if |batches| == 0 then []
    else
      var b := batches[|batches| - 1];
      Reclaimed(batches[..|batches| - 1]) + if b.reclaimed then b.mbufs[..b.returned] else []
  }

  /** Buffers channels gave back and nobody freed. */
  function Leaked(batches: seq<Batch>): seq<Mbuf>
    requires AllValid(batches)
  {
    if |batches| == 0 then []
    else
      var b := batches[|batches| - 1];
      Leaked(batches[..|batches| - 1]) + if b.reclaimed then [] else b.mbufs[..b.returned]
  }

  lemma OneMoreBatch(batches: seq<Batch>, b: Batch)
    requires AllValid(batches) && b.Valid()
    ensures AllValid(batches + [b])
    ensures Flatten(batches + [b]) == Flatten(batches) + Tagged(b.channel, b.mbufs)
    ensures Reclaimed(batches + [b]) == Reclaimed(batches) + if b.reclaimed then b.mbufs[..b.returned] else []
  {
    assert (batches + [b])[..|batches|] == batches;
  }

  // ---- a burst half dispatched ---------------------------------------------

  /** Where the packets looked at so far are: `waiting` for a channel, `parked`
      for the service stage, handed over in `batches`, or `freed`. */
  datatype Progress = Progress(routes: seq<Route>, waiting: seq<Mbuf>, parked: seq<Mbuf>,
                               batches: seq<Batch>, freed: seq<Mbuf>)

  /** The packets looked at are where looking at them one at a time would put
      them, once those that wait are handed to `channel`. */
  ghost predicate Accounted(pl: PacketLogic, rx: seq<Mbuf>, p: Progress, channel: Channel) {
    && |p.routes| <= |rx| && AllValid(p.batches)
    && var seen := rx[..|p.routes|];
    && p.parked == Leftover(seen, p.routes)
    && Flatten(p.batches) + Tagged(channel, p.waiting) == Delivered(pl, seen, p.routes)
    && multiset(p.freed) == multiset(Dropped(seen, p.routes)) + multiset(Reclaimed(p.batches))
  }

  function Taken(pl: PacketLogic, p: Progress, channel: Channel, m: Mbuf): Progress {
    p.(routes := p.routes + [Deliver(channel)], waiting := p.waiting + [pl.prepare(m)])
  }

  function Discarded(p: Progress, m: Mbuf): Progress {
    p.(routes := p.routes + [Drop], freed := p.freed + [m])
  }

  function SetAside(p: Progress, m: Mbuf): Progress {
    p.(routes := p.routes + [Serve], parked := p.parked + [m])
  }

  function Flushed(p: Progress, channel: Channel, returned: nat, reclaim: bool): Progress
    requires returned <= |p.waiting|
  {
    p.(waiting := [], batches := p.batches + [Batch(channel, p.waiting, returned, reclaim)],
       freed := p.freed + if reclaim then p.waiting[..returned] else [])
  }

  lemma NextSeen(rx: seq<Mbuf>, i: nat)
    requires i < |rx|
    ensures rx[..i + 1] == rx[..i] + [rx[i]]
  {
  }

  lemma TakenAccounted(pl: PacketLogic, rx: seq<Mbuf>, p: Progress, channel: Channel)
    requires Accounted(pl, rx, p, channel) && |p.routes| < |rx|
    ensures Accounted(pl, rx, Taken(pl, p, channel, rx[|p.routes|]), channel)
  {
    var i := |p.routes|;
    NextSeen(rx, i);
    OneMore(pl, rx[..i], p.routes, rx[i], Deliver(channel));
    var more := [pl.prepare(rx[i])];
    assert Tagged(channel, p.waiting + more) == Tagged(channel, p.waiting) + Tagged(channel, more);
  }

  lemma DiscardedAccounted(pl: PacketLogic, rx: seq<Mbuf>, p: Progress, channel: Channel)
    requires Accounted(pl, rx, p, channel) && |p.routes| < |rx|
    ensures Accounted(pl, rx, Discarded(p, rx[|p.routes|]), channel)
  {
    var i := |p.routes|;
    NextSeen(rx, i);
    OneMore(pl, rx[..i], p.routes, rx[i], Drop);
  }

  lemma SetAsideAccounted(pl: PacketLogic, rx: seq<Mbuf>, p: Progress, channel: Channel)
    requires Accounted(pl, rx, p, channel) && |p.routes| < |rx|
    ensures Accounted(pl, rx, SetAside(p, rx[|p.routes|]), channel)
  {
    var i := |p.routes|;
    NextSeen(rx, i);
    OneMore(pl, rx[..i], p.routes, rx[i], Serve);
  }

  /** With nobody waiting, whom they would wait for does not matter. */
  lemma NobodyWaits(pl: PacketLogic, rx: seq<Mbuf>, p: Progress, channel: Channel, next: Channel)
    requires Accounted(pl, rx, p, channel) && p.waiting == []
    ensures Accounted(pl, rx, p, next)
  {
    assert Tagged(channel, []) == Tagged(next, []);
  }

  lemma FlushedAccounted(pl: PacketLogic, rx: seq<Mbuf>, p: Progress, channel: Channel, returned: nat, reclaim: bool)
    requires Accounted(pl, rx, p, channel) && returned <= |p.waiting|
    ensures forall next :: Accounted(pl, rx, Flushed(p, channel, returned, reclaim), next)
  {
    OneMoreBatch(p.batches, Batch(channel, p.waiting, returned, reclaim));
  }

  // ---- one step ------------------------------------------------------------

  /** Channels give back no more than they were given. */
  ghost predicate Sane(recycle: (Channel, seq<Mbuf>) -> nat) {
    forall c, mbufs :: recycle(c, mbufs) <= |mbufs|
  }

  function TargetOf(route: Route): Option<Channel> {
    if route.Deliver? then Some(route.channel) else None
  }

  /** The waiting run ends unless the next packet goes to the same channel. */
  ghost function Ended(p: Progress, channel: Channel, target: Option<Channel>,
                       recycle: (Channel, seq<Mbuf>) -> nat): Progress
    requires Sane(recycle)
  {
    if p.waiting != [] && target != Some(channel)
    then Flushed(p, channel, recycle(channel, p.waiting), target.Some?)
    else p
  }

  function Placed(pl: PacketLogic, p: Progress, m: Mbuf, route: Route): Progress {
    match route
    case Deliver(channel) => Taken(pl, p, channel, m)
    case Drop => Discarded(p, m)
    case Serve => SetAside(p, m)
  }

  ghost function Step(pl: PacketLogic, p: Progress, channel: Channel, m: Mbuf, route: Route,
                      recycle: (Channel, seq<Mbuf>) -> nat): Progress
    requires Sane(recycle)
  {
    Placed(pl, Ended(p, channel, TargetOf(route), recycle), m, route)
  }

  /** Whom the waiting packets wait for after a step. */
  function NextChannel(channel: Channel, route: Route): Channel {
    if route.Deliver? then route.channel else channel
  }

  lemma StepAccounted(pl: PacketLogic, rx: seq<Mbuf>, p: Progress, channel: Channel, route: Route,
                      recycle: (Channel, seq<Mbuf>) -> nat)
    requires Sane(recycle) && Accounted(pl, rx, p, channel) && |p.routes| < |rx|
    ensures Accounted(pl, rx, Step(pl, p, channel, rx[|p.routes|], route, recycle), NextChannel(channel, route))
  {
    var target, next := TargetOf(route), NextChannel(channel, route);
    var q := Ended(p, channel, target, recycle);
    if p.waiting != [] && target != Some(channel) {
      FlushedAccounted(pl, rx, p, channel, recycle(channel, p.waiting), target.Some?);
    } else if p.waiting == [] {
      NobodyWaits(pl, rx, p, channel, next);
    }
    assert Accounted(pl, rx, q, next);
    match route
    case Deliver(_) => TakenAccounted(pl, rx, q, next);
    case Drop => DiscardedAccounted(pl, rx, q, next);
    case Serve => SetAsideAccounted(pl, rx, q, next);
  }

  // ---- batches are maximal runs ----------------------------------------------

  /** Packets from..to of a burst go to one channel and their neighbours do not. */
  datatype Run = Run(from: nat, to: nat, channel: Channel)

  /** The maximal runs of consecutive packets for one channel. */
  function Runs(routes: seq<Route>): (runs: seq<Run>)
    ensures forall j :: 0 <= j < |runs| ==> runs[j].from < runs[j].to <= |routes|
  {
    if |routes| == 0 then []
    else
      var i := |routes| - 1;
      var runs := Runs(routes[..i]);
      var k := |runs| - 1;
      if !routes[i].Deliver? then runs
      else if k >= 0 && runs[k].to == i && runs[k].channel == routes[i].channel
      then runs[k := runs[k].(to := i + 1)]
      else runs + [Run(i, i + 1, routes[i].channel)]
  }

  function PreparedRun(pl: PacketLogic, rx: seq<Mbuf>, from: nat, to: nat): seq<Mbuf>
    requires from <= to <= |rx|
  {
    seq(to - from, k requires 0 <= k < to - from => pl.prepare(rx[from + k]))
  }

  /** The hand-over of a run: what comes back is freed only if the run was ended
      by a packet for another channel. */
  function BatchOf(pl: PacketLogic, rx: seq<Mbuf>, routes: seq<Route>, recycle: (Channel, seq<Mbuf>) -> nat,
                   run: Run): Batch
    requires run.from <= run.to <= |routes| && |routes| <= |rx|
  {
    var mbufs := PreparedRun(pl, rx, run.from, run.to);
    Batch(run.channel, mbufs, recycle(run.channel, mbufs), run.to < |routes| && routes[run.to].Deliver?)
  }

  /** The first runs, all ended, were handed over as these batches. */
  ghost predicate Closed(pl: PacketLogic, rx: seq<Mbuf>, routes: seq<Route>, batches: seq<Batch>,
                         recycle: (Channel, seq<Mbuf>) -> nat, runs: seq<Run>)
  {
    && |routes| <= |rx| && |batches| <= |runs|
    && forall j :: 0 <= j < |batches| ==>
         runs[j].from <= runs[j].to < |routes| && batches[j] == BatchOf(pl, rx, routes, recycle, runs[j])
  }

  /** The packets of a run that has not ended after i packets are waiting. */
  ghost predicate Open(pl: PacketLogic, rx: seq<Mbuf>, waiting: seq<Mbuf>, i: nat, channel: Channel, run: Run) {
    && |waiting| <= i <= |rx| && run == Run(i - |waiting|, i, channel)
    && waiting == PreparedRun(pl, rx, i - |waiting|, i)
  }

  /** Runs that have ended are handed over; the run that has not is waiting. */
  ghost predicate Batching(pl: PacketLogic, rx: seq<Mbuf>, p: Progress, channel: Channel,
                           recycle: (Channel, seq<Mbuf>) -> nat)
  {
    BatchingBy(pl, rx, p, channel, recycle, Runs(p.routes))
  }

  ghost predicate BatchingBy(pl: PacketLogic, rx: seq<Mbuf>, p: Progress, channel: Channel,
                             recycle: (Channel, seq<Mbuf>) -> nat, runs: seq<Run>)
  {
    && |runs| == |p.batches| + (if p.waiting == [] then 0 else 1)
    && Closed(pl, rx, p.routes, p.batches, recycle, runs)
    && (p.waiting != [] ==> Open(pl, rx, p.waiting, |p.routes|, channel, runs[|p.batches|]))
  }

  /** Only the runs that were handed over matter. */
  lemma ClosedSame(pl: PacketLogic, rx: seq<Mbuf>, routes: seq<Route>, batches: seq<Batch>,
                   recycle: (Channel, seq<Mbuf>) -> nat, runs: seq<Run>, runs': seq<Run>)
    requires Closed(pl, rx, routes, batches, recycle, runs)
    requires |batches| <= |runs'| && forall j :: 0 <= j < |batches| ==> runs'[j] == runs[j]
    ensures Closed(pl, rx, routes, batches, recycle, runs')
  {
  }

  /** Ended runs are not affected by what follows. */
  lemma ClosedStays(pl: PacketLogic, rx: seq<Mbuf>, routes: seq<Route>, batches: seq<Batch>,
                    recycle: (Channel, seq<Mbuf>) -> nat, runs: seq<Run>, route: Route)
    requires Closed(pl, rx, routes, batches, recycle, runs) && |routes| < |rx|
    ensures Closed(pl, rx, routes + [route], batches, recycle, runs)
  {
    forall j | 0 <= j < |batches|
      ensures batches[j] == BatchOf(pl, rx, routes + [route], recycle, runs[j])
    {
      assert (routes + [route])[runs[j].to] == routes[runs[j].to];
    }
  }

  /** Once the next route is known, every run that ended is handed over as it should be. */
  lemma ClosedRuns(pl: PacketLogic, rx: seq<Mbuf>, p: Progress, channel: Channel, route: Route,
                   recycle: (Channel, seq<Mbuf>) -> nat)
    requires Sane(recycle) && Batching(pl, rx, p, channel, recycle) && |p.routes| < |rx|
    ensures var q, runs := Ended(p, channel, TargetOf(route), recycle), Runs(p.routes);
            && |runs| == |q.batches| + (if q.waiting == [] then 0 else 1)
            && Closed(pl, rx, p.routes + [route], q.batches, recycle, runs)
  {
    ClosedStays(pl, rx, p.routes, p.batches, recycle, Runs(p.routes), route);
  }

  lemma RunsOneMore(routes: seq<Route>, route: Route)
    ensures var runs, i := Runs(routes), |routes|;
            Runs(routes + [route]) == (
              if !route.Deliver? then runs
              else if runs != [] && runs[|runs| - 1].to == i && runs[|runs| - 1].channel == route.channel
              then runs[|runs| - 1 := runs[|runs| - 1].(to := i + 1)]
              else runs + [Run(i, i + 1, route.channel)])
  {
    assert (routes + [route])[..|routes|] == routes;
  }

  lemma PreparedRunGrows(pl: PacketLogic, rx: seq<Mbuf>, from: nat, to: nat)
    requires from <= to < |rx|
    ensures PreparedRun(pl, rx, from, to + 1) == PreparedRun(pl, rx, from, to) + [pl.prepare(rx[to])]
  {
  }

  lemma StepBreaks(pl: PacketLogic, rx: seq<Mbuf>, p: Progress, channel: Channel, route: Route,
                   recycle: (Channel, seq<Mbuf>) -> nat)
    requires Sane(recycle) && Batching(pl, rx, p, channel, recycle) && |p.routes| < |rx| && !route.Deliver?
    ensures Batching(pl, rx, Step(pl, p, channel, rx[|p.routes|], route, recycle), channel, recycle)
  {
    ClosedRuns(pl, rx, p, channel, route, recycle);
    RunsOneMore(p.routes, route);
  }

  lemma OpenGrows(pl: PacketLogic, rx: seq<Mbuf>, waiting: seq<Mbuf>, i: nat, channel: Channel, run: Run)
    requires Open(pl, rx, waiting, i, channel, run) && i < |rx|
    ensures Open(pl, rx, waiting + [pl.prepare(rx[i])], i + 1, channel, run.(to := i + 1))
  {
    PreparedRunGrows(pl, rx, i - |waiting|, i);
  }

  /** The last of the runs with one more packet. */
  function Prolonged(runs: seq<Run>, i: nat): seq<Run>
    requires runs != []
  {
    runs[|runs| - 1 := runs[|runs| - 1].(to := i + 1)]
  }

  lemma ProlongsBy(pl: PacketLogic, rx: seq<Mbuf>, p: Progress, channel: Channel,
                   recycle: (Channel, seq<Mbuf>) -> nat, runs: seq<Run>)
    requires BatchingBy(pl, rx, p, channel, recycle, runs) && |p.routes| < |rx| && p.waiting != []
    ensures BatchingBy(pl, rx, Taken(pl, p, channel, rx[|p.routes|]), channel, recycle, Prolonged(runs, |p.routes|))
  {
    ClosedStays(pl, rx, p.routes, p.batches, recycle, runs, Deliver(channel));
    ClosedSame(pl, rx, p.routes + [Deliver(channel)], p.batches, recycle, runs, Prolonged(runs, |p.routes|));
    OpenGrows(pl, rx, p.waiting, |p.routes|, channel, runs[|p.batches|]);
  }

  lemma StepProlongs(pl: PacketLogic, rx: seq<Mbuf>, p: Progress, channel: Channel,
                     recycle: (Channel, seq<Mbuf>) -> nat)
    requires Sane(recycle) && Batching(pl, rx, p, channel, recycle) && |p.routes| < |rx| && p.waiting != []
    ensures Batching(pl, rx, Taken(pl, p, channel, rx[|p.routes|]), channel, recycle)
  {
    ProlongsBy(pl, rx, p, channel, recycle, Runs(p.routes));
    RunsOneMore(p.routes, Deliver(channel));
  }

  lemma StartsBy(pl: PacketLogic, rx: seq<Mbuf>, q: Progress, next: Channel,
                 recycle: (Channel, seq<Mbuf>) -> nat, runs: seq<Run>)
    requires |q.routes| < |rx| && q.waiting == [] && |runs| == |q.batches|
    requires Closed(pl, rx, q.routes + [Deliver(next)], q.batches, recycle, runs)
    ensures BatchingBy(pl, rx, Taken(pl, q, next, rx[|q.routes|]), next, recycle,
                       runs + [Run(|q.routes|, |q.routes| + 1, next)])
  {
    var i := |q.routes|;
    ClosedSame(pl, rx, q.routes + [Deliver(next)], q.batches, recycle, runs, runs + [Run(i, i + 1, next)]);
    OpenGrows(pl, rx, [], i, next, Run(i, i, next));
  }

  /** With all runs handed over, a packet that prolongs none starts the next. */
  lemma StartsRun(pl: PacketLogic, rx: seq<Mbuf>, q: Progress, next: Channel, recycle: (Channel, seq<Mbuf>) -> nat)
    requires |q.routes| < |rx| && q.waiting == [] && |Runs(q.routes)| == |q.batches|
    requires Closed(pl, rx, q.routes + [Deliver(next)], q.batches, recycle, Runs(q.routes))
    requires var runs := Runs(q.routes);
             runs == [] || runs[|runs| - 1].to != |q.routes| || runs[|runs| - 1].channel != next
    ensures Batching(pl, rx, Taken(pl, q, next, rx[|q.routes|]), next, recycle)
  {
    StartsBy(pl, rx, q, next, recycle, Runs(q.routes));
    RunsOneMore(q.routes, Deliver(next));
  }

  lemma StepStarts(pl: PacketLogic, rx: seq<Mbuf>, p: Progress, channel: Channel, next: Channel,
                   recycle: (Channel, seq<Mbuf>) -> nat)
    requires Sane(recycle) && Batching(pl, rx, p, channel, recycle) && |p.routes| < |rx|
    requires p.waiting == [] || next != channel
    ensures Batching(pl, rx, Step(pl, p, channel, rx[|p.routes|], Deliver(next), recycle), next, recycle)
  {
    ClosedRuns(pl, rx, p, channel, Deliver(next), recycle);
    StartsRun(pl, rx, Ended(p, channel, Some(next), recycle), next, recycle);
  }

  lemma StepBatching(pl: PacketLogic, rx: seq<Mbuf>, p: Progress, channel: Channel, route: Route,
                     recycle: (Channel, seq<Mbuf>) -> nat)
    requires Sane(recycle) && Batching(pl, rx, p, channel, recycle) && |p.routes| < |rx|
    ensures Batching(pl, rx, Step(pl, p, channel, rx[|p.routes|], route, recycle), NextChannel(channel, route), recycle)
  {
    if !route.Deliver? {
      StepBreaks(pl, rx, p, channel, route, recycle);
    } else if p.waiting != [] && route.channel == channel {
      StepProlongs(pl, rx, p, channel, recycle);
    } else {
      StepStarts(pl, rx, p, channel, route.channel, recycle);
    }
  }

  /** All of the burst is dispatched and nobody waits: batches are the maximal runs. */
  ghost predicate Batched(pl: PacketLogic, rx: seq<Mbuf>, p: Progress, recycle: (Channel, seq<Mbuf>) -> nat) {
    && |p.routes| == |rx| && |p.batches| == |Runs(p.routes)|
    && forall j :: 0 <= j < |p.batches| ==> p.batches[j] == BatchOf(pl, rx, p.routes, recycle, Runs(p.routes)[j])
  }

  lemma LastRunBatched(pl: PacketLogic, rx: seq<Mbuf>, p: Progress, channel: Channel,
                       recycle: (Channel, seq<Mbuf>) -> nat)
    requires Sane(recycle) && Batching(pl, rx, p, channel, recycle) && |p.routes| == |rx|
    ensures Batched(pl, rx, Ended(p, channel, None, recycle), recycle)
  {
    hide Runs, PreparedRun;
  }

  /** The whole burst is dispatched: channels got, in arrival order, exactly what
      they would have got one packet at a time; broken packets and what channels
      gave back in time are freed; the rest is left for the service stage. */
  ghost predicate Settled(pl: PacketLogic, rx: seq<Mbuf>, p: Progress) {
    && |p.routes| == |rx| && p.waiting == [] && AllValid(p.batches)
    && p.parked == Leftover(rx, p.routes)
    && Flatten(p.batches) == Delivered(pl, rx, p.routes)
    && multiset(p.freed) == multiset(Dropped(rx, p.routes)) + multiset(Reclaimed(p.batches))
  }

  lemma AccountedIsSettled(pl: PacketLogic, rx: seq<Mbuf>, p: Progress, channel: Channel)
    requires Accounted(pl, rx, p, channel) && p.waiting == [] && |p.routes| == |rx|
    ensures Settled(pl, rx, p)
  {
    assert rx[..|p.routes|] == rx;
    assert Flatten(p.batches) + Tagged(channel, []) == Flatten(p.batches);
  }

  const NOTHING_DONE := Progress([], [], [], [], [])

  lemma NothingAccounted(pl: PacketLogic, rx: seq<Mbuf>, channel: Channel)
    ensures Accounted(pl, rx, NOTHING_DONE, channel)
  {
  }

  // ---- which table a packet was routed by -----------------------------------

  /** Packet k was routed by a linear search of the table snaps[k].  The tables
      only grow: each extends `first` and the ones before it, and is a prefix of
      what was published when the packet was looked at. */
  ghost predicate History(pl: PacketLogic, rx: seq<Mbuf>, routes: seq<Route>,
                          first: Table, snaps: seq<Table>, views: seq<Table>)
  {
    && |routes| == |snaps| <= |rx| && |snaps| < |views|
    && (forall k :: 0 <= k < |snaps| ==> routes[k] == RouteOf(pl, snaps[k], rx[k]))
    && (forall k :: 0 <= k < |snaps| ==> first <= snaps[k] <= views[k + 1])
    && forall k, l :: 0 <= k < l < |snaps| ==> snaps[k] <= snaps[l]
  }

  /** Everything the specification says about the packets looked at so far. */
  ghost predicate Ledger(pl: PacketLogic, rx: seq<Mbuf>, p: Progress, channel: Channel,
                         recycle: (Channel, seq<Mbuf>) -> nat,
                         first: Table, snaps: seq<Table>, views: seq<Table>)
  {
    && Accounted(pl, rx, p, channel) && Batching(pl, rx, p, channel, recycle)
    && History(pl, rx, p.routes, first, snaps, views)
  }

  lemma StepKeepsLedger(pl: PacketLogic, rx: seq<Mbuf>, p: Progress, channel: Channel,
                        recycle: (Channel, seq<Mbuf>) -> nat,
                        first: Table, snaps: seq<Table>, views: seq<Table>, t: Table)
    requires Sane(recycle) && Ledger(pl, rx, p, channel, recycle, first, snaps, views)
    requires |p.routes| < |rx| && |snaps| + 1 < |views|
    requires first <= t <= views[|snaps| + 1] && forall k :: 0 <= k < |snaps| ==> snaps[k] <= t
    ensures var route := RouteOf(pl, t, rx[|p.routes|]);
            Ledger(pl, rx, Step(pl, p, channel, rx[|p.routes|], route, recycle), NextChannel(channel, route), recycle,
                   first, snaps + [t], views)
  {
    var route := RouteOf(pl, t, rx[|p.routes|]);
    StepAccounted(pl, rx, p, channel, route, recycle);
    StepBatching(pl, rx, p, channel, route, recycle);
    StepRoutes(pl, p, channel, rx[|p.routes|], route, recycle);
    OneMoreRouted(pl, rx, p.routes, first, snaps, views, t);
  }

  lemma StepRoutes(pl: PacketLogic, p: Progress, channel: Channel, m: Mbuf, route: Route,
                   recycle: (Channel, seq<Mbuf>) -> nat)
    requires Sane(recycle)
    ensures Step(pl, p, channel, m, route, recycle).routes == p.routes + [route]
  {
  }

  /** The ledger after i packets, whose tables are all prefixes of the one in force. */
  ghost predicate Recorded(pl: PacketLogic, rx: seq<Mbuf>, p: Progress, channel: Channel,
                           recycle: (Channel, seq<Mbuf>) -> nat,
                           first: Table, snaps: seq<Table>, views: seq<Table>, now: Table, i: nat)
  {
    && Ledger(pl, rx, p, channel, recycle, first, snaps, views) && |snaps| == i
    && forall k :: 0 <= k < |snaps| ==> snaps[k] <= now
  }

  lemma RecordStep(pl: PacketLogic, rx: seq<Mbuf>, p: Progress, channel: Channel,
                   recycle: (Channel, seq<Mbuf>) -> nat,
                   first: Table, snaps: seq<Table>, views: seq<Table>, now: Table, i: nat, t: Table)
    requires Sane(recycle) && Recorded(pl, rx, p, channel, recycle, first, snaps, views, now, i)
    requires |p.routes| == i < |rx| && i + 1 < |views| && now <= t && first <= t <= views[i + 1]
    ensures var route := RouteOf(pl, t, rx[i]);
            Recorded(pl, rx, Step(pl, p, channel, rx[i], route, recycle), NextChannel(channel, route), recycle,
                     first, snaps + [t], views, t, i + 1)
  {
    PrefixesStay(snaps, now, t);
    StepKeepsLedger(pl, rx, p, channel, recycle, first, snaps, views, t);
  }

  lemma PrefixesStay(snaps: seq<Table>, now: Table, t: Table)
    requires now <= t && forall k :: 0 <= k < |snaps| ==> snaps[k] <= now
    ensures forall k :: 0 <= k < |snaps| ==> snaps[k] <= t
  {
  }

  lemma NothingInLedger(pl: PacketLogic, rx: seq<Mbuf>, channel: Channel, recycle: (Channel, seq<Mbuf>) -> nat,
                        first: Table, views: seq<Table>)
    requires |views| > 0
    ensures Ledger(pl, rx, NOTHING_DONE, channel, recycle, first, [], views)
  {
    NothingAccounted(pl, rx, channel);
  }

  lemma OneMoreRouted(pl: PacketLogic, rx: seq<Mbuf>, routes: seq<Route>,
                      first: Table, snaps: seq<Table>, views: seq<Table>, t: Table)
    requires History(pl, rx, routes, first, snaps, views) && |snaps| + 1 < |views| && |snaps| < |rx|
    requires first <= t <= views[|snaps| + 1] && forall k :: 0 <= k < |snaps| ==> snaps[k] <= t
    ensures History(pl, rx, routes + [RouteOf(pl, t, rx[|snaps|])], first, snaps + [t], views)
  {
  }

  // ---- the service stage --------------------------------------------------

  /** What one packet adds to the service ring: its answer, if the ring takes it. */
  function Sent(pl: PacketLogic, m: Mbuf, accept: bool): seq<Mbuf> {
    if pl.answer(m).Some? && accept then [pl.answer(m).value] else []
  }

  /** What remains to be freed of one packet: the packet itself if it has no
      answer, the edited packet if the ring refused the answer. */
  function Unsent(pl: PacketLogic, m: Mbuf, accept: bool): seq<Mbuf> {
    if pl.answer(m).None? then [m] else if accept then [] else [pl.answer(m).value]
  }

  datatype ArpRecord = ArpRecord(mac: Mac, timestamp: U64)

  type ArpTable = map<Ip4, ArpRecord>

  const ZERO_MAC: Mac := [0, 0, 0, 0, 0, 0]

  /** What `arp4_` holds for an address that was asked for and not heard from. */
  const PENDING := ArpRecord(ZERO_MAC, 0)

  datatype Resolution = Resolved(mac: Mac) | TryAgain | NotSupported | NoBufferSpace

  /** The loopback test of `ether_address` looks at seven bits of the first octet. */
  predicate IsLoopback(ip: Ip4) {
    ip[0] % 128 == 127
  }

  /** The answer of `ether_address` when a buffer is or is not to be had. */
  function Resolve(cfg: Config, arp: ArpTable, ip: Ip4, hasBuffer: bool): Resolution {
    if IsLoopback(ip) then Resolved(cfg.mac)
    else if ip in arp then if arp[ip].timestamp != 0 then Resolved(arp[ip].mac) else TryAgain
    else if !cfg.arpTable then NotSupported
    else if hasBuffer then TryAgain
    else NoBufferSpace
  }

  /** An ARP request goes out for an address the table does not know. */
  predicate Asks(cfg: Config, arp: ArpTable, ip: Ip4) {
    !IsLoopback(ip) && ip !in arp && cfg.arpTable
  }

  function RequestBytes(cfg: Config, ip: Ip4): (r: seq<Byte>)
    ensures |r| == ETHER_HEADER + ARP_HEADER
  {
    [0xff, 0xff, 0xff, 0xff, 0xff, 0xff] + cfg.mac + BigEndian(TYPE_ARP, 2)
    + BigEndian(ARP_HRD_ETHER, 2) + BigEndian(TYPE_IPV4, 2) + [6, 4] + BigEndian(ARP_REQUEST, 2)
    + cfg.mac + cfg.ip + ZERO_MAC + ip
  }

  /** The request: broadcast, from this device, for `ip`. */
  function ArpRequest(cfg: Config, buffer: Mbuf, ip: Ip4): (m: Mbuf)
    requires buffer.Valid()
    ensures m.Walked() && m.id == buffer.id
  {
    buffer.(room := Splice(buffer.room, 0, RequestBytes(cfg, ip)), dataLen := ETHER_HEADER + ARP_HEADER,
            l2Len := ETHER_HEADER, olFlags := 0)
  }

  function Learn(pl: PacketLogic, arp: ArpTable, m: Mbuf, clock: U64): ArpTable {
    match pl.lesson(m)
    case Some((ip, mac)) => arp[ip := ArpRecord(mac, clock)]
    case None => arp
  }

  /** The answers on the ring after the first k packets. */
  function Answered(pl: PacketLogic, rest: seq<Mbuf>, accepts: seq<bool>, k: nat): seq<Mbuf>
    requires k <= |rest| && k <= |accepts|
  {
    if k == 0 then [] else Answered(pl, rest, accepts, k - 1) + Sent(pl, rest[k - 1], accepts[k - 1])
  }

  function Unanswered(pl: PacketLogic, rest: seq<Mbuf>, accepts: seq<bool>, k: nat): (r: seq<Mbuf>)
    requires k <= |rest| && k <= |accepts|
    ensures |r| <= k
  {
    if k == 0 then [] else Unanswered(pl, rest, accepts, k - 1) + Unsent(pl, rest[k - 1], accepts[k - 1])
  }

  /** The ARP table after the first k packets. */
  function Learnt(pl: PacketLogic, arp: ArpTable, rest: seq<Mbuf>, clocks: seq<U64>, k: nat): ArpTable
    requires k <= |rest| && k <= |clocks|
  {
    if k == 0 then arp else Learn(pl, Learnt(pl, arp, rest, clocks, k - 1), rest[k - 1], clocks[k - 1])
  }

  // ---- refresh counter ----------------------------------------------------

  /** The 16-bit counter behind the opening refresh of a call. */
  function Refreshed(checkpoint: U16, reloadCheckpoint: U16): U16 {
    if checkpoint >= reloadCheckpoint then 0 else checkpoint
  }

  /** No packet, or only service packets in a burst that was not full. */
  predicate Quiet(n: nat, leftover: nat, burstSize: nat) {
    n == 0 || (n == leftover && n != burstSize)
  }

  /** The counter at the end of a call; a quiet call adds two burst sizes more. */
  function Advanced(checkpoint: U16, burstSize: U16, quiet: bool): U16 {
    (checkpoint as int + (if quiet then 2 * burstSize as int else 0) + 1) % 0x1_0000
  }

  function AfterCall(checkpoint: U16, reloadCheckpoint: U16, burstSize: U16, quiet: bool): U16 {
    Advanced(Refreshed(checkpoint, reloadCheckpoint), burstSize, quiet)
  }
}
