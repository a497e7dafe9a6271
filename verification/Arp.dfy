/** Address resolution over whole runs of queries and received ARP packets
    (dpdkx/device.cpp:373-409 and 562-593). */
module Arp {
  import opened Bytes
  import opened Collections
  import opened Frame
  import opened Service
  import opened RxSpec
  import RxPath

  /** A query of the single caller, with the outcome of the buffer allocation
      and of the ring, or an ARP request or reply taken from the wire. */
  datatype Event =
    | Query(ip: Ip4, hasBuffer: bool, accept: bool)
    | Heard(sender: Ip4, mac: Mac, clock: U64)

  /** The table, and the addresses for which a request was put on the ring. */
  datatype State = State(arp: ArpTable, requests: seq<Ip4>)

  function Apply(cfg: Config, s: State, e: Event): State {
    match e
    case Query(ip, hasBuffer, accept) =>
      if Asks(cfg, s.arp, ip) && hasBuffer && accept
      then State(s.arp[ip := PENDING], s.requests + [ip]) else s
    case Heard(sender, mac, clock) =>
      if cfg.arpTable then s.(arp := s.arp[sender := ArpRecord(mac, clock)]) else s
  }

  function Run(cfg: Config, events: seq<Event>): State {
    if |events| == 0 then State(map[], [])
    else Apply(cfg, Run(cfg, events[..|events| - 1]), events[|events| - 1])
  }

  // ---- reference: read off the history ---------------------------------------

  /** The latest ARP packet from `ip`. */
  function LastHeard(events: seq<Event>, ip: Ip4): Option<ArpRecord> {
    if |events| == 0 then None
    else
      var e := events[|events| - 1];
      if e.Heard? && e.sender == ip then Some(ArpRecord(e.mac, e.clock))
      else LastHeard(events[..|events| - 1], ip)
  }

  /** Some query for `ip` put a request on the ring before anything was heard from it. */
  predicate Requested(events: seq<Event>, ip: Ip4) {
    |events| > 0 &&
    var rest, e := events[..|events| - 1], events[|events| - 1];
    || Requested(rest, ip)
    || (e.Query? && e.ip == ip && e.hasBuffer && e.accept && !IsLoopback(ip) && LastHeard(rest, ip).None?)
  }

  function CountOf(s: seq<Ip4>, ip: Ip4): nat {
    if |s| == 0 then 0 else CountOf(s[..|s| - 1], ip) + if s[|s| - 1] == ip then 1 else 0
  }

  /** The table entry and the requests for `ip`, given whether it was heard from
      and whether a request went out first. */
  predicate Matches(s: State, ip: Ip4, heard: Option<ArpRecord>, requested: bool) {
    && (ip in s.arp <==> heard.Some? || requested)
    && (ip in s.arp ==> s.arp[ip] == if heard.Some? then heard.value else PENDING)
    && CountOf(s.requests, ip) == if requested then 1 else 0
  }

  lemma CountOneMore(s: seq<Ip4>, x: Ip4, ip: Ip4)
    ensures CountOf(s + [x], ip) == CountOf(s, ip) + if x == ip then 1 else 0
  {
    assert (s + [x])[..|s|] == s;
  }

  lemma QueryMatches(cfg: Config, s: State, e: Event, ip: Ip4, heard: Option<ArpRecord>, requested: bool)
    requires cfg.arpTable && e.Query? && Matches(s, ip, heard, requested)
    ensures Matches(Apply(cfg, s, e), ip, heard,
                    requested || (e.ip == ip && e.hasBuffer && e.accept && !IsLoopback(ip) && heard.None?))
  {
    CountOneMore(s.requests, e.ip, ip);
  }

  /** In every run with the table enabled, the table is what the history says:
      the latest packet heard, else a pending mark if a request went out, else
      nothing; and at most one request ever goes out per address. */
  lemma {:induction false} TableIsHistory(cfg: Config, events: seq<Event>, ip: Ip4)
    requires cfg.arpTable
    ensures Matches(Run(cfg, events), ip, LastHeard(events, ip), Requested(events, ip))
  {
    if |events| > 0 {
      var rest, e := events[..|events| - 1], events[|events| - 1];
      TableIsHistory(cfg, rest, ip);
      if e.Query? {
        QueryMatches(cfg, Run(cfg, rest), e, ip, LastHeard(rest, ip), Requested(rest, ip));
      }
    }
  }

  /** With the table disabled nothing is learnt and nothing is asked. */
  lemma {:induction false} DisabledTableStaysEmpty(cfg: Config, events: seq<Event>)
    requires !cfg.arpTable
    ensures Run(cfg, events) == State(map[], [])
  {
    if |events| > 0 {
      DisabledTableStaysEmpty(cfg, events[..|events| - 1]);
    }
  }

  // ---- main results -----------------------------------------------------------

  /** A query succeeds exactly for addresses that begin with 127 or 255, which are
      taken for the device itself, and, with the table enabled, for addresses heard
      from with a non-zero clock; it then names the sender of the latest packet. */
  lemma QueryIsLatestSender(cfg: Config, events: seq<Event>, ip: Ip4, hasBuffer: bool)
    ensures Resolve(cfg, Run(cfg, events).arp, ip, hasBuffer)
         == if ip[0] == 127 || ip[0] == 255 then Resolved(cfg.mac)
            else if !cfg.arpTable then NotSupported
            else match LastHeard(events, ip)
              case Some(r) => if r.timestamp != 0 then Resolved(r.mac) else TryAgain
              case None => if Requested(events, ip) || hasBuffer then TryAgain else NoBufferSpace
  {
    if cfg.arpTable {
      TableIsHistory(cfg, events, ip);
    } else {
      DisabledTableStaysEmpty(cfg, events);
    }
  }

  /** At most one request per address, over every run. */
  lemma OneRequestPerAddress(cfg: Config, events: seq<Event>, ip: Ip4)
    ensures CountOf(Run(cfg, events).requests, ip) <= 1
  {
    if cfg.arpTable {
      TableIsHistory(cfg, events, ip);
    } else {
      DisabledTableStaysEmpty(cfg, events);
    }
  }

  datatype Stage = Absent | Pending | Known

  function StageOf(arp: ArpTable, ip: Ip4): Stage {
    if ip !in arp then Absent else if arp[ip].timestamp == 0 then Pending else Known
  }

  predicate NoLater(a: Stage, b: Stage) {
    a == Absent || (a == Pending && b != Absent) || (a == Known && b == Known)
  }

  /** The clock of every packet heard is running. */
  predicate ClockRuns(events: seq<Event>) {
    forall i :: 0 <= i < |events| && events[i].Heard? ==> events[i].clock != 0
  }

  /** With a running clock an address never moves back from known to pending or
      from pending to absent. */
  lemma {:induction false} StagesOnlyAdvance(cfg: Config, events: seq<Event>, ip: Ip4, earlier: nat)
    requires earlier <= |events| && ClockRuns(events)
    ensures NoLater(StageOf(Run(cfg, events[..earlier]).arp, ip), StageOf(Run(cfg, events).arp, ip))
  {
    if earlier == |events| {
      assert events[..earlier] == events;
    } else {
      var rest := events[..|events| - 1];
      assert rest[..earlier] == events[..earlier];
      StagesOnlyAdvance(cfg, rest, ip, earlier);
    }
  }

  /** A stopped clock does move an address back: the condition is needed. */
  lemma {:induction false} StoppedClockForgets(cfg: Config, ip: Ip4, mac: Mac)
    requires cfg.arpTable
    ensures var events := [Heard(ip, mac, 1), Heard(ip, mac, 0)];
            && StageOf(Run(cfg, events[..1]).arp, ip) == Known
            && StageOf(Run(cfg, events).arp, ip) == Pending
  {
    var events := [Heard(ip, mac, 1), Heard(ip, mac, 0)];
    assert events[..2][..1] == [Heard(ip, mac, 1)];
    assert [Heard(ip, mac, 1)][..0] == [];
  }

  // ---- the events are what the device does ------------------------------------

  /** The ARP packets among the first k service packets, as events. */
  function EventsOf(pl: PacketLogic, rest: seq<Mbuf>, clocks: seq<U64>, k: nat): seq<Event>
    requires k <= |rest| && k <= |clocks|
  {
    if k == 0 then []
    else EventsOf(pl, rest, clocks, k - 1) +
         match pl.lesson(rest[k - 1])
         case Some((ip, mac)) => [Heard(ip, mac, clocks[k - 1])]
         case None => []
  }

  /** Serving packets after a run is the run that also hears them. */
  lemma {:induction false} ServingIsHearing(cfg: Config, events: seq<Event>, rest: seq<Mbuf>, clocks: seq<U64>, k: nat)
    requires k <= |rest| && k <= |clocks|
    ensures Learnt(LogicOf(cfg), Run(cfg, events).arp, rest, clocks, k)
         == Run(cfg, events + EventsOf(LogicOf(cfg), rest, clocks, k)).arp
  {
    hide LogicOf, Run;
    var pl := LogicOf(cfg);
    if k == 0 {
      assert events + [] == events;
    } else {
      ServingIsHearing(cfg, events, rest, clocks, k - 1);
      var heard := events + EventsOf(pl, rest, clocks, k - 1);
      match pl.lesson(rest[k - 1])
      case Some((ip, mac)) =>
        var e := Heard(ip, mac, clocks[k - 1]);
        LessonNeedsTable(cfg, rest[k - 1]);
        assert events + EventsOf(pl, rest, clocks, k) == heard + [e];
        OneEventMore(cfg, heard, e);
      case None =>
        assert events + EventsOf(pl, rest, clocks, k) == heard;
    }
  }

  lemma OneEventMore(cfg: Config, events: seq<Event>, e: Event)
    ensures Run(cfg, events + [e]) == Apply(cfg, Run(cfg, events), e)
  {
    assert (events + [e])[..|events|] == events;
  }

  lemma LessonNeedsTable(cfg: Config, m: Mbuf)
    ensures LogicOf(cfg).lesson(m).Some? ==> cfg.arpTable
  {
  }

  /** A query of the device is the query of the run: same answer, same table, and a
      request on the ring exactly if the run records one. */
  method Ask(device: RxPath.Device, ip: Ip4, buffer: Option<Mbuf>, accept: bool, ghost events: seq<Event>)
    returns (r: Resolution)
    requires buffer.Some? ==> buffer.value.Valid()
    requires device.arp == Run(device.config, events).arp
    modifies device`arp, device`ring
    ensures var cfg, events' := device.config, events + [Query(ip, buffer.Some?, accept)];
            && device.arp == Run(cfg, events').arp
            && r == Resolve(cfg, Run(cfg, events).arp, ip, buffer.Some?)
            && (if Run(cfg, events').requests == Run(cfg, events).requests
                then device.ring == old(device.ring)
                else Run(cfg, events').requests == Run(cfg, events).requests + [ip] && buffer.Some?
                     && device.ring == old(device.ring) + [ArpRequest(cfg, buffer.value, ip)])
  {
    ghost var events' := events + [Query(ip, buffer.Some?, accept)];
    assert events'[..|events|] == events;
    ghost var lost;
    r, lost := device.EtherAddress(ip, buffer, accept);
  }

  // ---- the exchange on the wire ------------------------------------------------

  const BROADCAST: Mac := [255, 255, 255, 255, 255, 255]

  lemma RequestParts(cfg: Config, ip: Ip4)
    ensures var bytes := RequestBytes(cfg, ip);
            && bytes[0..6] == BROADCAST && bytes[6..12] == cfg.mac && bytes[12..22] == [8, 6, 0, 1, 8, 0, 6, 4, 0, 1]
            && bytes[22..28] == cfg.mac && bytes[28..32] == cfg.ip && bytes[38..42] == ip
  {
    TwoBytes(TYPE_ARP);
    TwoBytes(ARP_HRD_ETHER);
    TwoBytes(TYPE_IPV4);
    TwoBytes(ARP_REQUEST);
  }

  lemma RequestLayout(cfg: Config, buffer: Mbuf, ip: Ip4)
    requires buffer.Valid()
    ensures var room := ArpRequest(cfg, buffer, ip).room;
            && room[0..6] == BROADCAST && room[6..12] == cfg.mac && room[12..22] == [8, 6, 0, 1, 8, 0, 6, 4, 0, 1]
            && room[22..28] == cfg.mac && room[28..32] == cfg.ip && room[38..42] == ip
  {
    var room, bytes := ArpRequest(cfg, buffer, ip).room, RequestBytes(cfg, ip);
    RequestParts(cfg, ip);
    SpliceInside(buffer.room, 0, bytes);
    SliceOfSlice(room, 0, 42, 0, 6);
    SliceOfSlice(room, 0, 42, 6, 12);
    SliceOfSlice(room, 0, 42, 12, 22);
    SliceOfSlice(room, 0, 42, 22, 28);
    SliceOfSlice(room, 0, 42, 28, 32);
    SliceOfSlice(room, 0, 42, 38, 42);
  }

  lemma RequestKind(room: seq<Byte>)
    requires |room| >= 42 && room[12..22] == [8, 6, 0, 1, 8, 0, 6, 4, 0, 1]
    ensures Be16(room, 12) == TYPE_ARP && Be16(room, 14) == ARP_HRD_ETHER
    ensures Be16(room, 16) == TYPE_IPV4 && Be16(room, 20) == ARP_REQUEST
  {
    forall i | 12 <= i < 22
      ensures room[i] == room[12..22][i - 12]
    {
    }
  }

  lemma RequestFields(cfg: Config, buffer: Mbuf, ip: Ip4)
    requires buffer.Valid()
    ensures var r := ArpRequest(cfg, buffer, ip);
            && IsArp(r) && ArpOpcode(r) == ARP_REQUEST && r.l2Len == ETHER_HEADER
            && ArpSenderMac(r) == cfg.mac && ArpSenderIp(r) == cfg.ip && ArpTargetIp(r) == ip
            && r.room[0..6] == BROADCAST && r.room[6..12] == cfg.mac
  {
    RequestLayout(cfg, buffer, ip);
    RequestKind(ArpRequest(cfg, buffer, ip).room);
  }

  /** The whole exchange: the request is broadcast from the asker; exactly the device
      that owns the address answers it, and its answer goes to the asker, who learns
      the owner's MAC from it; the owner learns the asker's from the request. */
  lemma ArpExchange(asker: Config, owner: Config, buffer: Mbuf, ip: Ip4)
    requires buffer.Valid() && asker.arpTable && owner.arpTable
    ensures var request := ArpRequest(asker, buffer, ip);
            && request.dataLen == 42 && request.olFlags == 0
            && request.room[0..6] == BROADCAST && request.room[6..12] == asker.mac
            && (IsArpForUs(owner, request) <==> owner.ip == ip)
            && LogicOf(owner).lesson(request) == Some((asker.ip, asker.mac))
            && (owner.ip == ip ==>
                  && LogicOf(owner).answer(request) == Some(ArpAnswer(owner, request))
                  && ArpAnswer(owner, request).room[..6] == asker.mac
                  && ArpAnswer(owner, request).room[6..12] == owner.mac
                  && LogicOf(asker).lesson(ArpAnswer(owner, request)) == Some((ip, owner.mac)))
  {
    var request := ArpRequest(asker, buffer, ip);
    RequestFields(asker, buffer, ip);
    if owner.ip == ip {
      ArpAnswerIsReply(owner, request);
    }
  }
}

