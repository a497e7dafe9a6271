/** Flow queues and the NIC rules they own (dpdkx/flow/rx_queue.cpp:25-69,
    dpdkx/device.cpp:417-440). */
module FlowQueue {
  import opened Bytes
  import opened Collections
  import opened Sinks

  type Endpoint = (U32, U16)

  /** A rule in the NIC: UDP packets for an endpoint go to a queue. */
  datatype Rule = Rule(queue: nat, endpoint: Endpoint)

  /** The live rules by handle, the number of rules ever made and of operations
      ever asked for. */
  datatype Nic = Nic(live: map<nat, Rule>, made: nat, ops: nat)

  /** Whether the NIC carries out its k-th operation. */
  type Accepts = nat -> bool

  function Create(nic: Nic, rule: Rule, accepts: Accepts): (Nic, Option<nat>) {
    if accepts(nic.ops) then (Nic(nic.live[nic.made := rule], nic.made + 1, nic.ops + 1), Some(nic.made))
    else (nic.(ops := nic.ops + 1), None)
  }

  function Destroy(nic: Nic, handle: nat, accepts: Accepts): (Nic, bool) {
    (Nic(if accepts(nic.ops) then nic.live - {handle} else nic.live, nic.made, nic.ops + 1), accepts(nic.ops))
  }

  datatype Queue = Queue(id: nat, flows: seq<nat>, channel: Option<Channel>)

  datatype Status = Ok | NotStarted | NotDeleted | NotRouted | AlreadyJoined | NoReport

  // ---- the invariant ----------------------------------------------------------------

  /** The handles are exactly the live rules of the queue, each listed once. */
  ghost predicate Owns(flows: seq<nat>, id: nat, live: map<nat, Rule>) {
    && Distinct(flows)
    && forall h :: h in flows <==> h in live && live[h].queue == id
  }

  /** Handles are never given out twice. */
  ghost predicate Fresh(nic: Nic) {
    forall h :: h in nic.live ==> h < nic.made
  }

  /** The rules of all other queues stay as they are. */
  ghost predicate Touches(a: map<nat, Rule>, b: map<nat, Rule>, id: nat) {
    && (forall h :: h in a && a[h].queue != id ==> h in b && b[h] == a[h])
    && (forall h :: h in b && b[h].queue != id ==> h in a && b[h] == a[h])
  }

  /** What every operation of a queue keeps. */
  ghost predicate Keeps(q: Queue, nic: Nic, q': Queue, nic': Nic) {
    && q'.id == q.id && Owns(q'.flows, q.id, nic'.live) && Fresh(nic')
    && nic.made <= nic'.made && Touches(nic.live, nic'.live, q.id)
  }

  lemma CreateKeeps(q: Queue, nic: Nic, ep: Endpoint, accepts: Accepts)
    requires Owns(q.flows, q.id, nic.live) && Fresh(nic)
    ensures var (nic', handle) := Create(nic, Rule(q.id, ep), accepts);
            Keeps(q, nic, Listed(q, handle), nic')
  {
    OwnsWith(q.flows, nic.made, q.id, ep, nic.live);
  }

  /** The queue with a new handle, if there is one. */
  function Listed(q: Queue, handle: Option<nat>): Queue {
    if handle.Some? then q.(flows := q.flows + [handle.value]) else q
  }

  lemma OwnsWith(flows: seq<nat>, h: nat, id: nat, ep: Endpoint, live: map<nat, Rule>)
    requires Owns(flows, id, live) && h !in live
    ensures Owns(flows + [h], id, live[h := Rule(id, ep)])
  {
    forall g
      ensures g in flows + [h] <==> g in flows || g == h
    {
    }
  }

  // ---- sweep: try to destroy every flow ----------------------------------------------

  /** Those of the first k flows whose destruction fails; the sweep starts with
      operation `at`. */
  function Left(flows: seq<nat>, accepts: Accepts, at: nat, k: nat): (r: seq<nat>)
    requires k <= |flows|
    ensures |r| <= k
  {
    if k == 0 then []
    else Resisting(Left(flows, accepts, at, k - 1), flows[k - 1], accepts(at + k - 1))
  }

  /** The NIC after the first k flows of the sweep. */
  function Swept(flows: seq<nat>, accepts: Accepts, nic: Nic, k: nat): (r: Nic)
    requires k <= |flows|
    ensures r.ops == nic.ops + k && r.made == nic.made
  {
    if k == 0 then nic else Destroy(Swept(flows, accepts, nic, k - 1), flows[k - 1], accepts).0
  }

  /** In the middle of a sweep that has come to flow k. */
  ghost predicate Sweeping(flows: seq<nat>, id: nat, was: map<nat, Rule>, left: seq<nat>, live: map<nat, Rule>,
                           k: nat) {
    && k <= |flows| && Owns(left + flows[k..], id, live) && Touches(was, live, id)
    && (forall h :: h in live ==> h in was)
    && (forall h :: h in left ==> h in flows)
  }

  lemma {:induction false} SweepOwns(flows: seq<nat>, accepts: Accepts, id: nat, nic: Nic, k: nat)
    requires k <= |flows| && Owns(flows, id, nic.live)
    ensures Sweeping(flows, id, nic.live, Left(flows, accepts, nic.ops, k), Swept(flows, accepts, nic, k).live, k)
  {
    if k == 0 {
      SweepBegins(flows, id, nic.live);
    } else {
      SweepOwns(flows, accepts, id, nic, k - 1);
      SweepsOn(flows, id, nic.live, Left(flows, accepts, nic.ops, k - 1), Swept(flows, accepts, nic, k - 1),
               accepts, k - 1);
    }
  }

  lemma SweepBegins(flows: seq<nat>, id: nat, live: map<nat, Rule>)
    requires Owns(flows, id, live)
    ensures Sweeping(flows, id, live, [], live, 0)
  {
    assert [] + flows[0..] == flows;
  }

  /** left, with the flow behind it if it was not destroyed. */
  function Resisting(left: seq<nat>, flow: nat, gone: bool): seq<nat> {
    if gone then left else left + [flow]
  }

  lemma SweepsOn(flows: seq<nat>, id: nat, was: map<nat, Rule>, left: seq<nat>, nic: Nic, accepts: Accepts, k: nat)
    requires Sweeping(flows, id, was, left, nic.live, k) && k < |flows|
    ensures var (nic', gone) := Destroy(nic, flows[k], accepts);
            Sweeping(flows, id, was, Resisting(left, flows[k], gone), nic'.live, k + 1)
  {
    OneSwept(left, flows, k, id, nic.live);
    TouchesWithout(was, nic.live, flows[k], id);
  }

  lemma TouchesWithout(a: map<nat, Rule>, b: map<nat, Rule>, h: nat, id: nat)
    requires Touches(a, b, id) && h in b && b[h].queue == id
    ensures Touches(a, b - {h}, id)
  {
  }

  lemma OneSwept(before: seq<nat>, flows: seq<nat>, k: nat, id: nat, live: map<nat, Rule>)
    requires k < |flows| && Owns(before + flows[k..], id, live)
    ensures Owns(before + [flows[k]] + flows[k + 1..], id, live)
    ensures Owns(before + flows[k + 1..], id, live - {flows[k]})
    ensures flows[k] in live && live[flows[k]].queue == id
  {
    assert before + flows[k..] == before + [flows[k]] + flows[k + 1..];
    OwnsWithout(before, flows[k], flows[k + 1..], id, live);
  }

  lemma OwnsWithout(a: seq<nat>, h: nat, b: seq<nat>, id: nat, live: map<nat, Rule>)
    requires Owns(a + [h] + b, id, live)
    ensures Owns(a + b, id, live - {h})
    ensures h in live && live[h].queue == id
  {
    var all, rest := a + [h] + b, a + b;
    assert all[|a|] == h;
    forall i | 0 <= i < |rest|
      ensures rest[i] == all[if i < |a| then i else i + 1]
    {
    }
    forall g
      ensures g in rest <==> g in all && g != h
    {
    }
  }

  // ---- countdown: destroy from the end until one resists --------------------------------

  /** What is left when the first n flows are destroyed from the end. */
  function Countdown(flows: seq<nat>, accepts: Accepts, nic: Nic, n: nat): (r: (seq<nat>, Nic))
    requires n <= |flows|
    ensures r.0 <= flows[..n] && r.1.made == nic.made
    decreases n
  {
    if n == 0 then ([], nic)
    else
      var (nic', gone) := Destroy(nic, flows[n - 1], accepts);
      if gone then Countdown(flows, accepts, nic', n - 1) else (flows[..n], nic')
  }

  /** Nothing is left exactly if every one of the n attempts is carried out. */
  lemma {:induction false} CountdownExactly(flows: seq<nat>, accepts: Accepts, nic: Nic, n: nat)
    requires n <= |flows|
    ensures Countdown(flows, accepts, nic, n).0 == [] <==> forall d :: nic.ops <= d < nic.ops + n ==> accepts(d)
    decreases n
  {
    if n > 0 && accepts(nic.ops) {
      CountdownExactly(flows, accepts, Destroy(nic, flows[n - 1], accepts).0, n - 1);
    }
  }

  lemma {:induction false} CountdownOwns(flows: seq<nat>, accepts: Accepts, id: nat, nic: Nic, n: nat)
    requires n <= |flows| && Owns(flows[..n], id, nic.live)
    ensures var (left, nic') := Countdown(flows, accepts, nic, n);
            && Owns(left, id, nic'.live) && Touches(nic.live, nic'.live, id)
            && forall h :: h in nic'.live ==> h in nic.live
    decreases n
  {
    if n > 0 && accepts(nic.ops) {
      var h := flows[n - 1];
      assert flows[..n] == flows[..n - 1] + [h] + [];
      OwnsWithout(flows[..n - 1], h, [], id, nic.live);
      assert flows[..n - 1] + [] == flows[..n - 1];
      CountdownOwns(flows, accepts, id, Destroy(nic, h, accepts).0, n - 1);
    }
  }

  // ---- the operations of a queue ---------------------------------------------------------

  /** The rule every idle queue starts with (dpdkx/flow/rx_queue.hpp:15): the
      address 224.0.x.y of its number, port 0. */
  function Stub(id: nat): Endpoint {
    ((0xe000_0000 + id) % 0x1_0000_0000, 0)
  }

  /** In octets; a queue number has 16 bits, so that no two queues share a stub. */
  lemma StubAddress(id: nat)
    requires id < 0x1_0000
    ensures BigEndian(Stub(id).0, 4) == [224, 0, id / 256, id % 256] && Stub(id).1 == 0
    ensures IsMulticast(Stub(id).0)
    ensures forall other :: 0 <= other < 0x1_0000 && Stub(other) == Stub(id) ==> other == id
  {
    FourOctets(Stub(id).0);
    Octets(Stub(id).0, 224, 0, id / 256, id % 256);
  }

  lemma FourOctets(address: U32)
    ensures BigEndian(address, 4)
         == [address / 256 / 256 / 256, address / 256 / 256 % 256, address / 256 % 256, address % 256]
  {
    TwoBytes(address / 256 / 256);
    assert BigEndian(address / 256, 3) == BigEndian(address / 256 / 256, 2) + [address / 256 % 256];
  }

  lemma Octets(address: U32, a: Byte, b: Byte, c: Byte, d: Byte)
    requires address == 256 * (256 * (256 * a + b) + c) + d
    ensures address / 256 == 256 * (256 * a + b) + c && address % 256 == d
    ensures address / 256 / 256 == 256 * a + b && address / 256 % 256 == c
    ensures address / 256 / 256 / 256 == a && address / 256 / 256 % 256 == b
  {
  }

  function RouteOf(q: Queue, nic: Nic, ep: Endpoint, accepts: Accepts): (Queue, Nic, Status) {
    var (nic', handle) := Create(nic, Rule(q.id, ep), accepts);
    (Listed(q, handle), nic', if handle.Some? then Ok else NotRouted)
  }

  function StartOf(q: Queue, nic: Nic, accepts: Accepts): (Queue, Nic, Status) {
    if q.flows != [] then (q, nic, Ok)
    else
      var (q', nic', status) := RouteOf(q, nic, Stub(q.id), accepts);
      (q', nic', if status == Ok then Ok else NotStarted)
  }

  function SweepOf(q: Queue, nic: Nic, accepts: Accepts): (Queue, Nic) {
    (q.(flows := Left(q.flows, accepts, nic.ops, |q.flows|)), Swept(q.flows, accepts, nic, |q.flows|))
  }

  /** The sweep and then the countdown over what it left. */
  function ClearOf(q: Queue, nic: Nic, accepts: Accepts): (Queue, Nic) {
    var (q1, nic1) := SweepOf(q, nic, accepts);
    var (flows, nic2) := Countdown(q1.flows, accepts, nic1, |q1.flows|);
    (q1.(flows := flows), nic2)
  }

  function ResetOf(q: Queue, nic: Nic, ch: Option<Channel>, ep: Endpoint, accepts: Accepts): (Queue, Nic, Status) {
    var (q', nic') := ClearOf(q, nic, accepts);
    if q'.flows != [] then (q', nic', NotDeleted) else RouteOf(Queue(q.id, [], ch), nic', ep, accepts)
  }

  lemma SweepKeeps(q: Queue, nic: Nic, accepts: Accepts)
    requires Owns(q.flows, q.id, nic.live) && Fresh(nic)
    ensures var (q', nic') := SweepOf(q, nic, accepts);
            Keeps(q, nic, q', nic') && forall h :: h in q'.flows ==> h in q.flows
  {
    SweepOwns(q.flows, accepts, q.id, nic, |q.flows|);
    assert SweepOf(q, nic, accepts).0.flows + q.flows[|q.flows|..] == SweepOf(q, nic, accepts).0.flows;
  }

  /** A start makes the one rule of an idle queue, for its stub; a queue with rules is
      left alone. */
  lemma StartKeeps(q: Queue, nic: Nic, accepts: Accepts)
    requires Owns(q.flows, q.id, nic.live) && Fresh(nic)
    ensures var (q', nic', status) := StartOf(q, nic, accepts);
            && Keeps(q, nic, q', nic') && q'.channel == q.channel
            && (status == if q'.flows != [] then Ok else NotStarted)
            && (q.flows != [] ==> q' == q && nic' == nic)
            && (q.flows == [] && status == Ok ==>
                  q'.flows == [nic.made] && nic'.live == nic.live[nic.made := Rule(q.id, Stub(q.id))])
            && (status == NotStarted ==> nic'.live == nic.live)
  {
    CreateKeeps(q, nic, Stub(q.id), accepts);
  }

  /** Both sweeps together destroy every flow. */
  ghost predicate AllDeleted(q: Queue, nic: Nic, accepts: Accepts) {
    var left := |Left(q.flows, accepts, nic.ops, |q.flows|)|;
    forall d :: nic.ops + |q.flows| <= d < nic.ops + |q.flows| + left ==> accepts(d)
  }

  /** A reset either leaves flows and the old channel behind, or stores the channel
      whether or not the new rule can be made. */
  lemma ResetKeeps(q: Queue, nic: Nic, ch: Option<Channel>, ep: Endpoint, accepts: Accepts)
    requires Owns(q.flows, q.id, nic.live) && Fresh(nic)
    ensures var (q', nic', status) := ResetOf(q, nic, ch, ep, accepts);
            && Keeps(q, nic, q', nic')
            && (status == NotDeleted <==> !AllDeleted(q, nic, accepts))
            && q'.channel == (if status == NotDeleted then q.channel else ch)
            && (status == NotDeleted ==> q'.flows != [] && forall h :: h in q'.flows ==> h in q.flows)
            && (status == NotRouted ==> q'.flows == [])
            && (status == Ok ==>
                  |q'.flows| == 1 && q'.flows[0] in nic'.live && nic'.live[q'.flows[0]] == Rule(q.id, ep))
            && status != NotStarted
  {
    ClearKeeps(q, nic, accepts);
    var (q2, nic2) := ClearOf(q, nic, accepts);
    if q2.flows == [] {
      CreateKeeps(Queue(q.id, [], ch), nic2, ep, accepts);
      var (q3, nic3, _) := RouteOf(Queue(q.id, [], ch), nic2, ep, accepts);
      KeepsTwice(q, nic, q2, nic2, q3, nic3);
    }
  }

  lemma ClearKeeps(q: Queue, nic: Nic, accepts: Accepts)
    requires Owns(q.flows, q.id, nic.live) && Fresh(nic)
    ensures var (q', nic') := ClearOf(q, nic, accepts);
            && Keeps(q, nic, q', nic') && (forall h :: h in q'.flows ==> h in q.flows)
            && (q'.flows == [] <==> AllDeleted(q, nic, accepts))
  {
    SweepKeeps(q, nic, accepts);
    var (q1, nic1) := SweepOf(q, nic, accepts);
    CountdownKeeps(q1, nic1, accepts);
    var (q2, nic2) := ClearOf(q, nic, accepts);
    KeepsTwice(q, nic, q1, nic1, q2, nic2);
    assert q2.flows <= q1.flows;
  }

  lemma CountdownKeeps(q: Queue, nic: Nic, accepts: Accepts)
    requires Owns(q.flows, q.id, nic.live) && Fresh(nic)
    ensures var (flows, nic') := Countdown(q.flows, accepts, nic, |q.flows|);
            && Keeps(q, nic, q.(flows := flows), nic')
            && (flows == [] <==> forall d :: nic.ops <= d < nic.ops + |q.flows| ==> accepts(d))
  {
    assert q.flows[..|q.flows|] == q.flows;
    CountdownOwns(q.flows, accepts, q.id, nic, |q.flows|);
    CountdownExactly(q.flows, accepts, nic, |q.flows|);
  }

  lemma KeepsTwice(q: Queue, nic: Nic, q1: Queue, nic1: Nic, q2: Queue, nic2: Nic)
    requires Keeps(q, nic, q1, nic1) && Keeps(q1, nic1, q2, nic2) && Fresh(nic)
    ensures Keeps(q, nic, q2, nic2)
  {
  }

  // ---- the queue object --------------------------------------------------------------------

  /** The NIC port. */
  class Port {
    var nic: Nic
    const accepts: Accepts

    constructor (accepts: Accepts)
      ensures nic == Nic(map[], 0, 0) && this.accepts == accepts
    {
      nic := Nic(map[], 0, 0);
      this.accepts := accepts;
    }

    method MakeFlow(rule: Rule) returns (handle: Option<nat>)
      modifies this
      ensures (nic, handle) == Create(old(nic), rule, accepts)
    {
      var (nic', h) := Create(nic, rule, accepts);
      nic, handle := nic', h;
    }

    method DestroyFlow(handle: nat) returns (gone: bool)
      modifies this
      ensures (nic, gone) == Destroy(old(nic), handle, accepts)
    {
      var (nic', g) := Destroy(nic, handle, accepts);
      nic, gone := nic', g;
    }
  }

  /** `remove_if` in the middle: the flows that resist stand in front, those from
      i on are untouched. */
  ghost predicate Compacting(was: seq<nat>, now: seq<nat>, left: seq<nat>, w: nat, i: nat) {
    && |now| == |was| && w <= i <= |was|
    && now[..w] == left
    && forall j :: i <= j < |was| ==> now[j] == was[j]
  }

  lemma CompactsOn(was: seq<nat>, now: seq<nat>, left: seq<nat>, w: nat, i: nat)
    requires Compacting(was, now, left, w, i) && i < |was|
    ensures i < |now| == |was| && w <= i && now[i] == was[i]
    ensures Compacting(was, now, left, w, i + 1)
    ensures Compacting(was, now[w := now[i]], left + [was[i]], w + 1, i + 1)
  {
  }

  lemma Compacted(was: seq<nat>, now: seq<nat>, left: seq<nat>, w: nat, i: nat)
    requires Compacting(was, now, left, w, i)
    ensures w <= |now| && now[..w] == left
  {
  }

  lemma SweepStarts(was: seq<nat>, accepts: Accepts, nic: Nic)
    ensures Left(was, accepts, nic.ops, 0) == [] && Swept(was, accepts, nic, 0) == nic
    ensures Compacting(was, was, [], 0, 0)
  {
  }

  lemma SweepTurn(was: seq<nat>, accepts: Accepts, nic: Nic, i: nat)
    requires i < |was|
    ensures Left(was, accepts, nic.ops, i + 1)
         == Resisting(Left(was, accepts, nic.ops, i), was[i], accepts(nic.ops + i))
    ensures Swept(was, accepts, nic, i + 1) == Destroy(Swept(was, accepts, nic, i), was[i], accepts).0
  {
  }

  /** One step down: destroyed and on, or the end. */
  lemma CountdownTurn(flows: seq<nat>, accepts: Accepts, nic: Nic, n: nat)
    requires 0 < n <= |flows|
    ensures var (nic', gone) := Destroy(nic, flows[n - 1], accepts);
            Countdown(flows, accepts, nic, n)
            == if gone then Countdown(flows, accepts, nic', n - 1) else (flows[..n], nic')
  {
  }

  lemma CountdownEnds(flows: seq<nat>, accepts: Accepts, nic: Nic)
    ensures Countdown(flows, accepts, nic, 0) == ([], nic)
  {
  }

  class RxQueue {
    const id: nat
    const port: Port
    var flows: seq<nat>
    var channel: Option<Channel>

    constructor (id: nat, port: Port)
      ensures Value() == Queue(id, [], None) && this.port == port
    {
      this.id, this.port, flows, channel := id, port, [], None;
    }

    ghost function Value(): Queue
      reads this
    {
      Queue(id, flows, channel)
    }

    /** `route_to`. */
    method RouteTo(ep: Endpoint) returns (status: Status)
      modifies this, port
      ensures (Value(), port.nic, status) == RouteOf(old(Value()), old(port.nic), ep, port.accepts)
    {
      var handle := port.MakeFlow(Rule(id, ep));
      if handle == None {
        return NotRouted;
      }
      flows := flows + [handle.value];
      return Ok;
    }

    /** `start`. */
    method Start() returns (status: Status)
      modifies this, port
      ensures (Value(), port.nic, status) == StartOf(old(Value()), old(port.nic), port.accepts)
    {
      if flows == [] {
        status := RouteTo(Stub(id));
        if status != Ok {
          return NotStarted;
        }
      }
      return Ok;
    }

    /** `reset` without arguments: flows that resist move to the front. */
    method Sweep()
      modifies this, port
      ensures (Value(), port.nic) == SweepOf(old(Value()), old(port.nic), port.accepts)
    {
      hide Left, Swept, Compacting;
      ghost var was, nic := flows, port.nic;
      var w, n: nat := 0, |flows|;
      SweepStarts(was, port.accepts, nic);
      for i := 0 to n
        invariant n == |was| && Compacting(was, flows, Left(was, port.accepts, nic.ops, i), w, i)
        invariant port.nic == Swept(was, port.accepts, nic, i) && channel == old(channel)
      {
        CompactsOn(was, flows, Left(was, port.accepts, nic.ops, i), w, i);
        SweepTurn(was, port.accepts, nic, i);
        var gone := port.DestroyFlow(flows[i]);
        if !gone {
          flows := flows[w := flows[i]];
          w := w + 1;
        }
      }
      Compacted(was, flows, Left(was, port.accepts, nic.ops, n), w, n);
      flows := flows[..w];
    }

    /** `reset` with a channel and an endpoint. */
    method Reset(ch: Option<Channel>, ep: Endpoint) returns (status: Status)
      modifies this, port
      ensures (Value(), port.nic, status) == ResetOf(old(Value()), old(port.nic), ch, ep, port.accepts)
    {
      Sweep();
      var cleared := DestroyBackwards();
      if !cleared {
        return NotDeleted;
      }
      channel := ch;
      status := RouteTo(ep);
    }

    /** The countdown loop of `reset`; false where it throws. */
    method DestroyBackwards() returns (cleared: bool)
      modifies this, port
      ensures (flows, port.nic) == Countdown(old(flows), port.accepts, old(port.nic), |old(flows)|)
      ensures channel == old(channel) && (cleared <==> flows == [])
    {
      hide Countdown;
      ghost var was, nic := flows, port.nic;
      var n := |flows|;
      while n != 0
        invariant 0 <= n <= |was| && flows == was[..n] && channel == old(channel)
        invariant Countdown(was, port.accepts, port.nic, n) == Countdown(was, port.accepts, nic, |was|)
      {
        CountdownTurn(was, port.accepts, port.nic, n);
        n := n - 1;
        var gone := port.DestroyFlow(flows[n]);
        if !gone {
          return false;
        }
        flows := flows[..n];
      }
      CountdownEnds(was, port.accepts, port.nic);
      return true;
    }
  }

  // ---- attaching a channel to a queue ---------------------------------------------------------

  /** Result of the part of `attach_rx` that concerns flow queues. */
  datatype Attached = Returned(status: Status) | Threw(status: Status) | NoAvailableQueue | UseSinkTable

  /** The first queue from k on that carries the channel, or the number of queues. */
  function FirstOf(queues: seq<Queue>, ch: Option<Channel>, k: nat): (i: nat)
    requires k <= |queues|
    ensures k <= i <= |queues| && (i < |queues| ==> queues[i].channel == ch)
    ensures forall j :: k <= j < i ==> queues[j].channel != ch
    decreases |queues| - k
  {
    if k == |queues| || queues[k].channel == ch then k else FirstOf(queues, ch, k + 1)
  }

  /** An attach: for which channel and endpoint, whether only a flow queue will do,
      and whether a membership report could be sent. */
  datatype Request = Request(channel: Option<Channel>, endpoint: Endpoint, flowOnly: bool, report: bool)

  /** The queues, the NIC, and how often each multicast group was joined, modulo 256. */
  datatype State = State(queues: seq<Queue>, nic: Nic, joined: map<U32, Byte>)

  predicate IsMulticast(address: U32) {
    0xE000_0000 <= address <= 0xEFFF_FFFF
  }

  /** The groups are 224.0.0.0 to 239.255.255.255. */
  lemma GroupAddress(address: U32)
    ensures IsMulticast(address) <==> 224 <= BigEndian(address, 4)[0] < 240
  {
    FourOctets(address);
  }

  /** `join_mcast` (dpdkx/device.cpp:475-485). */
  function JoinOf(joined: map<U32, Byte>, address: U32, report: bool): (map<U32, Byte>, Status) {
    if address in joined then (joined[address := (joined[address] as int + 1) % 256], AlreadyJoined)
    else (joined[address := 1], if report then Ok else NoReport)
  }

  /** A queue has made its rule; a multicast group is joined. */
  function MadeRule(s: State, i: nat, q: Queue, nic: Nic, a: Request): (State, Attached)
    requires i < |s.queues|
  {
    var (joined, status) :=
      if IsMulticast(a.endpoint.0) then JoinOf(s.joined, a.endpoint.0, a.report) else (s.joined, Ok);
    (State(s.queues[i := q], nic, joined), Returned(status))
  }

  function AttachOf(s: State, a: Request, accepts: Accepts): (State, Attached) {
    var i, j := FirstOf(s.queues, a.channel, 0), FirstOf(s.queues, None, 0);
    if i < |s.queues| then
      var (q, nic, status) := RouteOf(s.queues[i], s.nic, a.endpoint, accepts);
      if status == Ok then MadeRule(s, i, q, nic, a) else (WithQueue(s, i, q, nic), Returned(status))
    else if j < |s.queues| then
      var (q, nic, status) := ResetOf(s.queues[j], s.nic, a.channel, a.endpoint, accepts);
      if status == Ok then MadeRule(s, j, q, nic, a) else (WithQueue(s, j, q, nic), Threw(status))
    else (s, if a.flowOnly then NoAvailableQueue else UseSinkTable)
  }

  function WithQueue(s: State, i: nat, q: Queue, nic: Nic): State
    requires i < |s.queues|
  {
    s.(queues := s.queues[i := q], nic := nic)
  }

  /** Every queue holds exactly its own live rules, every live rule is held by a
      queue, and no two queues carry the same channel. */
  ghost predicate Sound(s: State) {
    && Fresh(s.nic)
    && (forall i, j :: 0 <= i < j < |s.queues| ==> s.queues[i].id != s.queues[j].id)
    && (forall i :: 0 <= i < |s.queues| ==> Owns(s.queues[i].flows, s.queues[i].id, s.nic.live))
    && (forall h :: h in s.nic.live ==> exists i :: 0 <= i < |s.queues| && h in s.queues[i].flows)
    && (forall i, j :: 0 <= i < j < |s.queues| && s.queues[i].channel.Some? ==>
          s.queues[i].channel != s.queues[j].channel)
  }

  /** Queue i may take over its new channel. */
  ghost predicate MayCarry(queues: seq<Queue>, i: nat, ch: Option<Channel>)
    requires i < |queues|
  {
    ch == queues[i].channel || forall j :: 0 <= j < |queues| ==> queues[j].channel != ch
  }

  /** An operation of one queue keeps the whole device sound. */
  lemma OneQueueKeeps(s: State, i: nat, q: Queue, nic: Nic)
    requires Sound(s) && i < |s.queues| && Keeps(s.queues[i], s.nic, q, nic) && MayCarry(s.queues, i, q.channel)
    ensures Sound(WithQueue(s, i, q, nic))
  {
    var s' := WithQueue(s, i, q, nic);
    forall k | 0 <= k < |s.queues|
      ensures Owns(s'.queues[k].flows, s'.queues[k].id, nic.live)
    {
      if k != i {
        OtherOwns(s.queues[k].flows, s.queues[k].id, s.nic.live, nic.live, q.id);
      }
    }
    forall h | h in nic.live
      ensures exists k :: 0 <= k < |s'.queues| && h in s'.queues[k].flows
    {
      var k := StillHeld(s, i, q, nic, h);
      assert h in s'.queues[k].flows;
    }
  }

  lemma OtherOwns(flows: seq<nat>, id: nat, live: map<nat, Rule>, live': map<nat, Rule>, touched: nat)
    requires Owns(flows, id, live) && Touches(live, live', touched) && id != touched
    ensures Owns(flows, id, live')
  {
  }

  lemma StillHeld(s: State, i: nat, q: Queue, nic: Nic, h: nat) returns (k: nat)
    requires Sound(s) && i < |s.queues| && Keeps(s.queues[i], s.nic, q, nic) && h in nic.live
    ensures k < |s.queues| && h in s.queues[i := q][k].flows
  {
    if nic.live[h].queue == q.id {
      k := i;
    } else {
      k :| 0 <= k < |s.queues| && h in s.queues[k].flows;
    }
  }

  /** Joining a group is none of the queues' business. */
  lemma JoiningKeeps(s: State, joined: map<U32, Byte>)
    requires Sound(s)
    ensures Sound(s.(joined := joined))
  {
  }

  lemma MadeRuleKeeps(s: State, i: nat, q: Queue, nic: Nic, a: Request)
    requires i < |s.queues| && Sound(WithQueue(s, i, q, nic))
    ensures Sound(MadeRule(s, i, q, nic, a).0)
  {
    hide Sound, JoinOf;
    var s' := MadeRule(s, i, q, nic, a).0;
    JoiningKeeps(WithQueue(s, i, q, nic), s'.joined);
  }

  lemma AttachKeeps(s: State, a: Request, accepts: Accepts)
    requires Sound(s)
    ensures Sound(AttachOf(s, a, accepts).0)
  {
    hide JoinOf, ClearOf, Touches;
    var i, j := FirstOf(s.queues, a.channel, 0), FirstOf(s.queues, None, 0);
    if i < |s.queues| {
      CreateKeeps(s.queues[i], s.nic, a.endpoint, accepts);
      var (q, nic, _) := RouteOf(s.queues[i], s.nic, a.endpoint, accepts);
      OneQueueKeeps(s, i, q, nic);
      MadeRuleKeeps(s, i, q, nic, a);
    } else if j < |s.queues| {
      ResetKeeps(s.queues[j], s.nic, a.channel, a.endpoint, accepts);
      var (q, nic, _) := ResetOf(s.queues[j], s.nic, a.channel, a.endpoint, accepts);
      OneQueueKeeps(s, j, q, nic);
      MadeRuleKeeps(s, j, q, nic, a);
    }
  }

  ghost function Values(queues: seq<RxQueue>): (r: seq<Queue>)
    reads queues
    ensures |r| == |queues| && forall i :: 0 <= i < |queues| ==> r[i] == queues[i].Value()
  {
    seq(|queues|, i requires 0 <= i < |queues| reads queues => queues[i].Value())
  }

  class Device {
    const queues: seq<RxQueue>
    const port: Port
    var joined: map<U32, Byte>

    constructor (queues: seq<RxQueue>, port: Port)
      requires forall i :: 0 <= i < |queues| ==> queues[i].port == port
      requires Sound(State(Values(queues), port.nic, map[]))
      ensures Valid() && this.queues == queues && this.port == port && joined == map[]
    {
      this.queues, this.port, joined := queues, port, map[];
    }

    ghost predicate Valid()
      reads this, queues, port
    {
      (forall i :: 0 <= i < |queues| ==> queues[i].port == port) && Sound(Now())
    }

    ghost function Now(): State
      reads this, queues, port
    {
      State(Values(queues), port.nic, joined)
    }

    /** `std::ranges::find_if` over the queues. */
    method FindQueue(ch: Option<Channel>) returns (i: nat)
      ensures i == FirstOf(Values(queues), ch, 0)
    {
      i := 0;
      while i != |queues| && queues[i].channel != ch
        invariant i <= |queues| && FirstOf(Values(queues), ch, i) == FirstOf(Values(queues), ch, 0)
      {
        i := i + 1;
      }
    }

    /** An operation of queue i changes no other queue. */
    twostate lemma OnlyOne(i: nat)
      requires i < |queues| && forall j :: 0 <= j < |queues| && queues[j] != queues[i] ==> unchanged(queues[j])
      requires forall j :: 0 <= j < |queues| && j != i ==> queues[j] != queues[i]
      ensures Values(queues) == old(Values(queues))[i := queues[i].Value()]
    {
    }

    lemma QueuesDiffer(i: nat)
      requires Valid() && i < |queues|
      ensures forall j :: 0 <= j < |queues| && j != i ==> queues[j] != queues[i]
    {
      var values := Values(queues);
      forall j | 0 <= j < |queues| && j != i
        ensures queues[j] != queues[i]
      {
        assert values[j].id != values[i].id;
      }
    }

    /** `join_mcast`. */
    method JoinMcast(address: U32, report: bool) returns (status: Status)
      modifies this`joined
      ensures (joined, status) == JoinOf(old(joined), address, report)
    {
      if address in joined {
        joined := joined[address := (joined[address] as int + 1) % 256];
        return AlreadyJoined;
      }
      joined := joined[address := 1];
      return if report then Ok else NoReport;
    }

    /** The end of a successful attach. */
    method JoinIfMulticast(a: Request) returns (r: Attached)
      modifies this`joined
      ensures if IsMulticast(a.endpoint.0)
              then (joined, r) == (JoinOf(old(joined), a.endpoint.0, a.report).0,
                                   Returned(JoinOf(old(joined), a.endpoint.0, a.report).1))
              else (joined, r) == (old(joined), Returned(Ok))
    {
      var status := Ok;
      if IsMulticast(a.endpoint.0) {
        status := JoinMcast(a.endpoint.0, a.report);
      }
      return Returned(status);
    }

    /** `attach_rx` for the modes `any` and `flow`. */
    method AttachRx(a: Request) returns (r: Attached)
      requires Valid()
      modifies this`joined, queues, port
      ensures Valid()
      ensures (Now(), r) == AttachOf(old(Now()), a, port.accepts)
    {
      hide Sound, RouteOf, ResetOf, JoinOf;
      AttachKeeps(Now(), a, port.accepts);
      label start:
      var i := FindQueue(a.channel);
      if i != |queues| {
        QueuesDiffer(i);
        var status := queues[i].RouteTo(a.endpoint);
        OnlyOne@start(i);
        if status != Ok {
          return Returned(status);
        }
        r := JoinIfMulticast(a);
        return;
      }
      i := FindQueue(None);
      if i != |queues| {
        QueuesDiffer(i);
        var status := queues[i].Reset(a.channel, a.endpoint);
        OnlyOne@start(i);
        if status != Ok {
          return Threw(status);
        }
        r := JoinIfMulticast(a);
        return;
      }
      return if a.flowOnly then NoAvailableQueue else UseSinkTable;
    }

    /** `start` of one queue. */
    method StartQueue(i: nat) returns (status: Status)
      requires Valid() && i < |queues|
      modifies queues, port
      ensures Valid()
      ensures (Now(), status) == StartOn(old(Now()), i, port.accepts)
    {
      StartSound(Now(), i, port.accepts);
      label start:
      QueuesDiffer(i);
      status := queues[i].Start();
      OnlyOne@start(i);
    }
  }

  // ---- runs ------------------------------------------------------------------------------------

  function StartOn(s: State, i: nat, accepts: Accepts): (State, Status)
    requires i < |s.queues|
  {
    var (q, nic, status) := StartOf(s.queues[i], s.nic, accepts);
    (WithQueue(s, i, q, nic), status)
  }

  lemma StartSound(s: State, i: nat, accepts: Accepts)
    requires Sound(s) && i < |s.queues|
    ensures Sound(StartOn(s, i, accepts).0)
  {
    StartKeeps(s.queues[i], s.nic, accepts);
    var (q, nic, _) := StartOf(s.queues[i], s.nic, accepts);
    OneQueueKeeps(s, i, q, nic);
  }

  /** What can happen to a device: a queue is started or swept, a channel attached. */
  datatype Op =
    | Start(queue: nat)
    | Sweep(queue: nat)
    | Attach(request: Request)

  function Step(s: State, op: Op, accepts: Accepts): State {
    match op
    case Start(i) => if i < |s.queues| then StartOn(s, i, accepts).0 else s
    case Sweep(i) =>
      if i < |s.queues| then
        var (q, nic) := SweepOf(s.queues[i], s.nic, accepts);
        WithQueue(s, i, q, nic)
      else s
    case Attach(a) => AttachOf(s, a, accepts).0
  }

  function Run(s: State, ops: seq<Op>, accepts: Accepts): State {
    if |ops| == 0 then s else Step(Run(s, ops[..|ops| - 1], accepts), ops[|ops| - 1], accepts)
  }

  lemma StepSound(s: State, op: Op, accepts: Accepts)
    requires Sound(s)
    ensures Sound(Step(s, op, accepts))
  {
    match op
    case Start(i) =>
      if i < |s.queues| {
        StartSound(s, i, accepts);
      }
    case Sweep(i) =>
      if i < |s.queues| {
        SweepKeeps(s.queues[i], s.nic, accepts);
        var (q, nic) := SweepOf(s.queues[i], s.nic, accepts);
        OneQueueKeeps(s, i, q, nic);
      }
    case Attach(a) => AttachKeeps(s, a, accepts);
  }

  /** A device before its first operation. */
  function Unused(n: nat): State {
    State(seq(n, i requires 0 <= i < n => Queue(i, [], None)), Nic(map[], 0, 0), map[])
  }

  /** In every run, whatever the NIC refuses, each queue holds exactly the rules
      made for it and not yet destroyed, and a channel has at most one queue. */
  lemma {:induction false} RunSound(s: State, ops: seq<Op>, accepts: Accepts)
    requires Sound(s)
    ensures Sound(Run(s, ops, accepts))
  {
    if |ops| > 0 {
      RunSound(s, ops[..|ops| - 1], accepts);
      StepSound(Run(s, ops[..|ops| - 1], accepts), ops[|ops| - 1], accepts);
    }
  }

  /** The runs of a device from its start are among these. */
  lemma UnusedSound(n: nat, ops: seq<Op>, accepts: Accepts)
    ensures Sound(Run(Unused(n), ops, accepts))
  {
    RunSound(Unused(n), ops, accepts);
  }

  /** Queues that have a channel keep it. */
  ghost predicate Assigned(a: seq<Queue>, b: seq<Queue>) {
    && |a| == |b|
    && forall i :: 0 <= i < |a| && a[i].channel.Some? ==> b[i].channel == a[i].channel
  }

  lemma StepAssigned(s: State, op: Op, accepts: Accepts)
    ensures Assigned(s.queues, Step(s, op, accepts).queues)
  {
  }

  /** An assigned queue never changes its channel. */
  lemma {:induction false} AssignedForGood(s: State, ops: seq<Op>, accepts: Accepts)
    ensures Assigned(s.queues, Run(s, ops, accepts).queues)
  {
    if |ops| > 0 {
      AssignedForGood(s, ops[..|ops| - 1], accepts);
      StepAssigned(Run(s, ops[..|ops| - 1], accepts), ops[|ops| - 1], accepts);
    }
  }

  /** A channel that once had queue i has no other queue later. */
  lemma ChannelStaysInPlace(s: State, ops: seq<Op>, accepts: Accepts, i: nat, j: nat)
    requires Sound(s) && i < |s.queues| && s.queues[i].channel.Some? && j < |Run(s, ops, accepts).queues|
    requires Run(s, ops, accepts).queues[j].channel == s.queues[i].channel
    ensures i == j
  {
    RunSound(s, ops, accepts);
    AssignedForGood(s, ops, accepts);
  }

  /** Some rule held by the queue brings the endpoint to it. */
  ghost predicate Serves(q: Queue, nic: Nic, ep: Endpoint) {
    exists k :: 0 <= k < |q.flows| && q.flows[k] in nic.live && nic.live[q.flows[k]] == Rule(q.id, ep)
  }

  lemma RouteServes(q: Queue, nic: Nic, ep: Endpoint, accepts: Accepts)
    ensures var (q', nic', status) := RouteOf(q, nic, ep, accepts);
            q'.channel == q.channel && (status == Ok ==> Serves(q', nic', ep))
  {
    if accepts(nic.ops) {
      assert (q.flows + [nic.made])[|q.flows|] == nic.made;
    }
  }

  lemma ResetServes(q: Queue, nic: Nic, ch: Option<Channel>, ep: Endpoint, accepts: Accepts)
    ensures var (q', nic', status) := ResetOf(q, nic, ch, ep, accepts);
            status == Ok ==> q'.channel == ch && Serves(q', nic', ep)
  {
    RouteServes(Queue(q.id, [], ch), ClearOf(q, nic, accepts).1, ep, accepts);
  }

  /** The attach has made a rule, whatever became of joining the group. */
  predicate Made(r: Attached) {
    r.Returned? && r.status in {Ok, AlreadyJoined, NoReport}
  }

  /** An attach that made its rule brings the endpoint to a queue of that channel;
      only a first join of the group and a sent report let it report success. */
  lemma AttachedIsServed(s: State, a: Request, accepts: Accepts) returns (i: nat)
    requires Made(AttachOf(s, a, accepts).1)
    ensures var s' := AttachOf(s, a, accepts).0;
            i < |s'.queues| && s'.queues[i].channel == a.channel && Serves(s'.queues[i], s'.nic, a.endpoint)
    ensures AttachOf(s, a, accepts).1 == Returned(Ok)
       <==> (IsMulticast(a.endpoint.0) ==> a.endpoint.0 !in s.joined && a.report)
  {
    i := FirstOf(s.queues, a.channel, 0);
    if i < |s.queues| {
      RouteServes(s.queues[i], s.nic, a.endpoint, accepts);
    } else {
      i := FirstOf(s.queues, None, 0);
      ResetServes(s.queues[i], s.nic, a.channel, a.endpoint, accepts);
    }
  }

  /** Two attaches for one group on a NIC that accepts everything: the second makes
      its rule and reports that the address is in use. */
  lemma SecondJoinIsRefused()
    ensures var a := Request(Some(1), (0xE000_0001, 9000), true, true);
            var (s1, r1) := AttachOf(Unused(1), a, _ => true);
            var (s2, r2) := AttachOf(s1, a, _ => true);
            && r1 == Returned(Ok) && r2 == Returned(AlreadyJoined)
            && |s2.queues[0].flows| == 2 && Serves(s2.queues[0], s2.nic, a.endpoint)
  {
    var a := Request(Some(1), (0xE000_0001, 9000), true, true);
    var (s1, r1) := AttachOf(Unused(1), a, _ => true);
    var i := AttachedIsServed(s1, a, _ => true);
  }

  /** It finds no queue exactly if none carries the channel and every queue has one. */
  lemma NoQueueExactly(s: State, a: Request, accepts: Accepts)
    ensures AttachOf(s, a, accepts).1 in {NoAvailableQueue, UseSinkTable}
       <==> forall i :: 0 <= i < |s.queues| ==> s.queues[i].channel.Some? && s.queues[i].channel != a.channel
  {
    var i, j := FirstOf(s.queues, a.channel, 0), FirstOf(s.queues, None, 0);
    if i < |s.queues| {
      assert s.queues[i].channel == a.channel;
    } else if j < |s.queues| {
      assert s.queues[j].channel == None;
    }
  }

  // ---- multicast groups ----------------------------------------------------------------------------

  /** The step makes a rule for the group. */
  predicate Joins(s: State, op: Op, accepts: Accepts, address: U32) {
    op.Attach? && op.request.endpoint.0 == address && Made(AttachOf(s, op.request, accepts).1)
  }

  /** How often rules were made for the group. */
  function JoinCount(s: State, ops: seq<Op>, accepts: Accepts, address: U32): nat {
    if |ops| == 0 then 0
    else
      var k := |ops| - 1;
      JoinCount(s, ops[..k], accepts, address)
      + if Joins(Run(s, ops[..k], accepts), ops[k], accepts, address) then 1 else 0
  }

  /** The group's entry after n joins. */
  ghost predicate Tallied(joined: map<U32, Byte>, address: U32, n: nat) {
    (address in joined <==> n > 0) && (address in joined ==> joined[address] == n % 256)
  }

  lemma StepTallies(s: State, op: Op, accepts: Accepts, address: U32, n: nat)
    requires IsMulticast(address) && Tallied(s.joined, address, n)
    ensures Tallied(Step(s, op, accepts).joined, address, if Joins(s, op, accepts, address) then n + 1 else n)
  {
    hide StartOf, SweepOf, ClearOf;
    var joined := Step(s, op, accepts).joined;
    if Joins(s, op, accepts, address) {
      assert joined == JoinOf(s.joined, address, op.request.report).0;
      CountWraps(n);
    } else if op.Attach? && Made(AttachOf(s, op.request, accepts).1) {
      assert address in joined <==> address in s.joined;
    } else {
      assert joined == s.joined;
    }
  }

  lemma CountWraps(n: nat)
    ensures (n % 256 + 1) % 256 == (n + 1) % 256
  {
  }

  /** In every run a group is known exactly if a rule was made for it, and its
      counter is the number of those rules modulo 256. */
  lemma {:induction false} GroupsAreCounted(queues: nat, ops: seq<Op>, accepts: Accepts, address: U32)
    requires IsMulticast(address)
    ensures Tallied(Run(Unused(queues), ops, accepts).joined, address, JoinCount(Unused(queues), ops, accepts, address))
  {
    if |ops| > 0 {
      var k := |ops| - 1;
      GroupsAreCounted(queues, ops[..k], accepts, address);
      StepTallies(Run(Unused(queues), ops[..k], accepts), ops[k], accepts, address,
                  JoinCount(Unused(queues), ops[..k], accepts, address));
    }
  }

  /** No other address is ever joined. */
  lemma {:induction false} OnlyGroupsAreJoined(queues: nat, ops: seq<Op>, accepts: Accepts, address: U32)
    ensures address in Run(Unused(queues), ops, accepts).joined ==> IsMulticast(address)
  {
    hide StartOf, RouteOf, ResetOf, SweepOf, ClearOf;
    if |ops| > 0 {
      OnlyGroupsAreJoined(queues, ops[..|ops| - 1], accepts, address);
    }
  }
}
