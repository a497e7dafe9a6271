/** The receive job and the part of the device it works on. */
module RxPath {
  import Jobs
  import opened Bytes
  import opened Collections
  import opened Frame
  import opened Sinks
  import opened Service
  import opened RxSpec

  /** What the outside world does during one call of `process`: the table that
      is published at the opening refresh and at each packet, which answers the
      service ring takes, the clock, and how many buffers channels give back. */
  datatype Env = Env(views: seq<Table>, accepts: seq<bool>, clocks: seq<U64>,
                     recycle: (Channel, seq<Mbuf>) -> nat)
  {
    ghost predicate Valid(n: nat) {
      && |views| == n + 1 && |accepts| >= n && |clocks| >= n
      && (forall i :: 0 <= i < |views| ==> WellFormed(views[i]) && |views[i]| <= 0x1_0000)
      && (forall i, j :: 0 <= i <= j < |views| ==> views[i] <= views[j])
      && Sane(recycle)
    }
  }

  /** Stores m behind the `used` buffers that start at `base`. */
  method Append(buffers: array<Mbuf>, base: nat, used: nat, m: Mbuf)
    requires base + used < buffers.Length
    modifies buffers
    ensures buffers[base..base + used + 1] == old(buffers[base..base + used]) + [m]
    ensures forall j :: 0 <= j < buffers.Length && j != base + used ==> buffers[j] == old(buffers[j])
  {
    buffers[base + used] := m;
  }

  class Device {
    const config: Config
    const logic: PacketLogic
    var arp: ArpTable
    var handed: seq<Batch>
    var freed: seq<Mbuf>
    var ring: seq<Mbuf>

    constructor (config: Config)
      ensures this.config == config && logic == LogicOf(config)
      ensures arp == map[] && handed == [] && freed == [] && ring == []
    {
      this.config := config;
      logic := LogicOf(config);
      arp, handed, freed, ring := map[], [], [], [];
    }

    /** `ether_address`.  A request the ring refuses is not freed either. */
    method EtherAddress(ip: Ip4, buffer: Option<Mbuf>, accept: bool) returns (r: Resolution, ghost lost: seq<Mbuf>)
      requires buffer.Some? ==> buffer.value.Valid()
      modifies this`arp, this`ring
      ensures r == Resolve(config, old(arp), ip, buffer.Some?)
      ensures var asking := Asks(config, old(arp), ip) && buffer.Some?;
              && arp == (if asking && accept then old(arp)[ip := PENDING] else old(arp))
              && ring == old(ring) + (if asking && accept then [ArpRequest(config, buffer.value, ip)] else [])
              && lost == (if asking && !accept then [buffer.value] else [])
    {
      lost := [];
      if IsLoopback(ip) {
        return Resolved(config.mac), lost;
      }
      r := NotSupported;
      if ip in arp {
        r := if arp[ip].timestamp != 0 then Resolved(arp[ip].mac) else TryAgain;
      }
      if r == NotSupported && config.arpTable {
        if buffer.None? {
          return NoBufferSpace, lost;
        }
        if accept {
          ring := ring + [ArpRequest(config, buffer.value, ip)];
          arp := arp[ip := PENDING];
        } else {
          lost := [buffer.value];
        }
        return TryAgain, lost;
      }
    }

    /** One round of the loop in `process_rx_packets`, up to the final store. */
    method Serve(received: Mbuf, accept: bool, clock: U64) returns (queued: bool, m: Mbuf)
      modifies this`arp, this`ring
      ensures ring == old(ring) + Sent(logic, received, accept)
      ensures (if queued then [] else [m]) == Unsent(logic, received, accept)
      ensures arp == Learn(logic, old(arp), received, clock)
    {
      m := received;
      var lesson := logic.lesson(m);
      if lesson.Some? {
        arp := arp[lesson.value.0 := ArpRecord(lesson.value.1, clock)];
      }
      queued := false;
      var answer := logic.answer(m);
      if answer.Some? {
        m := answer.value;
        queued := accept;
        if queued {
          ring := ring + [m];
        }
      }
    }

    /** The first i of the packets `rest` found at `base` are served, `used` of
        them compacted to the front. */
    ghost predicate Served(buffers: array<Mbuf>, base: nat, i: nat, used: nat, rest: seq<Mbuf>,
                           accepts: seq<bool>, clocks: seq<U64>, ring0: seq<Mbuf>, arp0: ArpTable)
      requires i <= |rest| && |rest| <= |accepts| && |rest| <= |clocks|
      requires base + |rest| <= buffers.Length
      reads this, buffers
    {
      && used <= i
      && buffers[base..base + used] == Unanswered(logic, rest, accepts, i)
      && ring == ring0 + Answered(logic, rest, accepts, i)
      && arp == Learnt(logic, arp0, rest, clocks, i)
      && forall j :: i <= j < |rest| ==> buffers[base + j] == rest[j]
    }

    /** One whole round: packet i is answered or moved behind the packets
        already compacted. */
    method ServeAt(buffers: array<Mbuf>, base: nat, i: nat, used: nat, accepts: seq<bool>, clocks: seq<U64>,
                   ghost rest: seq<Mbuf>, ghost ring0: seq<Mbuf>, ghost arp0: ArpTable)
      returns (used': nat)
      requires i < |rest| && |rest| <= |accepts| && |rest| <= |clocks|
      requires base + |rest| <= buffers.Length
      requires Served(buffers, base, i, used, rest, accepts, clocks, ring0, arp0)
      modifies this`arp, this`ring, buffers
      ensures Served(buffers, base, i + 1, used', rest, accepts, clocks, ring0, arp0)
      ensures forall j :: 0 <= j < base ==> buffers[j] == old(buffers[j])
    {
      var received := buffers[base + i];
      assert received == rest[i];
      var queued, m := Serve(received, accepts[i], clocks[i]);
      assert ring == ring0 + (Answered(logic, rest, accepts, i) + Sent(logic, rest[i], accepts[i]));
      used' := used;
      if !queued {
        Append(buffers, base, used, m);
        used' := used + 1;
      }
    }

    lemma ServedAll(buffers: array<Mbuf>, base: nat, used: nat, rest: seq<Mbuf>,
                    accepts: seq<bool>, clocks: seq<U64>, ring0: seq<Mbuf>, arp0: ArpTable)
      requires |rest| <= |accepts| && |rest| <= |clocks| && base + |rest| <= buffers.Length
      requires Served(buffers, base, |rest|, used, rest, accepts, clocks, ring0, arp0)
      ensures used <= |rest| && buffers[base..base + used] == Unanswered(logic, rest, accepts, |rest|)
      ensures ring == ring0 + Answered(logic, rest, accepts, |rest|) && arp == Learnt(logic, arp0, rest, clocks, |rest|)
    {
    }

    /** The loop over the slice. */
    method ServeAll(buffers: array<Mbuf>, base: nat, n: nat, accepts: seq<bool>, clocks: seq<U64>)
      returns (used: nat)
      requires base + n <= buffers.Length && n <= |accepts| && n <= |clocks|
      modifies this`arp, this`ring, buffers
      ensures Served(buffers, base, n, used, old(buffers[base..base + n]), accepts, clocks, old(ring), old(arp))
      ensures forall j :: 0 <= j < base ==> buffers[j] == old(buffers[j])
    {
      ghost var rest := buffers[base..base + n];
      used := 0;
      for i := 0 to n
        invariant Served(buffers, base, i, used, rest, accepts, clocks, old(ring), old(arp))
        invariant forall j :: 0 <= j < base ==> buffers[j] == old(buffers[j])
      {
        used := ServeAt(buffers, base, i, used, accepts, clocks, rest, old(ring), old(arp));
      }
    }

    /** `process_rx_packets`: answers what it can and compacts the rest to the
        front of the slice, in arrival order. */
    method ProcessRxPackets(buffers: array<Mbuf>, base: nat, n: nat, accepts: seq<bool>, clocks: seq<U64>)
      returns (used: nat)
      requires base + n <= buffers.Length && n <= |accepts| && n <= |clocks|
      modifies this`arp, this`ring, buffers
      ensures var rest := old(buffers[base..base + n]);
              && used <= n
              && buffers[base..base + used] == Unanswered(logic, rest, accepts, |rest|)
              && ring == old(ring) + Answered(logic, rest, accepts, |rest|)
              && arp == Learnt(logic, old(arp), rest, clocks, |rest|)
      ensures forall j :: 0 <= j < base ==> buffers[j] == old(buffers[j])
    {
      hide Answered, Unanswered, Learnt;
      ghost var rest := buffers[base..base + n];
      used := ServeAll(buffers, base, n, accepts, clocks);
      ServedAll(buffers, base, used, rest, accepts, clocks, old(ring), old(arp));
    }
  }

  class RxJob {
    const device: Device
    const reloadCheckpoint: U16
    const burstSize: U16
    const buffers: array<Mbuf>
    var last: nat
    var checkpoint: U16
    var sinks: Table

    /** The cached index names the first entry with its port. */
    ghost predicate Valid()
      reads this
    {
      && buffers.Length == 2 * MAX_PKT_BURST
      && WellFormed(sinks) && |sinks| <= 0x1_0000
      && last < |sinks| && FirstWithPort(sinks, sinks[last].port, last)
    }

    constructor (device: Device, burst: U16, reloadHint: U16, published: Table)
      requires WellFormed(published) && |published| <= 0x1_0000
      ensures Valid() && fresh(buffers)
      ensures this.device == device && sinks == published && checkpoint == 1001
      ensures reloadCheckpoint == reloadHint
      ensures burstSize == if burst <= 2 * MAX_PKT_BURST then burst else 2 * MAX_PKT_BURST
    {
      this.device := device;
      reloadCheckpoint := reloadHint;
      burstSize := if burst <= 2 * MAX_PKT_BURST then burst else 2 * MAX_PKT_BURST;
      buffers := new Mbuf[2 * MAX_PKT_BURST];
      last := 0;
      checkpoint := 1001;
      sinks := published;
    }

    // ---- the sink snapshot and its one-entry cache -------------------------

    /** `try_reload_sinks`. */
    method TryReloadSinks(published: Table) returns (changed: bool)
      requires Valid() && sinks <= published && WellFormed(published) && |published| <= 0x1_0000
      modifies this`sinks, this`checkpoint
      ensures Valid()
      ensures if old(checkpoint) >= reloadCheckpoint
              then sinks == published && checkpoint == 0 && changed == (old(sinks) != published)
              else sinks == old(sinks) && checkpoint == old(checkpoint) && !changed
    {
      changed := false;
      if checkpoint >= reloadCheckpoint {
        if sinks != published {
          sinks := published;
          changed := true;
        }
        checkpoint := 0;
      }
    }

    /** The cached lookup agrees with a linear search of the table in force. */
    method FindRxChannel(port: U16, published: Table) returns (channel: Option<Channel>)
      requires Valid() && sinks <= published && WellFormed(published) && |published| <= 0x1_0000
      modifies this`sinks, this`checkpoint, this`last
      ensures Valid()
      ensures channel == Lookup(sinks, port)
      ensures old(sinks) <= sinks <= published
      ensures old(checkpoint) < reloadCheckpoint ==> sinks == old(sinks)
      ensures old(checkpoint) < reloadCheckpoint || old(checkpoint) == 0 ==> checkpoint == old(checkpoint)
    {
      var search := sinks[last].port != port;
      if !search && sinks[last].channel.None? {
        search := TryReloadSinks(published);
      }
      if search {
        var i := FindSink(sinks, port);
        if i == |sinks| {
          LookupNone(sinks, port);
          last := 0;
        } else {
          LookupFirst(sinks, port, i);
          last := i;
        }
      } else {
        LookupFirst(sinks, port, last);
      }
      channel := sinks[last].channel;
    }

    // ---- batching in the shared array --------------------------------------

    /** The array and the device logs show the progress p: after i packets the
        last ones wait in place, service packets are parked behind the burst, and
        packets not looked at are where the NIC put them. */
    ghost predicate Shows(rx: seq<Mbuf>, p: Progress, i: nat, ready: nat, post: nat,
                          handed0: seq<Batch>, freed0: seq<Mbuf>)
      reads buffers, device
    {
      && ready <= i == |p.routes| <= |rx| <= post <= buffers.Length
      && buffers[i - ready..i] == p.waiting
      && buffers[i..|rx|] == rx[i..]
      && buffers[|rx|..post] == p.parked
      && device.handed == handed0 + p.batches
      && device.freed == freed0 + p.freed
    }

    /** Hands the waiting packets over; `reclaim` tells whether the caller frees
        what the channel gives back. */
    method Flush(i: nat, ready: nat, channel: Channel, reclaim: bool, env: Env, ghost n: nat, ghost post: nat,
                 ghost rx: seq<Mbuf>, ghost p: Progress, ghost handed0: seq<Batch>, ghost freed0: seq<Mbuf>)
      requires env.Valid(n) && Shows(rx, p, i, ready, post, handed0, freed0)
      modifies device`handed, device`freed
      ensures env.recycle(channel, p.waiting) <= |p.waiting|
      ensures Shows(rx, Flushed(p, channel, env.recycle(channel, p.waiting), reclaim), i, 0, post, handed0, freed0)
    {
      var mbufs := buffers[i - ready..i];
      var recycle := env.recycle(channel, mbufs);
      device.handed := device.handed + [Batch(channel, mbufs, recycle, reclaim)];
      if reclaim {
        device.freed := device.freed + mbufs[..recycle];
      }
    }

    /** Packet i joins the run that waits for `channel`. */
    method TakeAt(i: nat, ghost ready: nat, ghost post: nat, ghost channel: Channel,
                  ghost rx: seq<Mbuf>, ghost p: Progress, ghost handed0: seq<Batch>, ghost freed0: seq<Mbuf>)
      requires i < |rx| && Shows(rx, p, i, ready, post, handed0, freed0)
      modifies buffers
      ensures Shows(rx, Taken(device.logic, p, channel, rx[i]), i + 1, ready + 1, post, handed0, freed0)
    {
      assert buffers[i] == buffers[i..|rx|][0] == rx[i];
      var prepared := device.logic.prepare(buffers[i]);
      buffers[i] := prepared;
      assert buffers[i - ready..i + 1] == p.waiting + [prepared];
      assert buffers[i + 1..|rx|] == rx[i..][1..];
    }

    /** Packet i is broken and freed. */
    method DiscardAt(i: nat, ghost post: nat,
                     ghost rx: seq<Mbuf>, ghost p: Progress, ghost handed0: seq<Batch>, ghost freed0: seq<Mbuf>)
      requires i < |rx| && Shows(rx, p, i, 0, post, handed0, freed0)
      modifies device`freed
      ensures Shows(rx, Discarded(p, rx[i]), i + 1, 0, post, handed0, freed0)
    {
      assert buffers[i] == buffers[i..|rx|][0] == rx[i];
      device.freed := device.freed + [buffers[i]];
      assert buffers[i + 1..|rx|] == rx[i..][1..];
    }

    /** Packet i is parked behind the burst for the service stage. */
    method SetAsideAt(i: nat, post: nat,
                      ghost rx: seq<Mbuf>, ghost p: Progress, ghost handed0: seq<Batch>, ghost freed0: seq<Mbuf>)
      requires i < |rx| && Shows(rx, p, i, 0, post, handed0, freed0) && post < buffers.Length
      modifies buffers
      ensures Shows(rx, SetAside(p, rx[i]), i + 1, 0, post + 1, handed0, freed0)
    {
      assert buffers[i] == buffers[i..|rx|][0] == rx[i];
      buffers[post] := buffers[i];
      assert buffers[|rx|..post + 1] == p.parked + [rx[i]];
      assert buffers[i + 1..|rx|] == rx[i..][1..];
    }

    /** Reads packet i and looks its channel up. */
    method LookUp(i: nat, env: Env, ghost rx: seq<Mbuf>) returns (kind: Kind, target: Option<Channel>)
      requires Valid() && env.Valid(|rx|) && i < |rx| <= buffers.Length && sinks <= env.views[i + 1]
      requires buffers[i] == rx[i]
      modifies this`sinks, this`checkpoint, this`last
      ensures Valid() && old(sinks) <= sinks <= env.views[i + 1]
      ensures old(checkpoint) < reloadCheckpoint ==> sinks == old(sinks)
      ensures old(checkpoint) < reloadCheckpoint || old(checkpoint) == 0 ==> checkpoint == old(checkpoint)
      ensures RouteOf(device.logic, sinks, rx[i])
           == if target.Some? then Deliver(target.value) else if kind.Broken? then Drop else Serve
    {
      kind := device.logic.kindOf(buffers[i]);
      target := None;
      if kind.Udp? {
        target := FindRxChannel(kind.port, env.views[i + 1]);
      }
    }

    /** Ends the waiting run unless packet i prolongs it. */
    method EndRun(i: nat, ready: nat, channel: Channel, target: Option<Channel>, env: Env, ghost post: nat,
                  ghost rx: seq<Mbuf>, ghost p: Progress, ghost handed0: seq<Batch>, ghost freed0: seq<Mbuf>)
      returns (ready': nat)
      requires env.Valid(|rx|) && Shows(rx, p, i, ready, post, handed0, freed0)
      modifies device`handed, device`freed
      ensures Shows(rx, Ended(p, channel, target, env.recycle), i, ready', post, handed0, freed0)
      ensures target.None? ==> ready' == 0
    {
      ready' := ready;
      if ready != 0 && target != Some(channel) {
        Flush(i, ready, channel, target.Some?, env, |rx|, post, rx, p, handed0, freed0);
        ready' := 0;
      }
    }

    /** Puts packet i where it belongs. */
    method PlaceAt(i: nat, ready: nat, post: nat, target: Option<Channel>, broken: bool, ghost route: Route,
                   ghost rx: seq<Mbuf>, ghost p: Progress, ghost handed0: seq<Batch>, ghost freed0: seq<Mbuf>)
      returns (ready': nat, post': nat)
      requires i < |rx| && Shows(rx, p, i, ready, post, handed0, freed0)
      requires route == Serve ==> post < buffers.Length
      requires route == if target.Some? then Deliver(target.value) else if broken then Drop else Serve
      requires target.None? ==> ready == 0
      modifies device`freed, buffers
      ensures Shows(rx, Placed(device.logic, p, rx[i], route), i + 1, ready', post', handed0, freed0)
      ensures post' == post + if route == Serve then 1 else 0
    {
      ready', post' := ready, post;
      if target.Some? {
        TakeAt(i, ready, post, target.value, rx, p, handed0, freed0);
        ready' := ready + 1;
      } else if broken {
        DiscardAt(i, post, rx, p, handed0, freed0);
      } else {
        SetAsideAt(i, post, rx, p, handed0, freed0);
        post' := post + 1;
      }
    }

    /** One round of the dispatch loop.  The packet goes where the table in
        force sends it; a run is handed over when another channel or no channel
        follows, and only in the first case is what comes back freed.  The
        hand-over is made before a broken or service packet is dealt with;
        the two do not touch the same state. */
    method DispatchAt(i: nat, ready: nat, post: nat, channel: Channel, env: Env,
                      ghost rx: seq<Mbuf>, ghost p: Progress, ghost handed0: seq<Batch>, ghost freed0: seq<Mbuf>)
      returns (ready': nat, post': nat, channel': Channel, ghost route: Route)
      requires Valid() && env.Valid(|rx|) && i < |rx| && sinks <= env.views[i + 1]
      requires Shows(rx, p, i, ready, post, handed0, freed0)
      requires RouteOf(device.logic, sinks, rx[i]) == Serve ==> post < buffers.Length
      modifies this`sinks, this`checkpoint, this`last, device`handed, device`freed, buffers
      ensures Valid() && old(sinks) <= sinks <= env.views[i + 1]
      ensures old(checkpoint) < reloadCheckpoint ==> sinks == old(sinks)
      ensures old(checkpoint) < reloadCheckpoint || old(checkpoint) == 0 ==> checkpoint == old(checkpoint)
      ensures route == RouteOf(device.logic, sinks, rx[i]) && channel' == NextChannel(channel, route)
      ensures Shows(rx, Step(device.logic, p, channel, rx[i], route, env.recycle), i + 1, ready', post',
                    handed0, freed0)
      ensures post' == post + if route == Serve then 1 else 0
    {
      assert buffers[i] == buffers[i..|rx|][0] == rx[i];
      var kind, target := LookUp(i, env, rx);
      route := RouteOf(device.logic, sinks, rx[i]);
      if route == Serve {
        ServeStays(device.logic, old(sinks), sinks, rx[i]);
      }
      ready' := EndRun(i, ready, channel, target, env, post, rx, p, handed0, freed0);
      channel' := if target.Some? then target.value else channel;
      ready', post' := PlaceAt(i, ready', post, target, kind.Broken?, route,
                               rx, Ended(p, channel, target, env.recycle), handed0, freed0);
    }

    /** Invariant of the dispatch loop. */
    ghost predicate Dispatching(env: Env, rx: seq<Mbuf>, p: Progress, snaps: seq<Table>,
                                i: nat, ready: nat, post: nat, channel: Channel,
                                first: Table, handed0: seq<Batch>, freed0: seq<Mbuf>)
      requires env.Valid(|rx|) && i <= |rx|
      reads this, buffers, device
    {
      && Valid() && first <= sinks <= env.views[i]
      && (checkpoint < reloadCheckpoint ==> sinks == first)
      && Shows(rx, p, i, ready, post, handed0, freed0) && post <= |rx| + Staying(device.logic, first, rx, i)
      && Recorded(device.logic, rx, p, channel, env.recycle, first, snaps, env.views, sinks, i)
    }

    lemma StartOfBurst(env: Env, rx: seq<Mbuf>)
      requires Valid() && env.Valid(|rx|) && sinks <= env.views[0]
      requires |rx| <= buffers.Length && buffers[..|rx|] == rx
      ensures Dispatching(env, rx, NOTHING_DONE, [], 0, 0, |rx|, 0, sinks, device.handed, device.freed)
    {
      NothingInLedger(device.logic, rx, 0, env.recycle, sinks, env.views);
    }

    /** One round keeps the invariant. */
    method Round(i: nat, ready: nat, post: nat, channel: Channel, env: Env,
                 ghost rx: seq<Mbuf>, ghost p: Progress, ghost snaps: seq<Table>,
                 ghost first: Table, ghost handed0: seq<Batch>, ghost freed0: seq<Mbuf>)
      returns (ready': nat, post': nat, channel': Channel, ghost p': Progress, ghost snaps': seq<Table>)
      requires env.Valid(|rx|) && i < |rx| && |rx| + Staying(device.logic, first, rx, |rx|) <= buffers.Length
      requires checkpoint < reloadCheckpoint || checkpoint == 0
      requires Dispatching(env, rx, p, snaps, i, ready, post, channel, first, handed0, freed0)
      modifies this`sinks, this`checkpoint, this`last, device`handed, device`freed, buffers
      ensures checkpoint == old(checkpoint)
      ensures Dispatching(env, rx, p', snaps', i + 1, ready', post', channel', first, handed0, freed0)
    {
      assert env.views[i] <= env.views[i + 1];
      ghost var route, now := Drop, sinks;
      RoomToPark(device.logic, first, sinks, rx, i);
      ready', post', channel', route := DispatchAt(i, ready, post, channel, env, rx, p, handed0, freed0);
      p' := Step(device.logic, p, channel, rx[i], route, env.recycle);
      RoomToPark(device.logic, first, sinks, rx, i);
      RecordStep(device.logic, rx, p, channel, env.recycle, first, snaps, env.views, now, i, sinks);
      snaps' := snaps + [sinks];
    }

    /** Hands the last run over. */
    method LastRun(ready: nat, channel: Channel, env: Env, n: nat, ghost post: nat,
                   ghost rx: seq<Mbuf>, ghost p: Progress, ghost handed0: seq<Batch>, ghost freed0: seq<Mbuf>)
      returns (ghost p': Progress)
      requires env.Valid(n) && n == |rx| && Shows(rx, p, n, ready, post, handed0, freed0)
      requires Accounted(device.logic, rx, p, channel) && Batching(device.logic, rx, p, channel, env.recycle)
      modifies device`handed, device`freed
      ensures Shows(rx, p', n, 0, post, handed0, freed0) && p'.routes == p.routes
      ensures Settled(device.logic, rx, p') && Batched(device.logic, rx, p', env.recycle)
    {
      var _ := EndRun(n, ready, channel, None, env, post, rx, p, handed0, freed0);
      p' := Ended(p, channel, None, env.recycle);
      if p.waiting != [] {
        FlushedAccounted(device.logic, rx, p, channel, env.recycle(channel, p.waiting), false);
      }
      AccountedIsSettled(device.logic, rx, p', channel);
      LastRunBatched(device.logic, rx, p, channel, env.recycle);
    }

    /** The loop over the burst and the hand-over of the last run. */
    method Dispatch(n: nat, env: Env, ghost rx: seq<Mbuf>)
      returns (post: nat, ghost p: Progress, ghost snaps: seq<Table>)
      requires Valid() && env.Valid(n) && sinks <= env.views[0]
      requires n == |rx| && n + Staying(device.logic, sinks, rx, n) <= buffers.Length && buffers[..n] == rx
      requires checkpoint < reloadCheckpoint || checkpoint == 0
      modifies this`sinks, this`checkpoint, this`last, device`handed, device`freed, buffers
      ensures Valid() && old(sinks) <= sinks <= env.views[n] && checkpoint == old(checkpoint)
      ensures checkpoint < reloadCheckpoint ==> sinks == old(sinks)
      ensures Settled(device.logic, rx, p) && Batched(device.logic, rx, p, env.recycle)
      ensures n <= post <= 2 * n && post <= buffers.Length && buffers[n..post] == p.parked
      ensures device.handed == old(device.handed) + p.batches && device.freed == old(device.freed) + p.freed
      ensures History(device.logic, rx, p.routes, old(sinks), snaps, env.views)
    {
      hide Accounted, Batching, Settled, Batched;
      var ready, channel := 0, 0;
      post := n;
      p, snaps := NOTHING_DONE, [];
      StartOfBurst(env, rx);
      for i := 0 to n
        invariant checkpoint == old(checkpoint)
        invariant Dispatching(env, rx, p, snaps, i, ready, post, channel,
                              old(sinks), old(device.handed), old(device.freed))
      {
        ready, post, channel, p, snaps :=
          Round(i, ready, post, channel, env, rx, p, snaps, old(sinks), old(device.handed), old(device.freed));
      }
      p := LastRun(ready, channel, env, n, post, rx, p, old(device.handed), old(device.freed));
    }

    // ---- the whole call ----------------------------------------------------

    /** The NIC fills the front of the array and every frame's tags are walked. */
    method Receive(burst: seq<Mbuf>)
      requires |burst| <= buffers.Length
      requires forall i :: 0 <= i < |burst| ==> burst[i].Valid() && !EndlessTags(burst[i])
      modifies buffers
      ensures buffers[..|burst|] == WalkAll(burst)
    {
      for i := 0 to |burst|
        invariant forall j :: 0 <= j < i ==> buffers[j] == WalkAll(burst)[j]
      {
        var m, proto := UpdateL2Size(burst[i]);
        buffers[i] := m;
      }
    }

    /** The parked packets are answered or freed, and the ARP table has learnt from them. */
    ghost predicate Answering(parked: seq<Mbuf>, env: Env, ring: seq<Mbuf>, freed: seq<Mbuf>, arp: ArpTable)
      requires |parked| <= |env.accepts| && |parked| <= |env.clocks|
      reads device
    {
      && device.ring == ring + Answered(device.logic, parked, env.accepts, |parked|)
      && device.freed == freed + Unanswered(device.logic, parked, env.accepts, |parked|)
      && device.arp == Learnt(device.logic, arp, parked, env.clocks, |parked|)
    }

    /** Answers the parked packets and frees what remains of them. */
    method ServiceStage(n: nat, post: nat, env: Env)
      requires n <= post <= buffers.Length && post - n <= |env.accepts| && post - n <= |env.clocks|
      modifies device`arp, device`ring, device`freed, buffers
      ensures Answering(old(buffers[n..post]), env, old(device.ring), old(device.freed), old(device.arp))
    {
      if n != post {
        ServeParked(n, post, env);
      } else {
        NothingParked(env);
        assert buffers[n..post] == [];
      }
    }

    lemma NothingParked(env: Env)
      ensures Answering([], env, device.ring, device.freed, device.arp)
    {
    }

    method ServeParked(n: nat, post: nat, env: Env)
      requires n < post <= buffers.Length && post - n <= |env.accepts| && post - n <= |env.clocks|
      modifies device`arp, device`ring, device`freed, buffers
      ensures Answering(old(buffers[n..post]), env, old(device.ring), old(device.freed), old(device.arp))
    {
      var recycle := device.ProcessRxPackets(buffers, n, post - n, env.accepts, env.clocks);
      device.freed := device.freed + buffers[n..n + recycle];
    }

    /** The array has room for the burst and, behind it, for all of it that the
        table leaves to the service stage. */
    ghost predicate BurstFits(burst: seq<Mbuf>, t: Table)
      requires forall i :: 0 <= i < |burst| ==> burst[i].Valid()
    {
      |burst| + Staying(device.logic, t, WalkAll(burst), |burst|) <= buffers.Length
    }

    /** The table in force once a call has started. */
    ghost function OpeningTable(env: Env): Table
      requires |env.views| > 0
      reads this
    {
      if checkpoint >= reloadCheckpoint then env.views[0] else sinks
    }

    /** Receives a burst and dispatches it. */
    method Accept(burst: seq<Mbuf>, env: Env) returns (post: nat, ghost p: Progress, ghost snaps: seq<Table>)
      requires Valid() && env.Valid(|burst|) && sinks <= env.views[0]
      requires checkpoint < reloadCheckpoint || checkpoint == 0
      requires forall i :: 0 <= i < |burst| ==> burst[i].Valid() && !EndlessTags(burst[i])
      requires BurstFits(burst, sinks)
      modifies this`sinks, this`checkpoint, this`last, device`handed, device`freed, buffers
      ensures Valid() && old(sinks) <= sinks <= env.views[|burst|] && checkpoint == old(checkpoint)
      ensures checkpoint < reloadCheckpoint ==> sinks == old(sinks)
      ensures Settled(device.logic, WalkAll(burst), p) && Batched(device.logic, WalkAll(burst), p, env.recycle)
      ensures |burst| <= post <= 2 * |burst| && post <= buffers.Length && buffers[|burst|..post] == p.parked
      ensures device.handed == old(device.handed) + p.batches && device.freed == old(device.freed) + p.freed
      ensures History(device.logic, WalkAll(burst), p.routes, old(sinks), snaps, env.views)
    {
      Receive(burst);
      post, p, snaps := Dispatch(|burst|, env, WalkAll(burst));
    }

    /** Everything that happens to the packets of one burst. */
    method HandleBurst(burst: seq<Mbuf>, env: Env) returns (ghost p: Progress, ghost snaps: seq<Table>, served: nat)
      requires Valid() && env.Valid(|burst|) && sinks <= env.views[0]
      requires checkpoint < reloadCheckpoint || checkpoint == 0
      requires forall i :: 0 <= i < |burst| ==> burst[i].Valid() && !EndlessTags(burst[i])
      requires BurstFits(burst, sinks)
      modifies this`sinks, this`checkpoint, this`last, device, buffers
      ensures Valid() && old(sinks) <= sinks <= env.views[|burst|] && checkpoint == old(checkpoint)
      ensures checkpoint < reloadCheckpoint ==> sinks == old(sinks)
      ensures Settled(device.logic, WalkAll(burst), p) && Batched(device.logic, WalkAll(burst), p, env.recycle)
      ensures served == |p.parked|
      ensures History(device.logic, WalkAll(burst), p.routes, old(sinks), snaps, env.views)
      ensures device.handed == old(device.handed) + p.batches && |p.parked| <= |burst|
      ensures Answering(p.parked, env, old(device.ring), old(device.freed) + p.freed, old(device.arp))
    {
      hide Settled, Batched, History, Answered, Unanswered, Learnt;
      var post: nat;
      post, p, snaps := Accept(burst, env);
      served := post - |burst|;
      ServiceStage(|burst|, post, env);
    }

    /** The refresh counter at the end of a call. */
    method Advance(quiet: bool)
      modifies this`checkpoint
      ensures checkpoint == Advanced(old(checkpoint), burstSize, quiet)
    {
      if quiet {
        checkpoint := (checkpoint as int + 2 * burstSize as int) % 0x1_0000;
      }
      checkpoint := (checkpoint as int + 1) % 0x1_0000;
    }

    /** `rx_job::process`, for every burst that fits the array together with what
        the table at the start of the call leaves of it. */
    method Process(burst: seq<Mbuf>, env: Env)
      returns (state: Jobs.JobState, ghost p: Progress, ghost snaps: seq<Table>)
      requires Valid() && |burst| <= burstSize
      requires env.Valid(|burst|) && sinks <= env.views[0]
      requires forall i :: 0 <= i < |burst| ==> burst[i].Valid() && !EndlessTags(burst[i])
      requires BurstFits(burst, OpeningTable(env))
      modifies this`sinks, this`checkpoint, this`last, device, buffers
      ensures Valid() && state == Jobs.Idling
      // where the packets went
      ensures Settled(device.logic, WalkAll(burst), p) && Batched(device.logic, WalkAll(burst), p, env.recycle)
      ensures History(device.logic, WalkAll(burst), p.routes,
                      old(OpeningTable(env)), snaps, env.views)
      ensures device.handed == old(device.handed) + p.batches
      ensures device.ring == old(device.ring) + Answered(device.logic, p.parked, env.accepts, |p.parked|)
      ensures device.freed == old(device.freed) + p.freed + Unanswered(device.logic, p.parked, env.accepts, |p.parked|)
      ensures device.arp == Learnt(device.logic, old(device.arp), p.parked, env.clocks, |p.parked|)
      // what the job remembers
      ensures checkpoint == AfterCall(old(checkpoint), reloadCheckpoint, burstSize,
                                      Quiet(|burst|, |p.parked|, burstSize))
      ensures sinks <= env.views[|burst|]
      ensures old(checkpoint) >= reloadCheckpoint ==> env.views[0] <= sinks
      ensures old(checkpoint) < reloadCheckpoint ==> sinks == old(sinks)
    {
      var _ := TryReloadSinks(env.views[0]);
      assert checkpoint == Refreshed(old(checkpoint), reloadCheckpoint);
      var served: nat;
      p, snaps, served := HandleBurst(burst, env);
      Advance(Quiet(|burst|, served, burstSize));
      state := Jobs.Idling;
    }
  }
}
