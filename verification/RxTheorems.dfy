/** What the receive path guarantees about every burst. */
module RxTheorems {
  import opened Bytes
  import opened Collections
  import opened Frame
  import opened Sinks
  import opened Service
  import opened RxSpec
  import RxPath
  import F = RxRefresh
  import A = AttachProtocol

  // ---- conservation -------------------------------------------------------

  /** How often the buffer `id` occurs. */
  function Count(s: seq<Mbuf>, id: nat): nat {
    if |s| == 0 then 0 else Count(s[..|s| - 1], id) + if s[|s| - 1].id == id then 1 else 0
  }

  function CountPairs(s: seq<(Channel, Mbuf)>, id: nat): nat {
    if |s| == 0 then 0 else CountPairs(s[..|s| - 1], id) + if s[|s| - 1].1.id == id then 1 else 0
  }

  lemma {:induction false} CountConcat(a: seq<Mbuf>, b: seq<Mbuf>, id: nat)
    ensures Count(a + b, id) == Count(a, id) + Count(b, id)
  {
    if b == [] {
      assert a + b == a;
    } else {
      assert (a + b)[..|a + b| - 1] == a + b[..|b| - 1];
      CountConcat(a, b[..|b| - 1], id);
    }
  }

  lemma {:induction false} CountPairsConcat(a: seq<(Channel, Mbuf)>, b: seq<(Channel, Mbuf)>, id: nat)
    ensures CountPairs(a + b, id) == CountPairs(a, id) + CountPairs(b, id)
  {
    if b == [] {
      assert a + b == a;
    } else {
      assert (a + b)[..|a + b| - 1] == a + b[..|b| - 1];
      CountPairsConcat(a, b[..|b| - 1], id);
    }
  }

  lemma {:induction false} CountTagged(channel: Channel, mbufs: seq<Mbuf>, id: nat)
    ensures CountPairs(Tagged(channel, mbufs), id) == Count(mbufs, id)
  {
    if mbufs != [] {
      var k := |mbufs| - 1;
      assert Tagged(channel, mbufs)[..k] == Tagged(channel, mbufs[..k]);
      CountTagged(channel, mbufs[..k], id);
    }
  }

  lemma CountNone(id: nat)
    ensures Count([], id) == 0
  {
  }

  lemma CountOne(m: Mbuf, id: nat)
    ensures Count([m], id) == if m.id == id then 1 else 0
  {
    assert [m][..0] == [];
  }

  lemma RemoveElement(s: seq<Mbuf>, t: seq<Mbuf>, j: nat)
    requires s != [] && j < |t| && t[j] == s[|s| - 1] && multiset(s) == multiset(t)
    ensures multiset(s[..|s| - 1]) == multiset(t[..j] + t[j + 1..])
  {
    var m, s', t' := t[j], s[..|s| - 1], t[..j] + t[j + 1..];
    assert s == s' + [m];
    assert multiset(s) == multiset(s') + multiset{m};
    assert t == t[..j] + [m] + t[j + 1..];
    assert multiset(t) == multiset(t[..j]) + multiset{m} + multiset(t[j + 1..]);
    assert multiset(t') == multiset(t[..j]) + multiset(t[j + 1..]);
    assert multiset(s') == multiset(s) - multiset{m};
    assert multiset(t') == multiset(t) - multiset{m};
  }

  lemma CountMiddle(a: seq<Mbuf>, m: Mbuf, c: seq<Mbuf>, id: nat)
    ensures Count((a + [m]) + c, id) == Count(a + c, id) + if m.id == id then 1 else 0
  {
    CountConcat(a + [m], c, id);
    CountOneMore(a, m, id);
    CountConcat(a, c, id);
  }

  /** Counts depend on the elements, not on their order. */
  lemma {:induction false} CountOfSameElements(s: seq<Mbuf>, t: seq<Mbuf>, id: nat)
    requires multiset(s) == multiset(t)
    ensures Count(s, id) == Count(t, id)
    decreases |s|
  {
    if s == [] {
      assert |multiset(t)| == 0;
    } else {
      var m := s[|s| - 1];
      assert m in multiset(t);
      var j :| 0 <= j < |t| && t[j] == m;
      RemoveElement(s, t, j);
      CountOfSameElements(s[..|s| - 1], t[..j] + t[j + 1..], id);
      assert t == (t[..j] + [m]) + t[j + 1..];
      CountMiddle(t[..j], m, t[j + 1..], id);
    }
  }

  lemma CountPairsOneMore(s: seq<(Channel, Mbuf)>, x: (Channel, Mbuf), id: nat)
    ensures CountPairs(s + [x], id) == CountPairs(s, id) + if x.1.id == id then 1 else 0
  {
    assert (s + [x])[..|s|] == s;
  }

  lemma CountOneMore(s: seq<Mbuf>, m: Mbuf, id: nat)
    ensures Count(s + [m], id) == Count(s, id) + if m.id == id then 1 else 0
  {
    assert (s + [m])[..|s|] == s;
  }

  /** Every packet is delivered, dropped or left over, never two of these. */
  lemma {:induction false} RoutingSplits(pl: PacketLogic, rx: seq<Mbuf>, routes: seq<Route>, id: nat)
    requires |rx| == |routes| && pl.KeepsIdentity()
    ensures Count(rx, id) == CountPairs(Delivered(pl, rx, routes), id) + Count(Dropped(rx, routes), id)
                           + Count(Leftover(rx, routes), id)
  {
    if rx != [] {
      var i := |rx| - 1;
      RoutingSplits(pl, rx[..i], routes[..i], id);
      match routes[i]
      case Deliver(channel) =>
        CountPairsOneMore(Delivered(pl, rx[..i], routes[..i]), (channel, pl.prepare(rx[i])), id);
      case Drop =>
        CountOneMore(Dropped(rx[..i], routes[..i]), rx[i], id);
      case Serve =>
        CountOneMore(Leftover(rx[..i], routes[..i]), rx[i], id);
    }
  }

  /** What channels were handed is kept by them, freed by the caller, or leaked. */
  lemma {:induction false} HandOverSplits(batches: seq<Batch>, id: nat)
    requires AllValid(batches)
    ensures CountPairs(Flatten(batches), id)
         == Count(Kept(batches), id) + Count(Reclaimed(batches), id) + Count(Leaked(batches), id)
  {
    if batches != [] {
      var k := |batches| - 1;
      var b := batches[k];
      var front, back := b.mbufs[..b.returned], b.mbufs[b.returned..];
      HandOverSplits(batches[..k], id);
      CountPairsConcat(Flatten(batches[..k]), Tagged(b.channel, b.mbufs), id);
      CountTagged(b.channel, b.mbufs, id);
      assert front + back == b.mbufs;
      CountConcat(front, back, id);
      CountConcat(Kept(batches[..k]), back, id);
      CountConcat(Reclaimed(batches[..k]), if b.reclaimed then front else [], id);
      CountConcat(Leaked(batches[..k]), if b.reclaimed then [] else front, id);
    }
  }

  lemma OnePacketServed(pl: PacketLogic, m: Mbuf, accept: bool, id: nat)
    requires pl.KeepsIdentity()
    ensures Count(Sent(pl, m, accept), id) + Count(Unsent(pl, m, accept), id) == One(m, id)
  {
    CountOne(m, id);
    if pl.answer(m).Some? {
      CountOne(pl.answer(m).value, id);
    }
  }

  /** How often the buffer occurs among the first k. */
  function CountTo(s: seq<Mbuf>, k: nat, id: nat): nat
    requires k <= |s|
  {
    if k == 0 then 0 else CountTo(s, k - 1, id) + One(s[k - 1], id)
  }

  function One(m: Mbuf, id: nat): nat {
    if m.id == id then 1 else 0
  }

  lemma {:induction false} CountToIsCount(s: seq<Mbuf>, k: nat, id: nat)
    requires k <= |s|
    ensures CountTo(s, k, id) == Count(s[..k], id)
  {
    if k > 0 {
      CountToIsCount(s, k - 1, id);
      NextSeen(s, k - 1);
      CountOneMore(s[..k - 1], s[k - 1], id);
    }
  }

  /** How often the buffer is answered, and how often left over, among the first k. */
  function SentCount(pl: PacketLogic, rest: seq<Mbuf>, accepts: seq<bool>, k: nat, id: nat): nat
    requires k <= |rest| && k <= |accepts|
  {
    if k == 0 then 0
    else SentCount(pl, rest, accepts, k - 1, id) + Count(Sent(pl, rest[k - 1], accepts[k - 1]), id)
  }

  function UnsentCount(pl: PacketLogic, rest: seq<Mbuf>, accepts: seq<bool>, k: nat, id: nat): nat
    requires k <= |rest| && k <= |accepts|
  {
    if k == 0 then 0
    else UnsentCount(pl, rest, accepts, k - 1, id) + Count(Unsent(pl, rest[k - 1], accepts[k - 1]), id)
  }

  lemma {:induction false} SentIsAnswered(pl: PacketLogic, rest: seq<Mbuf>, accepts: seq<bool>, k: nat, id: nat)
    requires k <= |rest| && k <= |accepts|
    ensures SentCount(pl, rest, accepts, k, id) == Count(Answered(pl, rest, accepts, k), id)
  {
    hide Count;
    if k == 0 {
      CountNone(id);
    } else {
      SentIsAnswered(pl, rest, accepts, k - 1, id);
      CountConcat(Answered(pl, rest, accepts, k - 1), Sent(pl, rest[k - 1], accepts[k - 1]), id);
    }
  }

  lemma {:induction false} UnsentIsUnanswered(pl: PacketLogic, rest: seq<Mbuf>, accepts: seq<bool>, k: nat, id: nat)
    requires k <= |rest| && k <= |accepts|
    ensures UnsentCount(pl, rest, accepts, k, id) == Count(Unanswered(pl, rest, accepts, k), id)
  {
    hide Count;
    if k == 0 {
      CountNone(id);
    } else {
      UnsentIsUnanswered(pl, rest, accepts, k - 1, id);
      CountConcat(Unanswered(pl, rest, accepts, k - 1), Unsent(pl, rest[k - 1], accepts[k - 1]), id);
    }
  }

  lemma {:induction false} SentOrNot(pl: PacketLogic, rest: seq<Mbuf>, accepts: seq<bool>, k: nat, id: nat)
    requires k <= |rest| && k <= |accepts| && pl.KeepsIdentity()
    ensures CountTo(rest, k, id) == SentCount(pl, rest, accepts, k, id) + UnsentCount(pl, rest, accepts, k, id)
  {
    if k > 0 {
      SentOrNot(pl, rest, accepts, k - 1, id);
      OnePacketServed(pl, rest[k - 1], accepts[k - 1], id);
    }
  }

  /** Every parked packet is answered on the ring or left to be freed. */
  lemma ServiceSplits(pl: PacketLogic, rest: seq<Mbuf>, accepts: seq<bool>, id: nat)
    requires |rest| <= |accepts| && pl.KeepsIdentity()
    ensures Count(rest, id)
         == Count(Answered(pl, rest, accepts, |rest|), id) + Count(Unanswered(pl, rest, accepts, |rest|), id)
  {
    CountToIsCount(rest, |rest|, id);
    assert rest[..|rest|] == rest;
    SentOrNot(pl, rest, accepts, |rest|, id);
    SentIsAnswered(pl, rest, accepts, |rest|, id);
    UnsentIsUnanswered(pl, rest, accepts, |rest|, id);
  }

  /** Conservation over a whole call: each buffer received is, as often as it
      was received, with a channel, on the free list, on the service ring, or
      leaked; so a buffer received once is in exactly one of these places. */
  lemma Conservation(pl: PacketLogic, rx: seq<Mbuf>, p: Progress, accepts: seq<bool>, id: nat)
    requires pl.KeepsIdentity() && Settled(pl, rx, p) && |p.parked| <= |accepts|
    ensures Count(rx, id) == Count(Kept(p.batches), id)
                           + Count(p.freed + Unanswered(pl, p.parked, accepts, |p.parked|), id)
                           + Count(Answered(pl, p.parked, accepts, |p.parked|), id)
                           + Count(Leaked(p.batches), id)
  {
    RoutingSplits(pl, rx, p.routes, id);
    HandOverSplits(p.batches, id);
    ServiceSplits(pl, p.parked, accepts, id);
    FreedSplits(pl, rx, p, id);
    CountConcat(p.freed, Unanswered(pl, p.parked, accepts, |p.parked|), id);
  }

  lemma FreedSplits(pl: PacketLogic, rx: seq<Mbuf>, p: Progress, id: nat)
    requires Settled(pl, rx, p)
    ensures Count(p.freed, id) == Count(Dropped(rx, p.routes), id) + Count(Reclaimed(p.batches), id)
  {
    var dropped, reclaimed := Dropped(rx, p.routes), Reclaimed(p.batches);
    assert multiset(dropped + reclaimed) == multiset(dropped) + multiset(reclaimed);
    CountOfSameElements(p.freed, dropped + reclaimed, id);
    CountConcat(dropped, reclaimed, id);
  }

  // ---- conservation over a run of calls --------------------------------------------

  /** Every buffer received is, as often as it was received, with a channel, freed,
      on the service ring, or leaked. */
  ghost predicate Balanced(received: seq<Mbuf>, handed: seq<Batch>, freed: seq<Mbuf>, ring: seq<Mbuf>) {
    && AllValid(handed)
    && forall id :: Count(received, id)
                 == Count(Kept(handed), id) + Count(freed, id) + Count(ring, id) + Count(Leaked(handed), id)
  }

  lemma ValidConcat(a: seq<Batch>, b: seq<Batch>)
    requires AllValid(a) && AllValid(b)
    ensures AllValid(a + b)
  {
  }

  lemma KeptOneMore(a: seq<Batch>, x: Batch)
    requires AllValid(a) && x.Valid()
    ensures AllValid(a + [x]) && Kept(a + [x]) == Kept(a) + x.mbufs[x.returned..]
    ensures Leaked(a + [x]) == Leaked(a) + if x.reclaimed then [] else x.mbufs[..x.returned]
  {
    assert (a + [x])[..|a|] == a;
  }

  lemma {:induction false} KeptConcat(a: seq<Batch>, b: seq<Batch>)
    requires AllValid(a) && AllValid(b)
    ensures AllValid(a + b) && Kept(a + b) == Kept(a) + Kept(b)
  {
    hide Kept, Leaked;
    ValidConcat(a, b);
    if b == [] {
      assert a + b == a;
      NothingKept();
    } else {
      var k := |b| - 1;
      var x := b[k];
      assert b == b[..k] + [x] && a + b == (a + b[..k]) + [x];
      KeptConcat(a, b[..k]);
      KeptOneMore(a + b[..k], x);
      KeptOneMore(b[..k], x);
    }
  }

  lemma {:induction false} LeakedConcat(a: seq<Batch>, b: seq<Batch>)
    requires AllValid(a) && AllValid(b)
    ensures AllValid(a + b) && Leaked(a + b) == Leaked(a) + Leaked(b)
  {
    hide Kept, Leaked;
    ValidConcat(a, b);
    if b == [] {
      assert a + b == a;
      NothingKept();
    } else {
      var k := |b| - 1;
      var x := b[k];
      assert b == b[..k] + [x] && a + b == (a + b[..k]) + [x];
      LeakedConcat(a, b[..k]);
      KeptOneMore(a + b[..k], x);
      KeptOneMore(b[..k], x);
    }
  }

  lemma NothingKept()
    ensures Kept([]) == [] == Leaked([])
  {
  }

  lemma BalancesAdd(r: seq<Mbuf>, h: seq<Batch>, f: seq<Mbuf>, g: seq<Mbuf>,
                    r': seq<Mbuf>, h': seq<Batch>, f': seq<Mbuf>, g': seq<Mbuf>)
    requires Balanced(r, h, f, g) && Balanced(r', h', f', g')
    ensures Balanced(r + r', h + h', f + f', g + g')
  {
    KeptConcat(h, h');
    LeakedConcat(h, h');
    forall id
      ensures Count(r + r', id) == Count(Kept(h + h'), id) + Count(f + f', id) + Count(g + g', id)
                                 + Count(Leaked(h + h'), id)
    {
      hide Count, Kept, Leaked;
      CountConcat(r, r', id);
      CountConcat(Kept(h), Kept(h'), id);
      CountConcat(f, f', id);
      CountConcat(g, g', id);
      CountConcat(Leaked(h), Leaked(h'), id);
    }
  }

  lemma CallIsBalanced(pl: PacketLogic, rx: seq<Mbuf>, p: Progress, accepts: seq<bool>)
    requires pl.KeepsIdentity() && Settled(pl, rx, p) && |p.parked| <= |accepts|
    ensures Balanced(rx, p.batches, p.freed + Unanswered(pl, p.parked, accepts, |p.parked|),
                     Answered(pl, p.parked, accepts, |p.parked|))
  {
    hide Count, Kept, Leaked, Answered, Unanswered;
    forall id
      ensures Count(rx, id) == Count(Kept(p.batches), id)
                             + Count(p.freed + Unanswered(pl, p.parked, accepts, |p.parked|), id)
                             + Count(Answered(pl, p.parked, accepts, |p.parked|), id) + Count(Leaked(p.batches), id)
    {
      Conservation(pl, rx, p, accepts, id);
    }
  }

  /** All the packets of the first k bursts. */
  function Received(bursts: seq<seq<Mbuf>>, k: nat): seq<Mbuf>
    requires k <= |bursts| && forall i :: 0 <= i < |bursts| ==> AllMbufsValid(bursts[i])
  {
    if k == 0 then [] else Received(bursts, k - 1) + WalkAll(bursts[k - 1])
  }

  predicate AllMbufsValid(burst: seq<Mbuf>) {
    forall m :: 0 <= m < |burst| ==> burst[m].Valid()
  }

  /** One call, with what it adds to the device's logs. */
  method ProcessOnce(job: RxPath.RxJob, burst: seq<Mbuf>, env: RxPath.Env, ghost start: Table)
    returns (ghost handed: seq<Batch>, ghost freed: seq<Mbuf>, ghost ring: seq<Mbuf>)
    requires job.Valid() && job.device.logic.KeepsIdentity() && AllMbufsValid(burst)
    requires F.Fits(job, burst, env, start) && start <= job.sinks <= F.Opening(env)
    modifies job`sinks, job`checkpoint, job`last, job.device, job.buffers
    ensures job.Valid() && start <= job.sinks <= F.Closing(env)
    ensures job.device.handed == old(job.device.handed) + handed
    ensures job.device.freed == old(job.device.freed) + freed && job.device.ring == old(job.device.ring) + ring
    ensures Balanced(WalkAll(burst), handed, freed, ring)
  {
    hide Answered, Unanswered, Learnt, Count, Kept, Leaked, Batched;
    F.FitsLater(job, burst, env, start, job.OpeningTable(env));
    var _, p, snaps := job.Process(burst, env);
    LeftoverIsSmall(WalkAll(burst), p.routes);
    CallIsBalanced(job.device.logic, WalkAll(burst), p, env.accepts);
    handed, freed := p.batches, p.freed + Unanswered(job.device.logic, p.parked, env.accepts, |p.parked|);
    ring := Answered(job.device.logic, p.parked, env.accepts, |p.parked|);
  }

  lemma {:induction false} LeftoverIsSmall(rx: seq<Mbuf>, routes: seq<Route>)
    requires |rx| == |routes|
    ensures |Leftover(rx, routes)| <= |rx|
  {
    if rx != [] {
      LeftoverIsSmall(rx[..|rx| - 1], routes[..|rx| - 1]);
    }
  }

  /** Any run of calls over any bursts: the growth of the device's logs accounts for
      every buffer of all bursts. */
  method ProcessAll(job: RxPath.RxJob, bursts: seq<seq<Mbuf>>, envs: seq<RxPath.Env>)
    returns (ghost handed: seq<Batch>, ghost freed: seq<Mbuf>, ghost ring: seq<Mbuf>)
    requires job.Valid() && job.device.logic.KeepsIdentity() && |bursts| == |envs|
    requires forall i :: 0 <= i < |bursts| ==> AllMbufsValid(bursts[i]) && F.Fits(job, bursts[i], envs[i], job.sinks)
    requires |envs| > 0 ==> job.sinks <= F.Opening(envs[0])
    requires forall i :: 0 < i < |envs| ==> F.Closing(envs[i - 1]) <= F.Opening(envs[i])
    modifies job`sinks, job`checkpoint, job`last, job.device, job.buffers
    ensures job.Valid() && job.device.handed == old(job.device.handed) + handed
    ensures job.device.freed == old(job.device.freed) + freed && job.device.ring == old(job.device.ring) + ring
    ensures Balanced(Received(bursts, |bursts|), handed, freed, ring)
  {
    hide Balanced, F.Fits, F.Opening, F.Closing;
    handed, freed, ring := [], [], [];
    NothingBalanced();
    for i := 0 to |bursts|
      invariant job.Valid() && old(job.sinks) <= job.sinks && (i < |envs| ==> job.sinks <= F.Opening(envs[i]))
      invariant job.device.handed == old(job.device.handed) + handed
      invariant job.device.freed == old(job.device.freed) + freed && job.device.ring == old(job.device.ring) + ring
      invariant Balanced(Received(bursts, i), handed, freed, ring)
    {
      var h, f, g := ProcessOnce(job, bursts[i], envs[i], old(job.sinks));
      BalancesAdd(Received(bursts, i), handed, freed, ring, WalkAll(bursts[i]), h, f, g);
      handed, freed, ring := handed + h, freed + f, ring + g;
      assert i + 1 < |envs| ==> F.Closing(envs[i + 1 - 1]) <= F.Opening(envs[i + 1]);
    }
  }

  lemma NothingBalanced()
    ensures Balanced([], [], [], [])
  {
  }

  // ---- leaks ----------------------------------------------------------------

  /** Run j gives buffers back although it is not followed at once by a packet
      for another channel, the only case in which the caller looks. */
  predicate GivesBackUnwatched(pl: PacketLogic, rx: seq<Mbuf>, routes: seq<Route>,
                               recycle: (Channel, seq<Mbuf>) -> nat, j: nat)
    requires |routes| == |rx| && j < |Runs(routes)|
  {
    var run := Runs(routes)[j];
    && (run.to == |routes| || !routes[run.to].Deliver?)
    && recycle(run.channel, PreparedRun(pl, rx, run.from, run.to)) > 0
  }

  lemma {:induction false} LeakedNothing(batches: seq<Batch>)
    requires AllValid(batches)
    ensures Leaked(batches) == []
       <==> forall j :: 0 <= j < |batches| ==> batches[j].reclaimed || batches[j].returned == 0
  {
    if batches != [] {
      var k := |batches| - 1;
      LeakedNothing(batches[..k]);
      assert forall j :: 0 <= j < k ==> batches[..k][j] == batches[j];
    }
  }

  /** Exactly when nothing is lost. */
  lemma LeakFreeExactly(pl: PacketLogic, rx: seq<Mbuf>, p: Progress, recycle: (Channel, seq<Mbuf>) -> nat)
    requires Settled(pl, rx, p) && Batched(pl, rx, p, recycle)
    ensures Leaked(p.batches) == [] <==>
            forall j :: 0 <= j < |Runs(p.routes)| ==> !GivesBackUnwatched(pl, rx, p.routes, recycle, j)
  {
    LeakedNothing(p.batches);
    forall j | 0 <= j < |p.batches|
      ensures GivesBackUnwatched(pl, rx, p.routes, recycle, j)
         <==> !(p.batches[j].reclaimed || p.batches[j].returned == 0)
    {
      assert p.batches[j] == BatchOf(pl, rx, p.routes, recycle, Runs(p.routes)[j]);
    }
  }

  /** A channel that, like the base class, gives every buffer back. */
  const ALL_BACK: (Channel, seq<Mbuf>) -> nat := (c, mbufs) => |mbufs|

  /** With such a channel a packet that is alone in its burst is leaked. */
  lemma LonePacketLeaks(pl: PacketLogic, m: Mbuf, c: Channel, p: Progress)
    requires Settled(pl, [m], p) && Batched(pl, [m], p, ALL_BACK) && p.routes == [Deliver(c)]
    ensures Leaked(p.batches) == [pl.prepare(m)]
  {
    RunsOneMore([], Deliver(c));
    assert [] + [Deliver(c)] == [Deliver(c)];
    var run := Run(0, 1, c);
    assert Runs(p.routes) == [run];
    assert p.batches[0] == BatchOf(pl, [m], p.routes, ALL_BACK, run);
    assert PreparedRun(pl, [m], 0, 1) == [pl.prepare(m)];
    assert p.batches == [p.batches[0]] && p.batches[..0] == [];
  }

  /** A UDP packet for port 9000, and a table that has a channel for it. */
  function UdpFrame(id: nat): (m: Mbuf)
    ensures m.Valid() && m.id == id
  {
    Mbuf(id, seq(DATA_ROOM, i => if i == 12 then 8 else if i == 14 then 0x45 else if i == 23 then 17
                                 else if i == 36 then 0x23 else if i == 37 then 0x28 else if i == 39 then 8 else 0),
         60, 0, 0, 0, 0)
  }

  const UDP_TABLE: Table := [SENTINEL, Sink(0, 9000, Some(1))]

  lemma UdpFrameIsDelivered(cfg: Config, id: nat)
    ensures !EndlessTags(UdpFrame(id))
    ensures var m := UdpFrame(id); RouteOf(LogicOf(cfg), UDP_TABLE, m.(l2Len := L2Walked(m))) == Deliver(1)
  {
    var m := UdpFrame(id);
    assert Be16(m.room, 12) == TYPE_IPV4 && Be16(m.room, 36) == 9000 && Be16(m.room, 38) == 8;
    assert !TagAt(m, TypeAfter(0));
    assert L2Walked(m) == ETHER_HEADER;
    var walked := m.(l2Len := ETHER_HEADER);
    assert Ip4HeaderLen(walked) == 20;
    LookupFirst(UDP_TABLE, 9000, 1);
  }

  /** So a burst of one UDP packet for a channel of the base class loses it. */
  lemma UdpPacketLeaks(cfg: Config, p: Progress)
    requires var rx := WalkAll([UdpFrame(0)]);
             && Settled(LogicOf(cfg), rx, p) && Batched(LogicOf(cfg), rx, p, ALL_BACK)
             && p.routes == RoutesBy(cfg, UDP_TABLE, rx)
    ensures Count(Leaked(p.batches), 0) == 1
  {
    UdpFrameIsDelivered(cfg, 0);
    var m := UdpFrame(0).(l2Len := L2Walked(UdpFrame(0)));
    assert WalkAll([UdpFrame(0)]) == [m];
    assert p.routes == [Deliver(1)];
    LonePacketLeaks(LogicOf(cfg), m, 1, p);
    LogicKeepsIdentity(cfg);
    CountOne(LogicOf(cfg).prepare(m), 0);
  }

  /** The receive job does so: the packet is handed over, comes back, and is neither
      freed nor sent. */
  method LosePacket(job: RxPath.RxJob) returns (ghost p: Progress)
    requires job.Valid() && job.burstSize >= 1 && job.device.logic == LogicOf(job.device.config)
    requires job.sinks == UDP_TABLE
    modifies job`sinks, job`checkpoint, job`last, job.device, job.buffers
    ensures AllValid(p.batches) && Count(Leaked(p.batches), 0) == 1
    ensures job.device.handed == old(job.device.handed) + p.batches
    ensures job.device.freed == old(job.device.freed) && job.device.ring == old(job.device.ring)
  {
    hide Settled, Batched, History, Count, Leaked, Answered, Unanswered, Learnt, LogicOf;
    ghost var cfg := job.device.config;
    var env := RxPath.Env([UDP_TABLE, UDP_TABLE], [true], [1], ALL_BACK);
    UdpFrameIsDelivered(cfg, 0);
    var _, q, snaps := job.Process([UdpFrame(0)], env);
    p := q;
    PacketIsLost(cfg, p, snaps);
    NothingServed(LogicOf(cfg), [], env.accepts, 0);
  }

  lemma PacketIsLost(cfg: Config, p: Progress, snaps: seq<Table>)
    requires var rx := WalkAll([UdpFrame(0)]);
             && Settled(LogicOf(cfg), rx, p) && Batched(LogicOf(cfg), rx, p, ALL_BACK)
             && History(LogicOf(cfg), rx, p.routes, UDP_TABLE, snaps, [UDP_TABLE, UDP_TABLE])
    ensures AllValid(p.batches) && Count(Leaked(p.batches), 0) == 1
    ensures p.parked == [] && p.freed == []
  {
    var rx := WalkAll([UdpFrame(0)]);
    OnlyRoute(cfg, p.routes, snaps);
    hide Settled, Batched, History, LogicOf, UdpFrame, RoutesBy, Count, Leaked;
    UdpPacketLeaks(cfg, p);
    assert rx == [rx[0]];
    NothingElse(LogicOf(cfg), rx[0], p);
    SettledIsValid(LogicOf(cfg), rx, p);
  }

  lemma SettledIsValid(pl: PacketLogic, rx: seq<Mbuf>, p: Progress)
    requires Settled(pl, rx, p)
    ensures AllValid(p.batches)
  {
  }

  lemma OnlyRoute(cfg: Config, routes: seq<Route>, snaps: seq<Table>)
    requires History(LogicOf(cfg), WalkAll([UdpFrame(0)]), routes, UDP_TABLE, snaps, [UDP_TABLE, UDP_TABLE])
    requires |routes| == 1
    ensures routes == RoutesBy(cfg, UDP_TABLE, WalkAll([UdpFrame(0)])) == [Deliver(1)]
  {
    UdpFrameIsDelivered(cfg, 0);
    hide LogicOf, UdpFrame, RouteOf;
    assert snaps[0] == UDP_TABLE;
  }

  lemma NothingServed(pl: PacketLogic, rest: seq<Mbuf>, accepts: seq<bool>, k: nat)
    requires k == 0
    ensures Answered(pl, rest, accepts, k) == [] == Unanswered(pl, rest, accepts, k)
  {
  }

  lemma NothingElse(pl: PacketLogic, m: Mbuf, p: Progress)
    requires Settled(pl, [m], p) && Batched(pl, [m], p, ALL_BACK) && p.routes == [Deliver(1)]
    ensures p.parked == [] && p.freed == []
  {
    RunsOneMore([], Deliver(1));
    assert [] + [Deliver(1)] == [Deliver(1)];
    assert Runs(p.routes) == [Run(0, 1, 1)];
    assert p.batches[0] == BatchOf(pl, [m], p.routes, ALL_BACK, Run(0, 1, 1));
    assert p.batches[..0] == [] && [m][..0] == [] && p.routes[..0] == [];
    assert Reclaimed(p.batches) == [] && Dropped([m], p.routes) == [] && Leftover([m], p.routes) == [];
    assert |multiset(p.freed)| == |p.freed|;
  }

  // ---- every channel gets its packets, in order --------------------------------

  function PairsFor(s: seq<(Channel, Mbuf)>, c: Channel): seq<Mbuf> {
    if |s| == 0 then []
    else PairsFor(s[..|s| - 1], c) + if s[|s| - 1].0 == c then [s[|s| - 1].1] else []
  }

  /** What channel c received, batch after batch. */
  function Inbox(batches: seq<Batch>, c: Channel): seq<Mbuf> {
    if |batches| == 0 then []
    else
      var b := batches[|batches| - 1];
      Inbox(batches[..|batches| - 1], c) + if b.channel == c then b.mbufs else []
  }

  /** The packets of the burst that are routed to c, in arrival order. */
  function ArrivedFor(pl: PacketLogic, rx: seq<Mbuf>, routes: seq<Route>, c: Channel): seq<Mbuf>
    requires |rx| == |routes|
  {
    if |rx| == 0 then []
    else
      var i := |rx| - 1;
      ArrivedFor(pl, rx[..i], routes[..i], c) + if routes[i] == Deliver(c) then [pl.prepare(rx[i])] else []
  }

  lemma {:induction false} PairsForConcat(a: seq<(Channel, Mbuf)>, b: seq<(Channel, Mbuf)>, c: Channel)
    ensures PairsFor(a + b, c) == PairsFor(a, c) + PairsFor(b, c)
  {
    if b == [] {
      assert a + b == a;
    } else {
      assert (a + b)[..|a + b| - 1] == a + b[..|b| - 1];
      PairsForConcat(a, b[..|b| - 1], c);
    }
  }

  lemma {:induction false} PairsForTagged(channel: Channel, mbufs: seq<Mbuf>, c: Channel)
    ensures PairsFor(Tagged(channel, mbufs), c) == if channel == c then mbufs else []
  {
    if mbufs != [] {
      var k := |mbufs| - 1;
      assert Tagged(channel, mbufs)[..k] == Tagged(channel, mbufs[..k]);
      PairsForTagged(channel, mbufs[..k], c);
      assert mbufs == mbufs[..k] + [mbufs[k]];
    }
  }

  lemma {:induction false} InboxIsFlattened(batches: seq<Batch>, c: Channel)
    ensures Inbox(batches, c) == PairsFor(Flatten(batches), c)
  {
    if batches != [] {
      var k := |batches| - 1;
      InboxIsFlattened(batches[..k], c);
      PairsForConcat(Flatten(batches[..k]), Tagged(batches[k].channel, batches[k].mbufs), c);
      PairsForTagged(batches[k].channel, batches[k].mbufs, c);
    }
  }

  lemma {:induction false} ArrivedIsDelivered(pl: PacketLogic, rx: seq<Mbuf>, routes: seq<Route>, c: Channel)
    requires |rx| == |routes|
    ensures ArrivedFor(pl, rx, routes, c) == PairsFor(Delivered(pl, rx, routes), c)
  {
    if rx != [] {
      var i := |rx| - 1;
      ArrivedIsDelivered(pl, rx[..i], routes[..i], c);
      if routes[i].Deliver? {
        var last := [(routes[i].channel, pl.prepare(rx[i]))];
        PairsForConcat(Delivered(pl, rx[..i], routes[..i]), last, c);
        assert last[..0] == [];
      }
    }
  }

  /** Batching is invisible to channels: each receives exactly its packets, in
      arrival order. */
  lemma ChannelOrder(pl: PacketLogic, rx: seq<Mbuf>, p: Progress, c: Channel)
    requires Settled(pl, rx, p)
    ensures Inbox(p.batches, c) == ArrivedFor(pl, rx, p.routes, c)
  {
    InboxIsFlattened(p.batches, c);
    ArrivedIsDelivered(pl, rx, p.routes, c);
  }

  // ---- the array ------------------------------------------------------------

  /** A burst the NIC can deliver: different buffers with frames on which the VLAN
      walk ends. */
  ghost predicate Receivable(burst: seq<Mbuf>) {
    && (forall i :: 0 <= i < |burst| ==> burst[i].Valid() && !EndlessTags(burst[i]))
    && forall i, j :: 0 <= i < j < |burst| ==> burst[i].id != burst[j].id
  }

  /** The positions of the array that a burst takes when the table does not change
      meanwhile. */
  ghost function PositionsUsed(cfg: Config, t: Table, burst: seq<Mbuf>): nat
    requires Receivable(burst)
  {
    |burst| + |Leftover(WalkAll(burst), RoutesBy(cfg, t, WalkAll(burst)))|
  }

  function RoutesBy(cfg: Config, t: Table, rx: seq<Mbuf>): (routes: seq<Route>)
    ensures |routes| == |rx|
  {
    seq(|rx|, k requires 0 <= k < |rx| => RouteOf(LogicOf(cfg), t, rx[k]))
  }

  /** The room the receive job asks for is what it uses. */
  lemma {:induction false} StayingIsLeftover(pl: PacketLogic, t: Table, rx: seq<Mbuf>, routes: seq<Route>, k: nat)
    requires k <= |rx| == |routes| && forall i :: 0 <= i < |rx| ==> routes[i] == RouteOf(pl, t, rx[i])
    ensures |Leftover(rx[..k], routes[..k])| == Staying(pl, t, rx, k)
  {
    if k > 0 {
      StayingIsLeftover(pl, t, rx, routes, k - 1);
      assert rx[..k][..k - 1] == rx[..k - 1] && routes[..k][..k - 1] == routes[..k - 1];
    }
  }

  /** An ARP frame in buffer `id`. */
  function ArpFrame(id: nat): (m: Mbuf)
    ensures m.Valid() && m.id == id
  {
    Mbuf(id, seq(DATA_ROOM, i => if i == 12 then 8 else if i == 13 then 6 else 0), 60, 0, 0, 0, 0)
  }

  lemma ArpFrameStays(cfg: Config, t: Table, id: nat)
    ensures !EndlessTags(ArpFrame(id))
    ensures var m := ArpFrame(id); RouteOf(LogicOf(cfg), t, m.(l2Len := L2Walked(m))) == Serve
  {
    var m := ArpFrame(id);
    assert Be16(m.room, 12) == TYPE_ARP;
    assert !TagAt(m, TypeAfter(0));
    assert L2Walked(m) == ETHER_HEADER;
  }

  lemma ArpBurst(cfg: Config, t: Table, n: nat) returns (burst: seq<Mbuf>)
    ensures |burst| == n && Receivable(burst) && PositionsUsed(cfg, t, burst) == 2 * n
  {
    burst := seq(n, i requires 0 <= i < n => ArpFrame(i));
    forall i | 0 <= i < n
      ensures burst[i].Valid() && !EndlessTags(burst[i])
    {
      ArpFrameStays(cfg, t, i);
    }
    var rx := WalkAll(burst);
    var routes := RoutesBy(cfg, t, rx);
    forall i | 0 <= i < n
      ensures routes[i] == Serve
    {
      ArpFrameStays(cfg, t, i);
    }
    AllLeftOver(rx, routes);
  }

  /** The constructor lets the burst size grow to the whole array; whatever the
      configuration and the table, every burst fits exactly when the burst size is
      at most half of it: ARP frames alone break any larger one. */
  lemma BufferSufficesExactly(cfg: Config, t: Table, burstSize: nat)
    ensures (forall burst: seq<Mbuf> :: Receivable(burst) && |burst| <= burstSize ==>
               PositionsUsed(cfg, t, burst) <= 2 * MAX_PKT_BURST)
       <==> burstSize <= MAX_PKT_BURST
  {
    if burstSize > MAX_PKT_BURST {
      var burst := ArpBurst(cfg, t, burstSize);
      assert PositionsUsed(cfg, t, burst) > 2 * MAX_PKT_BURST;
    } else {
      forall burst: seq<Mbuf> | Receivable(burst) && |burst| <= burstSize
        ensures PositionsUsed(cfg, t, burst) <= 2 * MAX_PKT_BURST
      {
        var rx := WalkAll(burst);
        StayingIsLeftover(LogicOf(cfg), t, rx, RoutesBy(cfg, t, rx), |rx|);
        assert rx[..|rx|] == rx && RoutesBy(cfg, t, rx)[..|rx|] == RoutesBy(cfg, t, rx);
      }
    }
  }

  lemma {:induction false} AllLeftOver(rx: seq<Mbuf>, routes: seq<Route>)
    requires |rx| == |routes| && forall i :: 0 <= i < |routes| ==> routes[i] == Serve
    ensures Leftover(rx, routes) == rx
  {
    if rx != [] {
      var i := |rx| - 1;
      AllLeftOver(rx[..i], routes[..i]);
      assert rx == rx[..i] + [rx[i]];
    }
  }

  // ---- concurrent attaches are such an environment ------------------------------

  /** The table published after the first steps of a schedule. */
  function PublishedAfter(calls: seq<A.Call>, schedule: seq<nat>, steps: nat): Table
    requires steps <= |schedule| && forall i :: 0 <= i < |schedule| ==> schedule[i] < |calls|
  {
    A.Run(calls, schedule[..steps]).table
  }

  lemma PublishedGrows(calls: seq<A.Call>, schedule: seq<nat>, a: nat, b: nat)
    requires a <= b <= |schedule| && forall i :: 0 <= i < |schedule| ==> schedule[i] < |calls|
    ensures PublishedAfter(calls, schedule, a) <= PublishedAfter(calls, schedule, b)
  {
    assert schedule[..b][..a] == schedule[..a];
    A.TableOnlyGrows(calls, schedule[..b], a);
  }

  lemma PublishedIsSmall(calls: seq<A.Call>, schedule: seq<nat>, steps: nat)
    requires steps <= |schedule| && forall i :: 0 <= i < |schedule| ==> schedule[i] < |calls|
    ensures var t := PublishedAfter(calls, schedule, steps); WellFormed(t) && |t| <= 1 + |calls|
  {
    A.PublishedTable(calls, schedule[..steps]);
    DistinctBelow(A.Run(calls, schedule[..steps]).winners, |calls|);
  }

  /** The tables that a receive job can see during one call, while any number of
      attaches act in any order: it looks after `cuts[i]` of their steps. */
  lemma ScheduleIsEnvironment(calls: seq<A.Call>, schedule: seq<nat>, cuts: seq<nat>, env: RxPath.Env, n: nat)
    requires |calls| < 0x1_0000 && forall i :: 0 <= i < |schedule| ==> schedule[i] < |calls|
    requires |cuts| == |env.views| == n + 1 && forall i :: 0 <= i < |cuts| ==> cuts[i] <= |schedule|
    requires forall i, j :: 0 <= i <= j < |cuts| ==> cuts[i] <= cuts[j]
    requires forall i :: 0 <= i < |cuts| ==> env.views[i] == PublishedAfter(calls, schedule, cuts[i])
    requires |env.accepts| >= n && |env.clocks| >= n && Sane(env.recycle)
    ensures env.Valid(n)
  {
    hide PublishedAfter, WellFormed, Sane;
    forall i | 0 <= i < |cuts|
      ensures WellFormed(env.views[i]) && |env.views[i]| <= 0x1_0000
    {
      PublishedIsSmall(calls, schedule, cuts[i]);
    }
    forall i, j | 0 <= i <= j < |cuts|
      ensures env.views[i] <= env.views[j]
    {
      PublishedGrows(calls, schedule, cuts[i], cuts[j]);
    }
  }
}
