/** How stale the receive job's copy of the sink table can get
    (dpdkx/device.hpp:78-88 with dpdkx/device.cpp:98 and 164-169). */
module RxRefresh {
  import opened Bytes
  import opened Frame
  import opened Sinks
  import opened Service
  import opened RxSpec
  import opened RxPath

  const FIRST_CHECKPOINT: U16 := 1001

  /** The counter before call k of a run in which the calls named by `quiet`
      found no packet, or only service packets. */
  ghost function CheckpointAt(reload: U16, burstSize: U16, quiet: nat -> bool, k: nat): U16 {
    if k == 0 then FIRST_CHECKPOINT
    else AfterCall(CheckpointAt(reload, burstSize, quiet, k - 1), reload, burstSize, quiet(k - 1))
  }

  /** Call k starts by loading the published table. */
  ghost predicate RefreshesAt(reload: U16, burstSize: U16, quiet: nat -> bool, k: nat) {
    CheckpointAt(reload, burstSize, quiet, k) >= reload
  }

  /** How many calls may pass. */
  function Patience(reload: U16): nat {
    if reload == 0 then 1 else reload
  }

  predicate NeverWraps(reload: U16, burstSize: U16) {
    reload as int + 2 * burstSize as int <= 0xffff
  }

  lemma AfterCallClimbs(checkpoint: U16, reload: U16, burstSize: U16, quiet: bool)
    requires NeverWraps(reload, burstSize)
    ensures AfterCall(checkpoint, reload, burstSize, quiet) as int
         == Refreshed(checkpoint, reload) as int + (if quiet then 2 * burstSize as int else 0) + 1
  {
  }

  lemma {:induction false} Climb(reload: U16, burstSize: U16, quiet: nat -> bool, j: nat, m: nat)
    requires NeverWraps(reload, burstSize)
    requires forall k :: j <= k < j + m ==> !RefreshesAt(reload, burstSize, quiet, k)
    ensures CheckpointAt(reload, burstSize, quiet, j + m) as int >= 1 + m
  {
    if m > 0 {
      Climb(reload, burstSize, quiet, j, m - 1);
      assert !RefreshesAt(reload, burstSize, quiet, j + m - 1);
      AfterCallClimbs(CheckpointAt(reload, burstSize, quiet, j + m - 1), reload, burstSize, quiet(j + m - 1));
    } else if j > 0 {
      AfterCallClimbs(CheckpointAt(reload, burstSize, quiet, j - 1), reload, burstSize, quiet(j - 1));
    }
  }

  /** Bounded staleness: if the counter cannot wrap, every window of
      max(1, reload_checkpoint) consecutive calls contains a refresh. */
  lemma RefreshWithin(reload: U16, burstSize: U16, quiet: nat -> bool, j: nat)
    requires NeverWraps(reload, burstSize)
    ensures exists k :: j <= k < j + Patience(reload) && RefreshesAt(reload, burstSize, quiet, k)
  {
    if forall k :: j <= k < j + Patience(reload) ==> !RefreshesAt(reload, burstSize, quiet, k) {
      var m := Patience(reload) - 1;
      assert !RefreshesAt(reload, burstSize, quiet, j + m);
      Climb(reload, burstSize, quiet, j, m);
    }
  }

  /** Busy calls until the counter is one short of its limit, then a quiet one. */
  function Skipping(reload: U16): nat -> bool {
    k => k as int == reload as int - 1 - FIRST_CHECKPOINT as int
  }

  lemma {:induction false} SkippedOver(reload: U16, burstSize: U16, k: nat)
    requires burstSize as int <= 2 * MAX_PKT_BURST && !NeverWraps(reload, burstSize) && k < reload
    ensures var turn := reload as int - FIRST_CHECKPOINT as int;
            CheckpointAt(reload, burstSize, Skipping(reload), k) as int ==
            (if k < turn then FIRST_CHECKPOINT as int + k
             else reload as int + 2 * burstSize as int - 0x1_0000 + (k - turn))
    ensures !RefreshesAt(reload, burstSize, Skipping(reload), k)
  {
    if k > 0 {
      SkippedOver(reload, burstSize, k - 1);
    }
  }

  /** No call of the window refreshes. */
  ghost predicate NoRefresh(reload: U16, burstSize: U16, quiet: nat -> bool, from: nat, to: nat) {
    forall k :: from <= k < to ==> !RefreshesAt(reload, burstSize, quiet, k)
  }

  /** The condition is exact: for burst sizes a job can have, a counter that can
      wrap allows a run that goes max(1, reload_checkpoint) calls without a refresh. */
  lemma RefreshMissed(reload: U16, burstSize: U16)
    requires burstSize as int <= 2 * MAX_PKT_BURST && !NeverWraps(reload, burstSize)
    ensures exists quiet: nat -> bool :: NoRefresh(reload, burstSize, quiet, 0, Patience(reload))
  {
    forall k | 0 <= k < Patience(reload)
      ensures !RefreshesAt(reload, burstSize, Skipping(reload), k)
    {
      SkippedOver(reload, burstSize, k);
    }
    assert NoRefresh(reload, burstSize, Skipping(reload), 0, Patience(reload));
  }

  // ---- runs of the job itself ----------------------------------------------

  /** A burst the job can take with the table t or one that extends it, with an
      outside world that behaves. */
  ghost predicate Fits(job: RxJob, burst: seq<Mbuf>, env: Env, t: Table) {
    && |burst| <= job.burstSize && env.Valid(|burst|)
    && (forall m :: 0 <= m < |burst| ==> burst[m].Valid() && !EndlessTags(burst[m]))
    && job.BurstFits(burst, t)
  }

  lemma FitsLater(job: RxJob, burst: seq<Mbuf>, env: Env, t: Table, t': Table)
    requires Fits(job, burst, env, t) && t <= t'
    ensures job.BurstFits(burst, t')
  {
    StayingShrinks(job.device.logic, t, t', WalkAll(burst), |burst|);
  }

  /** The tables published at the start and at the end of a call. */
  ghost function Opening(env: Env): Table {
    if |env.views| > 0 then env.views[0] else []
  }

  ghost function Closing(env: Env): Table {
    if |env.views| > 0 then env.views[|env.views| - 1] else []
  }

  /** After i calls the job has the table `goal`, or its counter has risen with every call. */
  ghost predicate Catching(job: RxJob, goal: Table, i: nat)
    reads job
  {
    job.Valid() && (goal <= job.sinks || (job.checkpoint as int >= 1 + i && (i == 0 || i < job.reloadCheckpoint)))
  }

  method PollOnce(job: RxJob, burst: seq<Mbuf>, env: Env, ghost start: Table, ghost goal: Table, ghost i: nat)
    requires Fits(job, burst, env, start) && start <= job.sinks
    requires NeverWraps(job.reloadCheckpoint, job.burstSize)
    requires Catching(job, goal, i) && goal <= Opening(env) && job.sinks <= Opening(env)
    modifies job`sinks, job`checkpoint, job`last, job.device, job.buffers
    ensures Catching(job, goal, i + 1) && start <= job.sinks <= Closing(env)
  {
    ghost var before := job.checkpoint;
    FitsLater(job, burst, env, start, job.OpeningTable(env));
    var _, p, snaps := job.Process(burst, env);
    AfterCallClimbs(before, job.reloadCheckpoint, job.burstSize, Quiet(|burst|, |p.parked|, job.burstSize));
  }

  /** Whatever was published before the first of these calls is in the job's
      snapshot after max(1, reload_checkpoint) of them. */
  method Poll(job: RxJob, bursts: seq<seq<Mbuf>>, envs: seq<Env>)
    requires job.Valid() && job.checkpoint >= 1
    requires NeverWraps(job.reloadCheckpoint, job.burstSize)
    requires |bursts| == |envs| >= Patience(job.reloadCheckpoint)
    requires forall i :: 0 <= i < |bursts| ==> Fits(job, bursts[i], envs[i], job.sinks)
    requires job.sinks <= Opening(envs[0])
    requires forall i :: 0 <= i < |envs| ==> Opening(envs[0]) <= Opening(envs[i])
    requires forall i :: 0 < i < |envs| ==> Closing(envs[i - 1]) <= Opening(envs[i])
    modifies job`sinks, job`checkpoint, job`last, job.device, job.buffers
    ensures job.Valid() && Opening(envs[0]) <= job.sinks
  {
    for i := 0 to |bursts|
      invariant Catching(job, Opening(envs[0]), i)
      invariant old(job.sinks) <= job.sinks && (i < |envs| ==> job.sinks <= Opening(envs[i]))
    {
      PollOnce(job, bursts[i], envs[i], old(job.sinks), Opening(envs[0]), i);
      assert i + 1 < |envs| ==> Closing(envs[i + 1 - 1]) <= Opening(envs[i + 1]);
    }
  }

  // ---- every pattern of quiet calls is the work of some bursts ----------------

  /** A frame of zeros, which is broken. */
  function BrokenFrame(): (m: Mbuf)
    ensures m.Valid()
  {
    Mbuf(0, seq(DATA_ROOM, _ => 0), 60, 0, 0, 0, 0)
  }

  lemma BrokenIsDropped(cfg: Config, t: Table)
    ensures !EndlessTags(BrokenFrame())
    ensures RouteOf(LogicOf(cfg), t, WalkAll([BrokenFrame()])[0]) == Drop
  {
    var m := BrokenFrame();
    assert Be16(m.room, 12) == 0;
    assert !TagAt(m, TypeAfter(0));
    assert L2Walked(m) == ETHER_HEADER;
  }

  /** Nothing arrives, or one broken packet. */
  function BurstFor(quiet: bool): seq<Mbuf> {
    if quiet then [] else [BrokenFrame()]
  }

  function Unchanging(published: Table, n: nat): Env {
    Env(seq(n + 1, _ => published), seq(n, _ => true), seq(n, _ => 1), (c, mbufs) => 0)
  }

  /** A burst of that kind parks nothing, so it makes the call quiet or not as asked for. */
  lemma BurstIsAsQuiet(cfg: Config, quiet: bool, burstSize: U16, p: Progress, first: Table, snaps: seq<Table>,
                       views: seq<Table>)
    requires burstSize >= 1 && forall i :: 0 <= i < |BurstFor(quiet)| ==> BurstFor(quiet)[i].Valid()
    requires Settled(LogicOf(cfg), WalkAll(BurstFor(quiet)), p)
    requires History(LogicOf(cfg), WalkAll(BurstFor(quiet)), p.routes, first, snaps, views)
    ensures Quiet(|BurstFor(quiet)|, |p.parked|, burstSize) == quiet
  {
    if !quiet {
      var rx := WalkAll([BrokenFrame()]);
      BrokenIsDropped(cfg, snaps[0]);
      assert p.routes == [Drop] && rx[..0] == [] && p.routes[..0] == [];
      assert Leftover(rx, p.routes) == [];
    }
  }

  /** Real calls of `process` that are quiet exactly where `quiet` says: the counter
      goes through the values of the abstract run, and without a refresh in it the
      job keeps the table it has, whatever is published. */
  method Enact(job: RxJob, quiet: nat -> bool, calls: nat, published: Table)
    requires job.Valid() && job.checkpoint == 1001 && job.burstSize >= 1
    requires job.device.logic == LogicOf(job.device.config)
    requires WellFormed(published) && |published| <= 0x1_0000 && job.sinks <= published
    modifies job`sinks, job`checkpoint, job`last, job.device, job.buffers
    ensures job.Valid()
    ensures job.checkpoint == CheckpointAt(job.reloadCheckpoint, job.burstSize, quiet, calls)
    ensures NoRefresh(job.reloadCheckpoint, job.burstSize, quiet, 0, calls) ==> job.sinks == old(job.sinks)
  {
    for k := 0 to calls
      invariant job.Valid() && job.sinks <= published
      invariant job.checkpoint == CheckpointAt(job.reloadCheckpoint, job.burstSize, quiet, k)
      invariant NoRefresh(job.reloadCheckpoint, job.burstSize, quiet, 0, k) ==> job.sinks == old(job.sinks)
    {
      assert NoRefresh(job.reloadCheckpoint, job.burstSize, quiet, 0, k + 1) ==>
          !RefreshesAt(job.reloadCheckpoint, job.burstSize, quiet, k);
      EnactOnce(job, quiet(k), published);
    }
  }

  method EnactOnce(job: RxJob, quiet: bool, published: Table)
    requires job.Valid() && job.burstSize >= 1 && job.device.logic == LogicOf(job.device.config)
    requires WellFormed(published) && |published| <= 0x1_0000 && job.sinks <= published
    modifies job`sinks, job`checkpoint, job`last, job.device, job.buffers
    ensures job.Valid() && job.sinks <= published
    ensures job.checkpoint == AfterCall(old(job.checkpoint), job.reloadCheckpoint, job.burstSize, quiet)
    ensures old(job.checkpoint) < job.reloadCheckpoint ==> job.sinks == old(job.sinks)
  {
    var burst := BurstFor(quiet);
    var env := Unchanging(published, |burst|);
    ghost var cfg, first := job.device.config, job.OpeningTable(env);
    BrokenIsDropped(cfg, first);
    var _, p, snaps := job.Process(burst, env);
    BurstIsAsQuiet(cfg, quiet, job.burstSize, p, first, snaps, env.views);
  }

  /** A job whose counter can wrap misses a published table for max(1,
      reload_checkpoint) calls. */
  method MissRefresh(job: RxJob, published: Table)
    requires job.Valid() && job.checkpoint == 1001 && job.burstSize as int <= 2 * MAX_PKT_BURST
    requires !NeverWraps(job.reloadCheckpoint, job.burstSize)
    requires job.device.logic == LogicOf(job.device.config)
    requires WellFormed(published) && |published| <= 0x1_0000 && job.sinks <= published
    modifies job`sinks, job`checkpoint, job`last, job.device, job.buffers
    ensures job.Valid() && job.sinks == old(job.sinks)
  {
    var reload := job.reloadCheckpoint;
    forall k | 0 <= k < Patience(reload)
      ensures !RefreshesAt(reload, job.burstSize, Skipping(reload), k)
    {
      SkippedOver(reload, job.burstSize, k);
    }
    Enact(job, Skipping(reload), Patience(reload), published);
  }
}
