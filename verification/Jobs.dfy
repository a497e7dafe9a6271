/** The job runner of one core (dpdkx/jobs.cpp:13-120). */
module Jobs {
  import opened Bits
  import opened Collections

  datatype JobState = Busy | Idling | Done

  /** How a call of a job ends. */
  datatype Outcome = Returns(state: JobState) | Throws

  const CYCLE_THRESHOLD: nat := 33
  const IDLE_THRESHOLD: nat := 2

  // ---- one pass over the list -----------------------------------------------------

  /** answers(k) is the end of the k-th call the core makes to any job. */
  type Answers = nat -> Outcome

  predicate Retires(answers: Answers, call: nat) {
    answers(call) == Returns(Done)
  }

  /** The jobs among the first k of a pass that are not done; the pass starts
      with call number `at`. */
  function Kept(jobs: seq<nat>, answers: Answers, at: nat, k: nat): (r: seq<nat>)
    requires k <= |jobs|
    ensures |r| <= k
  {
    if k == 0 then []
    else Extended(Kept(jobs, answers, at, k - 1), !Retires(answers, at + k - 1), jobs[k - 1])
  }

  /** s, with one more job behind it if it is to be kept. */
  function Extended(s: seq<nat>, keep: bool, job: nat): seq<nat> {
    if keep then s + [job] else s
  }

  ghost predicate NoneThrows(answers: Answers, from: nat, to: nat) {
    forall c :: from <= c < to ==> answers(c).Returns?
  }

  ghost predicate SomeBusy(answers: Answers, from: nat, to: nat) {
    exists c :: from <= c < to && answers(c) == Returns(Busy)
  }

  /** What a pass does: the jobs called are the list in order, up to the first
      that throws; jobs are dropped exactly if they are done; and the verdict. */
  ghost predicate Passed(jobs: seq<nat>, answers: Answers, at: nat, kept: seq<nat>, called: seq<nat>, r: Outcome) {
    && called <= jobs
    && match r
       case Throws =>
         && called != [] && NoneThrows(answers, at, at + |called| - 1) && answers(at + |called| - 1).Throws?
         && kept == Kept(jobs, answers, at, |called| - 1) + jobs[|called| - 1..]
       case Returns(state) =>
         && called == jobs && NoneThrows(answers, at, at + |jobs|)
         && kept == Kept(jobs, answers, at, |jobs|)
         && (state == Done <==> jobs != [] && kept == [])
         && (state == Busy <==> SomeBusy(answers, at, at + |jobs|))
  }

  /** The list in the middle of a pass: the called jobs, i of them kept. */
  ghost predicate Midway(jobs: seq<nat>, answers: Answers, at: nat, now: seq<nat>, i: nat, called: seq<nat>,
                         busy: bool) {
    var k := |called|;
    && called <= jobs && i == |Kept(jobs, answers, at, k)|
    && now == Kept(jobs, answers, at, k) + jobs[k..]
    && NoneThrows(answers, at, at + k)
    && (busy <==> SomeBusy(answers, at, at + k))
  }

  /** `vector::erase`. */
  function Erased(s: seq<nat>, i: nat): seq<nat>
    requires i < |s|
  {
    s[..i] + s[i + 1..]
  }

  lemma CalledNext(jobs: seq<nat>, answers: Answers, at: nat, now: seq<nat>, i: nat, called: seq<nat>, busy: bool)
    requires Midway(jobs, answers, at, now, i, called, busy) && i != |now|
    ensures |called| < |jobs| && i < |now| && now[i] == jobs[|called|]
    ensures var answer, called' := answers(at + |called|), called + [now[i]];
            match answer
            case Throws => Passed(jobs, answers, at, now, called', Throws)
            case Returns(Done) => Midway(jobs, answers, at, Erased(now, i), i, called', busy)
            case Returns(Busy) => Midway(jobs, answers, at, now, i + 1, called', true)
            case Returns(Idling) => Midway(jobs, answers, at, now, i + 1, called', busy)
  {
    var k := |called|;
    JoinedAt(Kept(jobs, answers, at, k), jobs, k);
    BusyOneMore(answers, at, at + k);
  }

  lemma JoinedAt(kept: seq<nat>, jobs: seq<nat>, k: nat)
    requires k <= |jobs| && |kept| != |kept + jobs[k..]|
    ensures k < |jobs| && (kept + jobs[k..])[|kept|] == jobs[k]
    ensures kept + jobs[k..] == (kept + [jobs[k]]) + jobs[k + 1..]
    ensures Erased(kept + jobs[k..], |kept|) == kept + jobs[k + 1..]
  {
    assert jobs[k..] == [jobs[k]] + jobs[k + 1..];
    assert (kept + jobs[k..])[|kept| + 1..] == jobs[k + 1..];
  }

  lemma BusyOneMore(answers: Answers, from: nat, to: nat)
    requires from <= to
    ensures SomeBusy(answers, from, to + 1) <==> SomeBusy(answers, from, to) || answers(to) == Returns(Busy)
  {
  }

  /** A busy job is kept. */
  lemma {:induction false} BusyIsKept(jobs: seq<nat>, answers: Answers, at: nat, k: nat)
    requires k <= |jobs| && Kept(jobs, answers, at, k) == []
    ensures !SomeBusy(answers, at, at + k)
  {
    if k > 0 {
      BusyIsKept(jobs, answers, at, k - 1);
      assert Retires(answers, at + k - 1);
    }
  }

  /** The pass ends when the iterator meets the end: with the last erased job, or later. */
  lemma PassEnds(jobs: seq<nat>, answers: Answers, at: nat, now: seq<nat>, i: nat, called: seq<nat>, busy: bool)
    requires Midway(jobs, answers, at, now, i, called, busy) && i == |now|
    ensures called == jobs
    ensures Passed(jobs, answers, at, now, called, Returns(Verdict(jobs, now, busy)))
  {
    assert jobs[|called|..] == [];
    if now == [] {
      BusyIsKept(jobs, answers, at, |jobs|);
    }
  }

  function Verdict(jobs: seq<nat>, kept: seq<nat>, busy: bool): JobState {
    if jobs != [] && kept == [] then Done else if busy then Busy else Idling
  }

  /** `run_jobs_once`: the list is walked while it is erased in place. */
  method RunJobsOnce(jobs: seq<nat>, answers: Answers, at: nat)
    returns (kept: seq<nat>, called: seq<nat>, r: Outcome)
    ensures Passed(jobs, answers, at, kept, called, r)
  {
    var busy, i := false, 0;
    kept, called := jobs, [];
    while i != |kept|
      invariant Midway(jobs, answers, at, kept, i, called, busy)
      invariant kept == [] ==> jobs == []
      decreases |jobs| - |called|
    {
      CalledNext(jobs, answers, at, kept, i, called, busy);
      var answer, job := answers(at + |called|), kept[i];
      called := called + [job];
      match answer {
        case Throws =>
          return kept, called, Throws;
        case Returns(Done) =>
          kept := Erased(kept, i);
          if kept == [] {
            PassEnds(jobs, answers, at, kept, i, called, busy);
            return kept, called, Returns(Done);
          }
        case Returns(Busy) =>
          busy, i := true, i + 1;
        case Returns(Idling) =>
          i := i + 1;
      }
    }
    PassEnds(jobs, answers, at, kept, i, called, busy);
    r := Returns(if busy then Busy else Idling);
  }

  // ---- many passes -------------------------------------------------------------------

  /** The list and the calls made so far. */
  datatype Progress = Progress(jobs: seq<nat>, calls: seq<nat>)

  /** After p whole passes. */
  function After(listed: seq<nat>, answers: Answers, p: nat): Progress {
    if p == 0 then Progress(listed, [])
    else
      var b := After(listed, answers, p - 1);
      Progress(Kept(b.jobs, answers, |b.calls|, |b.jobs|), b.calls + b.jobs)
  }

  /** The job has answered `done` among the calls made. */
  ghost predicate WasDone(answers: Answers, calls: seq<nat>, job: nat) {
    exists c :: 0 <= c < |calls| && calls[c] == job && Retires(answers, c)
  }

  /** The listed jobs, in order, that have not answered `done`. */
  ghost function Survivors(listed: seq<nat>, answers: Answers, calls: seq<nat>, m: nat): (r: seq<nat>)
    requires m <= |listed|
  {
    if m == 0 then []
    else Extended(Survivors(listed, answers, calls, m - 1), !WasDone(answers, calls, listed[m - 1]), listed[m - 1])
  }

  function CallsOf(calls: seq<nat>, job: nat): nat {
    if |calls| == 0 then 0
    else CallsOf(calls[..|calls| - 1], job) + if calls[|calls| - 1] == job then 1 else 0
  }

  /** Every job left has been called once a pass, a retired one never again. */
  ghost predicate Fair(listed: seq<nat>, answers: Answers, s: Progress, passes: nat) {
    && s.jobs == Survivors(listed, answers, s.calls, |listed|)
    && Distinct(s.jobs)
    && NeverAgain(answers, s.calls)
    && forall j :: CallsOf(s.calls, j) <= passes && (j in s.jobs ==> CallsOf(s.calls, j) == passes)
  }

  ghost predicate NeverAgain(answers: Answers, calls: seq<nat>) {
    forall c, d :: 0 <= c < d < |calls| && calls[c] == calls[d] ==> !Retires(answers, c)
  }

  lemma {:induction false} KeptIsInside(jobs: seq<nat>, answers: Answers, at: nat, k: nat, j: nat)
    requires k <= |jobs| && j in Kept(jobs, answers, at, k)
    ensures j in jobs[..k]
  {
    if j in Kept(jobs, answers, at, k - 1) {
      KeptIsInside(jobs, answers, at, k - 1, j);
      assert jobs[..k] == jobs[..k - 1] + [jobs[k - 1]];
    }
  }

  lemma {:induction false} KeptIsDistinct(jobs: seq<nat>, answers: Answers, at: nat, k: nat)
    requires k <= |jobs| && Distinct(jobs)
    ensures Distinct(Kept(jobs, answers, at, k))
  {
    if k > 0 {
      KeptIsDistinct(jobs, answers, at, k - 1);
      if jobs[k - 1] in Kept(jobs, answers, at, k - 1) {
        KeptIsInside(jobs, answers, at, k - 1, jobs[k - 1]);
        assert false;
      }
    }
  }

  lemma {:induction false} CallsAdd(calls: seq<nat>, jobs: seq<nat>, j: nat)
    ensures CallsOf(calls + jobs, j) == CallsOf(calls, j) + CallsOf(jobs, j)
  {
    if |jobs| == 0 {
      assert calls + jobs == calls;
    } else {
      var k := |jobs| - 1;
      CallsAdd(calls, jobs[..k], j);
      assert (calls + jobs)[..|calls + jobs| - 1] == calls + jobs[..k];
    }
  }

  lemma {:induction false} CalledOnce(jobs: seq<nat>, j: nat)
    requires Distinct(jobs)
    ensures CallsOf(jobs, j) == if j in jobs then 1 else 0
  {
    if |jobs| > 0 {
      var k := |jobs| - 1;
      CalledOnce(jobs[..k], j);
      assert jobs == jobs[..k] + [jobs[k]];
    }
  }

  lemma DoneInPass(answers: Answers, calls: seq<nat>, jobs: seq<nat>, k: nat)
    requires Distinct(jobs) && k < |jobs| && !WasDone(answers, calls, jobs[k])
    ensures WasDone(answers, calls + jobs, jobs[k]) <==> Retires(answers, |calls| + k)
  {
    if Retires(answers, |calls| + k) {
      assert (calls + jobs)[|calls| + k] == jobs[k];
    }
    if WasDone(answers, calls + jobs, jobs[k]) {
      var c :| 0 <= c < |calls + jobs| && (calls + jobs)[c] == jobs[k] && Retires(answers, c);
      assert c >= |calls|;
    }
  }

  lemma DoneStays(answers: Answers, calls: seq<nat>, jobs: seq<nat>, j: nat)
    requires WasDone(answers, calls, j)
    ensures WasDone(answers, calls + jobs, j)
  {
    var c :| 0 <= c < |calls| && calls[c] == j && Retires(answers, c);
    assert (calls + jobs)[c] == j;
  }

  lemma {:induction false} SurvivorsPrefix(listed: seq<nat>, answers: Answers, calls: seq<nat>, m: nat, n: nat)
    requires m <= n <= |listed|
    ensures Survivors(listed, answers, calls, m) <= Survivors(listed, answers, calls, n)
  {
    if m < n {
      SurvivorsPrefix(listed, answers, calls, m, n - 1);
    }
  }

  lemma SurvivorAt(listed: seq<nat>, answers: Answers, calls: seq<nat>, m: nat) returns (k: nat)
    requires 0 < m <= |listed| && !WasDone(answers, calls, listed[m - 1])
    ensures k == |Survivors(listed, answers, calls, m - 1)| < |Survivors(listed, answers, calls, |listed|)|
    ensures Survivors(listed, answers, calls, |listed|)[k] == listed[m - 1]
  {
    k := |Survivors(listed, answers, calls, m - 1)|;
    SurvivorsPrefix(listed, answers, calls, m, |listed|);
  }

  /** Dropping by position in the pass is dropping by what the job has answered. */
  lemma {:induction false} SurvivorsStep(listed: seq<nat>, answers: Answers, calls: seq<nat>, jobs: seq<nat>, m: nat)
    requires m <= |listed| && jobs == Survivors(listed, answers, calls, |listed|) && Distinct(jobs)
    ensures var k := |Survivors(listed, answers, calls, m)|;
            k <= |jobs| && Survivors(listed, answers, calls + jobs, m) == Kept(jobs, answers, |calls|, k)
  {
    if m > 0 {
      SurvivorsStep(listed, answers, calls, jobs, m - 1);
      if WasDone(answers, calls, listed[m - 1]) {
        DoneStays(answers, calls, jobs, listed[m - 1]);
      } else {
        var k := SurvivorAt(listed, answers, calls, m);
        DoneInPass(answers, calls, jobs, k);
        assert |Survivors(listed, answers, calls, m)| == k + 1;
        assert Survivors(listed, answers, calls + jobs, m)
            == Extended(Kept(jobs, answers, |calls|, k), !Retires(answers, |calls| + k), jobs[k]);
      }
    }
  }

  lemma {:induction false} SurvivorsNotDone(listed: seq<nat>, answers: Answers, calls: seq<nat>, m: nat, j: nat)
    requires m <= |listed| && j in Survivors(listed, answers, calls, m)
    ensures !WasDone(answers, calls, j)
  {
    if j in Survivors(listed, answers, calls, m - 1) {
      SurvivorsNotDone(listed, answers, calls, m - 1, j);
    }
  }

  lemma NeverAgainStep(listed: seq<nat>, answers: Answers, calls: seq<nat>, jobs: seq<nat>)
    requires jobs == Survivors(listed, answers, calls, |listed|) && Distinct(jobs) && NeverAgain(answers, calls)
    ensures NeverAgain(answers, calls + jobs)
  {
    var all := calls + jobs;
    forall c, d | 0 <= c < d < |all| && all[c] == all[d]
      ensures !Retires(answers, c)
    {
      if c < |calls| <= d {
        SurvivorsNotDone(listed, answers, calls, |listed|, all[d]);
      }
    }
  }

  lemma FairStep(listed: seq<nat>, answers: Answers, s: Progress, passes: nat, t: Progress)
    requires Fair(listed, answers, s, passes)
    requires t == Progress(Kept(s.jobs, answers, |s.calls|, |s.jobs|), s.calls + s.jobs)
    ensures Fair(listed, answers, t, passes + 1)
  {
    SurvivorsStep(listed, answers, s.calls, s.jobs, |listed|);
    KeptIsDistinct(s.jobs, answers, |s.calls|, |s.jobs|);
    NeverAgainStep(listed, answers, s.calls, s.jobs);
    forall j
      ensures CallsOf(t.calls, j) <= passes + 1 && (j in t.jobs ==> CallsOf(t.calls, j) == passes + 1)
    {
      CallsAdd(s.calls, s.jobs, j);
      CalledOnce(s.jobs, j);
      if j in t.jobs {
        KeptIsInside(s.jobs, answers, |s.calls|, |s.jobs|, j);
      }
    }
  }

  /** After any number of passes over distinct jobs the list holds, in their
      order, exactly the jobs that never answered `done`; each of them has been
      called once a pass; and no job is called after it answered `done`. */
  lemma {:induction false} PassesAreFair(listed: seq<nat>, answers: Answers, p: nat)
    requires Distinct(listed)
    ensures Fair(listed, answers, After(listed, answers, p), p)
  {
    if p == 0 {
      NobodyDone(listed, answers, |listed|);
    } else {
      PassesAreFair(listed, answers, p - 1);
      FairStep(listed, answers, After(listed, answers, p - 1), p - 1, After(listed, answers, p));
    }
  }

  lemma {:induction false} NobodyDone(listed: seq<nat>, answers: Answers, m: nat)
    requires m <= |listed|
    ensures Survivors(listed, answers, [], m) == listed[..m]
  {
    if m > 0 {
      NobodyDone(listed, answers, m - 1);
    }
  }

  // ---- pacing: when the stop flag is read ----------------------------------------------

  /** The idle passes in a row up to pass k. */
  function Trailing(rs: seq<Outcome>, k: nat): nat
    requires k <= |rs|
  {
    if k > 0 && rs[k - 1] == Returns(Idling) then Trailing(rs, k - 1) + 1 else 0
  }

  /** A round that began after pass s ends with pass p: it is the 33rd, or an idle
      one that brings the 8-bit count of idle passes above the threshold. */
  predicate Breaks(rs: seq<Outcome>, s: nat, p: nat)
    requires p <= |rs|
  {
    s < p && (p == s + CYCLE_THRESHOLD || (rs[p - 1] == Returns(Idling) && Trailing(rs, p) % 256 > IDLE_THRESHOLD))
  }

  ghost predicate Unbroken(rs: seq<Outcome>, s: nat, to: nat)
    requires to <= |rs|
  {
    forall q :: s < q < to ==> !Breaks(rs, s, q)
  }

  /** Passes s..p belong to one round. */
  ghost predicate OneRound(rs: seq<Outcome>, s: nat, p: nat)
    requires p <= |rs|
  {
    s < p <= s + CYCLE_THRESHOLD && Unbroken(rs, s, p)
  }

  ghost predicate WholeRound(rs: seq<Outcome>, s: nat, p: nat)
    requires p <= |rs|
  {
    OneRound(rs, s, p) && Breaks(rs, s, p)
  }

  /** Inside a round that began after pass s. */
  ghost predicate Pacing(rs: seq<Outcome>, s: nat, cycle: nat, idling: nat) {
    && s <= |rs| <= s + CYCLE_THRESHOLD
    && idling == Trailing(rs, |rs|) % 256
    && Unbroken(rs, s, |rs|)
    && (Breaks(rs, s, |rs|) <==> cycle >= CYCLE_THRESHOLD)
    && (cycle < CYCLE_THRESHOLD ==> cycle == |rs| - s)
  }

  /** The switch on the result of a pass: the new cycle, before the loop's own
      increment, and the new idle count. */
  function Settle(cycle: nat, idling: nat, state: JobState): (nat, nat) {
    match state
    case Busy => (cycle, 0)
    case Idling =>
      var idling' := (idling + 1) % 256;
      (if idling' > IDLE_THRESHOLD then CYCLE_THRESHOLD else cycle, idling')
    case Done => (cycle, idling)
  }

  lemma {:induction false} TrailingKept(rs: seq<Outcome>, rs': seq<Outcome>, k: nat)
    requires k <= |rs| && rs <= rs'
    ensures Trailing(rs', k) == Trailing(rs, k)
  {
    if k > 0 {
      TrailingKept(rs, rs', k - 1);
    }
  }

  lemma BreaksKept(rs: seq<Outcome>, rs': seq<Outcome>)
    requires rs <= rs'
    ensures forall s: nat, q: nat :: q <= |rs| ==> Breaks(rs', s, q) == Breaks(rs, s, q)
  {
    forall s: nat, q: nat | q <= |rs|
      ensures Breaks(rs', s, q) == Breaks(rs, s, q)
    {
      TrailingKept(rs, rs', q);
    }
  }

  lemma TrailingOneMore(rs: seq<Outcome>, x: Outcome)
    ensures Trailing(rs + [x], |rs| + 1) == if x == Returns(Idling) then Trailing(rs, |rs|) + 1 else 0
  {
    TrailingKept(rs, rs + [x], |rs|);
  }

  lemma PacingStep(rs: seq<Outcome>, s: nat, cycle: nat, idling: nat, state: JobState)
    requires Pacing(rs, s, cycle, idling) && cycle < CYCLE_THRESHOLD && state != Done
    ensures var (cycle', idling') := Settle(cycle, idling, state);
            Pacing(rs + [Returns(state)], s, cycle' + 1, idling')
  {
    BreaksKept(rs, rs + [Returns(state)]);
    TrailingOneMore(rs, Returns(state));
    assert (Trailing(rs, |rs|) % 256 + 1) % 256 == (Trailing(rs, |rs|) + 1) % 256;
  }

  /** How many passes a round of nothing but idle passes takes. */
  function IdleRound(idling: nat): nat {
    if idling == 255 then 4 else if idling <= 1 then 3 - idling else 1
  }

  /** On an idle core the flag is read after every pass, but for the first round
      and for the one in which the 8-bit count wraps. */
  lemma IdleCadence(rs: seq<Outcome>, s: nat, p: nat)
    requires s <= p <= |rs| && WholeRound(rs, s, p)
    requires forall q :: s <= q < p ==> rs[q] == Returns(Idling)
    ensures p - s == IdleRound(Trailing(rs, s) % 256)
  {
    IdleRoundsLast(rs, s, p);
    var n := IdleRound(Trailing(rs, s) % 256);
    if s + n < p {
      IdleRoundsEnd(rs, s, s + n);
    }
  }

  lemma IdleRoundsLast(rs: seq<Outcome>, s: nat, p: nat)
    requires s <= p <= |rs| && Breaks(rs, s, p) && forall q :: s <= q < p ==> rs[q] == Returns(Idling)
    ensures p - s >= IdleRound(Trailing(rs, s) % 256)
  {
    TrailingRun(rs, s, p);
    WrapsAt(Trailing(rs, s), p - s);
  }

  lemma IdleRoundsEnd(rs: seq<Outcome>, s: nat, p: nat)
    requires s <= p <= |rs| && p - s == IdleRound(Trailing(rs, s) % 256)
    requires forall q :: s <= q < p ==> rs[q] == Returns(Idling)
    ensures Breaks(rs, s, p)
  {
    TrailingRun(rs, s, p);
    WrapsAt(Trailing(rs, s), p - s);
  }

  lemma {:induction false} TrailingRun(rs: seq<Outcome>, s: nat, q: nat)
    requires s <= q <= |rs| && forall k :: s <= k < q ==> rs[k] == Returns(Idling)
    ensures Trailing(rs, q) == Trailing(rs, s) + (q - s)
  {
    if s < q {
      TrailingRun(rs, s, q - 1);
    }
  }

  /** The first d > 0 at which (t + d) mod 256 exceeds the threshold. */
  lemma WrapsAt(t: nat, d: nat)
    ensures 0 < d < IdleRound(t % 256) ==> (t + d) % 256 <= IDLE_THRESHOLD
    ensures d == IdleRound(t % 256) ==> (t + d) % 256 > IDLE_THRESHOLD
  {
  }

  // ---- the two runners -------------------------------------------------------------------

  /** What a core holds while it runs. */
  datatype Core = Core(list: Progress, results: seq<Outcome>, idling: nat)

  /** What a pass over `jobs` that starts with call `at` reports. */
  ghost predicate Reports(jobs: seq<nat>, answers: Answers, at: nat, r: Outcome) {
    match r
    case Throws => !NoneThrows(answers, at, at + |jobs|)
    case Returns(state) =>
      && NoneThrows(answers, at, at + |jobs|)
      && (state == Done <==> jobs != [] && Kept(jobs, answers, at, |jobs|) == [])
      && (state == Busy <==> SomeBusy(answers, at, at + |jobs|))
  }

  /** Pass p of the run reports r. */
  ghost predicate PassReports(listed: seq<nat>, answers: Answers, p: nat, r: Outcome) {
    var b := After(listed, answers, p);
    Reports(b.jobs, answers, |b.calls|, r)
  }

  /** Every pass so far has reported what the reference says, and none was the last. */
  ghost predicate GoesOn(listed: seq<nat>, answers: Answers, c: Core) {
    && c.list == After(listed, answers, |c.results|)
    && (forall p :: 0 <= p < |c.results| ==>
          PassReports(listed, answers, p, c.results[p]) && c.results[p] in {Returns(Busy), Returns(Idling)})
    && (listed != [] ==> c.list.jobs != [])
  }

  /** The run has ended with the pass that brought c about from b. */
  ghost predicate EndsWith(listed: seq<nat>, answers: Answers, b: Core, c: Core) {
    var called := |b.list.calls|;
    && GoesOn(listed, answers, b)
    && |c.results| == |b.results| + 1 && b.results <= c.results
    && c.results[|b.results|] in {Returns(Done), Throws}
    && called <= |c.list.calls| && c.list.calls[..called] == b.list.calls
    && Passed(b.list.jobs, answers, called, c.list.jobs, c.list.calls[called..], c.results[|b.results|])
  }

  lemma PassedReports(jobs: seq<nat>, answers: Answers, at: nat, kept: seq<nat>, called: seq<nat>, r: Outcome)
    requires Passed(jobs, answers, at, kept, called, r)
    ensures Reports(jobs, answers, at, r)
  {
  }

  function WithPass(c: Core, kept: seq<nat>, called: seq<nat>, r: Outcome): Core {
    Core(Progress(kept, c.list.calls + called), c.results + [r], c.idling)
  }

  lemma PassGoesOn(listed: seq<nat>, answers: Answers, c: Core, kept: seq<nat>, called: seq<nat>, r: Outcome)
    requires GoesOn(listed, answers, c) && Passed(c.list.jobs, answers, |c.list.calls|, kept, called, r)
    requires r in {Returns(Busy), Returns(Idling)}
    ensures GoesOn(listed, answers, WithPass(c, kept, called, r))
  {
    PassedReports(c.list.jobs, answers, |c.list.calls|, kept, called, r);
  }

  lemma PassEndsRun(listed: seq<nat>, answers: Answers, c: Core, kept: seq<nat>, called: seq<nat>, r: Outcome)
    requires GoesOn(listed, answers, c) && Passed(c.list.jobs, answers, |c.list.calls|, kept, called, r)
    requires r in {Returns(Done), Throws}
    ensures EndsWith(listed, answers, c, WithPass(c, kept, called, r))
  {
    var calls := WithPass(c, kept, called, r).list.calls;
    assert calls[|c.list.calls|..] == called;
    assert calls[..|c.list.calls|] == c.list.calls;
  }

  /** A pass over a single job is a call of it. */
  lemma SinglePass(job: nat, answers: Answers, at: nat)
    ensures var r := answers(at);
            Passed([job], answers, at, Extended([], r != Returns(Done), job), [job], r)
  {
    assert Kept([job], answers, at, 0) == [];
    if answers(at) == Returns(Busy) {
      assert SomeBusy(answers, at, at + 1);
    }
  }

  // ---- whole runs ------------------------------------------------------------------------

  /** Passes made before read k of the flag. */
  function Mark(rs: seq<Outcome>, starts: seq<nat>, k: nat): nat
    requires k <= |starts|
  {
    if k < |starts| then starts[k] else |rs|
  }

  /** The passes between two reads of the flag make one round, a whole one unless
      it is the last. */
  ghost predicate RoundAt(rs: seq<Outcome>, starts: seq<nat>, whole: bool, k: nat)
    requires k < |starts|
  {
    var s, p := Mark(rs, starts, k), Mark(rs, starts, k + 1);
    p <= |rs| && OneRound(rs, s, p) && (whole || k < |starts| - 1 ==> Breaks(rs, s, p))
  }

  /** starts[k] is the number of passes made before the k-th read that found the
      flag set. */
  ghost predicate Paced(rs: seq<Outcome>, starts: seq<nat>, whole: bool) {
    && Mark(rs, starts, 0) == 0
    && forall k :: 0 <= k < |starts| ==> RoundAt(rs, starts, whole, k)
  }

  lemma PacedStep(rs: seq<Outcome>, starts: seq<nat>, rs': seq<Outcome>, whole: bool)
    requires Paced(rs, starts, true) && rs <= rs'
    requires OneRound(rs', |rs|, |rs'|) && (whole ==> Breaks(rs', |rs|, |rs'|))
    ensures Paced(rs', starts + [|rs|], whole)
  {
    var starts' := starts + [|rs|];
    BreaksKept(rs, rs');
    forall k | 0 <= k < |starts'|
      ensures RoundAt(rs', starts', whole, k)
    {
      if k < |starts| {
        assert RoundAt(rs, starts, true, k);
      }
    }
  }

  lemma PacingEnds(rs: seq<Outcome>, s: nat, cycle: nat, idling: nat, x: Outcome)
    requires Pacing(rs, s, cycle, idling) && cycle < CYCLE_THRESHOLD
    ensures OneRound(rs + [x], s, |rs| + 1)
  {
    BreaksKept(rs, rs + [x]);
  }

  /** A core between two rounds. */
  ghost predicate Rested(listed: seq<nat>, answers: Answers, c: Core) {
    GoesOn(listed, answers, c) && c.idling == Trailing(c.results, |c.results|) % 256
  }

  /** What one round does: the core goes on, or the run ends with the pass after b. */
  ghost predicate RoundTaken(listed: seq<nat>, answers: Answers, c: Core, b: Core, c': Core, goesOn: bool) {
    && c.results <= c'.results && OneRound(c'.results, |c.results|, |c'.results|)
    && (goesOn ==> Breaks(c'.results, |c.results|, |c'.results|) && Rested(listed, answers, c'))
    && (!goesOn ==> EndsWith(listed, answers, b, c'))
  }

  /** One pass of a round: the switch on its result. */
  ghost predicate InRound(listed: seq<nat>, answers: Answers, c: Core, c': Core, cycle: nat) {
    c.results <= c'.results && GoesOn(listed, answers, c') && Pacing(c'.results, |c.results|, cycle, c'.idling)
  }

  function Settled(c: Core, cycle: nat, kept: seq<nat>, called: seq<nat>, state: JobState): (Core, nat) {
    var (cycle', idling') := Settle(cycle, c.idling, state);
    (WithPass(c, kept, called, Returns(state)).(idling := idling'), cycle' + 1)
  }

  lemma RoundGoesOn(listed: seq<nat>, answers: Answers, c: Core, b: Core, cycle: nat, kept: seq<nat>,
                    called: seq<nat>, state: JobState)
    requires InRound(listed, answers, c, b, cycle) && cycle < CYCLE_THRESHOLD && state != Done
    requires Passed(b.list.jobs, answers, |b.list.calls|, kept, called, Returns(state))
    ensures var (c', cycle') := Settled(b, cycle, kept, called, state); InRound(listed, answers, c, c', cycle')
  {
    PassGoesOn(listed, answers, b, kept, called, Returns(state));
    PacingStep(b.results, |c.results|, cycle, b.idling, state);
  }

  lemma RoundEnds(listed: seq<nat>, answers: Answers, c: Core, b: Core, cycle: nat, kept: seq<nat>, called: seq<nat>,
                  r: Outcome)
    requires InRound(listed, answers, c, b, cycle) && cycle < CYCLE_THRESHOLD && r in {Returns(Done), Throws}
    requires Passed(b.list.jobs, answers, |b.list.calls|, kept, called, r)
    ensures RoundTaken(listed, answers, c, b, WithPass(b, kept, called, r), false)
  {
    PassEndsRun(listed, answers, b, kept, called, r);
    PacingEnds(b.results, |c.results|, cycle, b.idling, r);
  }

  lemma RoundBegins(listed: seq<nat>, answers: Answers, c: Core)
    requires Rested(listed, answers, c)
    ensures InRound(listed, answers, c, c, 0)
  {
  }

  /** The inner loop of `run_jobs`. */
  method RunRound(ghost listed: seq<nat>, answers: Answers, c: Core) returns (c': Core, goesOn: bool, ghost b: Core)
    requires Rested(listed, answers, c)
    ensures RoundTaken(listed, answers, c, b, c', goesOn)
  {
    var cycle := 0;
    c', b := c, c;
    RoundBegins(listed, answers, c);
    while cycle < CYCLE_THRESHOLD
      invariant InRound(listed, answers, c, c', cycle)
    {
      var kept, called, r := RunJobsOnce(c'.list.jobs, answers, |c'.list.calls|);
      if r in {Returns(Done), Throws} {
        RoundEnds(listed, answers, c, c', cycle, kept, called, r);
        return WithPass(c', kept, called, r), false, c';
      }
      RoundGoesOn(listed, answers, c, c', cycle, kept, called, r.state);
      var (next, cycle') := Settled(c', cycle, kept, called, r.state);
      c', cycle := next, cycle';
    }
    goesOn := true;
  }

  /** The inner loop of `job::run_exclusive`. */
  method ExclusiveRound(job: nat, answers: Answers, c: Core) returns (c': Core, goesOn: bool, ghost b: Core)
    requires Rested([job], answers, c)
    ensures RoundTaken([job], answers, c, b, c', goesOn)
  {
    var cycle := 0;
    c', b := c, c;
    RoundBegins([job], answers, c);
    while cycle < CYCLE_THRESHOLD
      invariant InRound([job], answers, c, c', cycle)
    {
      var r := answers(|c'.list.calls|);
      var kept := Extended([], r != Returns(Done), job);
      ExclusivePass(job, answers, c', kept, r);
      if r in {Returns(Done), Throws} {
        RoundEnds([job], answers, c, c', cycle, kept, [job], r);
        return WithPass(c', kept, [job], r), false, c';
      }
      RoundGoesOn([job], answers, c, c', cycle, kept, [job], r.state);
      var (next, cycle') := Settled(c', cycle, kept, [job], r.state);
      c', cycle := next, cycle';
    }
    goesOn := true;
  }

  lemma {:induction false} StillListed(job: nat, answers: Answers, p: nat)
    ensures var jobs := After([job], answers, p).jobs; jobs == [] || jobs == [job]
  {
    if p > 0 {
      StillListed(job, answers, p - 1);
      var b := After([job], answers, p - 1);
      if |b.jobs| > 0 {
        assert Kept(b.jobs, answers, |b.calls|, 0) == [];
        assert Kept(b.jobs, answers, |b.calls|, 1) == Extended([], !Retires(answers, |b.calls|), job);
      }
    }
  }

  lemma ExclusivePass(job: nat, answers: Answers, c: Core, kept: seq<nat>, r: Outcome)
    requires GoesOn([job], answers, c) && r == answers(|c.list.calls|) && kept == Extended([], r != Returns(Done), job)
    ensures Passed(c.list.jobs, answers, |c.list.calls|, kept, [job], r)
  {
    StillListed(job, answers, |c.results|);
    SinglePass(job, answers, |c.list.calls|);
  }

  // ---- run_jobs --------------------------------------------------------------------------

  /** Why a run is over: the flag was found cleared, the last job is done, a job
      threw; or its observation ends while it still goes on. */
  datatype Ending = Stopped | Finished | Failed | Watched

  /** The core before its last pass. */
  ghost function Penultimate(listed: seq<nat>, answers: Answers, c: Core): Core
    requires c.results != []
  {
    var n := |c.results| - 1;
    Core(After(listed, answers, n), c.results[..n], 0)
  }

  /** The last pass has ended the run. */
  ghost predicate Ended(listed: seq<nat>, answers: Answers, c: Core) {
    c.results != [] && EndsWith(listed, answers, Penultimate(listed, answers, c), c)
  }

  lemma RunHasEnded(listed: seq<nat>, answers: Answers, b: Core, c: Core)
    requires EndsWith(listed, answers, b, c)
    ensures Ended(listed, answers, c)
  {
    assert Penultimate(listed, answers, c).results == b.results;
  }

  /** A run of a core over `listed`. flags[k] is what the k-th read of the stop
      flag finds, as far as the run is observed. */
  ghost predicate Ran(listed: seq<nat>, answers: Answers, flags: seq<bool>, starts: seq<nat>, c: Core, ending: Ending) {
    && |starts| <= |flags| && (forall k :: 0 <= k < |starts| ==> flags[k])
    && Paced(c.results, starts, ending in {Stopped, Watched})
    && match ending
       case Stopped => |starts| < |flags| && !flags[|starts|] && GoesOn(listed, answers, c)
       case Watched => |starts| == |flags| && GoesOn(listed, answers, c)
       case Finished => Ended(listed, answers, c) && EndingOf(c.results) == Finished
       case Failed => Ended(listed, answers, c) && EndingOf(c.results) == Failed
  }

  /** Between two rounds of a run. */
  ghost predicate Resting(listed: seq<nat>, answers: Answers, flags: seq<bool>, starts: seq<nat>, c: Core) {
    && |starts| <= |flags| && (forall k :: 0 <= k < |starts| ==> flags[k])
    && Paced(c.results, starts, true) && Rested(listed, answers, c)
  }

  lemma NextRound(listed: seq<nat>, answers: Answers, flags: seq<bool>, starts: seq<nat>, c: Core, b: Core, c': Core,
                  goesOn: bool)
    requires Resting(listed, answers, flags, starts, c) && |starts| < |flags| && flags[|starts|]
    requires RoundTaken(listed, answers, c, b, c', goesOn)
    ensures var starts' := starts + [|c.results|];
            if goesOn then Resting(listed, answers, flags, starts', c')
            else Ran(listed, answers, flags, starts', c', EndingOf(c'.results))
  {
    hide GoesOn, EndsWith, Ended, Breaks, OneRound, Paced;
    PacedStep(c.results, starts, c'.results, goesOn);
    if !goesOn {
      RunHasEnded(listed, answers, b, c');
    }
  }

  /** How a run ends that a pass has brought to its end. */
  function EndingOf(rs: seq<Outcome>): Ending {
    if rs != [] && rs[|rs| - 1].Throws? then Failed else Finished
  }

  /** `job::run_exclusive` is `run_jobs` on a list of one. */
  method RunExclusive(job: nat, answers: Answers, flags: seq<bool>)
    returns (c: Core, starts: seq<nat>, ending: Ending)
    ensures Ran([job], answers, flags, starts, c, ending)
  {
    c, starts := Core(Progress([job], []), [], 0), [];
    while |starts| < |flags| && flags[|starts|]
      invariant Resting([job], answers, flags, starts, c)
      decreases |flags| - |starts|
    {
      var c', goesOn, b := ExclusiveRound(job, answers, c);
      NextRound([job], answers, flags, starts, c, b, c', goesOn);
      starts, c := starts + [|c.results|], c';
      if !goesOn {
        ending := EndingOf(c.results);
        return;
      }
    }
    ending := if |starts| == |flags| then Watched else Stopped;
  }

  /** `run_jobs`. */
  method RunJobs(listed: seq<nat>, answers: Answers, flags: seq<bool>)
    returns (c: Core, starts: seq<nat>, ending: Ending)
    ensures Ran(listed, answers, flags, starts, c, ending)
  {
    if |listed| == 1 {
      c, starts, ending := RunExclusive(listed[0], answers, flags);
      assert [listed[0]] == listed;
      return;
    }
    c, starts := Core(Progress(listed, []), [], 0), [];
    while |starts| < |flags| && flags[|starts|]
      invariant Resting(listed, answers, flags, starts, c)
      decreases |flags| - |starts|
    {
      var c', goesOn, b := RunRound(listed, answers, c);
      NextRound(listed, answers, flags, starts, c, b, c', goesOn);
      starts, c := starts + [|c.results|], c';
      if !goesOn {
        ending := EndingOf(c.results);
        return;
      }
    }
    ending := if |starts| == |flags| then Watched else Stopped;
  }

  // ---- what every run keeps ----------------------------------------------------------------

  /** The calls made in the first p passes. */
  function CallsMade(listed: seq<nat>, answers: Answers, p: nat): nat {
    |After(listed, answers, p).calls|
  }

  /** At least one and at most 33 passes lie between two reads of the flag. */
  lemma StopIsNoticed(listed: seq<nat>, answers: Answers, flags: seq<bool>, starts: seq<nat>, c: Core,
                      ending: Ending, k: nat)
    requires Ran(listed, answers, flags, starts, c, ending) && k < |starts|
    ensures var s, p := Mark(c.results, starts, k), Mark(c.results, starts, k + 1);
            && 1 <= p - s <= 33
            && CallsMade(listed, answers, p) <= CallsMade(listed, answers, s) + 33 * |listed|
  {
    var s, p := Mark(c.results, starts, k), Mark(c.results, starts, k + 1);
    assert RoundAt(c.results, starts, ending in {Stopped, Watched}, k);
    RoundBound(listed, answers, s, p);
  }

  lemma RoundBound(listed: seq<nat>, answers: Answers, s: nat, p: nat)
    requires s <= p <= s + 33
    ensures CallsMade(listed, answers, p) <= CallsMade(listed, answers, s) + 33 * |listed|
  {
    CallsBound(listed, answers, s, p - s);
    AtMost(p - s, 33, |listed|);
  }

  lemma AtMost(d: nat, e: nat, n: nat)
    requires d <= e
    ensures d * n <= e * n
  {
  }

  lemma {:induction false} CallsBound(listed: seq<nat>, answers: Answers, s: nat, d: nat)
    ensures CallsMade(listed, answers, s + d) <= CallsMade(listed, answers, s) + d * |listed|
  {
    if d > 0 {
      CallsBound(listed, answers, s, d - 1);
      PassCalls(listed, answers, s + d - 1);
      assert (d - 1) * |listed| + |listed| == d * |listed|;
    }
  }

  lemma PassCalls(listed: seq<nat>, answers: Answers, p: nat)
    ensures CallsMade(listed, answers, p + 1) <= CallsMade(listed, answers, p) + |listed|
  {
    ListShrinks(listed, answers, p);
  }

  lemma {:induction false} ListShrinks(listed: seq<nat>, answers: Answers, p: nat)
    ensures |After(listed, answers, p).jobs| <= |listed|
  {
    if p > 0 {
      ListShrinks(listed, answers, p - 1);
    }
  }

  lemma {:induction false} EmptyStaysEmpty(listed: seq<nat>, answers: Answers, p: nat, q: nat)
    requires p <= q && After(listed, answers, p).jobs == []
    ensures After(listed, answers, q).jobs == []
  {
    if p < q {
      EmptyStaysEmpty(listed, answers, p, q - 1);
    }
  }

  /** A run that starts with a job never makes a pass over an empty list. */
  lemma NeverMeetsEmptyList(listed: seq<nat>, answers: Answers, flags: seq<bool>, starts: seq<nat>, c: Core,
                            ending: Ending, p: nat)
    requires Ran(listed, answers, flags, starts, c, ending) && listed != [] && p < |c.results|
    ensures After(listed, answers, p).jobs != []
  {
    var last := if ending in {Stopped, Watched} then c else Penultimate(listed, answers, c);
    if After(listed, answers, p).jobs == [] {
      EmptyStaysEmpty(listed, answers, p, |last.results|);
      assert false;
    }
  }

  /** Every run over distinct jobs is fair; one that finishes has seen every job
      done; and even one that fails has called no job after it was done. */
  lemma RunIsFair(listed: seq<nat>, answers: Answers, flags: seq<bool>, starts: seq<nat>, c: Core, ending: Ending)
    requires Ran(listed, answers, flags, starts, c, ending) && Distinct(listed)
    ensures ending != Failed ==> Fair(listed, answers, c.list, |c.results|)
    ensures ending == Finished ==> c.list.jobs == []
    ensures NeverAgain(answers, c.list.calls)
  {
    if ending in {Stopped, Watched} {
      PassesAreFair(listed, answers, |c.results|);
    } else {
      LastPassIsFair(listed, answers, Penultimate(listed, answers, c), c);
    }
  }

  lemma LastPassIsFair(listed: seq<nat>, answers: Answers, b: Core, c: Core)
    requires EndsWith(listed, answers, b, c) && Distinct(listed)
    ensures c.results[|b.results|] == Returns(Done) ==> Fair(listed, answers, c.list, |c.results|) && c.list.jobs == []
    ensures NeverAgain(answers, c.list.calls)
  {
    var calls, jobs, called := b.list.calls, b.list.jobs, c.list.calls[|b.list.calls|..];
    assert c.list.calls == calls + called;
    PassesAreFair(listed, answers, |b.results|);
    NeverAgainStep(listed, answers, calls, jobs);
    NeverAgainPrefix(answers, calls + called, calls + jobs);
    if c.results[|b.results|] == Returns(Done) {
      FairStep(listed, answers, b.list, |b.results|, c.list);
    }
  }

  lemma NeverAgainPrefix(answers: Answers, some: seq<nat>, all: seq<nat>)
    requires some <= all && NeverAgain(answers, all)
    ensures NeverAgain(answers, some)
  {
  }

  // ---- an idle core --------------------------------------------------------------------------

  /** Passes before read k of the flag on a core that never has work: three at first,
      then one a read, but four whenever the counter wraps, every 253rd read. */
  function IdleMark(k: nat): nat {
    if k == 0 then 0 else k + 2 + 3 * ((k - 1) / 253)
  }

  lemma IdleMarkStep(k: nat)
    ensures IdleMark(k + 1) == IdleMark(k) + IdleRound(IdleMark(k) % 256)
  {
    if k > 0 {
      var q, r := (k - 1) / 253, (k - 1) % 253;
      assert IdleMark(k) == 256 * q + (r + 3);
      ModUnique(IdleMark(k), 256, q, r + 3);
      if r == 252 {
        ModUnique(k, 253, q + 1, 0);
      } else {
        ModUnique(k, 253, q, r + 1);
      }
    }
  }

  /** The flag of an idle core is read after exactly those passes, in every run. */
  lemma {:induction false} IdleReads(rs: seq<Outcome>, starts: seq<nat>, k: nat)
    requires Paced(rs, starts, true) && k <= |starts| && forall p :: 0 <= p < |rs| ==> rs[p] == Returns(Idling)
    ensures Mark(rs, starts, k) == IdleMark(k)
  {
    if k > 0 {
      IdleReads(rs, starts, k - 1);
      assert RoundAt(rs, starts, true, k - 1);
      var s, p := Mark(rs, starts, k - 1), Mark(rs, starts, k);
      IdleCadence(rs, s, p);
      TrailingRun(rs, 0, s);
      IdleMarkStep(k - 1);
    }
  }

  /** There are such runs: a core whose jobs are always idle, observed over n reads. */
  method RunIdle(listed: seq<nat>, n: nat) returns (c: Core, starts: seq<nat>)
    ensures |starts| == n && forall p :: 0 <= p < |c.results| ==> c.results[p] == Returns(Idling)
    ensures forall k :: 0 <= k <= n ==> Mark(c.results, starts, k) == IdleMark(k)
  {
    var answers: Answers, flags := _ => Returns(Idling), seq(n, _ => true);
    var ending;
    c, starts, ending := RunJobs(listed, answers, flags);
    IdleRunGoesOn(listed, answers, flags, starts, c, ending);
    forall k | 0 <= k <= n
      ensures Mark(c.results, starts, k) == IdleMark(k)
    {
      IdleReads(c.results, starts, k);
    }
  }

  lemma IdleRunGoesOn(listed: seq<nat>, answers: Answers, flags: seq<bool>, starts: seq<nat>, c: Core, ending: Ending)
    requires Ran(listed, answers, flags, starts, c, ending)
    requires (forall call :: answers(call) == Returns(Idling)) && forall k :: 0 <= k < |flags| ==> flags[k]
    ensures ending == Watched && forall p :: 0 <= p < |c.results| ==> c.results[p] == Returns(Idling)
  {
    RunGoesOn(listed, answers, flags, starts, c, ending);
    forall p | 0 <= p < |c.results|
      ensures c.results[p] == Returns(Idling)
    {
      assert PassReports(listed, answers, p, c.results[p]);
    }
  }

  /** No call throws and no job is ever done. */
  ghost predicate NeverEnds(answers: Answers) {
    forall call :: answers(call) in {Returns(Busy), Returns(Idling)}
  }

  /** With such jobs and the flag set a run goes on. */
  lemma RunGoesOn(listed: seq<nat>, answers: Answers, flags: seq<bool>, starts: seq<nat>, c: Core, ending: Ending)
    requires Ran(listed, answers, flags, starts, c, ending)
    requires NeverEnds(answers) && forall k :: 0 <= k < |flags| ==> flags[k]
    ensures ending == Watched
  {
    if ending in {Finished, Failed} {
      var b := Penultimate(listed, answers, c);
      PassKeepsAll(b.list.jobs, answers, |b.list.calls|);
      assert false;
    }
  }

  lemma PassKeepsAll(jobs: seq<nat>, answers: Answers, at: nat)
    requires NeverEnds(answers)
    ensures NoneThrows(answers, at, at + |jobs|) && Kept(jobs, answers, at, |jobs|) == jobs
  {
    AllKept(jobs, answers, at, |jobs|);
    assert jobs[..|jobs|] == jobs;
  }

  lemma {:induction false} AllKept(jobs: seq<nat>, answers: Answers, at: nat, k: nat)
    requires k <= |jobs| && NeverEnds(answers)
    ensures Kept(jobs, answers, at, k) == jobs[..k]
  {
    if k > 0 {
      AllKept(jobs, answers, at, k - 1);
    }
  }

  // ---- a busy core ---------------------------------------------------------------------------

  /** A round without three idle passes in a row lasts for exactly 33 passes. */
  lemma BusyRound(rs: seq<Outcome>, s: nat, p: nat)
    requires s <= p <= |rs| && WholeRound(rs, s, p)
    requires forall q :: s < q <= p ==> Trailing(rs, q) <= 2
    ensures p - s == 33
  {
    assert Trailing(rs, p) <= 2;
  }

  /** A core that never sees three idle passes in a row reads the flag after every 33rd
      pass, in every run. */
  lemma {:induction false} BusyReads(rs: seq<Outcome>, starts: seq<nat>, k: nat)
    requires Paced(rs, starts, true) && k <= |starts| && forall q :: 0 <= q <= |rs| ==> Trailing(rs, q) <= 2
    ensures Mark(rs, starts, k) == 33 * k
  {
    if k > 0 {
      BusyReads(rs, starts, k - 1);
      assert RoundAt(rs, starts, true, k - 1);
      BusyRound(rs, Mark(rs, starts, k - 1), Mark(rs, starts, k));
    }
  }

  /** There are such runs: a core whose jobs are always busy, observed over n reads. */
  method RunBusy(listed: seq<nat>, n: nat) returns (c: Core, starts: seq<nat>)
    requires listed != []
    ensures |starts| == n && |c.results| == 33 * n
    ensures forall p :: 0 <= p < |c.results| ==> c.results[p] == Returns(Busy)
    ensures forall k :: 0 <= k < n ==> starts[k] == 33 * k
  {
    var answers: Answers, flags := _ => Returns(Busy), seq(n, _ => true);
    var ending;
    c, starts, ending := RunJobs(listed, answers, flags);
    RunGoesOn(listed, answers, flags, starts, c, ending);
    BusyRunStaysBusy(listed, answers, c);
    forall k | 0 <= k <= n
      ensures Mark(c.results, starts, k) == 33 * k
    {
      BusyReads(c.results, starts, k);
    }
    assert Mark(c.results, starts, n) == 33 * n;
    forall k | 0 <= k < n
      ensures starts[k] == 33 * k
    {
      assert Mark(c.results, starts, k) == 33 * k;
    }
  }

  lemma BusyRunStaysBusy(listed: seq<nat>, answers: Answers, c: Core)
    requires GoesOn(listed, answers, c) && listed != [] && forall call :: answers(call) == Returns(Busy)
    ensures forall p :: 0 <= p < |c.results| ==> c.results[p] == Returns(Busy)
  {
    forall p | 0 <= p < |c.results|
      ensures c.results[p] == Returns(Busy)
    {
      assert PassReports(listed, answers, p, c.results[p]);
      AllStay(listed, answers, p);
      assert answers(|After(listed, answers, p).calls|) == Returns(Busy);
    }
  }

  /** Jobs that are never done stay listed. */
  lemma {:induction false} AllStay(listed: seq<nat>, answers: Answers, p: nat)
    requires NeverEnds(answers)
    ensures After(listed, answers, p).jobs == listed
  {
    if p > 0 {
      AllStay(listed, answers, p - 1);
      PassKeepsAll(listed, answers, |After(listed, answers, p - 1).calls|);
    }
  }
}
