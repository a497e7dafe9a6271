/** Concurrent `attach_rx` calls on the shared table, at the granularity of the
    atomic load and the compare-and-swap (dpdkx/device.cpp:441-448).  Every
    published vector is a fresh allocation that a loader keeps alive, so pointer
    equality in the compare-and-swap is equality of publication numbers. */
module AttachProtocol {
  import opened Bytes
  import opened Collections
  import opened Sinks

  datatype Call = Call(address: U32, port: U16, channel: Option<Channel>)

  datatype Result = Ok | AddressInUse

  /** Where a call stands: `channel` is what its argument still holds, which is
      nothing once it was moved into a copy that was not published. */
  datatype Phase =
    | Idle(channel: Option<Channel>)
    | Loaded(channel: Option<Channel>, base: Table, version: nat)
    | Finished(result: Result)

  /** `winners` lists, in order, the calls whose compare-and-swap succeeded. */
  datatype State = State(table: Table, version: nat, phases: seq<Phase>, winners: seq<nat>)

  function Initial(calls: seq<Call>): State {
    State([SENTINEL], 0, seq(|calls|, i requires 0 <= i < |calls| => Idle(calls[i].channel)), [])
  }

  function EntryOf(c: Call): Sink {
    Sink(c.address, c.port, c.channel)
  }

  /** The next atomic action of call c. */
  function Act(calls: seq<Call>, s: State, c: nat): State
    requires c < |calls| == |s.phases|
  {
    match s.phases[c]
    case Idle(channel) =>
      s.(phases := s.phases[c := Loaded(channel, s.table, s.version)])
    case Loaded(channel, base, version) =>
      if channel.None? then
        s.(phases := s.phases[c := Finished(AddressInUse)])
      else if version == s.version then
        State(base + [Sink(calls[c].address, calls[c].port, channel)],
              s.version + 1, s.phases[c := Finished(Ok)], s.winners + [c])
      else
        s.(phases := s.phases[c := Idle(None)])
    case Finished(_) => s
  }

  /** The state after the calls named in `schedule` acted in that order. */
  function Run(calls: seq<Call>, schedule: seq<nat>): (s: State)
    requires forall i :: 0 <= i < |schedule| ==> schedule[i] < |calls|
    ensures |s.phases| == |calls|
  {
    if |schedule| == 0 then Initial(calls)
    else Act(calls, Run(calls, schedule[..|schedule| - 1]), schedule[|schedule| - 1])
  }

  // ---- invariant ----------------------------------------------------------

  function Entries(calls: seq<Call>, winners: seq<nat>): Table
    requires forall i :: 0 <= i < |winners| ==> winners[i] < |calls|
  {
    seq(|winners|, i requires 0 <= i < |winners| => EntryOf(calls[winners[i]]))
  }

  ghost predicate PhaseInv(calls: seq<Call>, s: State, c: nat)
    requires c < |calls| == |s.phases|
  {
    match s.phases[c]
    case Idle(channel) =>
      c !in s.winners && (channel.Some? ==> channel == calls[c].channel)
    case Loaded(channel, base, version) =>
      && c !in s.winners && (channel.Some? ==> channel == calls[c].channel)
      && version <= s.version && version < |s.table| && base == s.table[..1 + version]
    case Finished(result) =>
      result == Ok <==> c in s.winners
  }

  ghost predicate Inv(calls: seq<Call>, s: State) {
    && |s.phases| == |calls|
    && s.version == |s.winners| && |s.table| == 1 + s.version
    && (forall i :: 0 <= i < |s.winners| ==> s.winners[i] < |calls| && calls[s.winners[i]].channel.Some?)
    && (forall i, j :: 0 <= i < j < |s.winners| ==> s.winners[i] != s.winners[j])
    && s.table == [SENTINEL] + Entries(calls, s.winners)
    && forall c :: 0 <= c < |calls| ==> PhaseInv(calls, s, c)
  }

  /** A step that only changes the phase of its own call. */
  lemma PhaseKeepsInv(calls: seq<Call>, s: State, c: nat, phase: Phase)
    requires c < |calls| && Inv(calls, s)
    requires PhaseInv(calls, s.(phases := s.phases[c := phase]), c)
    ensures Inv(calls, s.(phases := s.phases[c := phase]))
  {
    var s' := s.(phases := s.phases[c := phase]);
    forall d | 0 <= d < |calls|
      ensures PhaseInv(calls, s', d)
    {
      assert PhaseInv(calls, s, d);
    }
  }

  /** A successful compare-and-swap. */
  lemma SwapKeepsInv(calls: seq<Call>, s: State, c: nat, s': State)
    requires c < |calls| && Inv(calls, s) && calls[c].channel.Some? && c !in s.winners
    requires s' == State(s.table + [EntryOf(calls[c])], s.version + 1, s.phases[c := Finished(Ok)], s.winners + [c])
    ensures Inv(calls, s')
  {
    assert Entries(calls, s'.winners) == Entries(calls, s.winners) + [EntryOf(calls[c])];
    forall d | 0 <= d < |calls|
      ensures PhaseInv(calls, s', d)
    {
      assert PhaseInv(calls, s, d);
    }
  }

  lemma ActKeepsInv(calls: seq<Call>, s: State, c: nat)
    requires c < |calls| && Inv(calls, s)
    ensures Inv(calls, Act(calls, s, c))
    ensures s.table <= Act(calls, s, c).table
  {
    var s' := Act(calls, s, c);
    assert PhaseInv(calls, s, c);
    assert s.table[..|s.table|] == s.table;
    if s'.winners == s.winners {
      if s' != s {
        PhaseKeepsInv(calls, s, c, s'.phases[c]);
      }
    } else {
      SwapKeepsInv(calls, s, c, s');
    }
  }

  lemma {:induction false} RunKeepsInv(calls: seq<Call>, schedule: seq<nat>)
    requires forall i :: 0 <= i < |schedule| ==> schedule[i] < |calls|
    ensures Inv(calls, Run(calls, schedule))
  {
    if |schedule| > 0 {
      RunKeepsInv(calls, schedule[..|schedule| - 1]);
      ActKeepsInv(calls, Run(calls, schedule[..|schedule| - 1]), schedule[|schedule| - 1]);
    } else {
      assert forall c :: 0 <= c < |calls| ==> PhaseInv(calls, Initial(calls), c);
    }
  }

  // ---- main results -------------------------------------------------------

  /** In every interleaving the published table is the sentinel followed by the
      entries of distinct calls, one each, in the order in which they won, all
      with real channels; and a call owns an entry exactly when it returned Ok. */
  lemma PublishedTable(calls: seq<Call>, schedule: seq<nat>)
    requires forall i :: 0 <= i < |schedule| ==> schedule[i] < |calls|
    ensures var s := Run(calls, schedule);
            && (forall i :: 0 <= i < |s.winners| ==> s.winners[i] < |calls|)
            && WellFormed(s.table)
            && s.table == [SENTINEL] + Entries(calls, s.winners)
            && (forall i, j :: 0 <= i < j < |s.winners| ==> s.winners[i] != s.winners[j])
            && forall c :: 0 <= c < |calls| ==> (s.phases[c] == Finished(Ok) <==> c in s.winners)
  {
    RunKeepsInv(calls, schedule);
    var s := Run(calls, schedule);
    forall c | 0 <= c < |calls|
      ensures s.phases[c] == Finished(Ok) <==> c in s.winners
    {
      assert PhaseInv(calls, s, c);
    }
    forall i | 1 <= i < |s.table|
      ensures s.table[i].channel.Some?
    {
      assert s.table[i] == EntryOf(calls[s.winners[i - 1]]);
    }
  }

  /** A port other than 0 leads to the first call that won with it.  Port 0 leads to
      nobody, even if a call for it has succeeded: the sentinel stands in front. */
  lemma FirstWinnerIsServed(calls: seq<Call>, schedule: seq<nat>, port: U16, i: nat)
    requires forall k :: 0 <= k < |schedule| ==> schedule[k] < |calls|
    requires var s := Run(calls, schedule);
             && i <= |s.winners| && (forall k :: 0 <= k < |s.winners| ==> s.winners[k] < |calls|)
             && (i < |s.winners| ==> calls[s.winners[i]].port == port)
             && forall k :: 0 <= k < i ==> calls[s.winners[k]].port != port
    ensures var s := Run(calls, schedule);
            Lookup(s.table, port)
            == if port == 0 || i == |s.winners| then None else calls[s.winners[i]].channel
  {
    var s := Run(calls, schedule);
    PublishedTable(calls, schedule);
    forall k | 1 <= k < |s.table|
      ensures s.table[k] == EntryOf(calls[s.winners[k - 1]])
    {
    }
    if port == 0 {
      LookupFirst(s.table, 0, 0);
    } else if i == |s.winners| {
      LookupNone(s.table, port);
    } else {
      LookupFirst(s.table, port, i + 1);
    }
  }

  /** No step of any call drops, changes or reorders a published entry. */
  lemma {:induction false} TableOnlyGrows(calls: seq<Call>, schedule: seq<nat>, later: nat)
    requires later <= |schedule|
    requires forall i :: 0 <= i < |schedule| ==> schedule[i] < |calls|
    ensures Run(calls, schedule[..later]).table <= Run(calls, schedule).table
  {
    if later == |schedule| {
      assert schedule[..later] == schedule;
    } else {
      var butLast := schedule[..|schedule| - 1];
      TableOnlyGrows(calls, butLast, later);
      assert butLast[..later] == schedule[..later];
      RunKeepsInv(calls, butLast);
      ActKeepsInv(calls, Run(calls, butLast), schedule[|schedule| - 1]);
    }
  }

  /** A call between its load and its compare-and-swap. */
  ghost predicate Between(schedule: seq<nat>, c: nat, load: nat, swap: nat) {
    && load < swap < |schedule| && schedule[load] == c == schedule[swap]
    && forall i :: load < i < swap ==> schedule[i] != c
  }

  lemma {:induction false} LoadedStays(calls: seq<Call>, schedule: seq<nat>, c: nat, load: nat, at: nat)
    requires c < |calls| && load < at <= |schedule| && schedule[load] == c
    requires forall i :: 0 <= i < |schedule| ==> schedule[i] < |calls|
    requires forall i :: load < i < at ==> schedule[i] != c
    requires Run(calls, schedule[..load]).phases[c] == Idle(calls[c].channel)
    ensures var seen := Run(calls, schedule[..load]);
            Run(calls, schedule[..at]).phases[c] == Loaded(calls[c].channel, seen.table, seen.version)
    decreases at
  {
    var prefix := schedule[..at];
    assert prefix[..at - 1] == schedule[..at - 1];
    if at > load + 1 {
      LoadedStays(calls, schedule, c, load, at - 1);
    }
  }

  /** The exact outcome of an attach: it succeeds if and only if it was given a
      channel and no other call published between its load and its
      compare-and-swap; then its entry is appended, and otherwise the table
      stays as it is. */
  lemma AttachSucceedsExactly(calls: seq<Call>, schedule: seq<nat>, c: nat, load: nat, swap: nat)
    requires c < |calls| && Between(schedule, c, load, swap)
    requires forall i :: 0 <= i < |schedule| ==> schedule[i] < |calls|
    requires Run(calls, schedule[..load]).phases[c] == Idle(calls[c].channel)
    ensures var seen := Run(calls, schedule[..load]).table;
            var before := Run(calls, schedule[..swap]).table;
            var after := Run(calls, schedule[..swap + 1]);
            && (after.phases[c] == Finished(Ok) <==> calls[c].channel.Some? && seen == before)
            && after.table == (if after.phases[c] == Finished(Ok) then before + [EntryOf(calls[c])] else before)
  {
    hide Run, Act, Inv;
    LoadedStays(calls, schedule, c, load, swap);
    RunKeepsInv(calls, schedule[..load]);
    RunKeepsInv(calls, schedule[..swap]);
    OneActionMore(calls, schedule, swap);
    SwapOutcome(calls, Run(calls, schedule[..load]), Run(calls, schedule[..swap]), c);
  }

  lemma OneActionMore(calls: seq<Call>, schedule: seq<nat>, k: nat)
    requires k < |schedule| && forall i :: 0 <= i < |schedule| ==> schedule[i] < |calls|
    ensures Run(calls, schedule[..k + 1]) == Act(calls, Run(calls, schedule[..k]), schedule[k])
  {
    assert schedule[..k + 1][..k] == schedule[..k];
  }

  /** The compare-and-swap in state s of a call that loaded in state `seen`. */
  lemma SwapOutcome(calls: seq<Call>, seen: State, s: State, c: nat)
    requires Inv(calls, seen) && Inv(calls, s) && c < |calls|
    requires s.phases[c] == Loaded(calls[c].channel, seen.table, seen.version)
    ensures var after := Act(calls, s, c);
            && (after.phases[c] == Finished(Ok) <==> calls[c].channel.Some? && seen.table == s.table)
            && after.table == (if after.phases[c] == Finished(Ok) then s.table + [EntryOf(calls[c])] else s.table)
  {
    assert PhaseInv(calls, s, c);
    assert s.table[..|s.table|] == s.table;
  }

  /** The argument of call c is gone and it has no entry. */
  ghost predicate Lost(s: State, c: nat)
    requires c < |s.phases|
  {
    match s.phases[c]
    case Idle(channel) => channel.None?
    case Loaded(channel, _, _) => channel.None?
    case Finished(result) => result == AddressInUse
  }

  /** A call whose compare-and-swap failed once never gets an entry: its retry
      finds the channel moved away and reports the address as in use. */
  lemma {:induction false} LostForGood(calls: seq<Call>, schedule: seq<nat>, c: nat, from: nat)
    requires c < |calls| && from <= |schedule|
    requires forall i :: 0 <= i < |schedule| ==> schedule[i] < |calls|
    requires Lost(Run(calls, schedule[..from]), c)
    ensures Lost(Run(calls, schedule), c) && c !in Run(calls, schedule).winners
  {
    RunKeepsInv(calls, schedule);
    assert PhaseInv(calls, Run(calls, schedule), c);
    if from == |schedule| {
      assert schedule[..from] == schedule;
    } else {
      var butLast := schedule[..|schedule| - 1];
      assert butLast[..from] == schedule[..from];
      LostForGood(calls, butLast, c, from);
    }
  }

  /** Two attaches on different ports that overlap: the slower one is refused
      although nobody uses its port. */
  lemma OverlappingAttachIsRefused()
    ensures var calls := [Call(1, 10, Some(100)), Call(1, 20, Some(200))];
            var s := Run(calls, [0, 1, 0, 1, 1, 1]);
            && s.phases[1] == Finished(AddressInUse)
            && Lookup(s.table, 20) == None && Lookup(s.table, 10) == Some(100)
  {
    var calls := [Call(1, 10, Some(100)), Call(1, 20, Some(200))];
    var s1 := Run(calls, [0]);
    assert [0, 1][..1] == [0];
    var s2 := Run(calls, [0, 1]);
    assert [0, 1, 0][..2] == [0, 1];
    var s3 := Run(calls, [0, 1, 0]);
    assert s3.table == [SENTINEL, Sink(1, 10, Some(100))];
    assert [0, 1, 0, 1][..3] == [0, 1, 0];
    var s4 := Run(calls, [0, 1, 0, 1]);
    assert [0, 1, 0, 1, 1][..4] == [0, 1, 0, 1];
    var s5 := Run(calls, [0, 1, 0, 1, 1]);
    assert [0, 1, 0, 1, 1, 1][..5] == [0, 1, 0, 1, 1];
    LookupNone(s5.table, 20);
    LookupFirst(s5.table, 10, 1);
  }
}
