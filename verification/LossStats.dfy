/** Loss and reorder counters of the receive side (sockperf_cli/stats.cpp:83-131). */
module LossStats {
  import opened Bits
  import opened Bytes
  import opened Collections
  import opened Wire
  import opened TxTimestamps

  const NOT_SET: nat := 0xffff_ffff_ffff_ffff

  /** A received packet, its number split into queue and sequence number. */
  datatype Record = Record(queue: nat, seqn: nat, received: U64, enqueued: U64)

  // ---- what one queue received ------------------------------------------------

  /** The numbers queue q received among the first k records, in arrival order. */
  function Arrivals(data: seq<Record>, q: nat, k: nat): seq<nat>
    requires k <= |data|
  {
    if k == 0 then []
    else Arrivals(data, q, k - 1) + if data[k - 1].queue == q then [data[k - 1].seqn] else []
  }

  function Max(s: seq<nat>): nat
    requires s != []
  {
    if |s| == 1 then s[0]
    else
      var m := Max(s[..|s| - 1]);
      if s[|s| - 1] > m then s[|s| - 1] else m
  }

  /** Packets that did not arrive in front of everything received before. */
  function LateCount(s: seq<nat>): nat {
    if |s| <= 1 then 0
    else LateCount(s[..|s| - 1]) + if s[|s| - 1] <= Max(s[..|s| - 1]) then 1 else 0
  }

  /** Numbers between the first and the highest, less packets received; negative
      if the counter has been decremented too often. */
  function Balance(s: seq<nat>): int
    requires s != []
  {
    Max(s) - s[0] + 1 - |s|
  }

  function Wrap(x: int): U64 {
    x % TWO_64
  }

  // ---- the loop ---------------------------------------------------------------

  datatype PerQueue = PerQueue(late: nat, missing: U64, prev: nat)

  const FRESH := PerQueue(0, 0, NOT_SET)

  /** The per-queue slot after the arrivals `s`. */
  ghost predicate Tracks(data: seq<Record>, p: PerQueue, s: seq<nat>) {
    if s == [] then p == FRESH
    else
      && p.prev < |data| && p.prev != NOT_SET && data[p.prev].seqn == Max(s)
      && p.missing == Wrap(Balance(s))
      && p.late == LateCount(s)
  }

  /** Lines 108-126: what record i does to the slot of its queue. */
  function Bump(data: seq<Record>, p: PerQueue, i: nat): PerQueue
    requires i < |data| && (p.prev == NOT_SET || p.prev < |data|)
  {
    if p.prev == NOT_SET then p.(prev := i)
    else
      var expected, seqn := data[p.prev].seqn + 1, data[i].seqn;
      if expected == seqn then p.(prev := i)
      else if expected < seqn then p.(missing := Wrap(p.missing as int + (seqn - expected)), prev := i)
      else p.(late := p.late + 1, missing := Wrap(p.missing as int - 1))
  }

  lemma WrapAdds(a: int, b: int)
    ensures Wrap(Wrap(a) as int + b) == Wrap(a + b)
  {
  }

  lemma OneMoreArrival(s: seq<nat>, x: nat)
    requires s != []
    ensures Max(s + [x]) == if x > Max(s) then x else Max(s)
    ensures LateCount(s + [x]) == LateCount(s) + if x <= Max(s) then 1 else 0
    ensures Balance(s + [x]) == Balance(s) + if x > Max(s) then x - Max(s) - 1 else -1
  {
    assert (s + [x])[..|s|] == s;
  }

  lemma BumpTracks(data: seq<Record>, p: PerQueue, s: seq<nat>, i: nat)
    requires Tracks(data, p, s) && i < |data| < NOT_SET
    ensures Tracks(data, Bump(data, p, i), s + [data[i].seqn])
  {
    var x := data[i].seqn;
    if s == [] {
      assert s + [x] == [x];
    } else {
      OneMoreArrival(s, x);
      WrapAdds(Balance(s), x - Max(s) - 1);
      WrapAdds(Balance(s), -1);
    }
  }

  /** A record the loop looks at; records of higher queues are reported and skipped. */
  predicate Known(r: Record, queues: nat) {
    r.queue < queues
  }

  /** Packet-to-packet samples among the first k records: every known record
      except the first of its queue, against the record before it. */
  function Gaps(data: seq<Record>, queues: nat, k: nat): seq<int>
    requires k <= |data|
  {
    if k == 0 then []
    else
      var i := k - 1;
      Gaps(data, queues, i)
      + if Known(data[i], queues) && i > 0 && Arrivals(data, data[i].queue, i) != []
        then [data[i].received - data[i - 1].received] else []
  }

  /** Round trips among the first k records: reception against the send time
      found for the packet. */
  function RoundTrips(data: seq<Record>, stamps: seq<seq<Stamp>>, k: nat): seq<int>
    requires k <= |data|
  {
    if k == 0 then []
    else
      var i := k - 1;
      RoundTrips(data, stamps, i)
      + if Known(data[i], |stamps|) && SentAt(stamps[data[i].queue], data[i].seqn).Some?
        then [data[i].enqueued - SentAt(stamps[data[i].queue], data[i].seqn).value] else []
  }

  /** The loop's findings. */
  datatype Tally = Tally(stats: seq<PerQueue>, gaps: seq<int>, trips: seq<int>)

  /** They are right for the first i records. */
  ghost predicate Analysed(data: seq<Record>, stamps: seq<seq<Stamp>>, i: nat, t: Tally) {
    && i <= |data| && |t.stats| == |stamps|
    && (forall q :: 0 <= q < |t.stats| ==> Tracks(data, t.stats[q], Arrivals(data, q, i)))
    && t.gaps == Gaps(data, |stamps|, i) && t.trips == RoundTrips(data, stamps, i)
  }

  /** What the loop reads is there: queue numbers index the tables, and the
      search for the send time does not fall off the front. */
  predicate Readable(r: Record, stamps: seq<seq<Stamp>>) {
    && r.queue != |stamps|
    && (r.queue < |stamps| ==> SentAt(stamps[r.queue], r.seqn).Some?)
  }

  /** The slot of the queue of record i can be used for it. */
  predicate Usable(data: seq<Record>, stamps: seq<seq<Stamp>>, i: nat, t: Tally) {
    && i < |data| && data[i].queue < |stamps| == |t.stats| && Readable(data[i], stamps)
    && var p := t.stats[data[i].queue];
    p.prev == NOT_SET || (p.prev < |data| && i > 0)
  }

  /** One round of the loop for a record of a known queue. */
  function Counted(data: seq<Record>, stamps: seq<seq<Stamp>>, i: nat, t: Tally): Tally
    requires Usable(data, stamps, i, t)
  {
    var r, p := data[i], t.stats[data[i].queue];
    Tally(t.stats[r.queue := Bump(data, p, i)],
          if p.prev == NOT_SET then t.gaps else t.gaps + [r.received - data[i - 1].received],
          t.trips + [r.enqueued - SentAt(stamps[r.queue], r.seqn).value])
  }

  lemma ArrivalsOneMore(data: seq<Record>, q: nat, i: nat)
    requires i < |data|
    ensures Arrivals(data, q, i + 1)
         == if data[i].queue == q then Arrivals(data, q, i) + [data[i].seqn] else Arrivals(data, q, i)
  {
  }

  lemma SkippedRecord(data: seq<Record>, stamps: seq<seq<Stamp>>, i: nat, t: Tally)
    requires Analysed(data, stamps, i, t) && i < |data| && data[i].queue >= |stamps|
    ensures Analysed(data, stamps, i + 1, t)
  {
    forall q | 0 <= q < |t.stats|
      ensures Tracks(data, t.stats[q], Arrivals(data, q, i + 1))
    {
      ArrivalsOneMore(data, q, i);
    }
    assert t.gaps + [] == t.gaps && t.trips + [] == t.trips;
  }

  lemma AnalysedIsUsable(data: seq<Record>, stamps: seq<seq<Stamp>>, i: nat, t: Tally)
    requires Analysed(data, stamps, i, t) && i < |data|
    requires data[i].queue < |stamps| && Readable(data[i], stamps)
    ensures Usable(data, stamps, i, t)
  {
    var q := data[i].queue;
    assert Tracks(data, t.stats[q], Arrivals(data, q, i));
    assert Arrivals(data, q, 0) == [];
  }

  lemma CountedRecord(data: seq<Record>, stamps: seq<seq<Stamp>>, i: nat, t: Tally)
    requires Analysed(data, stamps, i, t) && i < |data| < NOT_SET && Usable(data, stamps, i, t)
    ensures Analysed(data, stamps, i + 1, Counted(data, stamps, i, t))
  {
    var q := data[i].queue;
    var t' := Counted(data, stamps, i, t);
    assert Tracks(data, t.stats[q], Arrivals(data, q, i));
    BumpTracks(data, t.stats[q], Arrivals(data, q, i), i);
    forall q' | 0 <= q' < |t.stats|
      ensures Tracks(data, t'.stats[q'], Arrivals(data, q', i + 1))
    {
      ArrivalsOneMore(data, q', i);
      assert Tracks(data, t.stats[q'], Arrivals(data, q', i));
    }
    assert t.gaps + [] == t.gaps;
  }

  /** One untouched slot per queue. */
  method NewStats(queues: nat) returns (stats: array<PerQueue>)
    ensures fresh(stats) && stats.Length == queues
    ensures forall q :: 0 <= q < queues ==> stats[q] == FRESH
  {
    stats := new PerQueue[queues];
    for q := 0 to queues
      invariant forall j :: 0 <= j < q ==> stats[j] == FRESH
    {
      stats[q] := FRESH;
    }
  }

  /** One round of the loop, but for the earliest and latest packet. */
  method Visit(data: seq<Record>, stamps: seq<seq<Stamp>>, i: nat, stats: array<PerQueue>, gaps: seq<int>,
               trips: seq<int>)
    returns (gaps': seq<int>, trips': seq<int>)
    requires Usable(data, stamps, i, Tally(stats[..], gaps, trips)) && Increasing(stamps[data[i].queue])
    modifies stats
    ensures Tally(stats[..], gaps', trips') == Counted(data, stamps, i, Tally(old(stats[..]), gaps, trips))
  {
    var q := data[i].queue;
    var sent := FindSendTime(stamps[q], data[i].seqn);
    trips' := trips + [data[i].enqueued - sent.value];
    gaps' := gaps;
    if stats[q].prev != NOT_SET {
      gaps' := gaps + [data[i].received - data[i - 1].received];
    }
    stats[q] := Bump(data, stats[q], i);
  }

  /** Everything found after the first i records. */
  ghost predicate Found(data: seq<Record>, stamps: seq<seq<Stamp>>, i: nat, t: Tally, first: nat, last: nat)
    requires data != []
  {
    && Analysed(data, stamps, i, t)
    && Earliest(data, |stamps|, i, first) && Latest(data, |stamps|, i, last)
  }

  lemma NothingFound(data: seq<Record>, stamps: seq<seq<Stamp>>, stats: seq<PerQueue>)
    requires data != [] && |stats| == |stamps| && forall q :: 0 <= q < |stats| ==> stats[q] == FRESH
    ensures Found(data, stamps, 0, Tally(stats, [], []), 0, |data| - 1)
  {
  }

  lemma FoundSkipped(data: seq<Record>, stamps: seq<seq<Stamp>>, i: nat, t: Tally, first: nat, last: nat)
    requires i < |data| && Found(data, stamps, i, t, first, last) && data[i].queue >= |stamps|
    ensures Found(data, stamps, i + 1, t, first, last)
  {
    SkippedRecord(data, stamps, i, t);
    SpanSkip(data, |stamps|, i, first, last);
  }

  lemma FoundCounted(data: seq<Record>, stamps: seq<seq<Stamp>>, i: nat, t: Tally, first: nat, last: nat)
    requires i < |data| < NOT_SET && Found(data, stamps, i, t, first, last)
    requires data[i].queue < |stamps| && Readable(data[i], stamps)
    ensures Usable(data, stamps, i, t)
    ensures Found(data, stamps, i + 1, Counted(data, stamps, i, t), Earlier(data, first, i), Later(data, last, i))
  {
    AnalysedIsUsable(data, stamps, i, t);
    CountedRecord(data, stamps, i, t);
    SpanStep(data, |stamps|, i, first, last);
  }

  /** A record the loop cannot read is one it does not skip: the guard at line 95
      lets the queue behind the last one through, or no slot lies before the packet. */
  lemma UnreadableExactly(r: Record, stamps: seq<seq<Stamp>>)
    requires forall q :: 0 <= q < |stamps| ==> Increasing(stamps[q])
    ensures !Readable(r, stamps)
       <==> !(|stamps| < r.queue) && (r.queue < |stamps| ==>
                stamps[r.queue] == [] || stamps[r.queue][0].key > Before(r.seqn))
  {
    if r.queue < |stamps| {
      SentAtNone(stamps[r.queue], r.seqn);
    }
  }

  /** The main loop of `statistics::process`.  It goes through all records, or up to
      the first that takes it out of its tables. */
  method Analyse(data: seq<Record>, stamps: seq<seq<Stamp>>)
    returns (stats: array<PerQueue>, gaps: seq<int>, trips: seq<int>, first: nat, last: nat, reached: nat)
    requires 0 < |data| < NOT_SET
    requires forall q :: 0 <= q < |stamps| ==> Increasing(stamps[q])
    ensures reached <= |data| && forall i :: 0 <= i < reached ==> Readable(data[i], stamps)
    ensures reached < |data| ==> !Readable(data[reached], stamps)
    ensures fresh(stats) && Analysed(data, stamps, reached, Tally(stats[..], gaps, trips))
    ensures Earliest(data, |stamps|, reached, first) && Latest(data, |stamps|, reached, last)
  {
    hide Analysed, Earliest, Latest, Usable, Counted, SentAt;
    stats := NewStats(|stamps|);
    gaps, trips := [], [];
    first, last, reached := 0, |data| - 1, 0;
    NothingFound(data, stamps, stats[..]);
    while reached < |data|
      invariant reached <= |data| && forall i :: 0 <= i < reached ==> Readable(data[i], stamps)
      invariant first < |data| && last < |data|
      invariant Found(data, stamps, reached, Tally(stats[..], gaps, trips), first, last)
    {
      if !Readable(data[reached], stamps) {
        return;
      }
      ghost var t := Tally(stats[..], gaps, trips);
      if |stamps| < data[reached].queue {
        FoundSkipped(data, stamps, reached, t, first, last);
      } else {
        FoundCounted(data, stamps, reached, t, first, last);
        gaps, trips := Visit(data, stamps, reached, stats, gaps, trips);
        first, last := Earlier(data, first, reached), Later(data, last, reached);
      }
      reached := reached + 1;
    }
  }

  /** Lines 104-107. */
  function Earlier(data: seq<Record>, first: nat, i: nat): nat
    requires first < |data| && i < |data|
  {
    if data[first].received > data[i].received then i else first
  }

  function Later(data: seq<Record>, last: nat, i: nat): nat
    requires last < |data| && i < |data|
  {
    if data[last].received < data[i].received then i else last
  }

  /** Record j takes part in the search for the earliest or latest packet: the one
      it starts from, and the known ones among the first i. */
  predicate Considered(data: seq<Record>, queues: nat, i: nat, start: nat, j: nat) {
    j < |data| && (j == start || (j < i && Known(data[j], queues)))
  }

  /** `first` is the earliest packet, the first one of several. */
  ghost predicate Earliest(data: seq<Record>, queues: nat, i: nat, first: nat) {
    && Considered(data, queues, i, 0, first)
    && forall j: nat :: Considered(data, queues, i, 0, j) ==>
         && data[first].received <= data[j].received
         && (data[first].received == data[j].received ==> first <= j)
  }

  /** `last` is the latest packet: of several the last record, else the first. */
  ghost predicate Latest(data: seq<Record>, queues: nat, i: nat, last: nat)
    requires data != []
  {
    && Considered(data, queues, i, |data| - 1, last)
    && (data[last].received == data[|data| - 1].received ==> last == |data| - 1)
    && forall j: nat :: Considered(data, queues, i, |data| - 1, j) ==>
         && data[j].received <= data[last].received
         && (data[j].received == data[last].received && last != |data| - 1 ==> last <= j)
  }

  lemma SpanStep(data: seq<Record>, queues: nat, i: nat, first: nat, last: nat)
    requires i < |data| && Known(data[i], queues)
    requires Earliest(data, queues, i, first) && Latest(data, queues, i, last)
    ensures Earliest(data, queues, i + 1, Earlier(data, first, i))
    ensures Latest(data, queues, i + 1, Later(data, last, i))
  {
    forall j: nat, start: nat
      ensures Considered(data, queues, i + 1, start, j) <==> Considered(data, queues, i, start, j) || j == i
    {
    }
    assert Considered(data, queues, i, |data| - 1, |data| - 1);
  }

  lemma SpanSkip(data: seq<Record>, queues: nat, i: nat, first: nat, last: nat)
    requires i < |data| && !Known(data[i], queues)
    requires Earliest(data, queues, i, first) && Latest(data, queues, i, last)
    ensures Earliest(data, queues, i + 1, first) && Latest(data, queues, i + 1, last)
  {
    forall j: nat, start: nat
      ensures Considered(data, queues, i + 1, start, j) <==> Considered(data, queues, i, start, j)
    {
    }
  }

  // ---- what the counters mean ---------------------------------------------------

  lemma {:induction false} MaxIsLargest(s: seq<nat>)
    requires s != []
    ensures Max(s) in s && forall i :: 0 <= i < |s| ==> s[i] <= Max(s)
  {
    if |s| > 1 {
      MaxIsLargest(s[..|s| - 1]);
    }
  }

  /** The numbers from the first to the highest received. */
  function Span(s: seq<nat>): (r: set<nat>)
    requires s != []
    ensures |r| == Max(s) - s[0] + 1
    ensures forall v :: v in r <==> s[0] <= v <= Max(s)
  {
    MaxIsLargest(s);
    Range(s[0], Max(s) - s[0] + 1)
  }

  /** Those that never arrived. */
  function Lost(s: seq<nat>): set<nat>
    requires s != []
  {
    Span(s) - Elements(s)
  }

  /** No number below the first one received. */
  predicate NoneBelowFirst(s: seq<nat>)
    requires s != []
  {
    forall i :: 0 <= i < |s| ==> s[0] <= s[i]
  }

  /** What came more often than once, or below the first number. */
  function Excess(s: seq<nat>): int
    requires s != []
  {
    |s| - |Elements(s)| + |Elements(s) - Span(s)|
  }

  /** The balance counts the lost numbers less what came in excess. */
  lemma BalanceIsLostLessExcess(s: seq<nat>)
    requires s != []
    ensures Balance(s) == |Lost(s)| - Excess(s)
    ensures 0 <= Excess(s) < |s|
    ensures Excess(s) == 0 <==> Distinct(s) && NoneBelowFirst(s)
  {
    ElementsSize(s);
    SetBalance(Elements(s), Span(s));
    FirstIsInside(s);
    NothingBelow(s);
    EmptyDifference(Elements(s), Span(s));
  }

  lemma SetBalance(a: set<nat>, b: set<nat>)
    ensures |b - a| - |a - b| == |b| - |a|
  {
    assert a == a * b + (a - b);
    assert b == a * b + (b - a);
  }

  lemma EmptyDifference(a: set<nat>, b: set<nat>)
    ensures |a - b| == 0 <==> a <= b
  {
    if a <= b {
      assert a - b == {};
    } else {
      var v :| v in a && v !in b;
      assert v in a - b;
    }
  }

  lemma FirstIsInside(s: seq<nat>)
    requires s != []
    ensures |Elements(s) - Span(s)| < |Elements(s)|
  {
    MaxIsLargest(s);
    var came, span := Elements(s), Span(s);
    assert s[0] in came * span;
    assert came == came * span + (came - span);
  }

  lemma NothingBelow(s: seq<nat>)
    requires s != []
    ensures Elements(s) <= Span(s) <==> NoneBelowFirst(s)
  {
    MaxIsLargest(s);
    var came, span := Elements(s), Span(s);
    if NoneBelowFirst(s) {
      forall v | v in came
        ensures v in span
      {
        var i :| 0 <= i < |s| && s[i] == v;
      }
    } else {
      var i :| 0 <= i < |s| && s[i] < s[0];
      assert s[i] in came && s[i] !in span;
    }
  }

  /** The counter is the number of lost packets if and only if the queue's
      numbers are distinct and none lies below the first. */
  lemma MissingIsLostExactly(data: seq<Record>, p: PerQueue, s: seq<nat>)
    requires s != [] && |s| < NOT_SET && Max(s) < TWO_28 && Tracks(data, p, s)
    ensures p.missing == |Lost(s)| <==> Distinct(s) && NoneBelowFirst(s)
  {
    BalanceIsLostLessExcess(s);
    LostIsSmall(s);
    WrappedDifference(p.missing, Balance(s), |Lost(s)|, Excess(s));
  }

  lemma LostIsSmall(s: seq<nat>)
    requires s != []
    ensures |Lost(s)| <= Max(s) + 1
  {
    var lost, span := Lost(s), Span(s);
    assert span == lost + (span - lost);
  }

  lemma WrappedDifference(counter: U64, balance: int, lost: nat, excess: nat)
    requires counter == Wrap(balance) && balance == lost - excess
    requires lost < TWO_64 && excess < TWO_64
    ensures counter == lost <==> excess == 0
  {
    if excess <= lost {
      ModUnique(lost - excess, TWO_64, 0, lost - excess);
    } else {
      ModUnique(lost - excess, TWO_64, -1, TWO_64 + lost - excess);
    }
  }

  /** Under that condition the counter never runs below zero: it is decremented
      only when something is missing. */
  lemma NeverUnderflows(s: seq<nat>, k: nat)
    requires 0 < k <= |s| && Distinct(s) && NoneBelowFirst(s)
    ensures Balance(s[..k]) >= 0
    ensures k < |s| && s[k] <= Max(s[..k]) ==> Balance(s[..k]) >= 1
  {
    var t := s[..k];
    assert Distinct(t) && NoneBelowFirst(t);
    BalanceIsLostLessExcess(t);
    if k < |s| && s[k] <= Max(t) {
      assert s[k] !in t;
      assert s[k] in Lost(t);
    }
  }

  /** Without it the counter does run below zero: one repeated packet. */
  lemma RepeatedPacketUnderflows()
    ensures Balance([7, 7]) == -1 && Wrap(Balance([7, 7])) == NOT_SET
  {
    assert [7, 7][..1] == [7];
  }

  /** The positions of packets that arrive after a larger one. */
  ghost function BehindLarger(s: seq<nat>): set<nat> {
    set j: nat | j < |s| && exists i :: 0 <= i < j && s[i] > s[j]
  }

  lemma BehindOneMore(s: seq<nat>)
    requires |s| > 1 && Distinct(s)
    ensures var k := |s| - 1;
            BehindLarger(s) == BehindLarger(s[..k]) + if s[k] <= Max(s[..k]) then {k} else {}
  {
    var k := |s| - 1;
    var front := s[..k];
    MaxIsLargest(front);
    var top :| 0 <= top < k && front[top] == Max(front);
    assert s[top] == Max(front) != s[k];
    forall j: nat | j < k
      ensures j in BehindLarger(s) <==> j in BehindLarger(front)
    {
      assert forall i :: 0 <= i < j ==> s[i] == front[i];
      assert s[j] == front[j];
    }
    assert k in BehindLarger(s) <==> s[k] <= Max(front) by {
      if s[k] <= Max(front) {
        assert s[top] > s[k];
      } else {
        assert forall i :: 0 <= i < k ==> s[i] == front[i] <= Max(front);
      }
    }
  }

  /** For distinct numbers the late packets are those behind a larger one. */
  lemma {:induction false} LateIsBehindLarger(s: seq<nat>)
    requires Distinct(s)
    ensures LateCount(s) == |BehindLarger(s)|
  {
    if |s| > 1 {
      LateIsBehindLarger(s[..|s| - 1]);
      BehindOneMore(s);
      assert |s| - 1 !in BehindLarger(s[..|s| - 1]);
    } else {
      assert BehindLarger(s) == {};
    }
  }

  // ---- packet-to-packet samples -------------------------------------------------

  function KnownCount(data: seq<Record>, queues: nat, k: nat): nat
    requires k <= |data|
  {
    if k == 0 then 0 else KnownCount(data, queues, k - 1) + if Known(data[k - 1], queues) then 1 else 0
  }

  /** The queues seen among the first k records. */
  function SeenQueues(data: seq<Record>, queues: nat, k: nat): set<nat>
    requires k <= |data|
  {
    if k == 0 then {}
    else SeenQueues(data, queues, k - 1) + if Known(data[k - 1], queues) then {data[k - 1].queue} else {}
  }

  lemma {:induction false} SeenHasArrivals(data: seq<Record>, queues: nat, k: nat, q: nat)
    requires k <= |data| && q < queues
    ensures q in SeenQueues(data, queues, k) <==> Arrivals(data, q, k) != []
  {
    if k > 0 {
      SeenHasArrivals(data, queues, k - 1, q);
    }
  }

  lemma AddSeen(seen: set<nat>, q: nat)
    ensures |seen + {q}| == |seen| + if q in seen then 0 else 1
  {
    if q in seen {
      assert seen + {q} == seen;
    }
  }

  lemma GapsOneMore(data: seq<Record>, queues: nat, i: nat)
    requires i < |data|
    ensures |Gaps(data, queues, i + 1)|
         == |Gaps(data, queues, i)| + if Known(data[i], queues) && Arrivals(data, data[i].queue, i) != [] then 1 else 0
  {
    assert Arrivals(data, data[i].queue, 0) == [];
  }

  lemma SeenOneMore(data: seq<Record>, queues: nat, i: nat)
    requires i < |data|
    ensures |SeenQueues(data, queues, i + 1)|
         == |SeenQueues(data, queues, i)|
          + if Known(data[i], queues) && Arrivals(data, data[i].queue, i) == [] then 1 else 0
  {
    var seen := SeenQueues(data, queues, i);
    AddSeen(seen, data[i].queue);
    if Known(data[i], queues) {
      SeenHasArrivals(data, queues, i, data[i].queue);
    } else {
      assert seen + {} == seen;
    }
  }

  /** There are as many packet-to-packet samples as packets, less one for each queue seen. */
  lemma {:induction false} GapCount(data: seq<Record>, queues: nat, k: nat)
    requires k <= |data|
    ensures |Gaps(data, queues, k)| == KnownCount(data, queues, k) - |SeenQueues(data, queues, k)|
  {
    if k > 0 {
      GapCount(data, queues, k - 1);
      GapsOneMore(data, queues, k - 1);
      SeenOneMore(data, queues, k - 1);
    }
  }

  function Total(s: seq<int>): int {
    if |s| == 0 then 0 else Total(s[..|s| - 1]) + s[|s| - 1]
  }

  lemma TotalOneMore(s: seq<int>, x: int)
    ensures Total(s + [x]) == Total(s) + x
  {
    assert (s + [x])[..|s|] == s;
  }

  /** Record i yields no packet-to-packet sample: its queue is unknown, or no record
      before it is of the same queue. */
  ghost predicate NoSample(data: seq<Record>, queues: nat, i: nat)
    requires i < |data|
  {
    data[i].queue >= queues || forall j :: 0 <= j < i ==> data[j].queue != data[i].queue
  }

  /** The time between neighbours that the samples leave out. */
  ghost function Unsampled(data: seq<Record>, queues: nat, k: nat): int
    requires k <= |data|
  {
    if k <= 1 then 0
    else
      var i := k - 1;
      Unsampled(data, queues, i) + if NoSample(data, queues, i) then data[i].received - data[i - 1].received else 0
  }

  lemma {:induction false} NoArrivals(data: seq<Record>, q: nat, k: nat)
    requires k <= |data|
    ensures Arrivals(data, q, k) == [] <==> forall j :: 0 <= j < k ==> data[j].queue != q
  {
    if k > 0 {
      NoArrivals(data, q, k - 1);
    }
  }

  /** The samples and what they leave out add up to the time from the first record to
      the last. */
  lemma {:induction false} GapsAddUp(data: seq<Record>, queues: nat, k: nat)
    requires 0 < k <= |data|
    ensures Total(Gaps(data, queues, k)) + Unsampled(data, queues, k) == data[k - 1].received - data[0].received
  {
    hide Gaps, NoSample;
    if k == 1 {
      FirstHasNoGap(data, queues);
    } else {
      GapsAddUp(data, queues, k - 1);
      OneGapMore(data, queues, k - 1);
    }
  }

  lemma FirstHasNoGap(data: seq<Record>, queues: nat)
    requires data != []
    ensures Gaps(data, queues, 1) == []
  {
    assert Gaps(data, queues, 0) == [];
  }

  lemma OneGapMore(data: seq<Record>, queues: nat, i: nat)
    requires 0 < i < |data|
    ensures Total(Gaps(data, queues, i + 1))
         == Total(Gaps(data, queues, i))
          + if NoSample(data, queues, i) then 0 else data[i].received - data[i - 1].received
  {
    hide Total, Arrivals;
    var before, gap := Gaps(data, queues, i), data[i].received - data[i - 1].received;
    NoArrivals(data, data[i].queue, i);
    TotalOneMore(before, gap);
    assert Gaps(data, queues, i + 1) == if NoSample(data, queues, i) then before else before + [gap];
  }

  /** The samples of a table of one queue: the time between every two neighbours, which
      add up to the time from the first record to the last. */
  lemma GapsOfOneQueue(data: seq<Record>, q: nat, queues: nat, k: nat)
    requires 0 < k <= |data| && q < queues && forall i :: 0 <= i < k ==> data[i].queue == q
    ensures |Gaps(data, queues, k)| == k - 1
    ensures forall i :: 0 <= i < k - 1 ==> Gaps(data, queues, k)[i] == data[i + 1].received - data[i].received
    ensures Total(Gaps(data, queues, k)) == data[k - 1].received - data[0].received
  {
    NothingUnsampled(data, q, queues, k);
    GapsAddUp(data, queues, k);
    NeighbourGaps(data, q, queues, k);
  }

  lemma {:induction false} NeighbourGaps(data: seq<Record>, q: nat, queues: nat, k: nat)
    requires 0 < k <= |data| && q < queues && forall i :: 0 <= i < k ==> data[i].queue == q
    ensures |Gaps(data, queues, k)| == k - 1
    ensures forall i :: 0 <= i < k - 1 ==> Gaps(data, queues, k)[i] == data[i + 1].received - data[i].received
  {
    NoArrivals(data, q, k - 1);
    if k > 1 {
      NeighbourGaps(data, q, queues, k - 1);
      assert data[0].queue == q;
    }
  }

  lemma {:induction false} NothingUnsampled(data: seq<Record>, q: nat, queues: nat, k: nat)
    requires k <= |data| && q < queues && forall i :: 0 <= i < k ==> data[i].queue == q
    ensures Unsampled(data, queues, k) == 0
  {
    if k > 1 {
      assert data[0].queue == q;
      NothingUnsampled(data, q, queues, k - 1);
    }
  }
}
