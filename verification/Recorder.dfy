/** The receiving channel of the sockperf client and its record table
    (sockperf_cli/utils.cpp:327-370, sockperf_cli/stats.cpp:33-43). */
module Recorder {
  import opened Bits
  import opened Bytes
  import opened Collections
  import opened Frame
  import opened Wire
  import opened Numerics

  /** A packet as the channel sees it: the buffer, the NIC's timestamp if it set
      one, and the clock of the `enqueue` call that brought it. */
  datatype Arrival = Arrival(mbuf: Mbuf, hardware: Option<U64>, now: U64)

  datatype Info = Info(packed: nat, received: U64, enqueued: U64, size: nat)

  datatype WarmupInfo = WarmupInfo(packed: nat, received: U64, enqueued: U64)

  // ---- reading one packet -----------------------------------------------------

  function HeaderLen(m: Mbuf): nat {
    m.l2Len + m.l3Len + m.l4Len
  }

  /** The sockperf message, if the packet is long enough to hold its header. */
  function Message(m: Mbuf): Option<seq<Byte>> {
    if HeaderLen(m) + HEADER_SIZE <= m.dataLen <= |m.room| then Some(m.room[HeaderLen(m)..m.dataLen]) else None
  }

  predicate IsPingPong(m: Mbuf) {
    Message(m).Some? && (MessageType(Message(m).value) == PING || MessageType(Message(m).value) == PONG)
  }

  predicate IsWarmupMessage(a: Arrival) {
    IsPingPong(a.mbuf) && IsWarmup(Seqn(Message(a.mbuf).value))
  }

  /** What the table records. */
  predicate IsData(a: Arrival) {
    IsPingPong(a.mbuf) && !IsWarmup(Seqn(Message(a.mbuf).value))
  }

  function InfoOf(a: Arrival, hz: U64): Info
    requires IsData(a) && hz != 0
  {
    Info(Seqn(Message(a.mbuf).value),
         if a.hardware.Some? then TimestampFix(a.hardware.value, hz) else a.now,
         a.now, a.mbuf.dataLen)
  }

  function WarmupOf(a: Arrival): WarmupInfo
    requires IsWarmupMessage(a)
  {
    WarmupInfo(Seqn(Message(a.mbuf).value), if a.hardware.Some? then a.hardware.value else a.now, a.now)
  }

  /** What a record says about the data message it was made from: its number, the clock
      of the call that brought it, the NIC's timestamp in nanoseconds if it set one and
      that fits 64 bits, else the same clock, and the length of the frame. */
  ghost predicate Records(info: Info, a: Arrival, hz: U64)
    requires hz != 0
  {
    && IsData(a) && info.packed == Seqn(Message(a.mbuf).value)
    && info.enqueued == a.now && info.size == a.mbuf.dataLen
    && (a.hardware.None? ==> info.received == a.now)
    && (a.hardware.Some? && Scaled(a.hardware.value, 1_000_000_000, hz) < TWO_64 ==>
          info.received == Scaled(a.hardware.value, 1_000_000_000, hz))
  }

  lemma InfoRecords(a: Arrival, hz: U64)
    requires IsData(a) && hz != 0
    ensures Records(InfoOf(a, hz), a, hz)
  {
    if a.hardware.Some? {
      MulDivForms(a.hardware.value, 1_000_000_000, hz);
    }
  }

  /** What the note of a warmup message says: here the NIC's timestamp is left as it is. */
  ghost predicate Notes(w: WarmupInfo, a: Arrival) {
    && IsWarmupMessage(a) && w.packed == Seqn(Message(a.mbuf).value) && w.enqueued == a.now
    && w.received == match a.hardware case Some(stamp) => stamp case None => a.now
  }

  /** In bytes: a Ping or Pong has type 3 or 2 behind the number, and is a warmup
      message exactly if the first bit of the number is set. */
  lemma PingPongExactly(m: Mbuf)
    requires Message(m).Some?
    ensures var s := Message(m).value;
            && (IsPingPong(m) <==> s[8] == 0 && 2 <= s[9] <= 3)
            && (IsWarmup(Seqn(s)) <==> s[0] >= 128)
  {
    var s := Message(m).value;
    TypeInBytes(s);
    WarmupInBytes(s);
  }

  // ---- the record table ---------------------------------------------------------

  /** What the channel knows: how many slots were requested, the slots, the last
      warmup message, and whether it asked all jobs to stop. */
  datatype Book = Book(next: nat, table: seq<Info>, warmup: Option<WarmupInfo>, stop: bool)

  /** `statistics::slot`: past the end the last slot is used again. */
  function SlotFor(next: nat, size: nat): nat
    requires size > 0
  {
    if size > next then next else size - 1
  }

  /** One packet, given the quota. */
  function Note(b: Book, quota: nat, hz: U64, a: Arrival): Book
    requires hz != 0 && (b.table != [] || quota == 0)
    requires b.next <= quota
  {
    if IsWarmupMessage(a) then b.(warmup := Some(WarmupOf(a)))
    else if !IsData(a) then b
    else if b.next == quota then b.(stop := true)
    else b.(next := b.next + 1, table := b.table[SlotFor(b.next, |b.table|) := InfoOf(a, hz)])
  }

  function NoteAll(b: Book, quota: nat, hz: U64, stream: seq<Arrival>): (r: Book)
    requires hz != 0 && (b.table != [] || quota == 0)
    requires b.next <= quota
    ensures |r.table| == |b.table| && r.next <= quota
  {
    if |stream| == 0 then b
    else Note(NoteAll(b, quota, hz, stream[..|stream| - 1]), quota, hz, stream[|stream| - 1])
  }

  /** How the stream is cut into calls does not matter. */
  lemma {:induction false} NoteAllSplits(b: Book, quota: nat, hz: U64, s: seq<Arrival>, t: seq<Arrival>)
    requires hz != 0 && (b.table != [] || quota == 0) && b.next <= quota
    ensures NoteAll(b, quota, hz, s + t) == NoteAll(NoteAll(b, quota, hz, s), quota, hz, t)
  {
    if t == [] {
      assert s + t == s;
    } else {
      assert (s + t)[..|s + t| - 1] == s + t[..|t| - 1];
      NoteAllSplits(b, quota, hz, s, t[..|t| - 1]);
    }
  }

  // ---- what the table holds -------------------------------------------------------

  /** The non-warmup messages of the stream, in arrival order. */
  function DataOf(stream: seq<Arrival>, hz: U64): seq<Info>
    requires hz != 0
  {
    if |stream| == 0 then []
    else
      var a := stream[|stream| - 1];
      DataOf(stream[..|stream| - 1], hz) + if IsData(a) then [InfoOf(a, hz)] else []
  }

  function LastWarmup(stream: seq<Arrival>): Option<WarmupInfo> {
    if |stream| == 0 then None
    else
      var a := stream[|stream| - 1];
      if IsWarmupMessage(a) then Some(WarmupOf(a)) else LastWarmup(stream[..|stream| - 1])
  }

  /** The book after the data messages `data`: slots are taken up to the quota,
      all but the last keep the first messages, the last holds the newest taken,
      and stop is asked for once the quota is exceeded. */
  ghost predicate Holds(b: Book, quota: nat, data: seq<Info>) {
    && b.next == (if |data| <= quota then |data| else quota)
    && (b.stop <==> |data| > quota)
    && (forall i :: 0 <= i < b.next && i < |b.table| - 1 ==> b.table[i] == data[i])
    && (b.next >= |b.table| > 0 ==> b.table[|b.table| - 1] == data[b.next - 1])
  }

  const NOTHING: Option<WarmupInfo> := None

  lemma {:induction false} BookHolds(table: seq<Info>, quota: nat, hz: U64, stream: seq<Arrival>)
    requires hz != 0 && (table != [] || quota == 0)
    ensures var b := NoteAll(Book(0, table, NOTHING, false), quota, hz, stream);
            Holds(b, quota, DataOf(stream, hz)) && b.warmup == LastWarmup(stream)
  {
    hide Holds, Note, IsPingPong, IsData;
    if |stream| == 0 {
      NothingHeld(table, quota);
    } else {
      var n := |stream| - 1;
      BookHolds(table, quota, hz, stream[..n]);
      NoteHolds(NoteAll(Book(0, table, NOTHING, false), quota, hz, stream[..n]), quota, hz, stream[n],
                DataOf(stream[..n], hz));
    }
  }

  lemma NothingHeld(table: seq<Info>, quota: nat)
    ensures Holds(Book(0, table, NOTHING, false), quota, [])
  {
  }

  lemma NoteHolds(b: Book, quota: nat, hz: U64, a: Arrival, data: seq<Info>)
    requires hz != 0 && (b.table != [] || quota == 0) && b.next <= quota && Holds(b, quota, data)
    ensures Holds(Note(b, quota, hz, a), quota, data + if IsData(a) then [InfoOf(a, hz)] else [])
    ensures Note(b, quota, hz, a).warmup == if IsWarmupMessage(a) then Some(WarmupOf(a)) else b.warmup
  {
    hide InfoOf, WarmupOf, IsPingPong;
  }

  /** With as many slots as the quota nothing is overwritten: the table is the
      stream's data messages. */
  lemma NothingOverwritten(b: Book, quota: nat, data: seq<Info>)
    requires Holds(b, quota, data) && |b.table| >= quota
    ensures b.table[..b.next] == data[..b.next]
  {
    forall i | 0 <= i < b.next
      ensures b.table[i] == data[i]
    {
    }
  }

  /** The slots in use hold records of messages of the stream. */
  ghost predicate FromStream(b: Book, stream: seq<Arrival>, hz: U64)
    requires hz != 0
  {
    forall i :: 0 <= i < b.next && i < |b.table| ==> RecordsSome(b.table[i], stream, hz)
  }

  ghost predicate RecordsSome(info: Info, stream: seq<Arrival>, hz: U64)
    requires hz != 0
  {
    exists k :: 0 <= k < |stream| && Records(info, stream[k], hz)
  }

  /** The j-th data message of a stream. */
  lemma {:induction false} DataComesFrom(stream: seq<Arrival>, hz: U64, j: nat) returns (k: nat)
    requires hz != 0 && j < |DataOf(stream, hz)|
    ensures k < |stream| && IsData(stream[k]) && DataOf(stream, hz)[j] == InfoOf(stream[k], hz)
    ensures |DataOf(stream[..k], hz)| == j
  {
    var n := |stream| - 1;
    if j < |DataOf(stream[..n], hz)| {
      k := DataComesFrom(stream[..n], hz, j);
      assert stream[..n][..k] == stream[..k];
    } else {
      k := n;
    }
  }

  /** What is recorded is what came: every slot in use holds some data message. */
  lemma SlotsHoldData(b: Book, quota: nat, data: seq<Info>, i: nat) returns (j: nat)
    requires Holds(b, quota, data) && i < b.next && i < |b.table|
    ensures j < |data| && b.table[i] == data[j]
  {
    j := if i < |b.table| - 1 then i else b.next - 1;
  }

  lemma HoldsFromStream(b: Book, quota: nat, stream: seq<Arrival>, hz: U64)
    requires hz != 0 && Holds(b, quota, DataOf(stream, hz))
    ensures FromStream(b, stream, hz)
  {
    forall i | 0 <= i < b.next && i < |b.table|
      ensures RecordsSome(b.table[i], stream, hz)
    {
      var j := SlotsHoldData(b, quota, DataOf(stream, hz), i);
      var k := DataComesFrom(stream, hz, j);
      InfoRecords(stream[k], hz);
    }
  }

  /** The warmup message noted is the last one of the stream. */
  lemma {:induction false} LastWarmupIs(stream: seq<Arrival>) returns (k: nat)
    requires LastWarmup(stream).Some?
    ensures k < |stream| && Notes(LastWarmup(stream).value, stream[k])
    ensures forall i :: k < i < |stream| ==> !IsWarmupMessage(stream[i])
  {
    var n := |stream| - 1;
    if IsWarmupMessage(stream[n]) {
      k := n;
    } else {
      k := LastWarmupIs(stream[..n]);
    }
  }

  // ---- the channel -----------------------------------------------------------------

  class SockperfChannel {
    const quota: nat
    const hz: U64
    const table: array<Info>
    var next: nat
    var warmup: Option<WarmupInfo>
    var stop: bool

    ghost predicate Valid()
      reads this
    {
      hz != 0 && next <= quota
    }

    /** There is a slot to write to, or nothing will be written. */
    predicate Ready() {
      table.Length > 0 || quota == 0
    }

    ghost function Contents(): Book
      reads this, table
    {
      Book(next, table[..], warmup, stop)
    }

    /** The number of transmit queues is narrowed to eight bits on its way into
        the table size, so that a multiple of 256 leaves no slot to record into. */
    constructor (packets: nat, queues: nat, detailed: bool, hz: U64)
      requires hz != 0
      ensures Valid() && fresh(table) && this.hz == hz
      ensures quota == packets * queues
      ensures table.Length == (if detailed && quota != 0 then quota else 2) * (queues % 256)
      ensures Ready() <==> quota == 0 || queues % 256 != 0
      ensures Ready() && detailed && quota != 0 ==> table.Length >= quota
      ensures next == 0 && warmup == None && !stop
    {
      quota := packets * queues;
      this.hz := hz;
      var slots := if detailed && packets * queues != 0 then packets * queues else 2;
      SlotsArePositive(slots, queues % 256);
      table := new Info[slots * (queues % 256)];
      next, warmup, stop := 0, None, false;
    }

    static lemma SlotsArePositive(slots: nat, queues: nat)
      ensures slots * queues >= 0
      ensures queues > 0 ==> slots * queues >= slots
    {
    }

    /** One packet of an `enqueue` call. */
    method Take(a: Arrival)
      requires Valid() && Ready()
      modifies this`next, this`warmup, this`stop, table
      ensures Valid() && Contents() == Note(old(Contents()), quota, hz, a)
    {
      if IsWarmupMessage(a) {
        warmup := Some(WarmupOf(a));
      } else if IsData(a) {
        if next == quota {
          stop := true;
        } else {
          var slot := if table.Length > next then next else table.Length - 1;
          next := next + 1;
          table[slot] := InfoOf(a, hz);
        }
      }
    }

    /** `sockperf_channel::enqueue`; every buffer goes back to its pool. */
    method Enqueue(batch: seq<Arrival>) returns (recycle: nat, freed: seq<Mbuf>)
      requires Valid() && Ready()
      modifies this`next, this`warmup, this`stop, table
      ensures Valid() && Contents() == NoteAll(old(Contents()), quota, hz, batch)
      ensures recycle == 0
      ensures |freed| == |batch| && forall i :: 0 <= i < |batch| ==> freed[i] == batch[i].mbuf
    {
      for i := 0 to |batch|
        invariant Valid() && Contents() == NoteAll(old(Contents()), quota, hz, batch[..i])
      {
        assert batch[..i + 1][..i] == batch[..i];
        Take(batch[i]);
      }
      assert batch[..|batch|] == batch;
      freed := seq(|batch|, i requires 0 <= i < |batch| => batch[i].mbuf);
      recycle := 0;
    }

    /** A whole session, however it is cut into calls. */
    method Session(calls: seq<seq<Arrival>>)
      requires Valid() && Ready() && next == 0 && warmup == None && !stop
      modifies this`next, this`warmup, this`stop, table
      ensures Valid()
      ensures Holds(Contents(), quota, DataOf(Concat(calls), hz)) && warmup == LastWarmup(Concat(calls))
      ensures FromStream(Contents(), Concat(calls), hz)
    {
      ghost var start := Contents();
      for i := 0 to |calls|
        invariant Valid() && Contents() == NoteAll(start, quota, hz, Concat(calls[..i]))
      {
        assert calls[..i + 1][..i] == calls[..i];
        NoteAllSplits(start, quota, hz, Concat(calls[..i]), calls[i]);
        var _, freed := Enqueue(calls[i]);
      }
      assert calls[..|calls|] == calls;
      BookHolds(start.table, quota, hz, Concat(calls));
      HoldsFromStream(Contents(), quota, Concat(calls), hz);
    }
  }

  function Concat(calls: seq<seq<Arrival>>): seq<Arrival> {
    if |calls| == 0 then [] else Concat(calls[..|calls| - 1]) + calls[|calls| - 1]
  }
}
