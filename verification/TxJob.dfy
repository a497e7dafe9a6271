/** The sender of the sockperf client: bursts, their packet numbers and their
    timestamps (sockperf_cli/utils.cpp:238-294). */
module TxJob {
  import Jobs
  import opened Bits
  import opened Bytes
  import opened Collections
  import opened TxTimestamps
  import opened Wire

  function ExtraPackets(burstSize: nat): nat {
    5 * burstSize
  }

  /** One turn of the send loop: the pool is empty, or a burst is prepared and
      tried at the given times, of which the last is when the NIC takes it whole. */
  datatype Round = NoBuffers | Burst(attempts: seq<U64>) {
    predicate Valid() {
      Burst? ==> |attempts| > 0
    }
  }

  /** The time of the last attempt of each burst among the first k rounds. */
  function LastAttempts(rounds: seq<Round>, k: nat): seq<U64>
    requires k <= |rounds| && forall i :: 0 <= i < |rounds| ==> rounds[i].Valid()
  {
    if k == 0 then []
    else LastAttempts(rounds, k - 1) + LastAttempt(rounds[k - 1])
  }

  function LastAttempt(round: Round): seq<U64>
    requires round.Valid()
  {
    if round.Burst? then [round.attempts[|round.attempts| - 1]] else []
  }

  /** After m bursts of size b: slot k has key k * b + 1 and the last attempt's time. */
  ghost predicate Stamped(stamps: seq<Stamp>, b: nat, times: seq<U64>) {
    |stamps| == |times| && forall k :: 0 <= k < |times| ==> stamps[k] == Stamp(k * b + 1, times[k])
  }

  /** Packet `seqn` was carried by burst k. */
  ghost predicate CarriedBy(seqn: nat, b: nat, k: nat) {
    k * b + 2 <= seqn <= k * b + b + 1
  }

  lemma MulOrder(i: nat, j: nat, b: nat)
    requires i < j
    ensures i * b + b <= j * b
  {
    MulAtLeast(j - i, b);
    assert (j - i) * b == j * b - i * b;
  }

  lemma OneMoreBurst(m: nat, b: nat)
    ensures (m + 1) * b == m * b + b
  {
  }

  lemma StampedIncreasing(stamps: seq<Stamp>, b: nat, times: seq<U64>)
    requires Stamped(stamps, b, times) && b >= 1
    ensures Increasing(stamps)
  {
    forall i, j | 0 <= i < j < |stamps|
      ensures stamps[i].key < stamps[j].key
    {
      MulOrder(i, j, b);
    }
  }

  /** The next slot comes behind all others and keeps the table in form. */
  lemma StampedOneMore(stamps: seq<Stamp>, b: nat, times: seq<U64>, time: U64)
    requires Stamped(stamps, b, times) && b >= 1
    ensures |stamps| == |times| && (|stamps| > 0 ==> stamps[|stamps| - 1].key < |times| * b + 1)
    ensures Stamped(stamps + [Stamp(|times| * b + 1, time)], b, times + [time])
  {
    if |times| > 0 {
      MulOrder(|times| - 1, |times|, b);
    }
  }

  /** The search stops at the slot of the burst that carried the packet, and never
      falls off the front. */
  lemma LookupFindsSlot(stamps: seq<Stamp>, b: nat, times: seq<U64>, seqn: nat, k: nat)
    requires Stamped(stamps, b, times) && b >= 1 && k < |times| && CarriedBy(seqn, b, k)
    ensures SentAt(stamps, seqn) == Some(times[k])
  {
    forall i | 0 <= i <= k
      ensures stamps[i].key <= Before(seqn)
    {
      if i < k {
        MulOrder(i, k, b);
      }
    }
    forall i | k < i < |stamps|
      ensures stamps[i].key > Before(seqn)
    {
      MulOrder(k, i, b);
    }
    SentAtIsUpperBound(stamps, seqn, k + 1);
  }

  /** The bursts among the first r rounds. */
  function BurstsBefore(rounds: seq<Round>, r: nat): nat
    requires r <= |rounds|
  {
    if r == 0 then 0 else BurstsBefore(rounds, r - 1) + if rounds[r - 1].Burst? then 1 else 0
  }

  /** Entry k is the last attempt of the round that was burst number k. */
  lemma {:induction false} AttemptOfBurst(rounds: seq<Round>, turns: nat, k: nat) returns (r: nat)
    requires turns <= |rounds| && forall i :: 0 <= i < |rounds| ==> rounds[i].Valid()
    requires k < |LastAttempts(rounds, turns)|
    ensures r < turns && rounds[r].Burst? && BurstsBefore(rounds, r) == k
    ensures LastAttempts(rounds, turns)[k] == rounds[r].attempts[|rounds[r].attempts| - 1]
  {
    OneSlotPerBurst(rounds, turns - 1);
    if k < |LastAttempts(rounds, turns - 1)| {
      r := AttemptOfBurst(rounds, turns - 1, k);
    } else {
      r := turns - 1;
    }
  }

  lemma {:induction false} OneSlotPerBurst(rounds: seq<Round>, k: nat)
    requires k <= |rounds| && forall i :: 0 <= i < |rounds| ==> rounds[i].Valid()
    ensures |LastAttempts(rounds, k)| == BurstsBefore(rounds, k)
  {
    if k > 0 {
      OneSlotPerBurst(rounds, k - 1);
    }
  }

  /** Every packet that was sent finds the time at which the round that carried it
      was tried for the last time. */
  lemma LookupFindsBurst(stamps: seq<Stamp>, b: nat, rounds: seq<Round>, turns: nat, seqn: nat, k: nat) returns (r: nat)
    requires turns <= |rounds| && forall i :: 0 <= i < |rounds| ==> rounds[i].Valid()
    requires Stamped(stamps, b, LastAttempts(rounds, turns)) && b >= 1
    requires k < |LastAttempts(rounds, turns)| && CarriedBy(seqn, b, k)
    ensures r < turns && rounds[r].Burst? && BurstsBefore(rounds, r) == k
    ensures SentAt(stamps, seqn) == Some(rounds[r].attempts[|rounds[r].attempts| - 1])
  {
    LookupFindsSlot(stamps, b, LastAttempts(rounds, turns), seqn, k);
    r := AttemptOfBurst(rounds, turns, k);
  }

  /** Each packet number between the first and the last sent belongs to one burst. */
  lemma EveryPacketCarried(seqn: nat, b: nat, m: nat) returns (k: nat)
    requires b >= 1 && 2 <= seqn <= m * b + 1
    ensures k < m && CarriedBy(seqn, b, k)
  {
    k := (seqn - 2) / b;
    assert seqn - 2 == k * b + (seqn - 2) % b;
    if k >= m {
      if k > m { MulOrder(m, k, b); }
      assert false;
    }
  }

  /** The payload is the Ping with that number. */
  ghost predicate IsPing(payload: seq<Byte>, queue: Byte, seqn: nat) {
    && |payload| >= SEQN_SIZE + TYPE_SIZE
    && Seqn(payload) == MakeSeqn(queue, seqn) && MessageType(payload) == PING
  }

  /** In bytes: the number, most significant byte first, and the type 3. */
  lemma PingInBytes(payload: seq<Byte>, queue: Byte, seqn: nat)
    ensures IsPing(payload, queue, seqn)
       <==> |payload| >= 10 && FromBigEndian(payload[..8]) == MakeSeqn(queue, seqn) && payload[8..10] == [0, 3]
  {
    if |payload| >= 10 {
      TypeInBytes(payload);
      assert payload[8..10] == [payload[8], payload[9]];
    }
  }

  /** The payloads are the Pings 2 .. last of a queue. */
  ghost predicate Numbered(wire: seq<seq<Byte>>, queue: Byte, last: nat) {
    |wire| == last - 1 && forall i :: 0 <= i < |wire| ==> IsPing(wire[i], queue, i + 2)
  }

  class Sender {
    const queue: Byte
    const burstSize: nat
    const packets2send: nat
    const timestamps: Timestamps
    const payload: array<Byte>
    var wire: seq<seq<Byte>>

    /** The constructor sizes the timestamp table for a full run. */
    constructor (queue: Byte, burst: nat, packets: nat, payloadSize: nat)
      requires payloadSize >= SEQN_SIZE + TYPE_SIZE
      ensures this.queue == queue && burstSize == (if burst == 0 then 32 else burst)
      ensures packets2send == packets + 5 * burstSize
      ensures fresh(timestamps) && fresh(timestamps.memory) && timestamps.Valid() && timestamps.next == 0
      ensures timestamps.memory.Length == packets + 6 * burstSize
      ensures wire == [] && fresh(payload) && payload.Length == payloadSize
      ensures Sent([])
    {
      this.queue := queue;
      var b := if burst == 0 then 32 else burst;
      burstSize := b;
      packets2send := packets + ExtraPackets(b);
      var table := new Timestamps(packets + b + ExtraPackets(b));
      timestamps := table;
      payload := new Byte[payloadSize];
      wire := [];
    }

    /** m bursts went out. */
    ghost predicate Sent(times: seq<U64>)
      reads this, timestamps, timestamps.memory
    {
      && burstSize >= 1 && timestamps.Valid() && payload.Length >= SEQN_SIZE + TYPE_SIZE
      && timestamps.memory.Length == packets2send + burstSize
      && timestamps.next == |times|
      && Stamped(timestamps.memory[..timestamps.next], burstSize, times)
      && Numbered(wire, queue, |times| * burstSize + 1)
    }

    /** A burst is tried until the NIC takes it; its slot keeps the last time. */
    method Try(at: nat, attempts: seq<U64>)
      requires timestamps.Valid() && at < timestamps.next && |attempts| > 0
      modifies timestamps.memory
      ensures timestamps.Valid()
      ensures timestamps.memory[..timestamps.next]
           == old(timestamps.memory[..timestamps.next])
                [at := old(timestamps.memory[at]).(time := attempts[|attempts| - 1])]
    {
      ghost var before := timestamps.memory[..timestamps.next];
      for i := 0 to |attempts|
        invariant timestamps.Valid()
        invariant timestamps.memory[..timestamps.next]
               == if i == 0 then before else before[at := before[at].(time := attempts[i - 1])]
      {
        assert timestamps.memory[at] == timestamps.memory[..timestamps.next][at];
        timestamps.Write(at, attempts[i]);
      }
    }

    /** The buffers of a burst are numbered on from seqn. */
    method Prepare(seqn: nat) returns (seqn': nat)
      requires Numbered(wire, queue, seqn) && seqn + burstSize < TWO_64
      requires payload.Length >= SEQN_SIZE + TYPE_SIZE
      modifies this`wire, payload
      ensures seqn' == seqn + burstSize && Numbered(wire, queue, seqn')
    {
      seqn' := seqn;
      for i := 0 to burstSize
        invariant seqn' == seqn + i && Numbered(wire, queue, seqn')
      {
        seqn' := seqn' + 1;
        PreparePacket(queue, seqn', PING, payload);
        wire := wire + [payload[..]];
      }
    }

    /** Prepares and sends one burst. */
    method SendBurst(seqn: nat, attempts: seq<U64>, ghost times: seq<U64>) returns (seqn': nat)
      requires Sent(times) && seqn == |times| * burstSize + 1 && seqn <= packets2send
      requires |attempts| > 0 && packets2send + burstSize < TWO_64
      modifies this`wire, payload, timestamps`next, timestamps.memory
      ensures seqn' == seqn + burstSize
      ensures Sent(times + [attempts[|attempts| - 1]])
    {
      hide Numbered, Stamped;
      seqn' := Prepare(seqn);
      FewerBurstsThanPackets(|times|);
      ghost var stamps := timestamps.memory[..timestamps.next];
      StampedOneMore(stamps, burstSize, times, attempts[|attempts| - 1]);
      assert |times| > 0 ==> timestamps.memory[timestamps.next - 1] == stamps[|times| - 1];
      var at := timestamps.Slot(seqn' - burstSize);
      Try(at, attempts);
      assert timestamps.memory[..timestamps.next]
          == stamps + [Stamp(seqn, attempts[|attempts| - 1])];
      OneMoreBurst(|times|, burstSize);
    }

    /** One turn of the send loop. */
    method Turn(round: Round, seqn: nat, ghost times: seq<U64>) returns (seqn': nat, ghost times': seq<U64>)
      requires round.Valid() && Sent(times) && seqn == |times| * burstSize + 1 && seqn <= packets2send
      requires packets2send + burstSize < TWO_64
      modifies this`wire, payload, timestamps`next, timestamps.memory
      ensures Sent(times') && seqn' == |times'| * burstSize + 1
      ensures times' == times + LastAttempt(round)
      ensures times' == times || (|times'| - 1) * burstSize < packets2send
    {
      seqn', times' := seqn, times;
      if round.Burst? {
        seqn' := SendBurst(seqn, round.attempts, times);
        times' := times + [round.attempts[|round.attempts| - 1]];
        OneMoreBurst(|times|, burstSize);
      }
    }

    lemma FewerBurstsThanPackets(m: nat)
      requires burstSize >= 1 && m * burstSize + 1 <= packets2send
      ensures m < packets2send
    {
      assert m * burstSize >= m;
    }

    /** `tx_job::process`, with a NIC that takes each burst whole or not at all.
        Slot keys strictly increase, the table never overflows, each slot holds the
        last attempt of its burst, and packets 2 .. m * burst_size + 1 went out in m
        bursts.  No state means that the rounds observed end before the job does. */
    method Process(rounds: seq<Round>) returns (state: Option<Jobs.JobState>, turns: nat, ghost times: seq<U64>)
      requires Sent([]) && packets2send + burstSize < TWO_64
      requires forall i :: 0 <= i < |rounds| ==> rounds[i].Valid()
      modifies this`wire, payload, timestamps`next, timestamps.memory
      ensures Sent(times)
      ensures turns <= |rounds| && times == LastAttempts(rounds, turns)
      ensures state == if |times| * burstSize >= packets2send then Some(Jobs.Done) else None
      ensures state == None ==> turns == |rounds|
      ensures |times| > 0 ==> (|times| - 1) * burstSize < packets2send
    {
      hide Sent;
      var seqn := 1;
      turns, times := 0, [];
      while seqn < packets2send + 1 && turns < |rounds|
        invariant turns <= |rounds| && Sent(times) && seqn == |times| * burstSize + 1
        invariant times == LastAttempts(rounds, turns)
        invariant |times| > 0 ==> (|times| - 1) * burstSize < packets2send
        decreases |rounds| - turns
      {
        seqn, times := Turn(rounds[turns], seqn, times);
        turns := turns + 1;
      }
      state := if seqn < packets2send + 1 then None else Some(Jobs.Done);
    }
  }

  // ---- a whole run -----------------------------------------------------------------

  /** The bursts of a run: those that hold the packets asked for, and five more. */
  function BurstsNeeded(packets: nat, b: nat): nat
    requires b >= 1
  {
    (packets + b - 1) / b + 5
  }

  lemma BurstsNeededExactly(packets: nat, b: nat, m: nat)
    requires b >= 1 && m * b >= packets + 5 * b && (m > 0 ==> (m - 1) * b < packets + 5 * b)
    ensures m == BurstsNeeded(packets, b)
  {
    assert 0 * b == 0;
    var x := packets + 5 * b - (m - 1) * b;
    assert (m - 1) * b + b == m * b;
    assert packets + b - 1 == (m - 5) * b + (x - 1) by {
      assert (m - 5) * b == (m - 1) * b - 4 * b;
    }
    ModUnique(packets + b - 1, b, m - 5, x - 1);
  }

  lemma {:induction false} BurstsGrow(rounds: seq<Round>, i: nat, j: nat)
    requires i <= j <= |rounds|
    ensures BurstsBefore(rounds, i) <= BurstsBefore(rounds, j)
  {
    if i < j {
      BurstsGrow(rounds, i, j - 1);
    }
  }

  /** A new sender and its run.  It is done exactly if buffers were found often enough,
      and has then put a fixed number of packets on the wire, all of them Pings. */
  method RunSender(queue: Byte, burst: nat, packets: nat, payloadSize: nat, rounds: seq<Round>)
    returns (sender: Sender, state: Option<Jobs.JobState>)
    requires payloadSize >= SEQN_SIZE + TYPE_SIZE && packets + 6 * (if burst == 0 then 32 else burst) < TWO_64
    requires forall i :: 0 <= i < |rounds| ==> rounds[i].Valid()
    ensures var b := if burst == 0 then 32 else burst;
            && (state == Some(Jobs.Done) <==> BurstsBefore(rounds, |rounds|) >= BurstsNeeded(packets, b))
            && (state == Some(Jobs.Done) ==> |sender.wire| == BurstsNeeded(packets, b) * b)
            && Numbered(sender.wire, queue, |sender.wire| + 1)
  {
    sender := new Sender(queue, burst, packets, payloadSize);
    var turns;
    ghost var times;
    state, turns, times := sender.Process(rounds);
    OneSlotPerBurst(rounds, turns);
    BurstsGrow(rounds, turns, |rounds|);
    var b := sender.burstSize;
    if state == Some(Jobs.Done) {
      BurstsNeededExactly(packets, b, |times|);
    } else if |times| >= BurstsNeeded(packets, b) {
      EnoughBursts(packets, b, |times|);
      assert false;
    }
  }

  lemma EnoughBursts(packets: nat, b: nat, m: nat)
    requires b >= 1 && m >= BurstsNeeded(packets, b)
    ensures m * b >= packets + 5 * b
  {
    var n := BurstsNeeded(packets, b);
    assert packets + b - 1 == (n - 5) * b + (packets + b - 1) % b;
    assert (n - 5) * b == n * b - 5 * b;
    assert m * b >= n * b by {
      assert (m - n) * b >= 0;
    }
  }
}
