/** Send timestamps: one slot per burst, written by the sender and found again
    by binary search (sockperf_cli/stats.cpp:19-31 and 99-101). */
module TxTimestamps {
  import opened Bits
  import opened Bytes
  import opened Collections

  /** The first packet number of a burst, less one, and when it was last tried. */
  datatype Stamp = Stamp(key: nat, time: U64)

  ghost predicate Increasing(stamps: seq<Stamp>) {
    forall i, j :: 0 <= i < j < |stamps| ==> stamps[i].key < stamps[j].key
  }

  class Timestamps {
    const memory: array<Stamp>
    var next: nat

    ghost predicate Valid()
      reads this, memory
    {
      next <= memory.Length && Increasing(memory[..next])
    }

    constructor (capacity: nat)
      ensures Valid() && fresh(memory) && memory.Length == capacity && next == 0
    {
      memory := new Stamp[capacity];
      next := 0;
    }

    /** `tx_timestamps::slot`: its two assertions are what it asks of callers. */
    method Slot(seqn: nat) returns (at: nat)
      requires Valid()
      requires next < memory.Length
      requires next == 0 || memory[next - 1].key < seqn
      modifies this`next, memory
      ensures Valid() && at == old(next) && next == at + 1
      ensures memory[..at] == old(memory[..at]) && memory[at].key == seqn
    {
      at := next;
      next := next + 1;
      memory[at] := memory[at].(key := seqn);
    }

    /** The sender overwrites the time of a slot at every attempt. */
    method Write(at: nat, time: U64)
      requires Valid() && at < next
      modifies memory
      ensures Valid()
      ensures memory[..next] == old(memory[..next])[at := old(memory[at]).(time := time)]
    {
      memory[at] := memory[at].(time := time);
    }
  }

  /** `std::ranges::upper_bound` on the keys. */
  method UpperBound(stamps: seq<Stamp>, value: nat) returns (at: nat)
    requires Increasing(stamps)
    ensures at <= |stamps|
    ensures forall i :: 0 <= i < at ==> stamps[i].key <= value
    ensures forall i :: at <= i < |stamps| ==> stamps[i].key > value
  {
    at := 0;
    var count := |stamps|;
    while count > 0
      invariant 0 <= count && at + count <= |stamps|
      invariant forall i :: 0 <= i < at ==> stamps[i].key <= value
      invariant forall i :: at + count <= i < |stamps| ==> stamps[i].key > value
    {
      var half := count / 2;
      if stamps[at + half].key <= value {
        at, count := at + half + 1, count - half - 1;
      } else {
        count := half;
      }
    }
  }

  /** `seqn - 1` in 64 bits. */
  function Before(seqn: nat): nat {
    if seqn == 0 then TWO_64 - 1 else seqn - 1
  }

  /** Reference: the last slot whose key lies before the packet. */
  function SentAt(stamps: seq<Stamp>, seqn: nat): Option<U64> {
    if |stamps| == 0 then None
    else if stamps[|stamps| - 1].key <= Before(seqn) then Some(stamps[|stamps| - 1].time)
    else SentAt(stamps[..|stamps| - 1], seqn)
  }

  lemma {:induction false} SentAtIsUpperBound(stamps: seq<Stamp>, seqn: nat, at: nat)
    requires at <= |stamps|
    requires forall i :: 0 <= i < at ==> stamps[i].key <= Before(seqn)
    requires forall i :: at <= i < |stamps| ==> stamps[i].key > Before(seqn)
    ensures SentAt(stamps, seqn) == if at == 0 then None else Some(stamps[at - 1].time)
  {
    if |stamps| > at {
      SentAtIsUpperBound(stamps[..|stamps| - 1], seqn, at);
    }
  }

  /** Packet number 0, one less than which is the largest key, is taken for one sent last. */
  lemma ZeroIsSentLast(stamps: seq<Stamp>)
    requires stamps != [] && stamps[|stamps| - 1].key < TWO_64
    ensures SentAt(stamps, 0) == Some(stamps[|stamps| - 1].time)
  {
  }

  /** The search falls off the front exactly if the first slot is not before the packet. */
  lemma {:induction false} SentAtNone(stamps: seq<Stamp>, seqn: nat)
    requires Increasing(stamps)
    ensures SentAt(stamps, seqn) == None <==> stamps == [] || stamps[0].key > Before(seqn)
  {
    if |stamps| > 1 {
      SentAtNone(stamps[..|stamps| - 1], seqn);
    }
  }

  /** The lookup of `statistics::process`: nothing exactly when the search would
      fall off the front. */
  method FindSendTime(stamps: seq<Stamp>, seqn: nat) returns (sent: Option<U64>)
    requires Increasing(stamps)
    ensures sent == SentAt(stamps, seqn)
    ensures sent.None? <==> stamps == [] || stamps[0].key > Before(seqn)
  {
    var ts := UpperBound(stamps, Before(seqn));
    SentAtIsUpperBound(stamps, seqn, ts);
    sent := if ts == 0 then None else Some(stamps[ts - 1].time);
  }
}
