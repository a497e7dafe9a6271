/** What two send loops keep when the NIC takes only part of a burst. */
module TxBuffers {
  import opened Bits
  import opened Collections

  // ---- the sockperf sender: sockperf_cli/utils.cpp:271-278 ------------------

  /** Where the content of front position p comes from after the copy loop. */
  function Source(p: int, sent: int, unsent: int): int
    requires unsent > 0
  {
    sent + (p - sent) % unsent
  }

  lemma SourceSteps(p: int, sent: int, unsent: int)
    requires unsent > 0
    ensures Source(p + unsent, sent, unsent) == Source(p, sent, unsent)
    ensures sent <= p < sent + unsent ==> Source(p, sent, unsent) == p
  {
    var q, r := (p - sent) / unsent, (p - sent) % unsent;
    assert p - sent == q * unsent + r;
    assert p + unsent - sent == (q + 1) * unsent + r;
    ModUnique(p + unsent - sent, unsent, q + 1, r);
    if sent <= p < sent + unsent {
      ModUnique(p - sent, unsent, 0, p - sent);
    }
  }

  /** s turned left by k. */
  function Rotated<T>(s: seq<T>, k: nat): seq<T>
    requires k <= |s|
  {
    s[k..] + s[..k]
  }

  lemma RotatedKeepsElements<T>(s: seq<T>, k: nat)
    requires k <= |s|
    ensures multiset(Rotated(s, k)) == multiset(s)
  {
    assert s == s[..k] + s[k..];
  }

  /** How far the unsent packets are turned. */
  function Turn(sent: nat, unsent: nat): (k: nat)
    requires unsent > 0
    ensures k < unsent
  {
    if sent % unsent == 0 then 0 else unsent - sent % unsent
  }

  lemma SourceIsTurned(p: nat, sent: nat, unsent: nat)
    requires p < unsent
    ensures var k := Turn(sent, unsent);
            Source(p, sent, unsent) - sent == if p < unsent - k then p + k else p + k - unsent
  {
    TurnedBack(p, sent, unsent, sent / unsent, sent % unsent);
  }

  lemma TurnedBack(p: int, sent: int, unsent: int, q: int, r: int)
    requires 0 <= p < unsent && 0 <= r < unsent && sent == q * unsent + r
    ensures (p - sent) % unsent == if p >= r then p - r else p - r + unsent
  {
    if p >= r {
      assert p - sent == (-q) * unsent + (p - r);
      ModUnique(p - sent, unsent, -q, p - r);
    } else {
      assert p - sent == (-q - 1) * unsent + (p - r + unsent);
      ModUnique(p - sent, unsent, -q - 1, p - r + unsent);
    }
  }

  /** A front filled from these sources is the unsent packets, turned. */
  lemma FrontIsTurned<T>(before: seq<T>, front: seq<T>, sent: nat)
    requires 0 < sent < |before| && |front| == |before| - sent
    requires forall p :: 0 <= p < |front| ==>
               var at := Source(p, sent, |front|); sent <= at < |before| && front[p] == before[at]
    ensures front == Rotated(before[sent..], Turn(sent, |front|))
  {
    forall p | 0 <= p < |front|
      ensures front[p] == Rotated(before[sent..], Turn(sent, |front|))[p]
    {
      SourceIsTurned(p, sent, |front|);
    }
  }

  /** The copy loop after a partly taken burst.  It overwrites its own source
      when more than half was sent; still the front of the array ends up with
      exactly the packets the NIC did not take, turned. */
  method KeepUnsent<T>(buffers: array<T>, sent: nat)
    requires 0 < sent < buffers.Length
    modifies buffers
    ensures var unsent := old(buffers[sent..]);
            && buffers[..|unsent|] == Rotated(unsent, Turn(sent, |unsent|))
            && multiset(buffers[..|unsent|]) == multiset(unsent)
  {
    ghost var before := buffers[..];
    ghost var unsent := buffers.Length - sent;
    for ix := 0 to sent
      invariant forall p :: sent - ix <= p < sent ==>
                  sent <= Source(p, sent, unsent) < buffers.Length && buffers[p] == before[Source(p, sent, unsent)]
      invariant forall p :: 0 <= p < sent - ix || sent <= p < buffers.Length ==> buffers[p] == before[p]
    {
      SourceSteps(sent - ix - 1, sent, unsent);
      SourceSteps(buffers.Length - ix - 1, sent, unsent);
      buffers[sent - ix - 1] := buffers[buffers.Length - ix - 1];
    }
    forall p | sent <= p < sent + unsent
      ensures Source(p, sent, unsent) == p
    {
      SourceSteps(p, sent, unsent);
    }
    FrontIsTurned(before, buffers[..unsent], sent);
    RotatedKeepsElements(before[sent..], Turn(sent, unsent));
  }

  // ---- the device's own sender: dpdkx/device.cpp:53-73 -----------------------

  /** The packets a partly taken burst should leave behind. */
  function Unsent<T>(burst: seq<T>, sent: nat): seq<T>
    requires sent <= |burst|
  {
    burst[sent..]
  }

  /** The packets the code goes on with: the copy moves those already taken to
      the end and keeps the front. */
  function Remembered<T>(burst: seq<T>, sent: nat): seq<T>
    requires sent <= |burst|
  {
    burst[..|burst| - sent]
  }

  class RingSender<T(0)> {
    const buffers: array<T>
    const burstSize: nat
    var n: nat

    ghost predicate Valid()
      reads this
    {
      n <= burstSize <= buffers.Length
    }

    constructor (burst: nat, room: nat)
      ensures Valid() && n == 0 && fresh(buffers) && buffers.Length == room
      ensures burstSize == if burst <= room then burst else room
    {
      buffers := new T[room];
      burstSize := if burst <= room then burst else room;
      n := 0;
    }

    /** Tops the buffers up from the ring. */
    method Fill(dequeued: seq<T>)
      requires Valid() && n + |dequeued| <= burstSize
      modifies this`n, buffers
      ensures Valid() && n == old(n) + |dequeued|
      ensures buffers[..n] == old(buffers[..n]) + dequeued
    {
      ghost var held := buffers[..n];
      for i := 0 to |dequeued|
        invariant n == |held| + i <= burstSize
        invariant buffers[..n] == held + dequeued[..i]
      {
        buffers[n] := dequeued[i];
        n := n + 1;
      }
    }

    /** `tx_job::process`: `dequeued` comes from the ring, of which the NIC takes
        the first `sent` of everything then in hand. */
    method Process(dequeued: seq<T>, sent: nat) returns (busy: bool)
      requires Valid() && n + |dequeued| <= burstSize && sent <= n + |dequeued|
      modifies this`n, buffers
      ensures Valid()
      ensures buffers[..n] == Remembered(old(buffers[..n]) + dequeued, sent)
      ensures busy <==> old(n) + |dequeued| != 0
    {
      ghost var burst := buffers[..n] + dequeued;
      Fill(dequeued);
      busy := n != 0;
      if sent != 0 && n != sent {
        CopyBackward(sent);
      }
      assert buffers[..n - sent] == burst[..n - sent];
      n := n - sent;
    }

    /** `std::copy_backward` of the first `sent` buffers to the end of the burst. */
    method CopyBackward(sent: nat)
      requires Valid() && sent <= n
      modifies buffers
      ensures buffers[..n - sent] == old(buffers[..n - sent])
      ensures buffers[n - sent..n] == old(buffers[..sent])
    {
      ghost var before := buffers[..];
      var k := sent;
      while k > 0
        invariant 0 <= k <= sent
        invariant forall p :: k <= p < sent ==> buffers[n - sent + p] == before[p]
        invariant forall p :: 0 <= p < n - sent + k ==> buffers[p] == before[p]
      {
        k := k - 1;
        buffers[n - sent + k] := buffers[k];
      }
    }
  }

  /** The device goes on with the packets the NIC did not take exactly when the
      NIC took all of the burst or none of it. */
  lemma RememberedIsUnsentExactly<T>(burst: seq<T>, sent: nat)
    requires sent <= |burst| && Distinct(burst)
    ensures multiset(Remembered(burst, sent)) == multiset(Unsent(burst, sent)) <==> sent == 0 || sent == |burst|
  {
    if 0 < sent < |burst| {
      var m := burst[0];
      assert m == Remembered(burst, sent)[0];
      assert m in multiset(Remembered(burst, sent));
      assert forall j :: 0 <= j < |burst| - sent ==> Unsent(burst, sent)[j] != m;
      assert m !in multiset(Unsent(burst, sent));
    } else if sent == 0 {
      assert Remembered(burst, sent) == Unsent(burst, sent);
    }
  }
}
