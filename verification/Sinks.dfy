/** The table that maps UDP ports to receive channels. */
module Sinks {
  import opened Bytes
  import opened Collections

  /** A channel object; only its identity matters to the device. */
  type Channel = nat

  datatype Sink = Sink(address: U32, port: U16, channel: Option<Channel>)

  type Table = seq<Sink>

  const SENTINEL := Sink(0, 0, None)

  /** What the device publishes: the default-constructed entry, then real channels. */
  predicate WellFormed(t: Table) {
    && |t| >= 1 && t[0] == SENTINEL
    && forall i :: 1 <= i < |t| ==> t[i].channel.Some?
  }

  /** Reference lookup: the channel of the first entry with that port. */
  function Lookup(t: Table, port: U16): Option<Channel> {
    if |t| == 0 then None
    else if t[0].port == port then t[0].channel
    else Lookup(t[1..], port)
  }

  /** i is the first entry of t with that port. */
  predicate FirstWithPort(t: Table, port: U16, i: nat) {
    i < |t| && t[i].port == port && forall j :: 0 <= j < i ==> t[j].port != port
  }

  lemma {:induction false} LookupFirst(t: Table, port: U16, i: nat)
    requires FirstWithPort(t, port, i)
    ensures Lookup(t, port) == t[i].channel
  {
    if i > 0 {
      assert forall j :: 0 <= j < i - 1 ==> t[1..][j] == t[j + 1];
      LookupFirst(t[1..], port, i - 1);
    }
  }

  lemma {:induction false} LookupNone(t: Table, port: U16)
    requires forall j :: 0 <= j < |t| ==> t[j].port != port
    ensures Lookup(t, port) == None
  {
    if |t| > 0 {
      LookupNone(t[1..], port);
    }
  }

  /** Appending entries never redirects a port that already had one. */
  lemma {:induction false} LookupStable(t: Table, more: Table, port: U16)
    ensures Lookup(t + more, port) == if exists j :: 0 <= j < |t| && t[j].port == port
                                      then Lookup(t, port) else Lookup(more, port)
  {
    if |t| == 0 {
      assert t + more == more;
    } else {
      assert (t + more)[1..] == t[1..] + more;
      LookupStable(t[1..], more, port);
      if exists j :: 0 <= j < |t| && t[j].port == port {
        var j :| 0 <= j < |t| && t[j].port == port;
        if j > 0 {
          assert t[1..][j - 1].port == port;
        }
      }
    }
  }

  /** `find_sink`. */
  method FindSink(t: Table, port: U16) returns (i: nat)
    ensures i <= |t|
    ensures i < |t| ==> FirstWithPort(t, port, i)
    ensures i == |t| ==> forall j :: 0 <= j < |t| ==> t[j].port != port
  {
    i := 0;
    while i < |t| && t[i].port != port
      invariant i <= |t|
      invariant forall j :: 0 <= j < i ==> t[j].port != port
    {
      i := i + 1;
    }
  }
}
