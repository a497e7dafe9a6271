/** Grouping the logical cores by socket in one flat array
    (dpdkx/config/socket.cpp:10-65). */
module SocketConfig {
  import opened Collections

  // ---- reference --------------------------------------------------------------

  /** The cores of one socket, in the order in which they were enumerated. */
  function Members(lcores: seq<nat>, socketOf: nat -> nat, socket: nat): seq<nat> {
    if |lcores| == 0 then []
    else
      var k := |lcores| - 1;
      Members(lcores[..k], socketOf, socket) + if socketOf(lcores[k]) == socket then [lcores[k]] else []
  }

  /** The sockets in the order of their first core. */
  function FirstSeen(lcores: seq<nat>, socketOf: nat -> nat): seq<nat> {
    if |lcores| == 0 then []
    else
      var k := |lcores| - 1;
      var before := FirstSeen(lcores[..k], socketOf);
      if socketOf(lcores[k]) in before then before else before + [socketOf(lcores[k])]
  }

  /** Cores enumerated later come later, within a socket and among the sockets. */
  lemma {:induction false} OrderIsKept(a: seq<nat>, b: seq<nat>, socketOf: nat -> nat, socket: nat)
    ensures Members(a + b, socketOf, socket) == Members(a, socketOf, socket) + Members(b, socketOf, socket)
    ensures FirstSeen(a, socketOf) <= FirstSeen(a + b, socketOf)
  {
    if b == [] {
      assert a + b == a;
    } else {
      var k := |b| - 1;
      assert (a + b)[..|a + b| - 1] == a + b[..k];
      OrderIsKept(a, b[..k], socketOf, socket);
    }
  }

  /** The groups of the first k sockets, one behind the other. */
  function Layout(lcores: seq<nat>, socketOf: nat -> nat, sockets: seq<nat>, k: nat): seq<nat>
    requires k <= |sockets|
  {
    if k == 0 then []
    else Layout(lcores, socketOf, sockets, k - 1) + Members(lcores, socketOf, sockets[k - 1])
  }

  // ---- first loop: insertion ----------------------------------------------------

  datatype Group = Group(socket: nat, count: nat)

  /** Where group k starts. */
  function Offset(groups: seq<Group>, k: nat): nat
    requires k <= |groups|
  {
    if k == 0 then 0 else Offset(groups, k - 1) + groups[k - 1].count
  }

  /** The flat array holds the groups of the cores seen so far. */
  ghost predicate Grouped(seen: seq<nat>, socketOf: nat -> nat, groups: seq<Group>, cores: seq<nat>) {
    var sockets := FirstSeen(seen, socketOf);
    && Distinct(sockets) && Counted(seen, socketOf, groups, sockets)
    && cores == Layout(seen, socketOf, sockets, |sockets|)
  }

  /** Each group knows its socket and how many cores it has. */
  ghost predicate Counted(seen: seq<nat>, socketOf: nat -> nat, groups: seq<Group>, sockets: seq<nat>) {
    && |groups| == |sockets|
    && forall g :: 0 <= g < |groups| ==> groups[g] == Group(sockets[g], |Members(seen, socketOf, sockets[g])|)
  }

  lemma {:induction false} OffsetIsLayout(seen: seq<nat>, socketOf: nat -> nat, groups: seq<Group>,
                                          sockets: seq<nat>, k: nat)
    requires k <= |groups| && Counted(seen, socketOf, groups, sockets)
    ensures Offset(groups, k) == |Layout(seen, socketOf, sockets, k)|
  {
    if k > 0 {
      OffsetIsLayout(seen, socketOf, groups, sockets, k - 1);
    }
  }

  lemma MembersOneMore(seen: seq<nat>, socketOf: nat -> nat, c: nat, socket: nat)
    ensures Members(seen + [c], socketOf, socket)
         == Members(seen, socketOf, socket) + if socketOf(c) == socket then [c] else []
  {
    assert (seen + [c])[..|seen|] == seen;
  }

  lemma FirstSeenOneMore(seen: seq<nat>, socketOf: nat -> nat, c: nat)
    ensures var before := FirstSeen(seen, socketOf);
            FirstSeen(seen + [c], socketOf) == (if socketOf(c) in before then before else before + [socketOf(c)])
  {
    assert (seen + [c])[..|seen|] == seen;
  }

  /** Sockets other than the new core's are laid out as before. */
  lemma {:induction false} LayoutUntouched(seen: seq<nat>, socketOf: nat -> nat, c: nat, sockets: seq<nat>,
                                           more: seq<nat>, k: nat)
    requires k <= |sockets| && forall g :: 0 <= g < k ==> sockets[g] != socketOf(c)
    ensures Layout(seen + [c], socketOf, sockets + more, k) == Layout(seen, socketOf, sockets, k)
  {
    if k > 0 {
      LayoutUntouched(seen, socketOf, c, sockets, more, k - 1);
      MembersOneMore(seen, socketOf, c, sockets[k - 1]);
    }
  }

  /** s with c inserted at position `at`. */
  function Inserted(s: seq<nat>, at: nat, c: nat): seq<nat>
    requires at <= |s|
  {
    s[..at] + [c] + s[at..]
  }

  lemma InsertedThenAppended(s: seq<nat>, at: nat, c: nat, tail: seq<nat>)
    requires at <= |s|
    ensures Inserted(s, at, c) + tail == Inserted(s + tail, at, c)
    ensures Inserted(s, |s|, c) == s + [c]
  {
    assert (s + tail)[..at] == s[..at];
    assert (s + tail)[at..] == s[at..] + tail;
    assert s[|s|..] == [];
  }

  lemma InsertedAdds(s: seq<nat>, at: nat, c: nat)
    requires at <= |s|
    ensures multiset(Inserted(s, at, c)) == multiset(s) + multiset{c}
  {
    assert s == s[..at] + s[at..];
  }

  lemma LayoutEnds(seen: seq<nat>, socketOf: nat -> nat, c: nat, sockets: seq<nat>, g: nat)
    requires g < |sockets| && Distinct(sockets) && sockets[g] == socketOf(c)
    ensures Layout(seen + [c], socketOf, sockets, g + 1) == Layout(seen, socketOf, sockets, g + 1) + [c]
  {
    LayoutUntouched(seen, socketOf, c, sockets, [], g);
    assert sockets + [] == sockets;
    MembersOneMore(seen, socketOf, c, sockets[g]);
    var groups, own := Layout(seen, socketOf, sockets, g), Members(seen, socketOf, sockets[g]);
    assert groups + (own + [c]) == (groups + own) + [c];
  }

  /** The new core goes to the end of its group; what follows moves by one. */
  lemma {:induction false} LayoutInserted(seen: seq<nat>, socketOf: nat -> nat, c: nat, sockets: seq<nat>, g: nat,
                                          k: nat)
    requires g < k <= |sockets| && Distinct(sockets) && sockets[g] == socketOf(c)
    ensures |Layout(seen, socketOf, sockets, g + 1)| <= |Layout(seen, socketOf, sockets, k)|
    ensures Layout(seen + [c], socketOf, sockets, k)
         == Inserted(Layout(seen, socketOf, sockets, k), |Layout(seen, socketOf, sockets, g + 1)|, c)
  {
    hide *;
    var at := |Layout(seen, socketOf, sockets, g + 1)|;
    if k == g + 1 {
      LayoutEnds(seen, socketOf, c, sockets, g);
      InsertedThenAppended(Layout(seen, socketOf, sockets, k), at, c, []);
    } else {
      LayoutInserted(seen, socketOf, c, sockets, g, k - 1);
      var shorter, others := Layout(seen, socketOf, sockets, k - 1), Members(seen, socketOf, sockets[k - 1]);
      LayoutStep(seen, socketOf, sockets, k);
      LayoutStep(seen + [c], socketOf, sockets, k);
      SameMembers(seen, socketOf, c, sockets, g, k - 1);
      InsertedThenAppended(shorter, at, c, others);
    }
  }

  lemma LayoutStep(seen: seq<nat>, socketOf: nat -> nat, sockets: seq<nat>, k: nat)
    requires 0 < k <= |sockets|
    ensures Layout(seen, socketOf, sockets, k)
         == Layout(seen, socketOf, sockets, k - 1) + Members(seen, socketOf, sockets[k - 1])
  {
  }

  lemma SameMembers(seen: seq<nat>, socketOf: nat -> nat, c: nat, sockets: seq<nat>, g: nat, h: nat)
    requires g < |sockets| && h < |sockets| && g != h && Distinct(sockets) && sockets[g] == socketOf(c)
    ensures Members(seen + [c], socketOf, sockets[h]) == Members(seen, socketOf, sockets[h])
  {
    MembersOneMore(seen, socketOf, c, sockets[h]);
  }

  lemma OtherMembers(seen: seq<nat>, socketOf: nat -> nat, c: nat, sockets: seq<nat>)
    requires socketOf(c) !in sockets
    ensures forall g :: 0 <= g < |sockets| ==>
              Members(seen + [c], socketOf, sockets[g]) == Members(seen, socketOf, sockets[g])
  {
    forall g | 0 <= g < |sockets|
      ensures Members(seen + [c], socketOf, sockets[g]) == Members(seen, socketOf, sockets[g])
    {
      MembersOneMore(seen, socketOf, c, sockets[g]);
    }
  }

  lemma LayoutNew(seen: seq<nat>, socketOf: nat -> nat, c: nat, sockets: seq<nat>)
    requires socketOf(c) !in sockets && Members(seen, socketOf, socketOf(c)) == []
    ensures Members(seen + [c], socketOf, socketOf(c)) == [c]
    ensures Layout(seen + [c], socketOf, sockets + [socketOf(c)], |sockets| + 1)
         == Layout(seen, socketOf, sockets, |sockets|) + [c]
  {
    MembersOneMore(seen, socketOf, c, socketOf(c));
    LayoutUntouched(seen, socketOf, c, sockets, [socketOf(c)], |sockets|);
  }

  lemma GroupedNew(seen: seq<nat>, socketOf: nat -> nat, groups: seq<Group>, cores: seq<nat>, c: nat)
    requires Grouped(seen, socketOf, groups, cores) && socketOf(c) !in FirstSeen(seen, socketOf)
    ensures Grouped(seen + [c], socketOf, groups + [Group(socketOf(c), 1)], cores + [c])
  {
    var sockets := FirstSeen(seen, socketOf);
    FirstSeenOneMore(seen, socketOf, c);
    NoMembers(seen, socketOf, socketOf(c));
    CountedNew(seen, socketOf, groups, sockets, c);
    LayoutNew(seen, socketOf, c, sockets);
  }

  lemma CountedNew(seen: seq<nat>, socketOf: nat -> nat, groups: seq<Group>, sockets: seq<nat>, c: nat)
    requires Counted(seen, socketOf, groups, sockets) && Distinct(sockets)
    requires socketOf(c) !in sockets && Members(seen, socketOf, socketOf(c)) == []
    ensures Counted(seen + [c], socketOf, groups + [Group(socketOf(c), 1)], sockets + [socketOf(c)])
    ensures Distinct(sockets + [socketOf(c)])
  {
    OtherMembers(seen, socketOf, c, sockets);
    MembersOneMore(seen, socketOf, c, socketOf(c));
  }

  lemma {:induction false} NoMembers(seen: seq<nat>, socketOf: nat -> nat, socket: nat)
    ensures Members(seen, socketOf, socket) == [] <==> socket !in FirstSeen(seen, socketOf)
  {
    if |seen| > 0 {
      NoMembers(seen[..|seen| - 1], socketOf, socket);
    }
  }

  lemma GroupedKnown(seen: seq<nat>, socketOf: nat -> nat, groups: seq<Group>, cores: seq<nat>, c: nat, g: nat)
    requires Grouped(seen, socketOf, groups, cores) && g < |groups| && groups[g].socket == socketOf(c)
    ensures var at := Offset(groups, g + 1);
            at <= |cores|
            && Grouped(seen + [c], socketOf, Grown(groups, g), Inserted(cores, at, c))
  {
    var sockets := FirstSeen(seen, socketOf);
    FirstSeenOneMore(seen, socketOf, c);
    OffsetIsLayout(seen, socketOf, groups, sockets, g + 1);
    LayoutInserted(seen, socketOf, c, sockets, g, |sockets|);
    CountedKnown(seen, socketOf, groups, sockets, c, g);
  }

  /** The groups with one more core in group g. */
  function Grown(groups: seq<Group>, g: nat): seq<Group>
    requires g < |groups|
  {
    groups[g := groups[g].(count := groups[g].count + 1)]
  }

  lemma CountedKnown(seen: seq<nat>, socketOf: nat -> nat, groups: seq<Group>, sockets: seq<nat>, c: nat, g: nat)
    requires Counted(seen, socketOf, groups, sockets) && Distinct(sockets)
    requires g < |groups| && groups[g].socket == socketOf(c)
    ensures Counted(seen + [c], socketOf, Grown(groups, g), sockets)
  {
    forall h | 0 <= h < |sockets|
      ensures Grown(groups, g)[h] == Group(sockets[h], |Members(seen + [c], socketOf, sockets[h])|)
    {
      MembersOneMore(seen, socketOf, c, sockets[h]);
    }
  }

  /** The group of a socket and the position behind it. */
  method FindGroup(socket: nat, groups: seq<Group>) returns (g: nat, at: nat)
    ensures g <= |groups| && forall h :: 0 <= h < g ==> groups[h].socket != socket
    ensures g < |groups| ==> groups[g].socket == socket && at == Offset(groups, g + 1)
  {
    g, at := 0, 0;
    while g < |groups|
      invariant g <= |groups| && at == Offset(groups, g)
      invariant forall h :: 0 <= h < g ==> groups[h].socket != socket
    {
      at := at + groups[g].count;
      if groups[g].socket == socket {
        return;
      }
      g := g + 1;
    }
  }

  /** One turn of the enumeration loop. */
  method Insert(c: nat, socket: nat, groups: seq<Group>, cores: seq<nat>, ghost seen: seq<nat>,
                ghost socketOf: nat -> nat)
    returns (groups': seq<Group>, cores': seq<nat>)
    requires Grouped(seen, socketOf, groups, cores) && socket == socketOf(c)
    ensures Grouped(seen + [c], socketOf, groups', cores')
    ensures multiset(cores') == multiset(cores) + multiset{c}
  {
    var g, at := FindGroup(socket, groups);
    if g < |groups| {
      GroupedKnown(seen, socketOf, groups, cores, c, g);
      groups' := Grown(groups, g);
      cores' := Inserted(cores, at, c);
      InsertedAdds(cores, at, c);
    } else {
      SocketIsNew(seen, socketOf, groups, cores, socket);
      GroupedNew(seen, socketOf, groups, cores, c);
      groups' := groups + [Group(socket, 1)];
      cores' := cores + [c];
    }
  }

  lemma SocketIsNew(seen: seq<nat>, socketOf: nat -> nat, groups: seq<Group>, cores: seq<nat>, socket: nat)
    requires Grouped(seen, socketOf, groups, cores) && forall h :: 0 <= h < |groups| ==> groups[h].socket != socket
    ensures socket !in FirstSeen(seen, socketOf)
  {
    var sockets := FirstSeen(seen, socketOf);
    forall h | 0 <= h < |sockets|
      ensures sockets[h] != socket
    {
      assert groups[h].socket == sockets[h];
    }
  }

  // ---- second loop: the main core last, and the spans ----------------------------

  /** A socket's part of the flat array. */
  datatype Span = Span(socket: nat, offset: nat, count: nat)

  /** s with `main` exchanged with the last element. */
  function MainLast(s: seq<nat>, main: nat): (r: seq<nat>)
    ensures |r| == |s|
  {
    var i := IndexOf(s, main, 0);
    if |s| == 0 || i >= |s| - 1 then s else Exchanged(s, i, |s| - 1)
  }

  function Exchanged(s: seq<nat>, i: nat, j: nat): seq<nat>
    requires i < |s| && j < |s|
  {
    s[i := s[j]][j := s[i]]
  }

  /** The exchange loses nothing, and puts the main core last. */
  lemma MainLastKeepsCores(s: seq<nat>, main: nat)
    ensures multiset(MainLast(s, main)) == multiset(s)
  {
    var i := IndexOf(s, main, 0);
    if 0 < |s| && i < |s| - 1 {
      ExchangedKeeps(s, i, |s| - 1);
    }
  }

  lemma MainIsLast(s: seq<nat>, main: nat)
    requires main in s
    ensures MainLast(s, main)[|s| - 1] == main
  {
    var j :| 0 <= j < |s| && s[j] == main;
    IndexIsFirst(s, main, 0, j);
  }

  lemma ExchangedKeeps(s: seq<nat>, i: nat, j: nat)
    requires i < j < |s|
    ensures multiset(Exchanged(s, i, j)) == multiset(s)
    ensures Exchanged(s, i, j)[j] == s[i]
  {
  }

  lemma {:induction false} IndexIsFirst(s: seq<nat>, x: nat, k: nat, j: nat)
    requires k <= j < |s| && s[j] == x
    ensures IndexOf(s, x, k) <= j
    decreases |s| - k
  {
    if k < j && s[k] != x {
      IndexIsFirst(s, x, k + 1, j);
    }
  }

  /** The first position from k on that holds x, or the length. */
  function IndexOf(s: seq<nat>, x: nat, k: nat): (i: nat)
    requires k <= |s|
    ensures k <= i <= |s| && (i < |s| ==> s[i] == x)
    decreases |s| - k
  {
    if k == |s| || s[k] == x then k else IndexOf(s, x, k + 1)
  }

  /** A socket's cores as the configuration lists them. */
  function Listed(lcores: seq<nat>, socketOf: nat -> nat, main: nat, socket: nat): (r: seq<nat>)
    ensures |r| == |Members(lcores, socketOf, socket)|
  {
    Arranged(Members(lcores, socketOf, socket), socket == socketOf(main), main)
  }

  /** A group after its turn in the second loop. */
  function Arranged(part: seq<nat>, withMain: bool, main: nat): (r: seq<nat>)
    ensures |r| == |part|
  {
    if withMain then MainLast(part, main) else part
  }

  /** The finished array up to group k. */
  function Listing(lcores: seq<nat>, socketOf: nat -> nat, main: nat, sockets: seq<nat>, k: nat): (r: seq<nat>)
    requires k <= |sockets|
    ensures |r| == |Layout(lcores, socketOf, sockets, k)|
  {
    if k == 0 then []
    else Listing(lcores, socketOf, main, sockets, k - 1) + Listed(lcores, socketOf, main, sockets[k - 1])
  }

  /** An exchange inside a part of the array is an exchange in that part. */
  lemma SwapInside(cores: seq<nat>, offset: nat, count: nat, i: nat)
    requires i < count - 1 && offset + count <= |cores|
    ensures Exchanged(cores, offset + i, offset + count - 1)
         == Replaced(cores, offset, count, Exchanged(cores[offset..offset + count], i, count - 1))
  {
  }

  /** cores with `count` elements at `offset` replaced by `part`. */
  function Replaced(cores: seq<nat>, offset: nat, count: nat, part: seq<nat>): seq<nat>
    requires offset + count <= |cores|
  {
    cores[..offset] + part + cores[offset + count..]
  }

  lemma Reassembled(cores: seq<nat>, offset: nat, count: nat)
    requires offset + count <= |cores|
    ensures cores == Replaced(cores, offset, count, cores[offset..offset + count])
  {
  }

  /** `std::find` over positions from..end. */
  method FindCore(cores: seq<nat>, from: nat, end: nat, main: nat) returns (i: nat)
    requires from <= end < |cores|
    ensures from <= i <= end && forall j :: from <= j < i ==> cores[j] != main
    ensures i == end || cores[i] == main
  {
    i := from;
    while i != end && cores[i] != main
      invariant from <= i <= end
      invariant forall j :: from <= j < i ==> cores[j] != main
    {
      i := i + 1;
    }
  }

  /** Lines 47-51: the main core changes places with the last core of its group. */
  method MoveMainLast(cores: seq<nat>, offset: nat, count: nat, main: nat) returns (cores': seq<nat>)
    requires 0 < count && offset + count <= |cores|
    ensures cores' == Replaced(cores, offset, count, MainLast(cores[offset..offset + count], main))
  {
    var i := FindCore(cores, offset, offset + count - 1, main);
    MovedMain(cores, offset, count, main, i);
    cores' := ToEnd(cores, i, offset + count - 1);
  }

  /** The core at i changes places with the one at `end`, unless it is that one. */
  function ToEnd(cores: seq<nat>, i: nat, end: nat): seq<nat>
    requires i <= end < |cores|
  {
    if i != end then Exchanged(cores, i, end) else cores
  }

  lemma MovedMain(cores: seq<nat>, offset: nat, count: nat, main: nat, i: nat)
    requires offset <= i < offset + count <= |cores|
    requires forall j :: offset <= j < i ==> cores[j] != main
    requires i == offset + count - 1 || cores[i] == main
    ensures ToEnd(cores, i, offset + count - 1)
         == Replaced(cores, offset, count, MainLast(cores[offset..offset + count], main))
  {
    var part, at := cores[offset..offset + count], i - offset;
    assert MainLast(part, main) == if at == count - 1 then part else Exchanged(part, at, count - 1) by {
      IndexFound(part, main, 0, at);
    }
    if at == count - 1 {
      Reassembled(cores, offset, count);
    } else {
      SwapInside(cores, offset, count, at);
    }
  }

  /** The search that stops before the last position finds the first occurrence. */
  lemma {:induction false} IndexFound(s: seq<nat>, x: nat, k: nat, i: nat)
    requires k <= i < |s| && forall j :: k <= j < i ==> s[j] != x
    requires i == |s| - 1 || s[i] == x
    ensures if i == |s| - 1 then IndexOf(s, x, k) >= i else IndexOf(s, x, k) == i
    decreases |s| - k
  {
    if k < i {
      IndexFound(s, x, k + 1, i);
    }
  }

  // ---- the whole configuration ----------------------------------------------------

  /** The groups from k on, as the first loop left them. */
  function LayoutFrom(lcores: seq<nat>, socketOf: nat -> nat, sockets: seq<nat>, k: nat): seq<nat>
    requires k <= |sockets|
    decreases |sockets| - k
  {
    if k == |sockets| then []
    else Members(lcores, socketOf, sockets[k]) + LayoutFrom(lcores, socketOf, sockets, k + 1)
  }

  /** The array after k turns of the second loop. */
  function Stage(lcores: seq<nat>, socketOf: nat -> nat, main: nat, sockets: seq<nat>, k: nat): seq<nat>
    requires k <= |sockets|
  {
    Listing(lcores, socketOf, main, sockets, k) + LayoutFrom(lcores, socketOf, sockets, k)
  }

  ghost predicate AtStage(lcores: seq<nat>, socketOf: nat -> nat, main: nat, sockets: seq<nat>, cores: seq<nat>,
                          k: nat) {
    k <= |sockets| && cores == Stage(lcores, socketOf, main, sockets, k)
  }

  lemma {:induction false} LayoutJoins(lcores: seq<nat>, socketOf: nat -> nat, sockets: seq<nat>, k: nat)
    requires k <= |sockets|
    ensures Layout(lcores, socketOf, sockets, k) + LayoutFrom(lcores, socketOf, sockets, k)
         == Layout(lcores, socketOf, sockets, |sockets|)
    decreases |sockets| - k
  {
    hide Members;
    if k < |sockets| {
      LayoutJoins(lcores, socketOf, sockets, k + 1);
      var a, b, c := Layout(lcores, socketOf, sockets, k), Members(lcores, socketOf, sockets[k]),
                     LayoutFrom(lcores, socketOf, sockets, k + 1);
      assert a + (b + c) == (a + b) + c;
    }
  }

  /** Span g starts where the span before it ends and lists the cores of socket g. */
  ghost predicate SpanLists(lcores: seq<nat>, socketOf: nat -> nat, main: nat, sockets: seq<nat>,
                            cores: seq<nat>, spans: seq<Span>, g: nat)
    requires g < |spans| <= |sockets|
  {
    var s := spans[g];
    && s.socket == sockets[g]
    && s.offset == End(spans, g)
    && s.offset + s.count <= |cores|
    && cores[s.offset..s.offset + s.count] == Listed(lcores, socketOf, main, sockets[g])
  }

  /** Where the first k spans end. */
  function End(spans: seq<Span>, k: nat): nat
    requires k <= |spans|
  {
    if k == 0 then 0 else spans[k - 1].offset + spans[k - 1].count
  }

  /** The result of the configuration: one span per socket in first-seen order,
      tiling the array without gap or overlap, each listing its socket's cores. */
  ghost predicate Configured(lcores: seq<nat>, socketOf: nat -> nat, main: nat, cores: seq<nat>, spans: seq<Span>) {
    var sockets := FirstSeen(lcores, socketOf);
    && |spans| == |sockets| && Distinct(sockets)
    && (forall g :: 0 <= g < |spans| ==> SpanLists(lcores, socketOf, main, sockets, cores, spans, g))
    && End(spans, |spans|) == |cores|
  }

  /** After k groups of the second loop. */
  ghost predicate Finishing(lcores: seq<nat>, socketOf: nat -> nat, main: nat, sockets: seq<nat>,
                            cores: seq<nat>, spans: seq<Span>)
  {
    var k := |spans|;
    && k <= |sockets|
    && AtStage(lcores, socketOf, main, sockets, cores, k)
    && End(spans, k) == |Listing(lcores, socketOf, main, sockets, k)|
    && AllListed(lcores, socketOf, main, sockets, cores, spans)
  }

  ghost predicate AllListed(lcores: seq<nat>, socketOf: nat -> nat, main: nat, sockets: seq<nat>,
                            cores: seq<nat>, spans: seq<Span>)
    requires |spans| <= |sockets|
  {
    forall g :: 0 <= g < |spans| ==> SpanLists(lcores, socketOf, main, sockets, cores, spans, g)
  }

  lemma FinishedOneMore(lcores: seq<nat>, socketOf: nat -> nat, main: nat, sockets: seq<nat>,
                        cores: seq<nat>, spans: seq<Span>)
    requires Finishing(lcores, socketOf, main, sockets, cores, spans) && |spans| < |sockets|
    ensures Finishing(lcores, socketOf, main, sockets, Stage(lcores, socketOf, main, sockets, |spans| + 1),
                      spans + [NextSpan(lcores, socketOf, sockets, spans)])
  {
    hide AllListed, SpanLists, Listing, LayoutFrom, NextSpan, End;
    var k, spans' := |spans|, spans + [NextSpan(lcores, socketOf, sockets, spans)];
    var cores' := Stage(lcores, socketOf, main, sockets, k + 1);
    LastSpanLists(lcores, socketOf, main, sockets, spans, LayoutFrom(lcores, socketOf, sockets, k + 1));
    OldSpansKept(lcores, socketOf, main, sockets, cores, cores', Listing(lcores, socketOf, main, sockets, k),
                 spans, spans');
  }

  lemma LastSpanLists(lcores: seq<nat>, socketOf: nat -> nat, main: nat, sockets: seq<nat>, spans: seq<Span>,
                      rest: seq<nat>)
    requires |spans| < |sockets| && End(spans, |spans|) == |Listing(lcores, socketOf, main, sockets, |spans|)|
    ensures var k := |spans|;
            var spans' := spans + [NextSpan(lcores, socketOf, sockets, spans)];
            var cores := Listing(lcores, socketOf, main, sockets, k + 1) + rest;
            && SpanLists(lcores, socketOf, main, sockets, cores, spans', k)
            && End(spans', k + 1) == |Listing(lcores, socketOf, main, sockets, k + 1)|
            && Listing(lcores, socketOf, main, sockets, k) <= cores
  {
    var k := |spans|;
    PartsOf(Listing(lcores, socketOf, main, sockets, k), Listed(lcores, socketOf, main, sockets[k]), rest);
  }

  /** The span of the group behind the finished ones. */
  function NextSpan(lcores: seq<nat>, socketOf: nat -> nat, sockets: seq<nat>, spans: seq<Span>): Span
    requires |spans| < |sockets|
  {
    Span(sockets[|spans|], End(spans, |spans|), |Members(lcores, socketOf, sockets[|spans|])|)
  }

  lemma OldSpansKept(lcores: seq<nat>, socketOf: nat -> nat, main: nat, sockets: seq<nat>, cores: seq<nat>,
                     cores': seq<nat>,
                     done: seq<nat>, spans: seq<Span>, spans': seq<Span>)
    requires |spans| <= |spans'| <= |sockets| && spans <= spans'
    requires done <= cores && done <= cores' && End(spans, |spans|) <= |done|
    requires AllListed(lcores, socketOf, main, sockets, cores, spans)
    requires |spans'| == |spans| + 1 && SpanLists(lcores, socketOf, main, sockets, cores', spans', |spans|)
    ensures AllListed(lcores, socketOf, main, sockets, cores', spans')
  {
    forall g | 0 <= g < |spans|
      ensures SpanLists(lcores, socketOf, main, sockets, cores', spans', g)
    {
      EndMonotone(lcores, socketOf, main, sockets, cores, spans, g + 1, |spans|);
      SpanKept(lcores, socketOf, main, sockets, cores, cores', done, spans, spans', g);
    }
  }

  lemma PartsOf(a: seq<nat>, b: seq<nat>, c: seq<nat>)
    ensures (a + b + c)[|a|..|a| + |b|] == b
    ensures a <= a + b + c
  {
  }

  lemma SamePart(a: seq<nat>, s: seq<nat>, from: nat, to: nat)
    requires a <= s && from <= to <= |a|
    ensures s[from..to] == a[from..to]
  {
  }

  /** A span inside the finished part stays as it is. */
  lemma SpanKept(lcores: seq<nat>, socketOf: nat -> nat, main: nat, sockets: seq<nat>, cores: seq<nat>,
                 cores': seq<nat>,
                 done: seq<nat>, spans: seq<Span>, spans': seq<Span>, g: nat)
    requires g < |spans| <= |spans'| <= |sockets| && spans <= spans'
    requires SpanLists(lcores, socketOf, main, sockets, cores, spans, g)
    requires done <= cores && done <= cores' && End(spans, g + 1) <= |done|
    ensures SpanLists(lcores, socketOf, main, sockets, cores', spans', g)
  {
    SamePart(done, cores, spans[g].offset, End(spans, g + 1));
    SamePart(done, cores', spans[g].offset, End(spans, g + 1));
  }

  lemma {:induction false} EndMonotone(lcores: seq<nat>, socketOf: nat -> nat, main: nat, sockets: seq<nat>,
                                       cores: seq<nat>, spans: seq<Span>, j: nat, k: nat)
    requires j <= k <= |spans| <= |sockets|
    requires forall g :: 0 <= g < |spans| ==> SpanLists(lcores, socketOf, main, sockets, cores, spans, g)
    ensures End(spans, j) <= End(spans, k)
  {
    if j < k {
      EndMonotone(lcores, socketOf, main, sockets, cores, spans, j, k - 1);
      assert SpanLists(lcores, socketOf, main, sockets, cores, spans, k - 1);
    }
  }

  lemma TurnedParts(a: seq<nat>, b: seq<nat>, c: seq<nat>, s: Span, withMain: bool, main: nat)
    requires s.offset == |a| && s.count == |b|
    ensures Turned(a + (b + c), s, withMain, main) == (a + Arranged(b, withMain, main)) + c
  {
    var cores := a + (b + c);
    assert cores[..|a|] == a && cores[|a| + |b|..] == c;
    assert cores[|a|..|a| + |b|] == b;
  }

  /** The array with one of its groups arranged. */
  function Turned(cores: seq<nat>, s: Span, withMain: bool, main: nat): seq<nat> {
    if s.offset + s.count <= |cores|
    then Replaced(cores, s.offset, s.count, Arranged(cores[s.offset..s.offset + s.count], withMain, main))
    else cores
  }

  /** The span of group k after k turns. */
  function SpanAt(lcores: seq<nat>, socketOf: nat -> nat, main: nat, sockets: seq<nat>, k: nat): Span
    requires k < |sockets|
  {
    Span(sockets[k], |Listing(lcores, socketOf, main, sockets, k)|, |Members(lcores, socketOf, sockets[k])|)
  }

  /** Arranging group k is the turn from one stage to the next. */
  lemma StageTurned(lcores: seq<nat>, socketOf: nat -> nat, main: nat, sockets: seq<nat>, cores: seq<nat>, k: nat,
                    s: Span)
    requires AtStage(lcores, socketOf, main, sockets, cores, k) && k < |sockets|
    requires s == SpanAt(lcores, socketOf, main, sockets, k)
    ensures s.offset + s.count <= |cores|
    ensures AtStage(lcores, socketOf, main, sockets, Turned(cores, s, s.socket == socketOf(main), main), k + 1)
  {
    var a, b, c := Listing(lcores, socketOf, main, sockets, k), Members(lcores, socketOf, sockets[k]),
                   LayoutFrom(lcores, socketOf, sockets, k + 1);
    TurnedParts(a, b, c, s, sockets[k] == socketOf(main), main);
  }

  lemma NextIsAt(lcores: seq<nat>, socketOf: nat -> nat, main: nat, sockets: seq<nat>, cores: seq<nat>,
                 spans: seq<Span>)
    requires Finishing(lcores, socketOf, main, sockets, cores, spans) && |spans| < |sockets|
    ensures AtStage(lcores, socketOf, main, sockets, cores, |spans|)
    ensures NextSpan(lcores, socketOf, sockets, spans) == SpanAt(lcores, socketOf, main, sockets, |spans|)
  {
  }

  /** The group of the next span is there, and its turn finishes it. */
  lemma GroupFinished(lcores: seq<nat>, socketOf: nat -> nat, main: nat, sockets: seq<nat>,
                      cores: seq<nat>, spans: seq<Span>, s: Span)
    requires Finishing(lcores, socketOf, main, sockets, cores, spans) && |spans| < |sockets|
    requires s == NextSpan(lcores, socketOf, sockets, spans)
    ensures s.offset + s.count <= |cores|
    ensures Finishing(lcores, socketOf, main, sockets, Turned(cores, s, s.socket == socketOf(main), main), spans + [s])
  {
    hide *;
    NextIsAt(lcores, socketOf, main, sockets, cores, spans);
    StageTurned(lcores, socketOf, main, sockets, cores, |spans|, s);
    StageIs(lcores, socketOf, main, sockets, Turned(cores, s, s.socket == socketOf(main), main), |spans| + 1);
    FinishedOneMore(lcores, socketOf, main, sockets, cores, spans);
  }

  lemma StageIs(lcores: seq<nat>, socketOf: nat -> nat, main: nat, sockets: seq<nat>, cores: seq<nat>, k: nat)
    requires AtStage(lcores, socketOf, main, sockets, cores, k)
    ensures k <= |sockets| && cores == Stage(lcores, socketOf, main, sockets, k)
  {
  }

  /** One turn of the second loop. */
  method FinishGroup(s: Span, cores: seq<nat>, main: nat, mainSocket: nat) returns (cores': seq<nat>)
    requires s.count > 0 && s.offset + s.count <= |cores|
    ensures cores' == Turned(cores, s, s.socket == mainSocket, main)
  {
    if s.socket == mainSocket {
      cores' := MoveMainLast(cores, s.offset, s.count, main);
    } else {
      cores' := cores;
      Reassembled(cores, s.offset, s.count);
    }
  }

  /** The same turn with what it means. */
  method NextTurn(group: Group, offset: nat, cores: seq<nat>, main: nat, mainSocket: nat, spans: seq<Span>,
                  ghost lcores: seq<nat>, ghost socketOf: nat -> nat, ghost sockets: seq<nat>)
    returns (cores': seq<nat>, spans': seq<Span>)
    requires Finishing(lcores, socketOf, main, sockets, cores, spans) && |spans| < |sockets|
    requires group == Group(sockets[|spans|], |Members(lcores, socketOf, sockets[|spans|])|) && group.count > 0
    requires offset == End(spans, |spans|) && mainSocket == socketOf(main)
    ensures spans' == spans + [Span(group.socket, offset, group.count)]
    ensures Finishing(lcores, socketOf, main, sockets, cores', spans')
  {
    var s := Span(group.socket, offset, group.count);
    GroupFinished(lcores, socketOf, main, sockets, cores, spans, s);
    cores' := FinishGroup(s, cores, main, mainSocket);
    spans' := spans + [s];
  }

  /** `socket_configuration`. */
  method Configure(lcores: seq<nat>, socketOf: nat -> nat, main: nat) returns (cores: seq<nat>, spans: seq<Span>)
    ensures Configured(lcores, socketOf, main, cores, spans)
    ensures multiset(cores) == multiset(lcores)
  {
    hide Grouped, Configured;
    var groups: seq<Group>;
    groups, cores, spans := [], [], [];
    NothingGrouped(socketOf);
    for i := 0 to |lcores|
      invariant Grouped(lcores[..i], socketOf, groups, cores)
      invariant multiset(cores) == multiset(lcores[..i])
    {
      groups, cores := Insert(lcores[i], socketOf(lcores[i]), groups, cores, lcores[..i], socketOf);
      assert lcores[..i] + [lcores[i]] == lcores[..i + 1];
    }
    assert lcores[..|lcores|] == lcores;
    cores, spans := Finish(lcores, socketOf, main, groups, cores);
  }

  lemma NothingGrouped(socketOf: nat -> nat)
    ensures Grouped([], socketOf, [], [])
  {
  }

  method Finish(ghost lcores: seq<nat>, socketOf: nat -> nat, main: nat, groups: seq<Group>, laid: seq<nat>)
    returns (cores: seq<nat>, spans: seq<Span>)
    requires Grouped(lcores, socketOf, groups, laid)
    ensures Configured(lcores, socketOf, main, cores, spans)
    ensures multiset(cores) == multiset(laid)
  {
    ghost var sockets := FirstSeen(lcores, socketOf);
    LayoutJoins(lcores, socketOf, sockets, 0);
    cores, spans := laid, [];
    var mainSocket, offset := socketOf(main), 0;
    for ix := 0 to |groups|
      invariant |spans| == ix && Finishing(lcores, socketOf, main, sockets, cores, spans) && offset == End(spans, ix)
    {
      NoMembers(lcores, socketOf, sockets[ix]);
      cores, spans := NextTurn(groups[ix], offset, cores, main, mainSocket, spans, lcores, socketOf, sockets);
      offset := offset + groups[ix].count;
    }
    assert LayoutFrom(lcores, socketOf, sockets, |sockets|) == [];
    ListingKeepsCores(lcores, socketOf, main, sockets, |sockets|);
  }

  lemma {:induction false} ListingKeepsCores(lcores: seq<nat>, socketOf: nat -> nat, main: nat, sockets: seq<nat>,
                                             k: nat)
    requires k <= |sockets|
    ensures multiset(Listing(lcores, socketOf, main, sockets, k)) == multiset(Layout(lcores, socketOf, sockets, k))
  {
    if k > 0 {
      ListingKeepsCores(lcores, socketOf, main, sockets, k - 1);
      MainLastKeepsCores(Members(lcores, socketOf, sockets[k - 1]), main);
    }
  }

  // ---- what the caller relies on ---------------------------------------------------

  lemma {:induction false} MembersAreOfSocket(lcores: seq<nat>, socketOf: nat -> nat, socket: nat, c: nat)
    ensures c in Members(lcores, socketOf, socket) <==> c in lcores && socketOf(c) == socket
  {
    if |lcores| > 0 {
      MembersAreOfSocket(lcores[..|lcores| - 1], socketOf, socket, c);
    }
  }

  lemma ListedAreMembers(lcores: seq<nat>, socketOf: nat -> nat, main: nat, socket: nat, c: nat)
    ensures c in Listed(lcores, socketOf, main, socket) <==> c in lcores && socketOf(c) == socket
  {
    var members := Members(lcores, socketOf, socket);
    MembersAreOfSocket(lcores, socketOf, socket, c);
    MainLastKeepsCores(members, main);
    SameElements(MainLast(members, main), members, c);
  }

  lemma ListedEndsWithMain(lcores: seq<nat>, socketOf: nat -> nat, main: nat)
    requires main in lcores
    ensures var part := Listed(lcores, socketOf, main, socketOf(main));
            part != [] && part[|part| - 1] == main
  {
    MembersAreOfSocket(lcores, socketOf, socketOf(main), main);
    MainIsLast(Members(lcores, socketOf, socketOf(main)), main);
  }

  /** A core is in a span exactly if it was enumerated and belongs to the span's
      socket; and the main core is the last of its span. */
  lemma SpanHoldsItsSocket(lcores: seq<nat>, socketOf: nat -> nat, main: nat, cores: seq<nat>, spans: seq<Span>, g: nat)
    requires Configured(lcores, socketOf, main, cores, spans) && g < |spans| && main in lcores
    ensures var part := PartOf(cores, spans[g]);
            && part != []
            && (forall c :: c in part <==> c in lcores && socketOf(c) == spans[g].socket)
            && (spans[g].socket == socketOf(main) ==> part[|part| - 1] == main)
  {
    var socket := spans[g].socket;
    SpanIsListed(lcores, socketOf, main, cores, spans, g);
    forall c
      ensures c in Listed(lcores, socketOf, main, socket) <==> c in lcores && socketOf(c) == socket
    {
      ListedAreMembers(lcores, socketOf, main, socket, c);
    }
    ListedEndsWithMain(lcores, socketOf, main);
  }

  lemma SpanIsListed(lcores: seq<nat>, socketOf: nat -> nat, main: nat, cores: seq<nat>, spans: seq<Span>, g: nat)
    requires Configured(lcores, socketOf, main, cores, spans) && g < |spans|
    ensures PartOf(cores, spans[g]) == Listed(lcores, socketOf, main, spans[g].socket) != []
  {
    var sockets := FirstSeen(lcores, socketOf);
    assert SpanLists(lcores, socketOf, main, sockets, cores, spans, g);
    NoMembers(lcores, socketOf, sockets[g]);
  }

  /** The cores of a span. */
  function PartOf(cores: seq<nat>, s: Span): seq<nat> {
    if s.offset + s.count <= |cores| then cores[s.offset..s.offset + s.count] else []
  }

  lemma SameElements(a: seq<nat>, b: seq<nat>, c: nat)
    requires multiset(a) == multiset(b)
    ensures c in a <==> c in b
  {
    assert c in a <==> c in multiset(a);
    assert c in b <==> c in multiset(b);
  }

  /** The main core's socket has a span. */
  lemma MainHasSpan(lcores: seq<nat>, socketOf: nat -> nat, main: nat, cores: seq<nat>,
                    spans: seq<Span>) returns (g: nat)
    requires Configured(lcores, socketOf, main, cores, spans) && main in lcores
    ensures g < |spans| && spans[g].socket == socketOf(main)
  {
    MembersAreOfSocket(lcores, socketOf, socketOf(main), main);
    NoMembers(lcores, socketOf, socketOf(main));
    var sockets := FirstSeen(lcores, socketOf);
    g :| 0 <= g < |sockets| && sockets[g] == socketOf(main);
    assert SpanLists(lcores, socketOf, main, sockets, cores, spans, g);
  }

  /** The socket sizes, in first-seen order, never rise. */
  ghost predicate SizesNeverRise(lcores: seq<nat>, socketOf: nat -> nat) {
    var sockets := FirstSeen(lcores, socketOf);
    forall i, j :: 0 <= i < j < |sockets| ==>
      |Members(lcores, socketOf, sockets[i])| >= |Members(lcores, socketOf, sockets[j])|
  }

  /** The closing assertion of the source, that spans come in order of falling
      size, holds exactly if the enumeration meets larger sockets first. */
  lemma SpansFallExactly(lcores: seq<nat>, socketOf: nat -> nat, main: nat, cores: seq<nat>, spans: seq<Span>)
    requires Configured(lcores, socketOf, main, cores, spans)
    ensures (forall i, j :: 0 <= i < j < |spans| ==> spans[i].count >= spans[j].count)
       <==> SizesNeverRise(lcores, socketOf)
  {
    var sockets := FirstSeen(lcores, socketOf);
    forall g | 0 <= g < |spans|
      ensures spans[g].count == |Members(lcores, socketOf, sockets[g])|
    {
      assert SpanLists(lcores, socketOf, main, sockets, cores, spans, g);
    }
  }

  /** It does not hold for sockets with one and then two cores. */
  lemma SpansNeedNotFall(cores: seq<nat>, spans: seq<Span>)
    requires Configured([0, 1, 2], c => if c == 0 then 0 else 1, 0, cores, spans)
    ensures |spans| == 2 && spans[0].count == 1 && spans[1].count == 2
  {
    var socketOf := c => if c == 0 then 0 else 1;
    ThreeCores(socketOf);
    assert SpanLists([0, 1, 2], socketOf, 0, [0, 1], cores, spans, 0);
    assert SpanLists([0, 1, 2], socketOf, 0, [0, 1], cores, spans, 1);
  }

  lemma ThreeCores(socketOf: nat -> nat)
    requires socketOf(0) == 0 && socketOf(1) == 1 && socketOf(2) == 1
    ensures FirstSeen([0, 1, 2], socketOf) == [0, 1]
    ensures |Members([0, 1, 2], socketOf, 0)| == 1 && |Members([0, 1, 2], socketOf, 1)| == 2
  {
    assert [] + [0] == [0] && [0] + [1] == [0, 1] && [0, 1] + [2] == [0, 1, 2];
    FirstSeenOneMore([], socketOf, 0);
    FirstSeenOneMore([0], socketOf, 1);
    FirstSeenOneMore([0, 1], socketOf, 2);
    forall s
      ensures |Members([0, 1, 2], socketOf, s)| == (if s == 0 then 1 else 0) + (if s == 1 then 2 else 0)
    {
      MembersOneMore([], socketOf, 0, s);
      MembersOneMore([0], socketOf, 1, s);
      MembersOneMore([0, 1], socketOf, 2, s);
    }
  }
}
