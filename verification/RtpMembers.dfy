/** Reference counting of RTP members: lib/librtp/source/rtp-member.c, the two lists of a context
    (rtcp.c, rtp.c) and what a BYE takes away (rtcp-bye.c). */
module RtpMembers {
  import opened Bytes
  import opened MemberList

  /** Everything one context owns. `freed` lists every member given back, in order; handles below
      `next` have been handed out. */
  datatype World = World(members: seq<Handle>, senders: seq<Handle>, self: Handle, heap: Heap,
                         freed: seq<Handle>, next: nat)

  // --- specification ----------------------------------------------------------------------

  function AddRef(w: World, h: Handle): World
    requires h in w.heap
  {
    w.(heap := w.heap[h := w.heap[h].(ref := w.heap[h].ref + 1)])
  }

  /** The last release frees the member. */
  function Release(w: World, h: Handle): World
    requires h in w.heap
  {
    if w.heap[h].ref == 1 then w.(heap := w.heap - {h}, freed := w.freed + [h])
    else w.(heap := w.heap[h := w.heap[h].(ref := w.heap[h].ref - 1)])
  }

  /** A new member with one reference, for its creator. */
  function Create(w: World, ssrc: U32): World {
    w.(heap := w.heap[w.next := Rec(ssrc, 1)], next := w.next + 1)
  }

  function JoinMembers(w: World, h: Handle): World
    requires h in w.heap
  {
    AddRef(w, h).(members := w.members + [h])
  }

  function JoinSenders(w: World, h: Handle): World
    requires h in w.heap
  {
    AddRef(w, h).(senders := w.senders + [h])
  }

  /** `rtp_member_fetch`. The creator's reference goes once the list has its own. */
  function FetchMember(w: World, ssrc: U32): (r: (World, Handle))
    ensures r.1 in r.0.heap && r.0.senders == w.senders
  {
    var k := Index(w.members, w.heap, ssrc);
    if k < |w.members| then (w, w.members[k])
    else (Release(JoinMembers(Create(w, ssrc), w.next), w.next), w.next)
  }

  /** `rtp_sender_fetch`. */
  function FetchSender(w: World, ssrc: U32): (r: (World, Handle))
    ensures r.1 in r.0.heap
  {
    var k := Index(w.senders, w.heap, ssrc);
    if k < |w.senders| then (w, w.senders[k])
    else
      var (w1, h) := FetchMember(w, ssrc);
      (JoinSenders(w1, h), h)
  }

  function LeaveMembers(w: World, ssrc: U32): World {
    var k := Index(w.members, w.heap, ssrc);
    if k < |w.members| then Release(w.(members := Without(w.members, k)), w.members[k]) else w
  }

  function LeaveSenders(w: World, ssrc: U32): World {
    var k := Index(w.senders, w.heap, ssrc);
    if k < |w.senders| then Release(w.(senders := Without(w.senders, k)), w.senders[k]) else w
  }

  /** One source of a BYE. */
  function Bye(w: World, ssrc: U32): World { LeaveSenders(LeaveMembers(w, ssrc), ssrc) }

  function ReleaseAll(w: World, hs: seq<Handle>): World {
    if hs == [] then w
    else
      var earlier := ReleaseAll(w, hs[..|hs| - 1]);
      if hs[|hs| - 1] in earlier.heap then Release(earlier, hs[|hs| - 1]) else earlier
  }

  /** `rtp_destroy`: both lists let go of their members, then the context of its own. */
  function Destroy(w: World): World {
    ReleaseAll(ReleaseAll(ReleaseAll(w, w.members), w.senders), [w.self]).(members := [], senders := [])
  }

  /** `rtp_create`. */
  function NewContext(ssrc: U32): World {
    JoinMembers(Create(World([], [], 0, map[], [], 0), ssrc), 0)
  }

  // --- ownership --------------------------------------------------------------------------

  /** The live members are exactly the ones referred to, and each count is the number of references. */
  ghost predicate Owed(heap: Heap, refs: multiset<Handle>) {
    (forall h :: h in heap <==> h in refs)
    && (forall h :: h in heap ==> heap[h].ref == refs[h])
  }

  /** Every member ever created is either live or freed, and none was freed twice. */
  ghost predicate FreedOnce(heap: Heap, freed: seq<Handle>, next: nat) {
    (forall i, j :: 0 <= i < j < |freed| ==> freed[i] != freed[j])
    && (forall h: Handle :: h < next <==> h in heap || h in freed)
    && (forall h :: h in freed ==> h !in heap)
  }

  ghost predicate Counted(w: World, refs: multiset<Handle>) {
    Owed(w.heap, refs) && FreedOnce(w.heap, w.freed, w.next)
  }

  ghost function Refs(w: World): multiset<Handle> {
    multiset(w.members) + multiset(w.senders) + multiset{w.self}
  }

  ghost predicate UniqueSsrc(xs: seq<Handle>, heap: Heap) {
    (forall i :: 0 <= i < |xs| ==> xs[i] in heap)
    && (forall i, j :: 0 <= i < j < |xs| ==> heap[xs[i]].ssrc != heap[xs[j]].ssrc)
  }

  /** Unique SSRCs in each list, and every sender is a member. */
  ghost predicate Listed(members: seq<Handle>, senders: seq<Handle>, heap: Heap) {
    UniqueSsrc(members, heap) && UniqueSsrc(senders, heap) && (forall h :: h in senders ==> h in members)
  }

  /** What holds between any two calls. */
  ghost predicate Inv(w: World) {
    Counted(w, Refs(w)) && Listed(w.members, w.senders, w.heap)
  }

  lemma AddRefCounts(w: World, refs: multiset<Handle>, h: Handle)
    requires Counted(w, refs) && h in w.heap
    ensures Counted(AddRef(w, h), refs + multiset{h})
  {
  }

  lemma CreateCounts(w: World, refs: multiset<Handle>, ssrc: U32)
    requires Counted(w, refs)
    ensures Counted(Create(w, ssrc), refs + multiset{w.next}) && w.next !in w.heap
  {
  }

  /** Each reference can be given back once, and the last one to go frees the member. */
  lemma ReleaseCounts(w: World, refs: multiset<Handle>, h: Handle)
    requires Counted(w, refs) && h in refs
    ensures h in w.heap && Counted(Release(w, h), refs - multiset{h})
  {
    var after := Release(w, h);
    assert h !in w.freed;
    forall i, j | 0 <= i < j < |after.freed| ensures after.freed[i] != after.freed[j] {
    }
  }

  // --- lists ------------------------------------------------------------------------------

  /** `b` keeps the members of `a` and their SSRCs. */
  ghost predicate Keeps(a: Heap, b: Heap) {
    forall h :: h in a ==> h in b && b[h].ssrc == a[h].ssrc
  }

  lemma UniqueStays(xs: seq<Handle>, a: Heap, b: Heap)
    requires UniqueSsrc(xs, a) && (forall h :: h in xs ==> h in b && b[h].ssrc == a[h].ssrc)
    ensures UniqueSsrc(xs, b)
  {
  }

  lemma UniqueSnoc(xs: seq<Handle>, heap: Heap, h: Handle)
    requires UniqueSsrc(xs, heap) && h in heap
    requires forall i :: 0 <= i < |xs| ==> heap[xs[i]].ssrc != heap[h].ssrc
    ensures UniqueSsrc(xs + [h], heap)
  {
  }

  lemma NewMemberListed(ms: seq<Handle>, ss: seq<Handle>, heap: Heap, h: Handle, ssrc: U32)
    requires Listed(ms, ss, heap) && h !in heap && Index(ms, heap, ssrc) == |ms|
    ensures Listed(ms + [h], ss, heap[h := Rec(ssrc, 1)])
  {
    var b := heap[h := Rec(ssrc, 1)];
    assert forall i :: 0 <= i < |ms| ==> heap[ms[i]].ssrc != ssrc;
    hide Index;
    UniqueStays(ms, heap, b);
    UniqueStays(ss, heap, b);
    UniqueSnoc(ms, b, h);
    hide UniqueSsrc;
  }

  lemma NewSenderListed(ms: seq<Handle>, ss: seq<Handle>, a: Heap, b: Heap, h: Handle)
    requires Listed(ms, ss, a) && Keeps(a, b) && h in ms
    requires forall i :: 0 <= i < |ss| ==> a[ss[i]].ssrc != a[h].ssrc
    ensures Listed(ms, ss + [h], b)
  {
    UniqueStays(ms, a, b);
    UniqueStays(ss, a, b);
    UniqueSnoc(ss, b, h);
    hide UniqueSsrc;
  }

  lemma WithoutCount(xs: seq<Handle>, k: nat)
    requires k < |xs|
    ensures multiset(Without(xs, k)) == multiset(xs) - multiset{xs[k]}
  {
    assert xs == xs[..k] + [xs[k]] + xs[k + 1..];
  }

  lemma WithoutUnique(xs: seq<Handle>, heap: Heap, k: nat)
    requires UniqueSsrc(xs, heap) && k < |xs|
    ensures UniqueSsrc(Without(xs, k), heap)
    ensures forall h :: h in Without(xs, k) <==> h in xs && heap[h].ssrc != heap[xs[k]].ssrc
  {
    var r := Without(xs, k);
    forall i | 0 <= i < |r| ensures r[i] == xs[if i < k then i else i + 1] {
    }
    forall h | h in xs && heap[h].ssrc != heap[xs[k]].ssrc ensures h in r {
      var i :| 0 <= i < |xs| && xs[i] == h;
      assert r[if i < k then i else i - 1] == h;
    }
  }

  // --- every call keeps the invariant -----------------------------------------------------

  lemma NewIsSound(ssrc: U32)
    ensures Inv(NewContext(ssrc))
  {
    var w := NewContext(ssrc);
    assert w == World([0], [], 0, map[0 := Rec(ssrc, 2)], [], 1);
    assert Refs(w) == multiset{0, 0};
    assert Owed(w.heap, Refs(w));
    assert FreedOnce(w.heap, w.freed, w.next);
    assert UniqueSsrc(w.members, w.heap) && UniqueSsrc(w.senders, w.heap);
  }

  ghost function Enrolled(w: World, ssrc: U32): World {
    Release(JoinMembers(Create(w, ssrc), w.next), w.next)
  }

  lemma EnrolledIs(w: World, ssrc: U32)
    ensures Enrolled(w, ssrc)
         == w.(members := w.members + [w.next], heap := w.heap[w.next := Rec(ssrc, 1)], next := w.next + 1)
  {
    var h := w.next;
    assert w.heap[h := Rec(ssrc, 1)][h := Rec(ssrc, 2)][h := Rec(ssrc, 1)] == w.heap[h := Rec(ssrc, 1)];
  }

  lemma EnrolledCounts(w: World, ssrc: U32)
    requires Counted(w, Refs(w))
    ensures Counted(Enrolled(w, ssrc), Refs(Enrolled(w, ssrc))) && w.next !in w.heap
  {
    hide Owed, FreedOnce;
    EnrolledIs(w, ssrc);
    CreateCounts(w, Refs(w), ssrc);
    assert Refs(Enrolled(w, ssrc)) == Refs(w) + multiset{w.next};
    assert Enrolled(w, ssrc).heap == Create(w, ssrc).heap;
  }

  lemma FetchMemberKeeps(w: World, ssrc: U32)
    requires Inv(w)
    ensures Inv(FetchMember(w, ssrc).0)
    ensures var (n, h) := FetchMember(w, ssrc); h in n.members && h in n.heap && n.heap[h].ssrc == ssrc
                                                && Keeps(w.heap, n.heap)
  {
    hide Owed, FreedOnce, UniqueSsrc;
    if Index(w.members, w.heap, ssrc) == |w.members| {
      EnrolledCounts(w, ssrc);
      EnrolledIs(w, ssrc);
      assert Enrolled(w, ssrc) == FetchMember(w, ssrc).0;
      NewMemberListed(w.members, w.senders, w.heap, w.next, ssrc);
      hide Counted, FetchMember, Enrolled, Listed;
    }
  }

  /** A member that is not yet a sender becomes one. */
  lemma JoinSendersKeeps(w: World, h: Handle)
    requires Inv(w) && h in w.heap && h in w.members
    requires forall i :: 0 <= i < |w.senders| ==> w.heap[w.senders[i]].ssrc != w.heap[h].ssrc
    ensures Inv(JoinSenders(w, h))
  {
    hide Owed, FreedOnce, UniqueSsrc;
    var n := JoinSenders(w, h);
    AddRefCounts(w, Refs(w), h);
    assert Refs(n) == Refs(w) + multiset{h};
    NewSenderListed(w.members, w.senders, w.heap, n.heap, h);
  }

  lemma FetchSenderKeeps(w: World, ssrc: U32)
    requires Inv(w)
    ensures Inv(FetchSender(w, ssrc).0)
    ensures var (n, h) := FetchSender(w, ssrc); h in n.senders && h in n.members && n.heap[h].ssrc == ssrc
  {
    hide Counted;
    if Index(w.senders, w.heap, ssrc) == |w.senders| {
      FetchMemberKeeps(w, ssrc);
      hide FetchMember;
      var (w1, h) := FetchMember(w, ssrc);
      assert forall i :: 0 <= i < |w.senders| ==> w1.heap[w.senders[i]].ssrc != ssrc;
      hide Inv;
      JoinSendersKeeps(w1, h);
    }
  }

  // --- BYE --------------------------------------------------------------------------------

  lemma TakeOne(a: multiset<Handle>, rest: multiset<Handle>, x: Handle)
    requires x in a
    ensures (a - multiset{x}) + rest == a + rest - multiset{x}
  {
  }

  lemma RefsWithoutMember(w: World, k: nat)
    requires k < |w.members|
    ensures Refs(w.(members := Without(w.members, k))) == Refs(w) - multiset{w.members[k]}
    ensures w.members[k] in Refs(w)
  {
    hide Without;
    var rest := multiset(w.senders) + multiset{w.self};
    WithoutCount(w.members, k);
    TakeOne(multiset(w.members), rest, w.members[k]);
    assert Refs(w) == multiset(w.members) + rest;
  }

  lemma RefsWithoutSender(w: World, k: nat)
    requires k < |w.senders|
    ensures Refs(w.(senders := Without(w.senders, k))) == Refs(w) - multiset{w.senders[k]}
    ensures w.senders[k] in Refs(w)
  {
    hide Without;
    var rest := multiset(w.members) + multiset{w.self};
    WithoutCount(w.senders, k);
    TakeOne(multiset(w.senders), rest, w.senders[k]);
    assert Refs(w) == multiset(w.senders) + rest;
  }

  lemma ReleaseShrinks(w: World, h: Handle)
    requires h in w.heap
    ensures Refs(Release(w, h)) == Refs(w) && Shrinks(w.heap, Release(w, h).heap)
    ensures Release(w, h).members == w.members && Release(w, h).senders == w.senders
  {
  }

  lemma CountedHeap(w: World, v: World, refs: multiset<Handle>)
    requires Counted(w, refs) && v.heap == w.heap && v.freed == w.freed && v.next == w.next
    ensures Counted(v, refs)
  {
    hide Owed, FreedOnce;
  }

  /** Leaving a list gives its reference back and takes out one entry. */
  lemma LeaveMembersIs(w: World, ssrc: U32)
    requires Counted(w, Refs(w))
    ensures var n := LeaveMembers(w, ssrc);
            Counted(n, Refs(n)) && n.senders == w.senders && Shrinks(w.heap, n.heap)
            && n.members == Without(w.members, Index(w.members, w.heap, ssrc))
  {
    hide Counted, Refs, Index, Release;
    var k := Index(w.members, w.heap, ssrc);
    if k < |w.members| {
      hide Without;
      var v := w.(members := Without(w.members, k));
      RefsWithoutMember(w, k);
      CountedHeap(w, v, Refs(w));
      ReleaseCounts(v, Refs(w), w.members[k]);
      ReleaseShrinks(v, w.members[k]);
    }
  }

  lemma LeaveSendersIs(w: World, ssrc: U32)
    requires Counted(w, Refs(w))
    ensures var n := LeaveSenders(w, ssrc);
            Counted(n, Refs(n)) && n.members == w.members && Shrinks(w.heap, n.heap)
            && n.senders == Without(w.senders, Index(w.senders, w.heap, ssrc))
  {
    hide Counted, Refs, Index, Release;
    var k := Index(w.senders, w.heap, ssrc);
    if k < |w.senders| {
      hide Without;
      var v := w.(senders := Without(w.senders, k));
      RefsWithoutSender(w, k);
      CountedHeap(w, v, Refs(w));
      ReleaseCounts(v, Refs(w), w.senders[k]);
      ReleaseShrinks(v, w.senders[k]);
    }
  }

  /** Exactly the entry with this SSRC goes. */
  lemma LeaveOne(xs: seq<Handle>, heap: Heap, ssrc: U32)
    requires UniqueSsrc(xs, heap)
    ensures var r := Without(xs, Index(xs, heap, ssrc));
            UniqueSsrc(r, heap) && forall h :: h in r <==> h in xs && heap[h].ssrc != ssrc
  {
    var k := Index(xs, heap, ssrc);
    hide Index;
    if k < |xs| {
      WithoutUnique(xs, heap, k);
      hide UniqueSsrc, Without;
    } else {
      assert Without(xs, k) == xs;
    }
  }

  lemma ListedAreLive(w: World, h: Handle)
    requires Counted(w, Refs(w)) && (h in w.members || h in w.senders)
    ensures h in w.heap
  {
    hide FreedOnce;
    assert h in Refs(w);
  }

  /** `b` has no members that `a` has not, and the same SSRCs. */
  ghost predicate Shrinks(a: Heap, b: Heap) {
    forall h :: h in b ==> h in a && b[h].ssrc == a[h].ssrc
  }

  lemma LeftUnique(xs: seq<Handle>, w: World, n: World)
    requires UniqueSsrc(xs, w.heap) && Shrinks(w.heap, n.heap)
    requires Counted(n, Refs(n)) && (xs == n.members || xs == n.senders)
    ensures UniqueSsrc(xs, n.heap)
  {
    hide Counted, UniqueSsrc;
    forall h | h in xs ensures h in n.heap {
      ListedAreLive(n, h);
    }
    UniqueStays(xs, w.heap, n.heap);
  }

  /** A BYE keeps the invariant and takes away exactly the members with its SSRC. */
  lemma ByeKeeps(w: World, ssrc: U32)
    requires Inv(w)
    ensures Inv(Bye(w, ssrc))
    ensures forall h :: h in Bye(w, ssrc).members <==> h in w.members && w.heap[h].ssrc != ssrc
    ensures forall h :: h in Bye(w, ssrc).senders <==> h in w.senders && w.heap[h].ssrc != ssrc
  {
    hide LeaveMembers, LeaveSenders, Counted, UniqueSsrc, Without, Index, Refs, Release;
    var v, n := LeaveMembers(w, ssrc), Bye(w, ssrc);
    LeaveMembersIs(w, ssrc);
    LeaveOne(w.members, w.heap, ssrc);
    LeftUnique(v.members, w, v);
    LeftUnique(v.senders, w, v);
    LeaveSendersIs(v, ssrc);
    LeaveOne(v.senders, v.heap, ssrc);
    LeftUnique(n.members, v, n);
    LeftUnique(n.senders, v, n);
    forall h | h in w.senders ensures h in v.heap && v.heap[h].ssrc == w.heap[h].ssrc {
      ListedAreLive(v, h);
    }
  }

  // --- the end ----------------------------------------------------------------------------

  lemma {:induction false} ReleaseAllCounts(w: World, hs: seq<Handle>, rest: multiset<Handle>)
    requires Counted(w, multiset(hs) + rest)
    ensures Counted(ReleaseAll(w, hs), rest)
    ensures ReleaseAll(w, hs).members == w.members && ReleaseAll(w, hs).senders == w.senders
    ensures ReleaseAll(w, hs).self == w.self && ReleaseAll(w, hs).next == w.next
  {
    hide Owed, FreedOnce;
    if hs == [] {
      assert multiset(hs) + rest == rest;
    } else {
      var earlier, h := hs[..|hs| - 1], hs[|hs| - 1];
      assert hs == earlier + [h];
      assert multiset(hs) + rest == multiset(earlier) + (multiset{h} + rest);
      ReleaseAllCounts(w, earlier, multiset{h} + rest);
      ReleaseCounts(ReleaseAll(w, earlier), multiset{h} + rest, h);
      assert multiset{h} + rest - multiset{h} == rest;
    }
  }

  /** The references left at each step of `rtp_destroy`. */
  lemma {:induction false} DestroyInSteps(w: World)
    requires Inv(w)
    ensures var a := ReleaseAll(w, w.members);
            var b := ReleaseAll(a, w.senders);
            Counted(w, multiset(w.members) + (multiset(w.senders) + multiset{w.self}))
            && Counted(a, multiset(w.senders) + multiset{w.self}) && a.senders == w.senders
            && Counted(b, multiset{w.self}) && b.self == w.self && b.next == w.next
            && w.self in b.heap && Counted(Release(b, w.self), multiset{})
  {
    var a := ReleaseAll(w, w.members);
    var b := ReleaseAll(a, w.senders);
    hide Owed, FreedOnce, ReleaseAll, Listed;
    assert Refs(w) == multiset(w.members) + (multiset(w.senders) + multiset{w.self});
    ReleaseAllCounts(w, w.members, multiset(w.senders) + multiset{w.self});
    ReleaseAllCounts(a, w.senders, multiset{w.self});
    ReleaseCounts(b, multiset{w.self}, w.self);
    assert multiset{w.self} - multiset{w.self} == multiset{};
  }

  /** Destroying a context frees every member it ever created, each exactly once. */
  lemma DestroyFreesAll(w: World)
    requires Inv(w)
    ensures var n := Destroy(w);
            n.heap == map[] && n.next == w.next
            && (forall i, j :: 0 <= i < j < |n.freed| ==> n.freed[i] != n.freed[j])
            && (forall h: Handle :: h in n.freed <==> h < w.next)
  {
    var b := ReleaseAll(ReleaseAll(w, w.members), w.senders);
    DestroyInSteps(w);
    assert ReleaseAll(b, [w.self]) == Release(b, w.self) by { ReleaseOne(b, w.self); }
    hide Counted, ReleaseAll;
    NothingLeft(Release(b, w.self));
  }

  lemma {:induction false} ReleaseOne(w: World, h: Handle)
    requires h in w.heap
    ensures ReleaseAll(w, [h]) == Release(w, h)
  {
    hide Release;
    assert [h][..0] == [];
  }

  lemma NothingLeft(c: World)
    requires Counted(c, multiset{})
    ensures c.heap == map[]
    ensures forall i, j :: 0 <= i < j < |c.freed| ==> c.freed[i] != c.freed[j]
    ensures forall h: Handle :: h in c.freed <==> h < c.next
  {
    assert forall h :: h !in c.heap;
  }

  // --- failed allocations -----------------------------------------------------------------

  /** A member that the list could not take: the creator's reference was the only one. */
  function Dropped(w: World): World { w.(freed := w.freed + [w.next], next := w.next + 1) }

  /** `rtp_member_fetch` where the member can or cannot be created, and the list can or cannot grow. The
      failed growth goes unnoticed: the new member is released, and handed out all the same. */
  function TryFetchMember(w: World, ssrc: U32, createOk: bool, growOk: bool): (r: (World, Option<Handle>)) {
    var k := Index(w.members, w.heap, ssrc);
    if k < |w.members| then (w, Some(w.members[k]))
    else if !createOk then (w, None)
    else if growOk then (FetchMember(w, ssrc).0, Some(w.next))
    else (Dropped(w), Some(w.next))
  }

  /** `rtp_sender_fetch`, up to the point where it would write to a freed member. */
  function TryFetchSender(w: World, ssrc: U32, createOk: bool, growOk: bool, joinOk: bool)
    : (r: (World, Option<Handle>))
  {
    var k := Index(w.senders, w.heap, ssrc);
    if k < |w.senders| then (w, Some(w.senders[k]))
    else
      var (w1, h) := TryFetchMember(w, ssrc, createOk, growOk);
      if h.Some? && h.value in w1.heap && joinOk then (JoinSenders(w1, h.value), h) else (w1, h)
  }

  /** Exactly when a fetch hands out a freed member: a new one was created and its list could not grow. */
  lemma FetchIsLiveIff(w: World, ssrc: U32, createOk: bool, growOk: bool)
    requires Inv(w)
    ensures var (n, h) := TryFetchMember(w, ssrc, createOk, growOk);
            && Inv(n)
            && (h.None? <==> Index(w.members, w.heap, ssrc) == |w.members| && !createOk)
            && (h.Some? ==>
                 && (h.value in n.heap <==> Index(w.members, w.heap, ssrc) < |w.members| || growOk)
                 && (h.value in n.heap ==> h.value in n.members && n.heap[h.value].ssrc == ssrc)
                 && (h.value !in n.heap ==> h.value in n.freed))
  {
    FetchMemberKeeps(w, ssrc);
    if Index(w.members, w.heap, ssrc) == |w.members| && createOk && !growOk {
      DroppedKeeps(w);
    }
    hide FetchMember, UniqueSsrc, Owed, FreedOnce, Index;
  }

  lemma DroppedKeeps(w: World)
    requires Inv(w)
    ensures Inv(Dropped(w)) && w.next !in Dropped(w).heap && w.next in Dropped(w).freed
  {
    hide UniqueSsrc, Owed;
    var n := Dropped(w);
    assert w.next !in w.heap && w.next !in w.freed;
    assert forall i :: 0 <= i < |w.freed| ==> n.freed[i] == w.freed[i];
    assert n.freed[|w.freed|] == w.next;
  }

  lemma FetchSenderTried(w: World, ssrc: U32, createOk: bool, growOk: bool, joinOk: bool)
    requires Inv(w)
    ensures Inv(TryFetchSender(w, ssrc, createOk, growOk, joinOk).0)
  {
    FetchIsLiveIff(w, ssrc, createOk, growOk);
    hide TryFetchMember, Counted, UniqueSsrc;
    if Index(w.senders, w.heap, ssrc) == |w.senders| {
      var (w1, h) := TryFetchMember(w, ssrc, createOk, growOk);
      if h.Some? && h.value in w1.heap && joinOk {
        SendersUntouched(w, ssrc, createOk, growOk);
        hide Inv, Index;
        JoinSendersKeeps(w1, h.value);
      }
    }
  }

  lemma SendersUntouched(w: World, ssrc: U32, createOk: bool, growOk: bool)
    requires Inv(w) && Index(w.senders, w.heap, ssrc) == |w.senders|
    ensures var w1 := TryFetchMember(w, ssrc, createOk, growOk).0;
            && w1.senders == w.senders
            && forall i :: 0 <= i < |w1.senders| ==> w1.senders[i] in w1.heap && w1.heap[w1.senders[i]].ssrc != ssrc
  {
    FetchMemberKeeps(w, ssrc);
    hide FetchMember, Counted;
  }

  // --- every run --------------------------------------------------------------------------

  /** An RTP packet, an RTCP report or one source of a BYE, and which allocations succeed. */
  datatype Event =
    | Rtp(ssrc: U32, createOk: bool, growOk: bool, joinOk: bool)
    | Rtcp(ssrc: U32, createOk: bool, growOk: bool)
    | Goodbye(ssrc: U32)

  function Next(w: World, e: Event): World {
    match e
    case Rtp(ssrc, createOk, growOk, joinOk) => TryFetchSender(w, ssrc, createOk, growOk, joinOk).0
    case Rtcp(ssrc, createOk, growOk) => TryFetchMember(w, ssrc, createOk, growOk).0
    case Goodbye(ssrc) => Bye(w, ssrc)
  }

  function Run(own: U32, es: seq<Event>): World {
    if es == [] then NewContext(own) else Next(Run(own, es[..|es| - 1]), es[|es| - 1])
  }

  /** In every run, whichever allocations fail: SSRCs stay unique in each list, every sender is a member,
      each reference count is the number of lists that hold the member, plus one for the context's own;
      and destroying the context frees each member ever created exactly once. What a caller does to a freed
      member it was handed is left out. */
  lemma {:induction false} RunKeeps(own: U32, es: seq<Event>)
    ensures Inv(Run(own, es))
    ensures var n := Destroy(Run(own, es));
            n.heap == map[] && (forall i, j :: 0 <= i < j < |n.freed| ==> n.freed[i] != n.freed[j])
            && (forall h: Handle :: h in n.freed <==> h < Run(own, es).next)
  {
    hide Inv, Destroy, NewContext, TryFetchMember, TryFetchSender, Bye;
    if es == [] {
      NewIsSound(own);
    } else {
      var w := Run(own, es[..|es| - 1]);
      RunKeeps(own, es[..|es| - 1]);
      match es[|es| - 1] {
        case Rtp(ssrc, createOk, growOk, joinOk) => FetchSenderTried(w, ssrc, createOk, growOk, joinOk);
        case Rtcp(ssrc, createOk, growOk) => FetchIsLiveIff(w, ssrc, createOk, growOk);
        case Goodbye(ssrc) => ByeKeeps(w, ssrc);
      }
    }
    DestroyFreesAll(Run(own, es));
  }

  /** The reference count, spelled out. */
  lemma {:induction false} RefIsMemberships(own: U32, es: seq<Event>, h: Handle)
    requires h in Run(own, es).heap
    ensures var w := Run(own, es);
            w.heap[h].ref == (if h in w.members then 1 else 0) + (if h in w.senders then 1 else 0)
                             + (if h == w.self then 1 else 0)
  {
    RunKeeps(own, es);
    var w := Run(own, es);
    hide Run;
    OnceInUnique(w.members, w.heap, h);
    OnceInUnique(w.senders, w.heap, h);
  }

  lemma {:induction false} OnceInUnique(xs: seq<Handle>, heap: Heap, h: Handle)
    requires UniqueSsrc(xs, heap)
    ensures multiset(xs)[h] == if h in xs then 1 else 0
  {
    if xs != [] {
      var front, last := xs[..|xs| - 1], xs[|xs| - 1];
      assert xs == front + [last];
      assert multiset(xs) == multiset(front) + multiset{last};
      assert forall i :: 0 <= i < |front| ==> front[i] == xs[i];
      assert forall i :: 0 <= i < |front| ==> front[i] != last;
      OnceInUnique(front, heap, h);
    }
  }
}
