/** An RTP context over its two member lists: lib/librtp/source/rtcp.c, rtp.c and rtcp-bye.c, step by
    step, against the value-level account in RtpMembers. */
module RtpContext {
  import opened Bytes
  import opened MemberList
  import opened RtpMembers

  class Context {
    const members: List
    const senders: List
    var self: Handle
    var heap: Heap
    var freed: seq<Handle>
    var next: nat

    ghost function Repr(): set<object>
      reads this, members, senders
    {
      {this, members, senders, members.inl, members.ptr, senders.inl, senders.ptr}
    }

    /** The two lists share no storage. */
    ghost predicate Apart()
      reads this, members, senders
    {
      members != senders && members.Valid() && senders.Valid()
      && members.inl != senders.inl && members.inl != senders.ptr
      && members.ptr != senders.inl && members.ptr != senders.ptr
    }

    ghost function Value(): World
      reads this, members, senders, members.inl, members.ptr, senders.inl, senders.ptr
      requires Apart()
    {
      World(members.Contents(), senders.Contents(), self, heap, freed, next)
    }

    ghost predicate Valid()
      reads this, members, senders, members.inl, members.ptr, senders.inl, senders.ptr
    {
      Apart() && Inv(Value())
    }

    method AddRef(h: Handle)
      requires h in heap
      modifies this`heap
      ensures heap == old(heap)[h := old(heap)[h].(ref := old(heap)[h].ref + 1)]
    {
      heap := heap[h := heap[h].(ref := heap[h].ref + 1)];
    }

    method Release(h: Handle)
      requires h in heap
      modifies this`heap, this`freed
      ensures heap == (if old(heap)[h].ref == 1 then old(heap) - {h}
                       else old(heap)[h := old(heap)[h].(ref := old(heap)[h].ref - 1)])
      ensures freed == old(freed) + (if old(heap)[h].ref == 1 then [h] else [])
    {
      var left := heap[h].ref - 1;
      if left == 0 {
        heap := heap - {h};
        freed := freed + [h];
      } else {
        heap := heap[h := heap[h].(ref := left)];
      }
    }

    constructor (ssrc: U32)
      ensures Valid() && fresh(Repr())
      ensures Value() == NewContext(ssrc)
    {
      members := new List();
      senders := new List();
      self, heap, freed, next := 0, map[0 := Rec(ssrc, 1)], [], 1;
      new;
      hide Inv, List.Contents, NewContext;
      assert Value() == World([], [], 0, map[0 := Rec(ssrc, 1)], [], 1);
      ListSelf();
      NewIsSound(ssrc);
      NewContextIs(ssrc);
    }

    /** The context's own member is listed; the inline slots have room for it. */
    method ListSelf()
      requires Apart() && members.Room() && self in heap
      modifies this`heap, members, members.inl, members.ptr
      ensures Apart() && (members.ptr == old(members.ptr) || fresh(members.ptr)) && members.inl == old(members.inl)
      ensures Value() == JoinMembers(old(Value()), self)
    {
      hide List.Contents, List.At;
      var listed := members.Add(self, true);
      AddRef(self);
    }

    /** A new member: its creator's reference is dropped whether or not the list has one. */
    method Enrol(ssrc: U32, growOk: bool) returns (h: Handle)
      requires Apart() && next !in heap
      modifies this, members, members.inl, members.ptr
      ensures Apart() && (members.ptr == old(members.ptr) || fresh(members.ptr)) && members.inl == old(members.inl)
      ensures h == old(next)
      ensures Value() == if growOk || old(members.Room()) then Enrolled(old(Value()), ssrc) else Dropped(old(Value()))
    {
      hide List.Contents, List.At;
      ghost var w := Value();
      h := next;
      heap, next := heap[h := Rec(ssrc, 1)], next + 1;
      var listed := members.Add(h, growOk);
      if listed {
        AddRef(h);
      }
      Release(h);
      if listed {
        EnrolledIs(w, ssrc);
        assert heap == w.heap[h := Rec(ssrc, 1)];
      } else {
        assert w.members + [] == w.members;
        assert heap == w.heap;
      }
    }

    /** `rtp_member_fetch`, with the assertion that a stranger is no sender either. */
    method MemberFetch(ssrc: U32, createOk: bool, growOk: bool) returns (h: Option<Handle>)
      requires Valid()
      modifies Repr()
      ensures Valid() && fresh(Repr() - old(Repr()))
      ensures (Value(), h) == TryFetchMember(old(Value()), ssrc, createOk, growOk || old(members.Room()))
      ensures senders.inl == old(senders.inl) && senders.ptr == old(senders.ptr)
      ensures senders.Room() == old(senders.Room())
    {
      hide Inv, Index, FetchMember, List.Contents;
      ghost var w := Value();
      FetchIsLiveIff(w, ssrc, createOk, growOk || members.Room());
      ListsLive(w);
      UnfoldFetchMember(w, ssrc);
      var p := members.Find(heap, ssrc);
      if p.Some? {
        return p;
      }
      var q := senders.Find(heap, ssrc);
      assert q.None? by { StrangerIsNoSender(w, ssrc); }
      if !createOk {
        return None;
      }
      NextIsNew(w);
      var x := Enrol(ssrc, growOk);
      return Some(x);
    }

    /** `rtp_sender_fetch`; it ends early where the code would go on with a freed member. */
    method SenderFetch(ssrc: U32, createOk: bool, growOk: bool, joinOk: bool) returns (h: Option<Handle>)
      requires Valid()
      modifies Repr()
      ensures Valid() && fresh(Repr() - old(Repr()))
      ensures (Value(), h) == TryFetchSender(old(Value()), ssrc, createOk, growOk || old(members.Room()),
                                             joinOk || old(senders.Room()))
    {
      hide Inv, Index, TryFetchMember, List.Contents, List.At;
      ghost var w := Value();
      FetchSenderTried(w, ssrc, createOk, growOk || members.Room(), joinOk || senders.Room());
      ListsLive(w);
      h := senders.Find(heap, ssrc);
      if h.Some? {
        return;
      }
      h := MemberFetch(ssrc, createOk, growOk);
      if h.Some? && h.value in heap {
        Promote(h.value, joinOk);
      }
    }

    /** A member joins the senders, if their list can grow. */
    method Promote(h: Handle, joinOk: bool)
      requires Apart() && h in heap
      modifies this`heap, senders, senders.inl, senders.ptr
      ensures Apart() && (senders.ptr == old(senders.ptr) || fresh(senders.ptr)) && senders.inl == old(senders.inl)
      ensures Value() == if joinOk || old(senders.Room()) then JoinSenders(old(Value()), h) else old(Value())
    {
      hide List.Contents, List.At;
      var listed := senders.Add(h, joinOk);
      if listed {
        AddRef(h);
      }
    }

    method DropMember(ssrc: U32)
      requires Apart() && forall x :: x in members.Contents() ==> x in heap
      modifies this`heap, this`freed, members`count, members.inl, members.ptr
      ensures Apart() && Value() == LeaveMembers(old(Value()), ssrc)
    {
      hide List.Contents, List.At, Index;
      var h := members.Delete(heap, ssrc);
      if h.Some? {
        Release(h.value);
      }
    }

    method DropSender(ssrc: U32)
      requires Apart() && forall x :: x in senders.Contents() ==> x in heap
      modifies this`heap, this`freed, senders`count, senders.inl, senders.ptr
      ensures Apart() && Value() == LeaveSenders(old(Value()), ssrc)
    {
      hide List.Contents, List.At, Index;
      var h := senders.Delete(heap, ssrc);
      if h.Some? {
        Release(h.value);
      }
    }

    /** One source of a BYE leaves both lists. */
    method Goodbye(ssrc: U32)
      requires Valid()
      modifies Repr()
      ensures Valid() && fresh(Repr() - old(Repr()))
      ensures Value() == Bye(old(Value()), ssrc)
    {
      hide Inv, Index, LeaveMembers, LeaveSenders, List.Contents, List.At;
      ghost var w := Value();
      ByeKeeps(w, ssrc);
      ListsLive(w);
      DropMember(ssrc);
      SendersStillLive(w, ssrc);
      DropSender(ssrc);
    }

    /** `rtp_member_list_destroy`: every member of the list is released, in order. */
    method ReleaseList(list: List, ghost rest: multiset<Handle>)
      requires Apart() && (list == members || list == senders)
      requires Counted(Value(), multiset(list.Contents()) + rest)
      modifies this`heap, this`freed
      ensures Value() == ReleaseAll(old(Value()), list.Contents())
    {
      hide Counted, List.Contents, List.At, ReleaseAll;
      ghost var hs, w := list.Contents(), Value();
      ReleaseNone(w);
      for i := 0 to list.count
        invariant Value() == ReleaseAll(w, hs[..i])
      {
        ReleaseOneMore(w, hs, i, rest);
        var h := list.Slot(i);
        Release(h);
      }
      assert hs[..|hs|] == hs;
    }

    /** `rtp_destroy`: afterwards no member is left, and each was freed once. */
    method Destroy()
      requires Valid()
      modifies this
      ensures old(Value()).next == next && heap == map[]
      ensures forall i, j :: 0 <= i < j < |freed| ==> freed[i] != freed[j]
      ensures forall h: Handle :: h in freed <==> h < next
    {
      hide Inv, Counted, ReleaseAll, List.Contents, List.At, RtpMembers.Release;
      ghost var w := Value();
      DestroyInSteps(w);
      ReleaseList(members, multiset(w.senders) + multiset{w.self});
      ReleaseList(senders, multiset{w.self});
      ghost var b := Value();
      Release(self);
      ReleasedIs(b, w.self, heap, freed);
      NothingLeft(RtpMembers.Release(b, w.self));
    }
  }

  lemma NextIsNew(w: World)
    requires Inv(w)
    ensures w.next !in w.heap
  {
  }

  lemma SendersStillLive(w: World, ssrc: U32)
    requires Inv(w)
    ensures forall x :: x in LeaveMembers(w, ssrc).senders ==> x in LeaveMembers(w, ssrc).heap
  {
    hide Counted, LeaveMembers;
    LeaveMembersIs(w, ssrc);
    forall x | x in LeaveMembers(w, ssrc).senders ensures x in LeaveMembers(w, ssrc).heap {
      ListedAreLive(LeaveMembers(w, ssrc), x);
    }
  }

  lemma ReleasedIs(w: World, h: Handle, heap: Heap, freed: seq<Handle>)
    requires h in w.heap
    requires heap == if w.heap[h].ref == 1 then w.heap - {h} else w.heap[h := w.heap[h].(ref := w.heap[h].ref - 1)]
    requires freed == w.freed + (if w.heap[h].ref == 1 then [h] else [])
    ensures var n := RtpMembers.Release(w, h); n.heap == heap && n.freed == freed && n.next == w.next
  {
  }

  lemma ReleaseNone(w: World)
    ensures forall hs: seq<Handle> :: ReleaseAll(w, hs[..0]) == w
  {
  }

  lemma {:induction false} ReleaseOneMore(w: World, hs: seq<Handle>, i: nat, rest: multiset<Handle>)
    requires i < |hs| && Counted(w, multiset(hs) + rest)
    ensures hs[i] in ReleaseAll(w, hs[..i]).heap
    ensures ReleaseAll(w, hs[..i + 1]) == RtpMembers.Release(ReleaseAll(w, hs[..i]), hs[i])
  {
    var left := multiset(hs[i..]) + rest;
    assert hs == hs[..i] + hs[i..];
    assert multiset(hs) + rest == multiset(hs[..i]) + left;
    hide Counted;
    ReleaseAllCounts(w, hs[..i], left);
    assert hs[i] in hs[i..];
    ReleaseCounts(ReleaseAll(w, hs[..i]), left, hs[i]);
    assert hs[..i + 1][..i] == hs[..i];
  }

  lemma NewContextIs(ssrc: U32)
    ensures NewContext(ssrc) == JoinMembers(World([], [], 0, map[0 := Rec(ssrc, 1)], [], 1), 0)
  {
  }

  lemma ListsLive(w: World)
    requires Inv(w)
    ensures forall x :: x in w.members || x in w.senders ==> x in w.heap
  {
  }

  lemma UnfoldFetchMember(w: World, ssrc: U32)
    ensures FetchMember(w, ssrc) ==
            var k := Index(w.members, w.heap, ssrc);
            if k < |w.members| then (w, w.members[k]) else (Enrolled(w, ssrc), w.next)
  {
  }

  /** The assertion at the head of `rtp_member_fetch`. */
  lemma StrangerIsNoSender(w: World, ssrc: U32)
    requires Inv(w) && Index(w.members, w.heap, ssrc) == |w.members|
    ensures Index(w.senders, w.heap, ssrc) == |w.senders|
  {
    hide Counted, Index;
    var k := Index(w.senders, w.heap, ssrc);
    forall h | h in w.senders ensures w.heap[h].ssrc != ssrc {
      assert h in w.members;
    }
  }
}
