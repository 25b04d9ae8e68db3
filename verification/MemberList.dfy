/** The member list of lib/librtp/source/rtp-member-list.c: two inline slots, then a heap array that
    grows by eight. It behaves as one sequence of members. */
module MemberList {
  import opened Bytes

  /** A pointer to a member, and what the member holds. */
  type Handle = nat
  type RefCount = x: int | 0 < x witness 1
  datatype Rec = Rec(ssrc: U32, ref: RefCount)
  type Heap = map<Handle, Rec>

  const N_SOURCE := 2

  /** The first position at or after `i` of a member with this SSRC, or the length. */
  function IndexFrom(xs: seq<Handle>, heap: Heap, ssrc: U32, i: nat): (k: nat)
    requires i <= |xs|
    ensures i <= k <= |xs|
    ensures k < |xs| ==> xs[k] in heap && heap[xs[k]].ssrc == ssrc
    ensures forall j :: i <= j < k ==> !(xs[j] in heap && heap[xs[j]].ssrc == ssrc)
    decreases |xs| - i
  {
    if i == |xs| then i
    else if xs[i] in heap && heap[xs[i]].ssrc == ssrc then i
    else IndexFrom(xs, heap, ssrc, i + 1)
  }

  function Index(xs: seq<Handle>, heap: Heap, ssrc: U32): (k: nat)
    ensures k <= |xs|
    ensures k < |xs| ==> xs[k] in heap && heap[xs[k]].ssrc == ssrc
    ensures forall j :: 0 <= j < k ==> !(xs[j] in heap && heap[xs[j]].ssrc == ssrc)
  {
    IndexFrom(xs, heap, ssrc, 0)
  }

  lemma UnfoldIndex(xs: seq<Handle>, heap: Heap, ssrc: U32, i: nat)
    requires i < |xs|
    ensures IndexFrom(xs, heap, ssrc, i)
         == if xs[i] in heap && heap[xs[i]].ssrc == ssrc then i else IndexFrom(xs, heap, ssrc, i + 1)
  {
  }

  function Without(xs: seq<Handle>, k: nat): (r: seq<Handle>) {
    if k < |xs| then xs[..k] + xs[k + 1..] else xs
  }

  class List {
    var inl: array<Handle>
    var ptr: array<Handle>
    var count: nat
    var capacity: nat

    ghost predicate Valid()
      reads this
    {
      inl.Length == N_SOURCE && ptr.Length == capacity && count <= N_SOURCE + capacity && inl != ptr
    }

    ghost function Contents(): (s: seq<Handle>)
      reads this, inl, ptr
      requires Valid()
      ensures |s| == count
    {
      if count <= N_SOURCE then inl[..count] else inl[..] + ptr[..count - N_SOURCE]
    }

    constructor ()
      ensures Valid() && Contents() == [] && fresh(inl) && fresh(ptr)
    {
      inl := new Handle[N_SOURCE];
      ptr := new Handle[0];
      count, capacity := 0, 0;
    }

    method Slot(i: nat) returns (h: Handle)
      requires Valid() && i < count
      ensures h == Contents()[i]
    {
      h := if i >= N_SOURCE then ptr[i - N_SOURCE] else inl[i];
    }

    method Get(index: int) returns (h: Option<Handle>)
      requires Valid()
      ensures h == if 0 <= index < |Contents()| then Some(Contents()[index]) else None
    {
      if index >= count || index < 0 {
        return None;
      }
      var x := Slot(index);
      return Some(x);
    }

    method Find(heap: Heap, ssrc: U32) returns (h: Option<Handle>)
      requires Valid()
      requires forall x :: x in Contents() ==> x in heap
      ensures var k := Index(Contents(), heap, ssrc);
              h == if k < count then Some(Contents()[k]) else None
    {
      ghost var xs := Contents();
      hide List.Contents, IndexFrom;
      for i := 0 to count
        invariant Index(xs, heap, ssrc) == IndexFrom(xs, heap, ssrc, i)
      {
        UnfoldIndex(xs, heap, ssrc, i);
        var s := Slot(i);
        if heap[s].ssrc == ssrc {
          return Some(s);
        }
      }
      return None;
    }

    /** `realloc` to eight more slots. */
    method Grow()
      requires Valid()
      modifies this`ptr, this`capacity
      ensures Valid() && fresh(ptr) && inl == old(inl) && count == old(count)
      ensures capacity == old(capacity) + 8
      ensures ptr[..old(capacity)] == old(ptr[..])
    {
      var bigger := new Handle[capacity + 8];
      forall j | 0 <= j < capacity {
        bigger[j] := ptr[j];
      }
      ptr, capacity := bigger, capacity + 8;
    }

    /** The next member needs no new storage. */
    predicate Room()
      reads this
    {
      count < N_SOURCE + capacity
    }

    /** False is the failed `realloc`: the list stays as it was. */
    method Add(h: Handle, allocOk: bool) returns (ok: bool)
      requires Valid()
      modifies this, inl, ptr
      ensures Valid() && inl == old(inl) && (ptr == old(ptr) || fresh(ptr))
      ensures ok == (allocOk || old(Room()))
      ensures Contents() == old(Contents()) + (if ok then [h] else [])
    {
      if count >= N_SOURCE {
        if count - N_SOURCE >= capacity {
          if !allocOk {
            return false;
          }
          Grow();
        }
        ptr[count - N_SOURCE] := h;
      } else {
        inl[count] := h;
      }
      count := count + 1;
      return true;
    }

    ghost function At(i: nat): Handle
      reads this, inl, ptr
      requires Valid() && i < count
    {
      if i < N_SOURCE then inl[i] else ptr[i - N_SOURCE]
    }

    /** `memmove` of the heap part down by one, from slot `first` on. */
    method ShiftHeap(first: nat)
      requires Valid() && N_SOURCE + first < count
      modifies ptr
      ensures forall j :: 0 <= j < ptr.Length ==>
                ptr[j] == if first <= j < count - N_SOURCE - 1 then old(ptr[j + 1]) else old(ptr[j])
    {
      forall j | first <= j < count - N_SOURCE - 1 {
        ptr[j] := ptr[j + 1];
      }
    }

    /** Closes the gap at `i`: in the inline part the first heap slot moves up. */
    method Shift(i: nat)
      requires Valid() && i < count
      modifies inl, ptr
      ensures forall j :: 0 <= j < count - 1 ==> At(j) == if j < i then old(At(j)) else old(At(j + 1))
    {
      if i < N_SOURCE {
        if i + 1 < N_SOURCE {
          inl[0] := inl[1];
        }
        if count > N_SOURCE {
          inl[N_SOURCE - 1] := ptr[0];
          ShiftHeap(0);
        }
      } else if i + 1 < count {
        ShiftHeap(i - N_SOURCE);
      }
    }

    lemma ContentsAt(s: seq<Handle>)
      requires Valid() && |s| == count && forall j :: 0 <= j < count ==> s[j] == At(j)
      ensures s == Contents()
    {
    }

    lemma AtContents()
      requires Valid()
      ensures forall j :: 0 <= j < count ==> Contents()[j] == At(j)
    {
    }

    method CloseGap(i: nat)
      requires Valid() && i < count
      modifies this`count, inl, ptr
      ensures Valid() && count == old(count) - 1
      ensures Contents() == Without(old(Contents()), i)
    {
      hide List.Contents;
      ghost var was := Contents();
      AtContents();
      assert forall j :: 0 <= j < count ==> was[j] == At(j);
      Shift(i);
      assert forall j :: 0 <= j < count - 1 ==> At(j) == Without(was, i)[j];
      count := count - 1;
      assert forall j :: 0 <= j < count ==> At(j) == Without(was, i)[j];
      ContentsAt(Without(was, i));
    }

    /** Takes the first member with this SSRC out and returns it. */
    method Delete(heap: Heap, ssrc: U32) returns (h: Option<Handle>)
      requires Valid()
      requires forall x :: x in Contents() ==> x in heap
      modifies this`count, inl, ptr
      ensures Valid()
      ensures var k := Index(old(Contents()), heap, ssrc);
              Contents() == Without(old(Contents()), k)
              && h == if k < old(count) then Some(old(Contents())[k]) else None
    {
      var i := 0;
      while i < count
        invariant i <= count && count == old(count) && Contents() == old(Contents())
        invariant Index(Contents(), heap, ssrc) == IndexFrom(Contents(), heap, ssrc, i)
      {
        var s := Slot(i);
        if heap[s].ssrc == ssrc {
          CloseGap(i);
          return Some(s);
        }
        i := i + 1;
      }
      return None;
    }
  }
}
