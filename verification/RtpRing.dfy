/** The reorder queue as lib/librtp/source/rtp-queue.c keeps it: a growing ring of items searched and
    shifted in place. Every operation is the one `RtpQueue` describes on the packets in order. */
module RtpRing {
  import opened Bytes
  import opened RtpQueue

  /** Index `i` counted from `pos` around a ring of `cap` slots. */
  function Slot(pos: nat, i: nat, cap: nat): (k: nat)
    requires pos < cap && i <= cap
    ensures k < cap
  {
    if pos + i < cap then pos + i else pos + i - cap
  }

  /** The `%` by the capacity, as the source indexes. */
  function Mod(i: nat, cap: nat): (k: nat)
    requires cap > 0
    ensures k < cap
  {
    i % cap
  }

  /** The source's index lands on the slot. */
  lemma SlotIsMod(pos: nat, i: nat, cap: nat)
    requires pos < cap && i <= cap
    ensures Mod(pos + i, cap) == Slot(pos, i, cap)
  {
    var x := pos + i;
    if x >= cap {
      ModUnique(x, cap, 1, x - cap);
    } else {
      ModUnique(x, cap, 0, x);
    }
  }

  lemma ModUnique(x: nat, m: nat, q: nat, r: nat)
    requires m > 0 && x == q * m + r && r < m && q <= 1
    ensures x % m == r
  {
    var d := x / m;
    assert x == d * m + x % m;
    assert d == q by {
      assert d * m <= x < (d + 1) * m;
      assert d >= 2 ==> d * m >= 2 * m;
    }
  }

  /** `c` is what a ring `a` holds from `pos` on. */
  ghost predicate Holds(a: seq<Pkt>, pos: nat, c: seq<Pkt>) {
    && |c| <= |a|
    && (|a| > 0 ==> pos < |a|) && (|a| == 0 ==> pos == 0)
    && forall i :: 0 <= i < |c| ==> c[i] == a[Slot(pos, i, |a|)]
  }

  lemma HoldsNothing(a: seq<Pkt>)
    ensures Holds(a, 0, [])
  {
  }

  lemma HoldsSize(a: seq<Pkt>, pos: nat, c: seq<Pkt>)
    requires Holds(a, pos, c)
    ensures |c| <= |a|
  {
  }

  /** Growing a full ring: slots before `pos` stay, the rest moves to the new end. */
  lemma GrowHolds(a: seq<Pkt>, pos: nat, c: seq<Pkt>, b: seq<Pkt>, shift: nat)
    requires Holds(a, pos, c) && |c| == |a| < |b|
    requires shift == (if pos + |c| > |a| then |b| - |a| else 0)
    requires forall i :: 0 <= i < |a| && (shift == 0 || i < pos) ==> b[i] == a[i]
    requires forall i :: 0 <= i < |a| && shift > 0 && pos <= i ==> b[i + shift] == a[i]
    ensures Holds(b, pos + shift, c)
  {
    forall i | 0 <= i < |c| ensures c[i] == b[Slot(pos + shift, i, |b|)] {
      assert c[i] == a[Slot(pos, i, |a|)];
    }
  }

  /** Half-way through the move: places below `j` as before, places above it one up. */
  ghost predicate Shifting(a: seq<Pkt>, pos: nat, c: seq<Pkt>, j: nat) {
    && pos < |a| && |c| < |a| && j <= |c|
    && (forall t :: 0 <= t < j ==> a[Slot(pos, t, |a|)] == c[t])
    && (forall t :: j < t <= |c| ==> a[Slot(pos, t, |a|)] == c[t - 1])
  }

  lemma StartShift(a: seq<Pkt>, pos: nat, c: seq<Pkt>)
    requires Holds(a, pos, c) && |c| < |a|
    ensures Shifting(a, pos, c, |c|) && pos < |a|
  {
    hide Slot;
  }

  lemma ShiftStep(a: seq<Pkt>, pos: nat, c: seq<Pkt>, j: nat)
    requires Shifting(a, pos, c, j) && j > 0
    ensures Shifting(a[Slot(pos, j, |a|) := a[Slot(pos, j - 1, |a|)]], pos, c, j - 1)
  {
  }

  lemma ShiftDone(a: seq<Pkt>, pos: nat, c: seq<Pkt>, k: nat, p: Pkt)
    requires Shifting(a, pos, c, k)
    ensures Holds(a[Slot(pos, k, |a|) := p], pos, c[..k] + [p] + c[k..])
  {
    var d := c[..k] + [p] + c[k..];
    var b := a[Slot(pos, k, |a|) := p];
    forall t | 0 <= t < |d| ensures d[t] == b[Slot(pos, t, |a|)] {
      if t > k { assert d[t] == c[t - 1]; }
    }
  }

  lemma SearchStep(items: seq<Pkt>, last: U16, seqno: U16, l: nat, r: nat)
    requires l <= r <= |items|
    ensures if l == r then BinarySearch(items, last, seqno, l, r) == l
            else var i := (l + r) / 2;
                 var v, vi := Mod16(last - seqno), Mod16(last - items[i].seqno);
                 BinarySearch(items, last, seqno, l, r)
                 == if vi == v then -1
                    else if vi < v then BinarySearch(items, last, seqno, l, i)
                    else BinarySearch(items, last, seqno, i + 1, r)
  {
    hide Mod16;
  }

  class Ring {
    var items: array<Pkt>
    var pos: nat
    var size: nat
    var probation: nat
    var lastSeq: U16
    var firstSeq: U16
    var badSeq: U16
    var bad: seq<Pkt>             // bad_items[0 .. bad_count]
    const threshold: I32
    const frequency: I32
    ghost var q: Queue            // the queue this ring stands for
    ghost var freed: seq<Pkt>     // packets handed to the free callback, in order
    ghost var lost: seq<Pkt>      // packets a resync had no room for

    ghost predicate Valid() reads this, items {
      && Holds(items[..], pos, q.items) && |q.items| == size
      && items.Length % 250 == 0 && items.Length <= MAX_PACKET
      && q == Queue(q.items, probation, lastSeq, firstSeq, bad, badSeq, threshold, frequency)
      && |bad| <= RTP_SEQUENTIAL
    }

    constructor (threshold: I32, frequency: I32)
      ensures Valid() && fresh(items) && q == Empty(threshold, frequency) && freed == [] && lost == []
    {
      items := new Pkt[0];
      pos, size, probation, lastSeq, firstSeq, badSeq, bad := 0, 0, 1, 0, 0, 0, [];
      this.threshold, this.frequency := threshold, frequency;
      q := Empty(threshold, frequency);
      freed, lost := [], [];
    }

    /** The item `i` places behind the read position. */
    method Item(i: nat) returns (p: Pkt)
      requires Valid() && i < size
      ensures p == q.items[i]
    {
      SlotIsMod(pos, i, items.Length);
      hide Mod, Slot;
      p := items[Mod(pos + i, items.Length)];
    }

    /** `rtp_queue_find`, as an offset from the read position. */
    method Find(seqno: U16) returns (k: int)
      requires Valid()
      ensures k == BinarySearch(q.items, lastSeq, seqno, 0, |q.items|)
    {
      hide Mod16, Holds, BinarySearch;
      var l, r := pos, pos + size;
      var v := Mod16(lastSeq - seqno);
      while l < r
        invariant pos <= l <= r <= pos + size
        invariant BinarySearch(q.items, lastSeq, seqno, 0, |q.items|)
                  == BinarySearch(q.items, lastSeq, seqno, l - pos, r - pos)
      {
        var i := (l + r) / 2;
        SearchStep(q.items, lastSeq, seqno, l - pos, r - pos);
        assert (l - pos + (r - pos)) / 2 == i - pos;
        var x := Item(i - pos);
        var vi := Mod16(lastSeq - x.seqno);
        if vi == v {
          return -1;
        } else if vi < v {
          r := i;
        } else {
          l := i + 1;
        }
      }
      SearchStep(q.items, lastSeq, seqno, l - pos, r - pos);
      return l - pos;
    }

    /** Room for one more item: 250 more slots, the wrapped part moved to the new end. */
    method Grow()
      requires Valid() && size >= items.Length && size < MAX_PACKET
      modifies this`items, this`pos
      ensures Valid() && fresh(items) && size < items.Length
    {
      HoldsSize(items[..], pos, q.items);
      hide Holds, Slot;
      var cap := items.Length;
      var capacity := cap + 250;
      var shift := if pos + size > cap then capacity - cap else 0;
      var fuller := Realloc(capacity, shift);
      GrowHolds(items[..], pos, q.items, fuller[..], shift);
      items := fuller;
      pos := pos + shift;
    }

    /** The `realloc` and, when the ring wraps, the `memmove` of its first part. */
    method Realloc(capacity: nat, shift: nat) returns (fuller: array<Pkt>)
      requires items.Length + shift <= capacity && shift in {0, capacity - items.Length}
      ensures fresh(fuller) && fuller.Length == capacity
      ensures forall i :: 0 <= i < items.Length && (shift == 0 || i < pos) ==> fuller[..][i] == items[..][i]
      ensures forall i :: 0 <= i < items.Length && shift > 0 && pos <= i ==> fuller[..][i + shift] == items[..][i]
    {
      fuller := new Pkt[capacity];
      forall i | 0 <= i < items.Length {
        fuller[i] := items[i];
      }
      if shift > 0 {
        forall i | pos <= i < items.Length {
          fuller[i + shift] := items[i];
        }
      }
    }

    /** The item move: logical places `k .. size` shift up by one, and `p` takes place `k`. */
    method Shift(k: nat, p: Pkt)
      requires Holds(items[..], pos, q.items) && |q.items| == size < items.Length && k <= size
      modifies items
      ensures Holds(items[..], pos, q.items[..k] + [p] + q.items[k..])
    {
      hide Holds, Shifting, Slot, Mod;
      ghost var c := q.items;
      var cap := items.Length;
      StartShift(items[..], pos, c);
      var i := pos + size;
      while i > pos + k
        invariant pos + k <= i <= pos + size
        invariant Shifting(items[..], pos, c, i - pos)
      {
        SlotIsMod(pos, i - pos, cap);
        SlotIsMod(pos, i - 1 - pos, cap);
        ghost var a := items[..];
        ShiftStep(a, pos, c, i - pos);
        items[Mod(i, cap)] := items[Mod(i - 1, cap)];
        assert items[..] == a[Slot(pos, i - pos, cap) := a[Slot(pos, i - 1 - pos, cap)]];
        i := i - 1;
      }
      SlotIsMod(pos, k, cap);
      ShiftDone(items[..], pos, c, k, p);
      items[Mod(pos + k, cap)] := p;
    }

    /** `rtp_queue_insert` at offset `k`. */
    method Insert(k: nat, p: Pkt) returns (ret: int)
      requires Valid() && k <= |q.items|
      modifies this`items, this`pos, this`size, this`q, items
      ensures Valid() && (items == old(items) || fresh(items))
      ensures q == RtpQueue.Insert(old(q), k, p) && ret == InsertRet(old(q))
    {
      if size >= items.Length {
        if size + 1 > MAX_PACKET {
          return -E2BIG;
        }
        Grow();
      }
      Shift(k, p);
      size := size + 1;
      q := q.(items := q.items[..k] + [p] + q.items[k..]);
      ret := 1;
    }

    /** `rtp_queue_reset_bad_items`. */
    method ResetBadItems()
      requires Valid()
      modifies this`badSeq, this`bad, this`q, this`freed
      ensures Valid() && q == old(q).(bad := [], badSeq := 0) && freed == old(freed) + old(bad)
    {
      hide Holds;
      var i := 0;
      assert bad[..0] == [];
      while i < |bad|
        modifies this`freed
        invariant 0 <= i <= |bad| && freed == old(freed) + bad[..i]
      {
        freed := freed + [bad[i]];
        i := i + 1;
      }
      assert bad[..i] == bad;
      badSeq, bad := 0, [];
      q := q.(bad := [], badSeq := 0);
    }

    /** `rtp_queue_reset`. */
    method Reset()
      requires Valid()
      modifies this`pos, this`size, this`probation, this`badSeq, this`bad, this`q, this`freed
      ensures Valid() && lastSeq == old(lastSeq)
      ensures q == old(q).(items := [], bad := [], badSeq := 0, probation := RTP_SEQUENTIAL)
      ensures freed == old(freed) + (old(q).bad + old(q).items)
    {
      hide Holds;
      ResetBadItems();
      ghost var before, c := freed, q.items;
      var i := 0;
      assert c[..0] == [];
      while i < size
        modifies this`freed
        invariant 0 <= i <= size == |c| && freed == before + c[..i]
      {
        var p := Item(i);
        freed := freed + [p];
        i := i + 1;
      }
      assert c[..i] == c;
      pos, size, probation := 0, 0, RTP_SEQUENTIAL;
      HoldsNothing(items[..]);
      q := q.(items := [], probation := RTP_SEQUENTIAL);
    }

    /** `rtp_queue_write`. */
    method Write(p: Pkt) returns (ret: int)
      requires Valid()
      modifies this, items
      ensures Valid() && (items == old(items) || fresh(items))
      ensures var w := RtpQueue.Write(old(q), p);
              q == w.q && ret == w.ret && freed == old(freed) + w.freed && lost == old(lost) + w.lost
    {
      hide Holds, BinarySearch, Mod16, S16Of, WriteProbation, WriteBad;
      if probation > 0 {
        ret := WriteUnproven(p);
        return;
      }
      var delta := Mod16(p.seqno - lastSeq);
      if 0 < delta < RTP_DROPOUT {
        ResetBadItems();
        lastSeq := p.seqno;
        q := q.(last := p.seqno);
        ret := Insert(size, p);
      } else if S16Of(delta) <= 0 && S16Of(delta) >= S16Of(firstSeq - lastSeq) {
        var k := Find(p.seqno);
        if k == -1 {
          return -1;
        }
        ResetBadItems();
        ret := Insert(k, p);
      } else if Mod16(firstSeq - p.seqno) < RTP_MISORDER {
        ret := -1;
      } else {
        ret := WriteFar(p);
      }
    }

    /** The probation branch of a write. */
    method WriteUnproven(p: Pkt) returns (ret: int)
      requires Valid() && probation > 0
      modifies this, items
      ensures Valid() && (items == old(items) || fresh(items)) && lost == old(lost)
      ensures var w := WriteProbation(old(q), p);
              q == w.q && ret == w.ret && freed == old(freed) + w.freed && w.lost == []
    {
      hide Holds;
      if size > 0 && p.seqno == lastSeq + 1 {
        var head := Item(0);
        probation := probation - 1;
        if probation == 0 {
          firstSeq := head.seqno;
        }
      } else if size == 0 && probation == 1 {
        firstSeq := p.seqno;
        probation := probation - 1;
      } else {
        Reset();
      }
      lastSeq := p.seqno;
      q := q.(probation := probation, first := firstSeq, last := lastSeq);
      ret := Insert(size, p);
    }

    /** The branch for packets far from the window. */
    method WriteFar(p: Pkt) returns (ret: int)
      requires Valid()
      modifies this, items
      ensures Valid() && (items == old(items) || fresh(items))
      ensures var w := WriteBad(old(q), p);
              q == w.q && ret == w.ret && freed == old(freed) + w.freed && lost == old(lost) + w.lost
    {
      hide Holds;
      if |bad| > 0 && badSeq == p.seqno {
        if |bad| >= RTP_SEQUENTIAL {
          CopySaved();
          bad := [];
          lastSeq := p.seqno;
          q := q.(bad := [], last := p.seqno);
          ret := Insert(size, p);
          return;
        }
      } else {
        ResetBadItems();
      }
      badSeq := (p.seqno + 1) as int % 0xFFFF;
      bad := bad + [p];
      q := q.(badSeq := badSeq, bad := bad);
      ret := 1;
    }

    /** The loop that appends the saved packets on a resync. */
    method CopySaved()
      requires Valid()
      modifies this`items, this`pos, this`size, this`q, this`lost, items
      ensures Valid() && (items == old(items) || fresh(items))
      ensures q == Resync(old(q), bad)
      ensures lost == old(lost) + Left(old(q), bad)
    {
      hide Holds, Resync, Left, Fitting;
      ghost var q0 := q;
      var i := 0;
      ResyncNone(q);
      assert bad[..0] == [];
      while i < |bad|
        invariant 0 <= i <= |bad| && Valid() && (items == old(items) || fresh(items))
        invariant q == Resync(q0, bad[..i])
        invariant lost == old(lost) + Left(q0, bad[..i])
      {
        ResyncSnoc(q0, bad[..i], bad[i]);
        assert bad[..i] + [bad[i]] == bad[..i + 1];
        Regroup(old(lost), Left(q0, bad[..i]), if InsertRet(Resync(q0, bad[..i])) == 1 then [] else [bad[i]]);
        var ret := Insert(size, bad[i]);
        if ret != 1 {
          lost := lost + [bad[i]];
        }
        i := i + 1;
      }
      assert bad[..i] == bad;
    }

    /** `rtp_queue_read`; it divides by the frequency. */
    method Read() returns (r: Option<Pkt>)
      requires Valid() && frequency != 0
      modifies this`firstSeq, this`size, this`pos, this`q
      ensures Valid()
      ensures Taken(q, r) == RtpQueue.Read(old(q))
    {
      hide Mod16, Holds, Waited, Slot, Mod;
      if size < 1 || probation > 0 {
        return None;
      }
      var p := Item(0);
      if threshold == 0 || firstSeq == p.seqno {
        firstSeq := Mod16(firstSeq + 1);
      } else {
        var newest := Item(size - 1);
        if Waited(newest.timestamp, p.timestamp, frequency) < threshold as int % 0x1_0000_0000 {
          return None;
        }
        firstSeq := Mod16(p.seqno + 1);
      }
      DropHead(items[..], pos, q.items);
      SlotIsMod(pos, 1, items.Length);
      size := size - 1;
      pos := Mod(pos + 1, items.Length);
      q := q.(first := firstSeq, items := q.items[1..]);
      r := Some(p);
    }
  }

  /** The saved packets for which there is no room. */
  function Left(q: Queue, saved: seq<Pkt>): seq<Pkt> { saved[Fitting(q, saved)..] }

  lemma {:induction false} ResyncNone(q: Queue)
    ensures Resync(q, []) == q && Left(q, []) == []
  {
  }

  lemma {:induction false} ResyncSnoc(q: Queue, saved: seq<Pkt>, p: Pkt)
    ensures Resync(q, saved + [p]) == RtpQueue.Insert(Resync(q, saved), |Resync(q, saved).items|, p)
    ensures Left(q, saved + [p]) == Left(q, saved) + (if InsertRet(Resync(q, saved)) == 1 then [] else [p])
  {
    var n, m := Fitting(q, saved), Fitting(q, saved + [p]);
    hide Resync;
    var a := Resync(q, saved).items;
    assert a == q.items + saved[..n];
    assert a[..|a|] + [p] + a[|a|..] == a + [p];
    if n == m {
      assert (saved + [p])[..m] == saved[..n];
    } else {
      assert (saved + [p])[..m] == saved[..n] + [p];
    }
  }

  lemma DropHead(a: seq<Pkt>, pos: nat, c: seq<Pkt>)
    requires Holds(a, pos, c) && c != []
    ensures pos < |a|
    ensures Holds(a, Slot(pos, 1, |a|), c[1..])
  {
    forall i | 0 <= i < |c[1..]| ensures c[1..][i] == a[Slot(Slot(pos, 1, |a|), i, |a|)] {
      assert c[i + 1] == a[Slot(pos, i + 1, |a|)];
    }
  }
}
