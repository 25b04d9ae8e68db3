/** The reorder queue over whole runs of writes and reads: delivery order and conservation. */
module RtpQueueRuns {
  import opened Bytes
  import opened RtpQueue

  datatype Event = Put(p: Pkt) | Get

  /** A queue together with unwrapped sequence numbers: `base` for `first`, `top` for `last`, `us` for
      the queued packets, and what has been delivered so far. A packet's number is the one nearest to
      the newest number at the time it is written. */
  datatype Tracked = Tracked(q: Queue, base: int, top: int, us: seq<int>, delivered: seq<int>, pkts: seq<Pkt>)

  function Start(threshold: I32, frequency: I32): Tracked {
    Tracked(Empty(threshold, frequency), 0, 0, [], [], [])
  }

  /** The unwrapped number of an arriving packet. */
  function Unwrap(t: Tracked, p: Pkt): int { t.top + S16Of(p.seqno - t.q.last) }

  predicate Forward(q: Queue, p: Pkt) { 0 < Mod16(p.seqno - q.last) < RTP_DROPOUT }

  predicate Late(q: Queue, p: Pkt) {
    !Forward(q, p) && S16Of(p.seqno - q.last) <= 0 && S16Of(p.seqno - q.last) >= S16Of(q.first - q.last)
  }

  function Step(t: Tracked, e: Event): (r: Tracked)
    requires t.q.frequency != 0 && |t.us| == |t.q.items|
    ensures e.Put? ==> r.q == Write(t.q, e.p).q
    ensures e.Get? ==> r.q == Read(t.q).q
    ensures e.Get? ==> r.pkts == t.pkts + (if Read(t.q).pkt.Some? then [Read(t.q).pkt.value] else [])
    ensures e.Put? ==> r.pkts == t.pkts && r.delivered == t.delivered
  {
    match e
    case Put(p) =>
      var q := Write(t.q, p).q;
      if t.q.probation > 0 then t.(q := q, base := p.seqno, top := p.seqno, us := [p.seqno])
      else
        var u := Unwrap(t, p);
        var full := |t.q.items| >= MAX_PACKET;
        if Forward(t.q, p) then t.(q := q, top := u, us := if full then t.us else t.us + [u])
        else
          var k := BinarySearch(t.q.items, t.q.last, p.seqno, 0, |t.q.items|);
          if Late(t.q, p) && k != -1 && !full then t.(q := q, us := t.us[..k] + [u] + t.us[k..])
          else t.(q := q)
    case Get =>
      var r := Read(t.q);
      if r.pkt.None? then t.(q := r.q)
      else t.(q := r.q, base := t.us[0] + 1, us := t.us[1..], delivered := t.delivered + [t.us[0]],
              pkts := t.pkts + [r.pkt.value])
  }

  ghost predicate Increasing(s: seq<int>) { forall i, j :: 0 <= i < j < |s| ==> s[i] < s[j] }

  /** Unwrapped numbers `us` name the packets `ps`. */
  ghost predicate Names(us: seq<int>, ps: seq<Pkt>) {
    |us| == |ps| && forall i :: 0 <= i < |us| ==> ps[i].seqno == Mod16(us[i])
  }

  ghost predicate WindowOf(t: Tracked) {
    && t.q.probation == 0
    && t.q.first == Mod16(t.base) && t.q.last == Mod16(t.top)
    && t.base - 1 <= t.top && t.top - t.base < 0x8000
    && Names(t.us, t.q.items) && Increasing(t.us)
    && (forall i :: 0 <= i < |t.us| ==> t.base <= t.us[i] <= t.top)
    && (forall i :: 0 <= i < |t.delivered| ==> t.delivered[i] < t.base)
  }

  ghost predicate Fresh(t: Tracked) {
    t.q.probation == 1 && t.q.items == [] && t.us == [] && t.delivered == []
  }

  /** The invariant of every run. */
  ghost predicate Inv(t: Tracked) {
    && t.q.threshold != 0 && t.q.frequency != 0
    && (Fresh(t) || WindowOf(t))
    && Increasing(t.delivered) && Names(t.delivered, t.pkts)
  }

  // ---------------------------------------------------------------- wrapping arithmetic

  lemma ModSub(x: int, y: int)
    ensures Mod16(Mod16(x) - Mod16(y)) == Mod16(x - y)
    ensures S16Of(Mod16(x) - Mod16(y)) == S16Of(x - y)
    ensures S16Of(Mod16(x)) == S16Of(x)
  {
  }

  lemma Small(d: int)
    ensures 0 <= d < 0x1_0000 ==> Mod16(d) == d
    ensures -0x8000 <= d < 0x8000 ==> S16Of(d) == d
  {
  }

  lemma Unwraps(t: Tracked, p: Pkt)
    requires t.q.last == Mod16(t.top)
    ensures Mod16(Unwrap(t, p)) == p.seqno
    ensures Forward(t.q, p) ==> t.top < Unwrap(t, p) < t.top + RTP_DROPOUT
  {
    var x := p.seqno as int - t.q.last as int;
    assert S16Of(x) == Mod16(x) || S16Of(x) == Mod16(x) - 0x1_0000;
    assert Mod16(t.top + S16Of(x)) == Mod16(Mod16(t.top) + x);
  }

  /** The age of a queued packet, as the search computes it, is its distance from the newest. */
  lemma Age(t: Tracked, i: nat)
    requires WindowOf(t) && i < |t.us|
    ensures Mod16(t.q.last - t.q.items[i].seqno) == t.top - t.us[i]
  {
    hide Mod16, S16Of;
    ModSub(t.top, t.us[i]);
    Small(t.top - t.us[i]);
  }

  lemma ItemsOrdered(t: Tracked)
    requires WindowOf(t)
    ensures Ordered(t.q.items, t.q.last)
  {
    hide Mod16;
    forall i, j | 0 <= i < j < |t.us|
      ensures Mod16(t.q.last - t.q.items[i].seqno) > Mod16(t.q.last - t.q.items[j].seqno)
    {
      Age(t, i);
      Age(t, j);
    }
  }

  /** The late branch is taken exactly for numbers inside the window. */
  lemma LateIsInWindow(t: Tracked, p: Pkt)
    requires WindowOf(t) && Late(t.q, p)
    ensures t.base <= Unwrap(t, p) <= t.top
  {
    hide Mod16, S16Of;
    ModSub(t.base, t.top);
    Small(t.base - t.top);
  }

  lemma {:induction false} ScanSplits(items: seq<Pkt>, last: U16, seqno: U16, i: nat)
    requires i <= |items|
    ensures var k := LinearScan(items, last, seqno, i);
            k != -1 ==> && i <= k <= |items|
                        && (forall j :: i <= j < k ==> Mod16(last - items[j].seqno) > Mod16(last - seqno))
                        && (k < |items| ==> Mod16(last - items[k].seqno) < Mod16(last - seqno))
    decreases |items| - i
  {
    hide Mod16;
    if i < |items| { ScanSplits(items, last, seqno, i + 1); }
  }

  /** The search finds the place where a late packet keeps the numbers increasing. */
  lemma SearchPlaces(t: Tracked, p: Pkt)
    requires WindowOf(t) && Late(t.q, p)
    ensures var k := BinarySearch(t.q.items, t.q.last, p.seqno, 0, |t.q.items|);
            k != -1 ==> && (forall j :: 0 <= j < k ==> t.us[j] < Unwrap(t, p))
                        && (forall j :: k <= j < |t.us| ==> Unwrap(t, p) < t.us[j])
  {
    hide *;
    ItemsOrdered(t);
    SearchIsScan(t.q.items, t.q.last, p.seqno);
    ScanSplits(t.q.items, t.q.last, p.seqno, 0);
    LateIsInWindow(t, p);
    TopOf(t);
    Unwraps(t, p);
    var k := BinarySearch(t.q.items, t.q.last, p.seqno, 0, |t.q.items|);
    if k != -1 { SplitByAge(t, p.seqno, Unwrap(t, p), k); }
  }

  lemma TopOf(t: Tracked)
    requires WindowOf(t)
    ensures t.q.last == Mod16(t.top) && t.q.first == Mod16(t.base)
  {
  }

  lemma SplitByAge(t: Tracked, seqno: U16, u: int, k: nat)
    requires WindowOf(t) && seqno == Mod16(u) && t.base <= u <= t.top && k <= |t.q.items|
    requires forall j :: 0 <= j < k ==> Mod16(t.q.last - t.q.items[j].seqno) > Mod16(t.q.last - seqno)
    requires k < |t.q.items| ==> Mod16(t.q.last - t.q.items[k].seqno) < Mod16(t.q.last - seqno)
    ensures |t.us| == |t.q.items|
    ensures (forall j :: 0 <= j < k ==> t.us[j] < u) && (forall j :: k <= j < |t.us| ==> u < t.us[j])
  {
    hide Mod16, S16Of;
    ModSub(t.top, u);
    Small(t.top - u);
    forall j | 0 <= j < k ensures t.us[j] < u { Age(t, j); }
    if k < |t.us| { Age(t, k); }
  }

  // ---------------------------------------------------------------- one step

  lemma InsertIncreasing(us: seq<int>, k: nat, u: int)
    requires Increasing(us) && k <= |us|
    requires (forall j :: 0 <= j < k ==> us[j] < u) && (forall j :: k <= j < |us| ==> u < us[j])
    ensures Increasing(us[..k] + [u] + us[k..])
  {
  }

  lemma InsertNames(us: seq<int>, ps: seq<Pkt>, k: nat, u: int, p: Pkt)
    requires Names(us, ps) && k <= |us| && p.seqno == Mod16(u)
    ensures Names(us[..k] + [u] + us[k..], ps[..k] + [p] + ps[k..])
  {
    hide Mod16;
  }

  lemma PutForward(t: Tracked, p: Pkt)
    requires Inv(t) && WindowOf(t) && Forward(t.q, p)
    requires Unwrap(t, p) - t.base < 0x8000
    ensures Inv(Step(t, Put(p)))
  {
    hide *;
    InvWindow(t);
    TopOf(t);
    Unwraps(t, p);
    ForwardStep(t, p);
    var u, r, n := Unwrap(t, p), Step(t, Put(p)), |t.us|;
    assert t.us[..n] + [u] + t.us[n..] == t.us + [u];
    assert t.q.items[..n] + [p] + t.q.items[n..] == t.q.items + [p];
    WindowBelow(t);
    InsertIncreasing(t.us, n, u);
    InsertNames(t.us, t.q.items, n, u, p);
    Extended(t, r, u);
  }

  lemma WindowBelow(t: Tracked)
    requires Inv(t) && WindowOf(t)
    ensures t.base - 1 <= t.top
  {
  }

  /** What a packet ahead changes. */
  lemma ForwardStep(t: Tracked, p: Pkt)
    requires Inv(t) && WindowOf(t) && Forward(t.q, p)
    ensures |t.us| == |t.q.items| && t.q.frequency != 0
    ensures var r := Step(t, Put(p));
            && r == Tracked(r.q, t.base, Unwrap(t, p), r.us, t.delivered, t.pkts)
            && r.q.probation == 0 && r.q.first == t.q.first && r.q.last == p.seqno
            && r.q.threshold == t.q.threshold && r.q.frequency == t.q.frequency
            && (if |t.q.items| >= MAX_PACKET then r.us == t.us && r.q.items == t.q.items
                else r.us == t.us + [Unwrap(t, p)] && r.q.items == t.q.items + [p])
  {
    InvWindow(t);
    ForwardWrite(t.q, p);
    hide BinarySearch, Mod16, S16Of, Unwrap, Increasing, Names, Write;
  }

  /** The invariant over the window that reaches up to `u`. */
  lemma Extended(t: Tracked, r: Tracked, u: int)
    requires Inv(t) && WindowOf(t)
    requires r == Tracked(r.q, t.base, u, r.us, t.delivered, t.pkts)
    requires r.q.probation == 0 && r.q.first == t.q.first && r.q.last == Mod16(u)
    requires r.q.threshold == t.q.threshold && r.q.frequency == t.q.frequency
    requires t.top < u && u - t.base < 0x8000
    requires Increasing(r.us) && Names(r.us, r.q.items) && (r.us == t.us || r.us == t.us + [u])
    ensures Inv(r)
  {
    hide Increasing, Names, Mod16;
  }

  lemma PutLate(t: Tracked, p: Pkt)
    requires Inv(t) && WindowOf(t) && Late(t.q, p)
    ensures Inv(Step(t, Put(p)))
  {
    hide *;
    var u := Unwrap(t, p);
    var k := BinarySearch(t.q.items, t.q.last, p.seqno, 0, |t.q.items|);
    InvWindow(t);
    TopOf(t);
    Unwraps(t, p);
    LateIsInWindow(t, p);
    SearchPlaces(t, p);
    LateStep(t, p, k);
    if k != -1 {
      SearchRange(t, p);
      LateInsert(t, k, u, p);
      if |t.q.items| < MAX_PACKET { Reassembled(t, Step(t, Put(p)), t.us[..k] + [u] + t.us[k..]); }
    }
    if k == -1 || |t.q.items| >= MAX_PACKET { Reassembled(t, Step(t, Put(p)), t.us); }
  }

  lemma InvWindow(t: Tracked)
    requires Inv(t) && WindowOf(t)
    ensures t.q.frequency != 0 && |t.us| == |t.q.items| && t.q.probation == 0
    ensures Names(t.us, t.q.items) && Increasing(t.us)
    ensures forall i :: 0 <= i < |t.us| ==> t.base <= t.us[i] <= t.top
  {
  }

  lemma SearchRange(t: Tracked, p: Pkt)
    ensures BinarySearch(t.q.items, t.q.last, p.seqno, 0, |t.q.items|) <= |t.q.items|
  {
  }

  /** What a late packet changes: the packet list and its numbers, and the saved packets. */
  lemma LateStep(t: Tracked, p: Pkt, k: int)
    requires Inv(t) && WindowOf(t) && Late(t.q, p)
    requires k == BinarySearch(t.q.items, t.q.last, p.seqno, 0, |t.q.items|)
    ensures |t.us| == |t.q.items| && t.q.frequency != 0
    ensures var r := Step(t, Put(p));
            && r == Tracked(r.q, t.base, t.top, r.us, t.delivered, t.pkts)
            && r.q.probation == 0 && r.q.first == t.q.first && r.q.last == t.q.last
            && r.q.threshold == t.q.threshold && r.q.frequency == t.q.frequency
            && (if k == -1 || |t.q.items| >= MAX_PACKET then r.us == t.us && r.q.items == t.q.items
                else && 0 <= k <= |t.us|
                     && r.us == t.us[..k] + [Unwrap(t, p)] + t.us[k..]
                     && r.q.items == t.q.items[..k] + [p] + t.q.items[k..])
  {
    InvWindow(t);
    LateWrite(t.q, p, k);
    hide BinarySearch, Mod16, S16Of, Unwrap, Increasing, Names, Write;
  }

  lemma LateWrite(q: Queue, p: Pkt, k: int)
    requires q.probation == 0 && Late(q, p) && k == BinarySearch(q.items, q.last, p.seqno, 0, |q.items|)
    ensures Write(q, p).q == if k == -1 then q else Insert(q.(bad := [], badSeq := 0), k, p)
  {
    DeltaForms(q, p);
    hide BinarySearch, Mod16, S16Of, WriteBad, Insert;
  }

  lemma LateInsert(t: Tracked, k: nat, u: int, p: Pkt)
    requires Names(t.us, t.q.items) && Increasing(t.us) && k <= |t.us| && p.seqno == Mod16(u)
    requires t.base <= u <= t.top && forall i :: 0 <= i < |t.us| ==> t.base <= t.us[i] <= t.top
    requires (forall j :: 0 <= j < k ==> t.us[j] < u) && (forall j :: k <= j < |t.us| ==> u < t.us[j])
    ensures var us := t.us[..k] + [u] + t.us[k..];
            && Increasing(us) && Names(us, t.q.items[..k] + [p] + t.q.items[k..])
            && (forall i :: 0 <= i < |us| ==> t.base <= us[i] <= t.top)
  {
    InsertIncreasing(t.us, k, u);
    InsertNames(t.us, t.q.items, k, u, p);
    assert |t.us| == |t.q.items|;
    hide Increasing, Names, Mod16;
    var us := t.us[..k] + [u] + t.us[k..];
    forall i | 0 <= i < |us| ensures t.base <= us[i] <= t.top {
      assert us[i] == if i < k then t.us[i] else if i == k then u else t.us[i - 1];
    }
  }

  /** The invariant over a new packet list with the same window. */
  lemma Reassembled(t: Tracked, r: Tracked, us: seq<int>)
    requires Inv(t) && WindowOf(t)
    requires r == Tracked(r.q, t.base, t.top, us, t.delivered, t.pkts)
    requires r.q.probation == 0 && r.q.first == t.q.first && r.q.last == t.q.last
    requires r.q.threshold == t.q.threshold && r.q.frequency == t.q.frequency
    requires Increasing(us) && Names(us, r.q.items) && forall i :: 0 <= i < |us| ==> t.base <= us[i] <= t.top
    ensures Inv(r)
  {
    hide Increasing, Names, Mod16;
  }

  lemma DeltaForms(q: Queue, p: Pkt)
    ensures S16Of(Mod16(p.seqno - q.last)) == S16Of(p.seqno - q.last)
  {
  }

  lemma PutOther(t: Tracked, p: Pkt)
    requires Inv(t) && WindowOf(t) && !Forward(t.q, p) && !Late(t.q, p) && !Resyncs(t.q, p)
    ensures Inv(Step(t, Put(p)))
  {
    DeltaForms(t.q, p);
    hide BinarySearch, Mod16, S16Of, Increasing, Names, Unwrap, Resync, Insert;
  }

  lemma PutFirst(t: Tracked, p: Pkt)
    requires Inv(t) && Fresh(t)
    ensures Inv(Step(t, Put(p)))
  {
    Small(p.seqno);
    hide Mod16;
  }

  lemma GetKeeps(t: Tracked)
    requires Inv(t)
    ensures Inv(Step(t, Get))
  {
    hide Spread, Mod16;
    var r := Read(t.q);
    if r.pkt.Some? {
      assert t.us[0] < t.base ==> false;
      assert r.q.first == Mod16(t.us[0] + 1) by { NextFirst(t.base, t.us[0], t.q); }
    }
  }

  lemma NextFirst(base: int, u: int, q: Queue)
    requires q.items != [] && q.items[0].seqno == Mod16(u) && q.first == Mod16(base)
    ensures q.first == q.items[0].seqno ==> Mod16(q.first + 1) == Mod16(u + 1)
    ensures Mod16(q.items[0].seqno + 1) == Mod16(u + 1)
  {
  }

  // ---------------------------------------------------------------- runs

  // ---------------------------------------------------------------- which packets are taken

  lemma {:induction false} ScanFindsCopy(items: seq<Pkt>, last: U16, seqno: U16, i: nat)
    requires i <= |items| && LinearScan(items, last, seqno, i) == -1
    ensures exists j :: i <= j < |items| && Mod16(last - items[j].seqno) == Mod16(last - seqno)
    decreases |items| - i
  {
    hide Mod16;
    if Mod16(last - items[i].seqno) != Mod16(last - seqno) { ScanFindsCopy(items, last, seqno, i + 1); }
  }

  /** A late packet is found to be a duplicate exactly when its number is among those held. */
  lemma DuplicateIff(t: Tracked, p: Pkt)
    requires WindowOf(t) && Late(t.q, p)
    ensures BinarySearch(t.q.items, t.q.last, p.seqno, 0, |t.q.items|) == -1 <==> Unwrap(t, p) in t.us
  {
    hide *;
    ItemsOrdered(t);
    SearchIsScan(t.q.items, t.q.last, p.seqno);
    SearchPlaces(t, p);
    TopOf(t);
    Unwraps(t, p);
    LateIsInWindow(t, p);
    if BinarySearch(t.q.items, t.q.last, p.seqno, 0, |t.q.items|) == -1 {
      ScanFindsCopy(t.q.items, t.q.last, p.seqno, 0);
      var j :| 0 <= j < |t.q.items| && Mod16(t.q.last - t.q.items[j].seqno) == Mod16(t.q.last - p.seqno);
      SizeOf(t);
      Age(t, j);
      ModSub(t.top, Unwrap(t, p));
      Small(t.top - Unwrap(t, p));
      WindowWidth(t);
      assert t.us[j] == Unwrap(t, p);
    }
  }

  lemma SizeOf(t: Tracked)
    requires WindowOf(t)
    ensures |t.us| == |t.q.items| && t.q.probation == 0
  {
  }

  lemma WindowWidth(t: Tracked)
    requires WindowOf(t)
    ensures 0 <= t.top - t.base + 1 <= 0x8000
  {
  }

  /** Where a packet is, by its unwrapped number: ahead, inside the window, just behind it, or far away. */
  lemma BranchIs(t: Tracked, p: Pkt)
    requires WindowOf(t)
    ensures var u := Unwrap(t, p);
            && -0x8000 <= u - t.top < 0x8000
            && (Forward(t.q, p) <==> t.top < u < t.top + 1000)
            && (Late(t.q, p) <==> t.base <= u <= t.top)
            && (!Forward(t.q, p) && !Late(t.q, p) ==>
                 (Mod16(t.q.first - p.seqno) < 300 <==> 0 < t.base - u < 300 || u - t.base > 0x1_0000 - 300))
  {
    hide *;
    var u := Unwrap(t, p);
    var x := p.seqno as int - t.q.last as int;
    TopOf(t);
    WindowWidth(t);
    UnwrapIs(t, p);
    Nearest(x);
    ForwardIs(t.q, p);
    WindowEdge(t);
    LateIs(t.q, p);
    BehindIs(t, p);
  }

  lemma UnwrapIs(t: Tracked, p: Pkt)
    ensures Unwrap(t, p) == t.top + S16Of(p.seqno as int - t.q.last as int)
  {
    hide S16Of;
  }

  lemma WindowEdge(t: Tracked)
    requires WindowOf(t)
    ensures S16Of(t.q.first as int - t.q.last as int) == t.base - t.top
         || (t.base == t.top + 1 && S16Of(t.q.first as int - t.q.last as int) == 1)
  {
    TopOf(t);
    WindowWidth(t);
    ModSub(t.base, t.top);
    Small(t.base - t.top);
    hide *;
  }

  lemma BehindIs(t: Tracked, p: Pkt)
    requires WindowOf(t) && -0x8000 <= Unwrap(t, p) - t.top < 0x8000
    ensures var d := t.base - Unwrap(t, p);
            Mod16(t.q.first as int - p.seqno as int) == if d >= 0 then d else d + 0x1_0000
  {
    hide *;
    var u := Unwrap(t, p);
    TopOf(t);
    WindowWidth(t);
    Unwraps(t, p);
    ModSub(t.base, u);
    DistanceIs(t.base - u);
  }

  lemma ForwardIs(q: Queue, p: Pkt)
    ensures Forward(q, p) <==> 0 < Mod16(p.seqno - q.last) < 1000
  {
    hide Mod16;
  }

  lemma LateIs(q: Queue, p: Pkt)
    ensures Late(q, p) <==> !Forward(q, p) && S16Of(p.seqno - q.last) <= 0
                            && S16Of(p.seqno - q.last) >= S16Of(q.first - q.last)
  {
    hide Forward, S16Of;
  }

  lemma Nearest(x: int)
    ensures -0x8000 <= S16Of(x) < 0x8000
    ensures S16Of(x) > 0 ==> Mod16(x) == S16Of(x)
    ensures S16Of(x) < 0 ==> Mod16(x) == S16Of(x) + 0x1_0000
    ensures S16Of(x) == 0 ==> Mod16(x) == 0
  {
  }

  lemma DistanceIs(d: int)
    requires -0x1_0000 < d < 0x1_0000
    ensures Mod16(d) == if d >= 0 then d else d + 0x1_0000
  {
  }

  /** Exactly which packets a queue off probation takes, by their unwrapped numbers, and what becomes of the
      others. Ahead by less than 1000: at the end. Inside the window: in its place, unless it is there
      already. Up to 299 behind: refused. Any other: saved in case the sender has restarted. */
  lemma AcceptedIff(t: Tracked, p: Pkt)
    requires WindowOf(t)
    ensures var u, w, n := Unwrap(t, p), Write(t.q, p), |t.q.items|;
            && (t.top < u < t.top + 1000 ==>
                  if n < 3000 then w.ret == 1 && w.q.items == t.q.items + [p]
                  else w.ret == -7 && w.q.items == t.q.items)
            && (t.base <= u <= t.top ==>
                  if u in t.us then w.ret == -1 && w.q == t.q
                  else if n >= 3000 then w.ret == -7 && w.q.items == t.q.items
                  else w.ret == 1 && exists k :: PlacedAt(t, u, w.q, p, k))
            && (0 < t.base - u < 300 || u - t.base > 0x1_0000 - 300 ==> w.ret == -1 && w.q == t.q)
            && ((u >= t.top + 1000 && u - t.base <= 0x1_0000 - 300) || u <= t.base - 300 ==>
                  || Resyncs(t.q, p)
                  || (w.ret == 1 && w.q.bad != [] && w.q.bad[|w.q.bad| - 1] == p && w.q.items == t.q.items))
  {
    hide *;
    BranchIs(t, p);
    SizeOf(t);
    WindowWidth(t);
    if Forward(t.q, p) {
      ForwardWrite(t.q, p);
    } else if Late(t.q, p) {
      var k := BinarySearch(t.q.items, t.q.last, p.seqno, 0, |t.q.items|);
      SearchRange(t, p);
      DuplicateIff(t, p);
      SearchPlaces(t, p);
      LateResult(t.q, p, k);
      if k != -1 && |t.q.items| < 3000 {
        PlacedIs(t, Unwrap(t, p), Write(t.q, p).q, p, k);
      }
    } else {
      FarWrite(t.q, p);
    }
  }

  /** `p` stands at position `k`, behind the lower numbers and before the higher ones. */
  ghost predicate PlacedAt(t: Tracked, u: int, q: Queue, p: Pkt, k: nat) {
    && k <= |t.q.items| == |t.us|
    && q.items == t.q.items[..k] + [p] + t.q.items[k..]
    && (forall j :: 0 <= j < k ==> t.us[j] < u) && (forall j :: k <= j < |t.us| ==> u < t.us[j])
  }

  lemma PlacedIs(t: Tracked, u: int, q: Queue, p: Pkt, k: nat)
    requires k <= |t.q.items| == |t.us|
    requires q.items == t.q.items[..k] + [p] + t.q.items[k..]
    requires (forall j :: 0 <= j < k ==> t.us[j] < u) && (forall j :: k <= j < |t.us| ==> u < t.us[j])
    ensures PlacedAt(t, u, q, p, k)
  {
  }

  lemma ForwardWrite(q: Queue, p: Pkt)
    requires q.probation == 0 && Forward(q, p)
    ensures var w := Write(q, p);
            if |q.items| < 3000 then w.ret == 1 && w.q.items == q.items + [p] else w.ret == -7 && w.q.items == q.items
    ensures var r := Write(q, p).q;
            r.probation == 0 && r.first == q.first && r.last == p.seqno && r.threshold == q.threshold
            && r.frequency == q.frequency
  {
    hide Mod16;
    assert q.items[..|q.items|] + [p] + q.items[|q.items|..] == q.items + [p];
  }

  lemma LateResult(q: Queue, p: Pkt, k: int)
    requires q.probation == 0 && Late(q, p) && k == BinarySearch(q.items, q.last, p.seqno, 0, |q.items|)
    ensures var w := Write(q, p);
            if k == -1 then w.ret == -1 && w.q == q
            else if |q.items| >= 3000 then w.ret == -7 && w.q.items == q.items
            else w.ret == 1 && 0 <= k <= |q.items| && w.q.items == q.items[..k] + [p] + q.items[k..]
  {
    DeltaForms(q, p);
    hide BinarySearch, Mod16, S16Of, WriteBad;
  }

  lemma FarWrite(q: Queue, p: Pkt)
    requires q.probation == 0 && !Forward(q, p) && !Late(q, p)
    ensures var w := Write(q, p);
            && (Mod16(q.first - p.seqno) < 300 ==> w.ret == -1 && w.q == q)
            && (Mod16(q.first - p.seqno) >= 300 ==>
                 Resyncs(q, p) || (w.ret == 1 && w.q.bad != [] && w.q.bad[|w.q.bad| - 1] == p && w.q.items == q.items))
  {
    DeltaForms(q, p);
    hide BinarySearch, Mod16, S16Of, Resync, Insert;
  }

  /** Which far packets follow each other: a saved packet is joined by the next number modulo 65535 - so none
      follows 65534, and 0 follows both that and 65535 - and anything else starts over. */
  lemma SavedIff(q: Queue, p: Pkt, r: Pkt)
    requires q.probation == 0 && IsFar(q, p) && IsFar(q, r) && q.bad == []
    ensures var q1 := Write(q, p).q;
            && q1.bad == [p] && q1.items == q.items
            && Write(q1, r).q.bad == (if r.seqno as int == (p.seqno as int + 1) % 65535 then [p, r] else [r])
            && Write(q1, r).q.items == q.items && Write(q1, r).ret == 1
  {
    FarIs(q, p);
    var q1 := Write(q, p).q;
    FarIs(q, r);
    FarIs(q1, r);
    hide Write, Mod16, S16Of;
  }

  predicate IsFar(q: Queue, p: Pkt) { !Forward(q, p) && !Late(q, p) && Mod16(q.first - p.seqno) >= 300 }

  lemma FarIs(q: Queue, p: Pkt)
    requires q.probation == 0 && IsFar(q, p)
    ensures Write(q, p) == WriteBad(q, p)
    ensures forall b, n :: var q1 := q.(bad := b, badSeq := n); IsFar(q1, p)
  {
    DeltaForms(q, p);
    hide BinarySearch, Mod16, S16Of, WriteBad;
  }

  /** The packet that completes the saved ones, with room for them all: they go behind what is held, it goes
      last, and the newest number is its own. */
  lemma ResyncTakes(q: Queue, p: Pkt)
    requires q.probation == 0 && Resyncs(q, p) && |q.items| + |q.bad| < 3000
    ensures var w := Write(q, p);
            w.ret == 1 && w.q == q.(items := q.items + q.bad + [p], bad := [], last := p.seqno)
            && w.freed == [] && w.lost == []
  {
    DeltaForms(q, p);
    hide BinarySearch, Mod16, S16Of;
    assert q.bad[..|q.bad|] == q.bad;
    var all := q.items + q.bad;
    assert all[..|all|] + [p] + all[|all|..] == all + [p];
  }

  /** The conditions the ordering claim is made under: no write makes the window 2^15 wide or wider,
      and none resynchronises on a restarted sender. */
  ghost predicate Admissible(t: Tracked, e: Event) {
    e.Put? && t.q.probation == 0 ==>
      && !Resyncs(t.q, e.p)
      && (Forward(t.q, e.p) ==> Unwrap(t, e.p) - t.base < 0x8000)
  }

  lemma StepKeeps(t: Tracked, e: Event)
    requires Inv(t) && Admissible(t, e)
    ensures Inv(Step(t, e))
  {
    hide Step, Resyncs, Forward, Late, Unwrap;
    match e
    case Get => GetKeeps(t);
    case Put(p) =>
      if Fresh(t) { PutFirst(t, p); }
      else if Forward(t.q, p) { PutForward(t, p); }
      else if Late(t.q, p) { PutLate(t, p); }
      else { PutOther(t, p); }
  }

  /** A run: the states it goes through, each obtained by one write or read. */
  ghost predicate IsRun(ts: seq<Tracked>, es: seq<Event>, threshold: I32, frequency: I32) {
    && |ts| == |es| + 1 && ts[0] == Start(threshold, frequency)
    && forall i :: 0 <= i < |es| ==>
         && ts[i].q.frequency != 0 && |ts[i].us| == |ts[i].q.items|
         && Admissible(ts[i], es[i]) && ts[i + 1] == Step(ts[i], es[i])
  }

  lemma {:induction false} RunKeeps(ts: seq<Tracked>, es: seq<Event>, threshold: I32, frequency: I32, n: nat)
    requires threshold != 0 && frequency != 0 && IsRun(ts, es, threshold, frequency) && n <= |es|
    ensures Inv(ts[n])
  {
    hide Step, Admissible;
    if n > 0 {
      RunKeeps(ts, es, threshold, frequency, n - 1);
      StepKeeps(ts[n - 1], es[n - 1]);
    }
  }

  /** With a jitter threshold, every admissible run delivers packets in strictly increasing unwrapped
      sequence order - so no packet is delivered twice - and never one older than already delivered. */
  lemma DeliveredInOrder(ts: seq<Tracked>, es: seq<Event>, threshold: I32, frequency: I32)
    requires threshold != 0 && frequency != 0 && IsRun(ts, es, threshold, frequency)
    ensures var t := ts[|es|];
            && |t.delivered| == |t.pkts|
            && (forall i :: 0 <= i < |t.pkts| ==> t.pkts[i].seqno == Mod16(t.delivered[i]))
            && (forall i, j :: 0 <= i < j < |t.delivered| ==> t.delivered[i] < t.delivered[j])
            && (forall i, j :: 0 <= i < |t.delivered| && 0 <= j < |t.us| ==> t.delivered[i] < t.us[j])
  {
    RunKeeps(ts, es, threshold, frequency, |es|);
    hide Mod16;
  }

  // ---------------------------------------------------------------- without a threshold

  const TEN := Pkt(10, 0, 0)
  const TWELVE := Pkt(12, 0, 0)

  /** A queue off probation with no threshold, and its numbers. */
  function Plain(frequency: I32, items: seq<Pkt>, first: U16, last: U16, base: int, us: seq<int>,
                 delivered: seq<int>, pkts: seq<Pkt>): Tracked
  {
    Tracked(Queue(items, 0, last, first, [], 0, 0, frequency), base, last, us, delivered, pkts)
  }

  lemma PutTenThenTwelve(f: I32)
    requires f != 0
    ensures Admissible(Start(0, f), Put(TEN))
    ensures Step(Start(0, f), Put(TEN)) == Plain(f, [TEN], 10, 10, 10, [10], [], [])
    ensures Admissible(Plain(f, [TEN], 10, 10, 10, [10], [], []), Put(TWELVE))
    ensures Step(Plain(f, [TEN], 10, 10, 10, [10], [], []), Put(TWELVE))
         == Plain(f, [TEN, TWELVE], 10, 12, 10, [10, 12], [], [])
  {
    assert [TEN] + [TWELVE] + [] == [TEN, TWELVE];
  }

  /** With no threshold a read only counts `first` up. */
  lemma PlainGet(t: Tracked)
    requires t.q.threshold == 0 && t.q.frequency != 0 && t.q.probation == 0 && t.us != [] && |t.us| == |t.q.items|
    ensures Admissible(t, Get)
    ensures Step(t, Get) == t.(q := t.q.(first := Mod16(t.q.first + 1), items := t.q.items[1..]), base := t.us[0] + 1,
                               us := t.us[1..], delivered := t.delivered + [t.us[0]], pkts := t.pkts + [t.q.items[0]])
  {
    hide Mod16, Spread;
  }

  lemma PutTwelveAgain(f: I32, pkts: seq<Pkt>)
    requires f != 0
    ensures var t := Plain(f, [], 12, 12, 13, [], [10, 12], pkts);
            Admissible(t, Put(TWELVE)) && Step(t, Put(TWELVE)) == t.(q := t.q.(items := [TWELVE]), us := [12])
  {
    var t := Plain(f, [], 12, 12, 13, [], [10, 12], pkts);
    assert BinarySearch(t.q.items, t.q.last, 12, 0, 0) == 0;
    assert [] + [TWELVE] + [] == [TWELVE];
  }

  /** The threshold matters: with none, `first` is only counted up, falls behind after a gap, and a
      packet already delivered is taken in and delivered again. */
  lemma NoThresholdDeliversTwice(f: I32) returns (ts: seq<Tracked>, es: seq<Event>)
    requires f != 0
    ensures IsRun(ts, es, 0, f) && ts[|es|].delivered == [10, 12, 12] && ts[|es|].pkts == [TEN, TWELVE, TWELVE]
  {
    es := [Put(TEN), Put(TWELVE), Get, Get, Put(TWELVE), Get];
    var t0, t1, t2 := Start(0, f), Plain(f, [TEN], 10, 10, 10, [10], [], []),
                      Plain(f, [TEN, TWELVE], 10, 12, 10, [10, 12], [], []);
    PutTenThenTwelve(f);
    PlainGet(t2);
    var t3 := Plain(f, [TWELVE], 11, 12, 11, [12], [10], [TEN]);
    assert t3 == Step(t2, Get);
    PlainGet(t3);
    var t4 := Plain(f, [], 12, 12, 13, [], [10, 12], [TEN, TWELVE]);
    assert t4 == Step(t3, Get);
    PutTwelveAgain(f, [TEN, TWELVE]);
    var t5 := t4.(q := t4.q.(items := [TWELVE]), us := [12]);
    PlainGet(t5);
    var t6 := Step(t5, Get);
    assert t6.delivered == [10, 12, 12] && t6.pkts == [TEN, TWELVE, TWELVE];
    hide Step, Admissible;
    ts := [t0, t1, t2, t3, t4, t5, t6];
  }

  /** Exactly the queues with a threshold deliver in strictly increasing order, and so nothing twice,
      over every admissible run; a negative one is cast to a wait without end and orders too. */
  lemma ThresholdIsExact(threshold: I32, frequency: I32)
    requires frequency != 0
    ensures threshold != 0
            <==> forall ts: seq<Tracked>, es :: IsRun(ts, es, threshold, frequency) ==> Increasing(ts[|es|].delivered)
  {
    if threshold != 0 {
      forall ts: seq<Tracked>, es | IsRun(ts, es, threshold, frequency) ensures Increasing(ts[|es|].delivered) {
        DeliveredInOrder(ts, es, threshold, frequency);
      }
    } else {
      var ts, es := NoThresholdDeliversTwice(frequency);
      hide IsRun;
      assert !Increasing(ts[|es|].delivered) by {
        var d := ts[|es|].delivered;
        assert d[1] == d[2];
      }
    }
  }

  // ---------------------------------------------------------------- bookkeeping over a run

  /** Where every accepted packet has gone. */
  datatype Ledger = Ledger(q: Queue, accepted: multiset<Pkt>, freed: multiset<Pkt>, lost: multiset<Pkt>,
                           delivered: multiset<Pkt>)

  function Account(l: Ledger, e: Event): (r: Ledger)
    requires l.q.frequency != 0
    ensures r.q.frequency == l.q.frequency
  {
    match e
    case Put(p) =>
      var w := Write(l.q, p);
      Ledger(w.q, l.accepted + (if w.ret == 1 then multiset{p} else multiset{}), l.freed + multiset(w.freed),
             l.lost + multiset(w.lost), l.delivered)
    case Get =>
      var r := Read(l.q);
      l.(q := r.q, delivered := l.delivered + (if r.pkt.Some? then multiset{r.pkt.value} else multiset{}))
  }

  function AccountAll(l: Ledger, es: seq<Event>): (r: Ledger)
    requires l.q.frequency != 0
    ensures r.q.frequency == l.q.frequency
  {
    if es == [] then l else Account(AccountAll(l, es[..|es| - 1]), es[|es| - 1])
  }

  function Opened(threshold: I32, frequency: I32): Ledger {
    Ledger(Empty(threshold, frequency), multiset{}, multiset{}, multiset{}, multiset{})
  }

  /** Each accepted packet is in exactly one place. */
  ghost predicate Settled(l: Ledger) {
    && l.accepted == multiset(l.q.items) + multiset(l.q.bad) + l.freed + l.lost + l.delivered
    && Bounded(l.q) && l.q.probation <= 1
  }

  lemma PutSettles(l: Ledger, p: Pkt)
    requires Settled(l) && l.q.frequency != 0
    ensures Settled(Account(l, Put(p)))
  {
    WriteConserves(l.q, p);
    WriteBounded(l.q, p);
    hide Write, Read, Bounded;
    var w := Write(l.q, p);
    Rebalance(l.accepted, multiset(l.q.items), multiset(l.q.bad), l.freed, l.lost, l.delivered,
              if w.ret == 1 then multiset{p} else multiset{},
              multiset(w.q.items), multiset(w.q.bad), multiset(w.freed), multiset(w.lost));
  }

  /** Adding what came in on both sides of the balance. */
  lemma Rebalance(a: multiset<Pkt>, i: multiset<Pkt>, b: multiset<Pkt>, f: multiset<Pkt>, l: multiset<Pkt>,
                  d: multiset<Pkt>, t: multiset<Pkt>, i': multiset<Pkt>, b': multiset<Pkt>, f': multiset<Pkt>,
                  l': multiset<Pkt>)
    requires a == i + b + f + l + d
    requires i + b + t == i' + b' + f' + l'
    ensures a + t == i' + b' + (f + f') + (l + l') + d
  {
    forall x: Pkt ensures (a + t)[x] == (i' + b' + (f + f') + (l + l') + d)[x] {
      assert a[x] == (i + b + f + l + d)[x];
      assert (i + b + t)[x] == (i' + b' + f' + l')[x];
    }
  }

  lemma GetSettles(l: Ledger)
    requires Settled(l) && l.q.frequency != 0
    ensures Settled(Account(l, Get))
  {
    ReadConserves(l.q);
    ReadBounded(l.q);
    hide Write, Read, Bounded;
  }

  lemma ReadBounded(q: Queue)
    requires Bounded(q) && q.probation <= 1 && q.frequency != 0
    ensures Bounded(Read(q).q) && Read(q).q.probation <= 1
  {
    hide Spread;
  }

  /** Over every run, each accepted packet is in exactly one place: queued, saved, freed, delivered, or
      lost to a full resync; the queue never exceeds 3000 packets. */
  lemma {:induction false} EveryPacketAccounted(es: seq<Event>, threshold: I32, frequency: I32)
    requires frequency != 0
    ensures Settled(AccountAll(Opened(threshold, frequency), es))
  {
    if es != [] {
      hide Account, Settled, Opened;
      OpenedIs(threshold, frequency);
      var before, e := es[..|es| - 1], es[|es| - 1];
      EveryPacketAccounted(before, threshold, frequency);
      var l := AccountAll(Opened(threshold, frequency), before);
      if e.Put? { PutSettles(l, e.p); } else { GetSettles(l); }
    }
  }

  lemma OpenedIs(threshold: I32, frequency: I32)
    ensures Opened(threshold, frequency).q.frequency == frequency
  {
  }

  predicate FullResync(q: Queue, e: Event) {
    e.Put? && Resyncs(q, e.p) && |q.items| + |q.bad| > MAX_PACKET
  }

  lemma LossStep(l: Ledger, e: Event)
    requires Settled(l) && l.q.frequency != 0
    ensures Account(l, e).lost == multiset{} <==> l.lost == multiset{} && !FullResync(l.q, e)
  {
    if e.Put? { LossIsFullResync(l.q, e.p); }
    hide Write, Read, Bounded, Resyncs;
  }

  /** The queue the first `n` events of a run leave. */
  function QueueAfter(es: seq<Event>, n: nat, threshold: I32, frequency: I32): Queue
    requires n <= |es| && frequency != 0
  {
    AccountAll(Opened(threshold, frequency), es[..n]).q
  }

  /** A run loses a packet exactly when one of its writes is a resync into a queue without room. */
  lemma {:induction false} LostOnlyToFullResync(es: seq<Event>, threshold: I32, frequency: I32)
    requires frequency != 0
    ensures AccountAll(Opened(threshold, frequency), es).lost == multiset{}
            <==> forall n :: 0 <= n < |es| ==> !FullResync(QueueAfter(es, n, threshold, frequency), es[n])
  {
    hide *;
    OpenedIs(threshold, frequency);
    if es == [] {
      NothingAccounted(threshold, frequency);
    } else {
      var l0, m := Opened(threshold, frequency), |es| - 1;
      var before := es[..m];
      LostOnlyToFullResync(before, threshold, frequency);
      EveryPacketAccounted(before, threshold, frequency);
      LossStep(AccountAll(l0, before), es[m]);
      AccountSnoc(l0, es);
      QueueAfterIs(es, m, threshold, frequency);
      forall n | 0 <= n < m
        ensures QueueAfter(before, n, threshold, frequency) == QueueAfter(es, n, threshold, frequency)
      {
        QueueAfterIs(before, n, threshold, frequency);
        QueueAfterIs(es, n, threshold, frequency);
        assert before[..n] == es[..n];
      }
    }
  }

  lemma NothingAccounted(threshold: I32, frequency: I32)
    requires frequency != 0
    ensures AccountAll(Opened(threshold, frequency), []).lost == multiset{}
  {
  }

  lemma {:induction false} AccountSnoc(l: Ledger, es: seq<Event>)
    requires es != [] && l.q.frequency != 0
    ensures AccountAll(l, es) == Account(AccountAll(l, es[..|es| - 1]), es[|es| - 1])
  {
    hide Account;
  }

  lemma QueueAfterIs(es: seq<Event>, n: nat, threshold: I32, frequency: I32)
    requires n <= |es| && frequency != 0
    ensures QueueAfter(es, n, threshold, frequency) == AccountAll(Opened(threshold, frequency), es[..n]).q
  {
    hide AccountAll;
  }

  // ---------------------------------------------------------------- a run that loses packets

  /** `n` packets with consecutive numbers. */
  function Numbered(first: nat, n: nat): (ps: seq<Pkt>)
    requires first + n <= 0x1_0000
    ensures |ps| == n && forall i :: 0 <= i < n ==> ps[i] == Pkt(first + i, 0, 0)
  {
    seq(n, i requires 0 <= i < n => Pkt(first + i, 0, 0))
  }

  function Puts(ps: seq<Pkt>): (es: seq<Event>)
    ensures |es| == |ps| && forall i :: 0 <= i < |ps| ==> es[i] == Put(ps[i])
  {
    seq(|ps|, i requires 0 <= i < |ps| => Put(ps[i]))
  }

  /** Packets 0 .. n in order that nobody reads, and then `far` packets of a restarted sender. */
  function Unread(n: nat, far: nat): (es: seq<Event>)
    requires n <= MAX_PACKET && far <= 4
  {
    Puts(Numbered(0, n) + Numbered(20000, far))
  }

  /** The queue after them: the packets in order, and the far ones saved. */
  function Saved(threshold: I32, frequency: I32, n: nat, far: nat): Queue
    requires 0 < n <= MAX_PACKET && far <= 4
  {
    Queue(Numbered(0, n), 0, n - 1, 0, Numbered(20000, far), if far == 0 then 0 else 20000 + far, threshold, frequency)
  }

  lemma PutNext(threshold: I32, frequency: I32, n: nat)
    requires 0 < n < MAX_PACKET
    ensures Write(Saved(threshold, frequency, n, 0), Pkt(n, 0, 0)).q == Saved(threshold, frequency, n + 1, 0)
  {
    hide BinarySearch;
    assert Mod16(n - (n - 1)) == 1;
    assert Numbered(0, n) + [Pkt(n, 0, 0)] + [] == Numbered(0, n + 1);
    assert Numbered(20000, 0) == [];
  }

  lemma PutFar(threshold: I32, frequency: I32, n: nat, far: nat)
    requires 0 < n <= MAX_PACKET && far < 3
    ensures Write(Saved(threshold, frequency, n, far), Pkt(20000 + far, 0, 0)).q
         == Saved(threshold, frequency, n, far + 1)
  {
    hide BinarySearch;
    var q := Saved(threshold, frequency, n, far);
    assert Mod16(20000 + far - (n - 1)) == 20000 + far - (n - 1);
    assert Mod16(0 - (20000 + far)) == 0x1_0000 - (20000 + far);
    assert Numbered(20000, far) + [Pkt(20000 + far, 0, 0)] == Numbered(20000, far + 1);
    assert far == 0 <==> q.bad == [];
  }

  lemma {:induction false} UnreadFills(threshold: I32, frequency: I32, n: nat, far: nat)
    requires frequency != 0 && 0 < n <= MAX_PACKET && far <= 3
    ensures AccountAll(Opened(threshold, frequency), Unread(n, far)).q == Saved(threshold, frequency, n, far)
    decreases n + far
  {
    hide *;
    var l0, es := Opened(threshold, frequency), Unread(n, far);
    OpenedIs(threshold, frequency);
    UnreadSnoc(n, far);
    AccountPut(l0, es, es[|es| - 1].p);
    if far > 0 {
      UnreadFills(threshold, frequency, n, far - 1);
      PutFar(threshold, frequency, n, far - 1);
    } else if n > 1 {
      UnreadFills(threshold, frequency, n - 1, 0);
      PutNext(threshold, frequency, n - 1);
    } else {
      NoEvents(threshold, frequency);
      FirstPut(threshold, frequency);
    }
  }

  lemma AccountPut(l: Ledger, es: seq<Event>, p: Pkt)
    requires es != [] && l.q.frequency != 0 && es[|es| - 1] == Put(p)
    ensures AccountAll(l, es).q == Write(AccountAll(l, es[..|es| - 1]).q, p).q
  {
    hide Write, AccountAll;
    AccountSnoc(l, es);
  }

  lemma NoEvents(threshold: I32, frequency: I32)
    requires frequency != 0
    ensures AccountAll(Opened(threshold, frequency), []).q == Empty(threshold, frequency)
  {
  }

  lemma FirstPut(threshold: I32, frequency: I32)
    ensures Write(Empty(threshold, frequency), Pkt(0, 0, 0)).q == Saved(threshold, frequency, 1, 0)
  {
    assert Numbered(0, 1) == [Pkt(0, 0, 0)] && Numbered(20000, 0) == [];
  }

  lemma UnreadSnoc(n: nat, far: nat)
    requires 0 < n <= MAX_PACKET && far <= 4
    ensures var es := Unread(n, far);
            && |es| == n + far
            && es[n + far - 1] == Put(if far > 0 then Pkt(20000 + far - 1, 0, 0) else Pkt(n - 1, 0, 0))
            && es[..n + far - 1] == (if far > 0 then Unread(n, far - 1) else Unread(n - 1, 0))
            && (n == 1 && far == 0 ==> es[..0] == [])
  {
    var es := Unread(n, far);
    var less := if far > 0 then Unread(n, far - 1) else Unread(n - 1, 0);
    forall i | 0 <= i < n + far - 1 ensures es[i] == less[i] {
    }
  }

  /** Such runs exist: 2998 packets in order that nobody reads, then four in a row from a restarted
      sender. The resync has room for two of the three it saved. */
  lemma FullResyncHappens(threshold: I32, frequency: I32, n: nat)
    requires frequency != 0 && 2998 <= n <= MAX_PACKET
    ensures var es := Unread(n, 4);
            && |es| == n + 4
            && FullResync(QueueAfter(es, n + 3, threshold, frequency), es[n + 3])
            && AccountAll(Opened(threshold, frequency), es).lost != multiset{}
  {
    hide *;
    var es := Unread(n, 4);
    UnreadSnoc(n, 4);
    UnreadFills(threshold, frequency, n, 3);
    SavedOverflows(threshold, frequency, n);
    OpenedIs(threshold, frequency);
    QueueAfterIs(es, n + 3, threshold, frequency);
    LostOnlyToFullResync(es, threshold, frequency);
  }

  lemma SavedOverflows(threshold: I32, frequency: I32, n: nat)
    requires 2998 <= n <= MAX_PACKET
    ensures FullResync(Saved(threshold, frequency, n, 3), Put(Pkt(20003, 0, 0)))
  {
    assert Mod16(20003 - (n - 1)) == 20003 - (n - 1);
    assert Mod16(0 - 20003) == 0x1_0000 - 20003;
  }
}
