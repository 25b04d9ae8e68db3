/** The RTP reorder queue of lib/librtp/source/rtp-queue.c: what a write and a read do to it, as
    functions of the queued packets in order. `RtpRing` refines it to the ring buffer. */
module RtpQueue {
  import opened Bytes

  const MAX_PACKET := 3000
  const RTP_MISORDER := 300
  const RTP_DROPOUT := 1000
  const RTP_SEQUENTIAL := 3
  const E2BIG := 7

  type I32 = x: int | -0x8000_0000 <= x < 0x8000_0000

  /** A packet by its header fields; `id` stands for the rest. */
  datatype Pkt = Pkt(seqno: U16, timestamp: U32, id: int)

  datatype Queue = Queue(items: seq<Pkt>, probation: nat, last: U16, first: U16, bad: seq<Pkt>, badSeq: U16,
                         threshold: I32, frequency: I32)

  /** `rtp_queue_create`. */
  function Empty(threshold: I32, frequency: I32): Queue {
    Queue([], 1, 0, 0, [], 0, threshold, frequency)
  }

  function S16Of(n: int): int { var u := n % 0x1_0000; if u >= 0x8000 then u - 0x1_0000 else u }

  // ---------------------------------------------------------------- searching

  /** `rtp_queue_find` on the queued packets: -1 for a duplicate, else where to insert. */
  function BinarySearch(items: seq<Pkt>, last: U16, seqno: U16, l: nat, r: nat): (k: int)
    requires l <= r <= |items|
    ensures k == -1 || l <= k <= r
    decreases r - l
  {
    if l == r then l else
    var i := (l + r) / 2;
    var v, vi := Mod16(last - seqno), Mod16(last - items[i].seqno);
    if vi == v then -1
    else if vi < v then BinarySearch(items, last, seqno, l, i)
    else BinarySearch(items, last, seqno, i + 1, r)
  }

  /** The same question answered by a scan from the front: the first packet not older. */
  function LinearScan(items: seq<Pkt>, last: U16, seqno: U16, i: nat): (k: int)
    requires i <= |items|
    decreases |items| - i
  {
    if i == |items| then i else
    var v, vi := Mod16(last - seqno), Mod16(last - items[i].seqno);
    if vi == v then -1 else if vi < v then i else LinearScan(items, last, seqno, i + 1)
  }

  /** Packets in sending order, seen from the newest sequence number. */
  ghost predicate Ordered(items: seq<Pkt>, last: U16) {
    forall i, j :: 0 <= i < j < |items| ==> Mod16(last - items[i].seqno) > Mod16(last - items[j].seqno)
  }

  lemma {:induction false} ScanIsLeast(items: seq<Pkt>, last: U16, seqno: U16, i: nat, k: nat)
    requires Ordered(items, last) && i <= k <= |items|
    requires forall j :: i <= j < k ==> Mod16(last - items[j].seqno) > Mod16(last - seqno)
    requires k < |items| ==> Mod16(last - items[k].seqno) <= Mod16(last - seqno)
    ensures LinearScan(items, last, seqno, i)
            == if k < |items| && Mod16(last - items[k].seqno) == Mod16(last - seqno) then -1 else k
    decreases k - i
  {
    hide Mod16;
    if i < k { ScanIsLeast(items, last, seqno, i + 1, k); }
  }

  /** The search narrows onto the scan's answer. */
  lemma {:induction false} SearchAgrees(items: seq<Pkt>, last: U16, seqno: U16, l: nat, r: nat)
    requires Ordered(items, last) && l <= r <= |items|
    requires forall j :: 0 <= j < l ==> Mod16(last - items[j].seqno) > Mod16(last - seqno)
    requires forall j :: r <= j < |items| ==> Mod16(last - items[j].seqno) < Mod16(last - seqno)
    ensures BinarySearch(items, last, seqno, l, r) == LinearScan(items, last, seqno, 0)
    decreases r - l
  {
    hide Mod16;
    if l == r {
      ScanIsLeast(items, last, seqno, 0, l);
    } else {
      var i := (l + r) / 2;
      var v, vi := Mod16(last - seqno), Mod16(last - items[i].seqno);
      if vi == v {
        ScanIsLeast(items, last, seqno, 0, i);
      } else if vi < v {
        SearchAgrees(items, last, seqno, l, i);
      } else {
        SearchAgrees(items, last, seqno, i + 1, r);
      }
    }
  }

  /** On ordered packets the binary search and the linear scan agree on presence and position. */
  lemma {:induction false} SearchIsScan(items: seq<Pkt>, last: U16, seqno: U16)
    requires Ordered(items, last)
    ensures BinarySearch(items, last, seqno, 0, |items|) == LinearScan(items, last, seqno, 0)
  {
    SearchAgrees(items, last, seqno, 0, |items|);
  }

  // ---------------------------------------------------------------- writing

  /** What a write does: the new queue, the return value, the packets freed, and the packets that are
      neither kept nor freed. */
  datatype Written = Written(q: Queue, ret: int, freed: seq<Pkt>, lost: seq<Pkt>)

  /** `rtp_queue_insert` at position `k`. */
  function Insert(q: Queue, k: nat, p: Pkt): (r: Queue)
    requires k <= |q.items|
    ensures r.threshold == q.threshold && r.frequency == q.frequency
  {
    if |q.items| >= MAX_PACKET then q else q.(items := q.items[..k] + [p] + q.items[k..])
  }

  function InsertRet(q: Queue): int { if |q.items| >= MAX_PACKET then -E2BIG else 1 }

  /** The saved packets of a restarted sender go behind the queue, as far as there is room. */
  function Resync(q: Queue, saved: seq<Pkt>): (r: Queue)
    ensures r == q.(items := q.items + saved[..Fitting(q, saved)])
    decreases |saved|
  {
    assert Fitting(q, saved) <= |saved|;
    if saved == [] then
      assert q.items + [] == q.items;
      q
    else
      var q0 := Insert(q, |q.items|, saved[0]);
      assert q0.items + saved[1..][..Fitting(q0, saved[1..])] == q.items + saved[..Fitting(q, saved)];
      Resync(q0, saved[1..])
  }

  function Fitting(q: Queue, saved: seq<Pkt>): (n: nat)
    ensures n <= |saved|
  {
    var room := if |q.items| >= MAX_PACKET then 0 else MAX_PACKET - |q.items|;
    if room < |saved| then room else |saved|
  }

  /** `rtp_queue_write`. */
  function Write(q: Queue, p: Pkt): (r: Written)
    ensures r.q.threshold == q.threshold && r.q.frequency == q.frequency
  {
    if q.probation > 0 then WriteProbation(q, p)
    else
      var delta := Mod16(p.seqno - q.last);
      if 0 < delta < RTP_DROPOUT then
        var q0 := q.(bad := [], badSeq := 0, last := p.seqno);
        Written(Insert(q0, |q0.items|, p), InsertRet(q0), q.bad, [])
      else if S16Of(delta) <= 0 && S16Of(delta) >= S16Of(q.first - q.last) then
        var k := BinarySearch(q.items, q.last, p.seqno, 0, |q.items|);
        if k == -1 then Written(q, -1, [], [])
        else
          var q0 := q.(bad := [], badSeq := 0);
          Written(Insert(q0, k, p), InsertRet(q0), q.bad, [])
      else if Mod16(q.first - p.seqno) < RTP_MISORDER then Written(q, -1, [], [])
      else WriteBad(q, p)
  }

  function WriteProbation(q: Queue, p: Pkt): (r: Written)
    requires q.probation > 0
    ensures r.q.threshold == q.threshold && r.q.frequency == q.frequency
  {
    if |q.items| > 0 && p.seqno == q.last + 1 then
      var q0 := q.(probation := q.probation - 1, last := p.seqno,
                   first := if q.probation == 1 then q.items[0].seqno else q.first);
      Written(Insert(q0, |q0.items|, p), InsertRet(q0), [], [])
    else if |q.items| == 0 && q.probation == 1 then
      var q0 := q.(first := p.seqno, probation := 0, last := p.seqno);
      Written(Insert(q0, 0, p), InsertRet(q0), [], [])
    else
      var q0 := q.(items := [], bad := [], badSeq := 0, probation := RTP_SEQUENTIAL, last := p.seqno);
      Written(Insert(q0, 0, p), InsertRet(q0), q.bad + q.items, [])
  }

  /** Far from the window: save the packet, and resynchronise on the fourth in a row. The queue is not
      emptied and `first` is not moved by a resync. */
  function WriteBad(q: Queue, p: Pkt): (r: Written)
    ensures r.q.threshold == q.threshold && r.q.frequency == q.frequency
  {
    var next := (p.seqno + 1) as int % 0xFFFF;
    if q.bad != [] && q.badSeq == p.seqno then
      if |q.bad| >= RTP_SEQUENTIAL then
        var q0 := Resync(q, q.bad).(bad := [], last := p.seqno);
        Written(Insert(q0, |q0.items|, p), InsertRet(q0), [], q.bad[Fitting(q, q.bad)..])
      else Written(q.(badSeq := next, bad := q.bad + [p]), 1, [], [])
    else Written(q.(badSeq := next, bad := [p]), 1, q.bad, [])
  }

  predicate Resyncs(q: Queue, p: Pkt) {
    && q.probation == 0
    && !(0 < Mod16(p.seqno - q.last) < RTP_DROPOUT)
    && !(S16Of(p.seqno - q.last) <= 0 && S16Of(p.seqno - q.last) >= S16Of(q.first - q.last))
    && Mod16(q.first - p.seqno) >= RTP_MISORDER
    && q.bad != [] && q.badSeq == p.seqno && |q.bad| >= RTP_SEQUENTIAL
  }

  // ---------------------------------------------------------------- reading

  datatype Taken = Taken(q: Queue, pkt: Option<Pkt>)

  /** The distance between two timestamps, in ms; the frequency is cast to 64 unsigned bits. */
  function Waited(newest: U32, oldest: U32, frequency: I32): nat
    requires frequency != 0
  {
    var d := (newest as int - oldest as int) % 0x1_0000_0000;
    var abs := if d >= 0x8000_0000 then 0x1_0000_0000 - d else d;
    abs * 1000 / (frequency as int % 0x1_0000_0000_0000_0000) % 0x1_0000_0000
  }

  /** The playout delay the queue spans. */
  function Spread(q: Queue): nat
    requires q.items != [] && q.frequency != 0
  {
    Waited(q.items[|q.items| - 1].timestamp, q.items[0].timestamp, q.frequency)
  }

  /** `rtp_queue_read`: the head, once it is the expected packet or has waited long enough. */
  function Read(q: Queue): (r: Taken)
    requires q.frequency != 0
    ensures r.q.threshold == q.threshold && r.q.frequency == q.frequency
  {
    if q.items == [] || q.probation > 0 then Taken(q, None)
    else
      var p := q.items[0];
      if q.threshold == 0 || q.first == p.seqno then
        Taken(q.(first := Mod16(q.first + 1), items := q.items[1..]), Some(p))
      else if Spread(q) < q.threshold as int % 0x1_0000_0000 then Taken(q, None)
      else Taken(q.(first := Mod16(p.seqno + 1), items := q.items[1..]), Some(p))
  }

  /** When the head is let go, in terms of the times the packets were stamped with: it is the one expected,
      nothing is waited for, or the packets held span the threshold. The stamps may wrap, and the last one may
      be the earlier. */
  lemma ReleasedIff(q: Queue, oldest: int, newest: int)
    requires q.items != [] && q.probation == 0 && q.frequency > 0 && q.threshold >= 0
    requires q.items[0].timestamp == oldest % 0x1_0000_0000
    requires q.items[|q.items| - 1].timestamp == newest % 0x1_0000_0000
    requires -0x8000_0000 < newest - oldest < 0x8000_0000
    requires (if newest < oldest then oldest - newest else newest - oldest) * 1000 < q.frequency * 0x1_0000_0000
    ensures var span := if newest < oldest then oldest - newest else newest - oldest;
            Read(q).pkt == Some(q.items[0])
            <==> q.first == q.items[0].seqno || q.threshold == 0 || span * 1000 >= q.threshold * q.frequency
    ensures Read(q).pkt == None || Read(q).pkt == Some(q.items[0])
  {
    hide *;
    var span := if newest < oldest then oldest - newest else newest - oldest;
    WaitedIs(oldest, newest, q.frequency);
    DivideIff(span * 1000, q.frequency, q.threshold);
    ReadIs(q, span * 1000 / q.frequency);
  }

  lemma ReadIs(q: Queue, wait: int)
    requires q.items != [] && q.probation == 0 && q.frequency > 0 && q.threshold >= 0
    requires Waited(q.items[|q.items| - 1].timestamp, q.items[0].timestamp, q.frequency) == wait
    ensures Read(q).pkt == Some(q.items[0])
            <==> q.first == q.items[0].seqno || q.threshold == 0 || wait >= q.threshold
    ensures Read(q).pkt == None || Read(q).pkt == Some(q.items[0])
  {
    hide Waited, Mod16;
    assert q.threshold as int % 0x1_0000_0000 == q.threshold;
  }

  /** The wait in milliseconds, rounded down. */
  lemma WaitedIs(oldest: int, newest: int, frequency: I32)
    requires frequency > 0 && -0x8000_0000 < newest - oldest < 0x8000_0000
    requires (if newest < oldest then oldest - newest else newest - oldest) * 1000 < frequency * 0x1_0000_0000
    ensures var span := if newest < oldest then oldest - newest else newest - oldest;
            Waited(newest % 0x1_0000_0000, oldest % 0x1_0000_0000, frequency) == span * 1000 / frequency
  {
    var span := if newest < oldest then oldest - newest else newest - oldest;
    StampDistance(oldest, newest);
    DivideIff(span * 1000, frequency, 0x1_0000_0000);
    DivideIff(span * 1000, frequency, 0);
    SmallModulo(span * 1000 / frequency);
  }

  lemma SmallModulo(n: int)
    requires 0 <= n < 0x1_0000_0000
    ensures n % 0x1_0000_0000 == n
  {
  }

  /** The distance of two stamps that wrap. */
  lemma StampDistance(oldest: int, newest: int)
    requires -0x8000_0000 < newest - oldest < 0x8000_0000
    ensures var d := (newest % 0x1_0000_0000 - oldest % 0x1_0000_0000) % 0x1_0000_0000;
            (if d >= 0x8000_0000 then 0x1_0000_0000 - d else d)
            == if newest < oldest then oldest - newest else newest - oldest
  {
    var d := (newest % 0x1_0000_0000 - oldest % 0x1_0000_0000) % 0x1_0000_0000;
    assert d == (newest - oldest) % 0x1_0000_0000;
  }

  lemma DivideIff(x: int, f: int, t: int)
    requires f > 0
    ensures x / f >= t <==> x >= t * f
  {
    var k := x / f;
    assert x == k * f + x % f;
    if k >= t { Multiply(t, k, f); } else { Multiply(k + 1, t, f); }
  }

  lemma Multiply(a: int, b: int, f: int)
    requires a <= b && f > 0
    ensures a * f <= b * f
  {
  }

  // ---------------------------------------------------------------- conservation

  /** Bounds kept by every operation: at most 3000 packets, at most three saved ones. */
  ghost predicate Bounded(q: Queue) {
    |q.items| <= MAX_PACKET && |q.bad| <= RTP_SEQUENTIAL && (q.probation == 0 || (q.items == [] && q.bad == []))
  }

  lemma WriteBounded(q: Queue, p: Pkt)
    requires Bounded(q) && q.probation <= 1
    ensures Bounded(Write(q, p).q) && Write(q, p).q.probation == 0
  {
    hide BinarySearch, Mod16, S16Of;
  }

  lemma InsertKeeps(q: Queue, k: nat, p: Pkt)
    requires k <= |q.items|
    ensures multiset(Insert(q, k, p).items)
         == multiset(q.items) + (if InsertRet(q) == 1 then multiset{p} else multiset{})
  {
    assert q.items == q.items[..k] + q.items[k..];
  }

  /** What was held and what was taken in is afterwards queued, saved, freed or lost. */
  ghost predicate Balanced(q: Queue, p: Pkt, r: Written) {
    multiset(q.items) + multiset(q.bad) + (if r.ret == 1 then multiset{p} else multiset{})
    == multiset(r.q.items) + multiset(r.q.bad) + multiset(r.freed) + multiset(r.lost)
  }

  /** An insertion, with everything the queue no longer holds freed. */
  lemma InsertBalanced(q: Queue, q0: Queue, k: nat, p: Pkt, freed: seq<Pkt>)
    requires k <= |q0.items|
    requires multiset(q.items) + multiset(q.bad) == multiset(q0.items) + multiset(q0.bad) + multiset(freed)
    ensures Balanced(q, p, Written(Insert(q0, k, p), InsertRet(q0), freed, []))
  {
    InsertKeeps(q0, k, p);
    InsertFields(q0, k, p);
    hide Insert;
  }

  lemma InsertFields(q: Queue, k: nat, p: Pkt)
    requires k <= |q.items|
    ensures Insert(q, k, p).bad == q.bad
  {
  }

  /** No packet is duplicated and none vanishes: what a write takes in (when it returns 1) and what it
      held before is afterwards queued, saved, freed, or - only when a resync finds the queue full -
      dropped without being freed. */
  lemma WriteConserves(q: Queue, p: Pkt)
    ensures Balanced(q, p, Write(q, p))
  {
    var k := BinarySearch(q.items, q.last, p.seqno, 0, |q.items|);
    hide BinarySearch, Mod16, S16Of, Insert, Balanced, WriteBad, WriteProbation, InsertRet;
    InsertBalanced(q, q.(bad := [], badSeq := 0, last := p.seqno), |q.items|, p, q.bad);
    if k != -1 { InsertBalanced(q, q.(bad := [], badSeq := 0), k, p, q.bad); }
    NothingChanges(q, p);
    if q.probation > 0 { ProbationConserves(q, p); }
    BadConserves(q, p);
  }

  lemma NothingChanges(q: Queue, p: Pkt)
    ensures Balanced(q, p, Written(q, -1, [], []))
  {
  }

  lemma ProbationConserves(q: Queue, p: Pkt)
    requires q.probation > 0
    ensures Balanced(q, p, WriteProbation(q, p))
  {
    hide Insert, Balanced, InsertRet;
    if |q.items| > 0 && p.seqno == q.last + 1 {
      InsertBalanced(q, q.(probation := q.probation - 1, last := p.seqno,
                           first := if q.probation == 1 then q.items[0].seqno else q.first), |q.items|, p, []);
    } else if |q.items| == 0 && q.probation == 1 {
      InsertBalanced(q, q.(first := p.seqno, probation := 0, last := p.seqno), 0, p, []);
    } else {
      InsertBalanced(q, q.(items := [], bad := [], badSeq := 0, probation := RTP_SEQUENTIAL, last := p.seqno), 0, p,
                     q.bad + q.items);
    }
  }

  lemma BadConserves(q: Queue, p: Pkt)
    ensures Balanced(q, p, WriteBad(q, p))
  {
    hide Insert;
    if q.bad != [] && q.badSeq == p.seqno && |q.bad| >= RTP_SEQUENTIAL {
      var n := Fitting(q, q.bad);
      var q0 := Resync(q, q.bad).(bad := [], last := p.seqno);
      assert q.bad == q.bad[..n] + q.bad[n..];
      InsertKeeps(q0, |q0.items|, p);
      InsertFields(q0, |q0.items|, p);
    }
  }

  /** A write drops packets exactly when it is a resync into a queue without room for them. */
  lemma LossIsFullResync(q: Queue, p: Pkt)
    requires Bounded(q)
    ensures Write(q, p).lost == [] <==> !(Resyncs(q, p) && |q.items| + |q.bad| > MAX_PACKET)
  {
    hide BinarySearch, Insert, Resync;
  }

  lemma ReadConserves(q: Queue)
    requires q.frequency != 0
    ensures var r := Read(q);
            multiset(q.items) == multiset(r.q.items) + (if r.pkt.Some? then multiset{r.pkt.value} else multiset{})
    ensures Read(q).q.bad == q.bad
  {
    hide Spread;
    if q.items != [] { assert q.items == [q.items[0]] + q.items[1..]; }
  }
}
