/** What a recording plays after failed writes: a write that storage takes only in part leaves a prefix of
    its packets behind, and the writer goes on. */
module TsFailedWrites {
  import opened Bytes
  import opened TsPacket
  import opened TsTables
  import opened TsWriter
  import opened TsDemux
  import opened TsRecording

  /** `now` plays all that `was` played: every unit but the last unchanged, and that one with the same
      stamps and at least the same bytes. */
  ghost predicate Extends(was: seq<Unit>, now: seq<Unit>) {
    |was| <= |now|
    && (forall k :: 0 <= k < |was| - 1 ==> now[k] == was[k])
    && (was != [] ==> Truncated(was[|was| - 1], now[|was| - 1]))
  }

  lemma TruncatedTwice(a: Unit, b: Unit, c: Unit)
    requires Truncated(a, b) && Truncated(b, c)
    ensures Truncated(a, c)
  {
    assert c.data[..|b.data|][..|a.data|] == c.data[..|a.data|];
  }

  lemma ExtendsTwice(a: seq<Unit>, b: seq<Unit>, c: seq<Unit>)
    requires Extends(a, b) && Extends(b, c)
    ensures Extends(a, c)
  {
    hide Truncated;
    if a != [] {
      var k := |a| - 1;
      if |a| == |b| {
        TruncatedTwice(a[k], b[k], c[k]);
      } else {
        assert b[k] == c[k];
      }
    }
  }

  lemma ExtendsSame(a: seq<Unit>, more: seq<Unit>)
    ensures Extends(a, a + more)
  {
    if a != [] {
      assert a[|a| - 1].data[..|a[|a| - 1].data|] == a[|a| - 1].data;
    }
  }

  /** No packet takes back what was played before it. */
  lemma FeedExtends(d: Demux, raw: seq<Byte>)
    ensures Extends(Finish(d), Finish(Feed(d, raw)))
  {
    ExtendsSame(Finish(d), []);
    assert Finish(d) + [] == Finish(d);
    if Parse(raw).Some? {
      RouteExtends(Count(d, Parse(raw).value), Parse(raw).value);
    }
    hide Parse, Route, Extends;
  }

  lemma RouteExtends(d: Demux, p: Packet)
    ensures Extends(Finish(d), Finish(Route(d, p)))
  {
    var r := Route(d, p);
    hide ReadPat, ReadPmt, OpenUnit;
    ExtendsSame(Finish(d), []);
    assert Finish(d) + [] == Finish(d);
    if r.units != d.units || r.open != d.open {
      if p.start {
        ExtendsSame(Finish(d), if r.open.Some? then [r.open.value] else []);
      } else {
        var u, v := d.open.value, r.open.value;
        assert v.data[..|u.data|] == u.data;
        assert Truncated(u, v);
      }
    }
  }

  lemma {:induction false} RunExtends(d: Demux, ps: seq<seq<Byte>>)
    ensures Extends(Finish(d), Finish(Run(d, ps)))
    decreases |ps|
  {
    if ps == [] {
      ExtendsSame(Finish(d), []);
      assert Finish(d) + [] == Finish(d);
    } else {
      var front, last := ps[..|ps| - 1], ps[|ps| - 1];
      hide Finish, Feed, Extends;
      RunExtends(d, front);
      FeedExtends(Run(d, front), last);
      ExtendsTwice(Finish(d), Finish(Run(d, front)), Finish(Run(d, ps)));
    }
  }

  lemma {:induction false} ChopAppend(ps: seq<seq<Byte>>, z: seq<Byte>)
    requires forall k :: 0 <= k < |ps| ==> |ps[k]| == SIZE
    ensures Chop(Concat(ps) + z) == ps + Chop(z)
    decreases |ps|
  {
    if ps == [] {
      assert Concat(ps) + z == z;
    } else {
      var rest := Concat(ps[1..]) + z;
      assert Concat(ps) + z == ps[0] + rest;
      ChopAppend(ps[1..], z);
      ChopFirst(ps[0], rest);
      hide Chop, Concat;
      assert [ps[0]] + (ps[1..] + Chop(z)) == ps + Chop(z);
    }
  }

  lemma {:induction false} ChopFirst(p: seq<Byte>, rest: seq<Byte>)
    requires |p| == SIZE
    ensures Chop(p + rest) == [p] + Chop(rest)
  {
    assert (p + rest)[..SIZE] == p && (p + rest)[SIZE..] == rest;
  }

  /** Whatever ends up behind a recording - part of a unit, and later units behind it - takes nothing of
      it back. */
  lemma {:induction false} NothingIsUnplayed(ws: seq<Write>, z: seq<Byte>)
    ensures Extends(Played(ws), Finish(Demultiplex(File(ws) + z)))
  {
    hide Extends, Chop, Concat, Run, Finish, PacketsFrom, Played;
    var ps := PacketsFrom(BEGIN, ws);
    PacketsSize(BEGIN, ws);
    ChopAppend(ps, z);
    ChopWhole(ps);
    RunAppend(START, ps, Chop(z));
    RecordingPlaysBack(ws);
    RunExtends(Run(START, ps), Chop(z));
  }

  /** A write and how many bytes of it storage took. */
  datatype Attempt = Attempt(w: Write, accepted: nat)

  ghost function MuxTried(ts: seq<Attempt>): Mux {
    if ts == [] then BEGIN
    else After(MuxTried(ts[..|ts| - 1]), ts[|ts| - 1].w.au, ts[|ts| - 1].w.duration)
  }

  /** The bytes of the k-th write. */
  ghost function BytesOf(ts: seq<Attempt>, k: nat): seq<Byte>
    requires k < |ts|
  {
    Concat(UnitPackets(MuxTried(ts[..k]), ts[k].w.au))
  }

  /** What is on disk, and what the writer counts. */
  ghost function OnDisk(ts: seq<Attempt>): seq<Byte> {
    if ts == [] then []
    else
      var n := |ts| - 1;
      OnDisk(ts[..n]) + BytesOf(ts, n)[..Min(ts[n].accepted, |BytesOf(ts, n)|)]
  }

  ghost function CountedSize(ts: seq<Attempt>): nat {
    if ts == [] then 0
    else
      var n := |ts| - 1;
      CountedSize(ts[..n]) + (if ts[n].accepted >= |BytesOf(ts, n)| then |BytesOf(ts, n)| else 0)
  }

  /** The k-th write, if it failed, left nothing on disk. */
  ghost predicate LeftNothing(ts: seq<Attempt>, k: nat)
    requires k < |ts|
  {
    ts[k].accepted < |BytesOf(ts, k)| ==> ts[k].accepted == 0
  }

  /** The writer's size is the size on disk exactly as long as no failed write has left anything there;
      otherwise the file is larger. */
  lemma {:induction false} CountIsDiskIff(ts: seq<Attempt>)
    ensures CountedSize(ts) <= |OnDisk(ts)|
    ensures CountedSize(ts) == |OnDisk(ts)| <==> forall k :: 0 <= k < |ts| ==> LeftNothing(ts, k)
  {
    hide *;
    if ts == [] {
      NothingTried();
    } else {
      var n := |ts| - 1;
      var front := ts[..n];
      CountIsDiskIff(front);
      SizeStep(ts);
      forall k | 0 <= k < n ensures LeftNothing(ts, k) == LeftNothing(front, k) { LeftNothingPrefix(ts, n, k); }
    }
  }

  lemma NothingTried()
    ensures MuxTried([]) == BEGIN && OnDisk([]) == [] && CountedSize([]) == 0
  {
  }

  lemma LeftNothingPrefix(ts: seq<Attempt>, n: nat, k: nat)
    requires k < n <= |ts|
    ensures LeftNothing(ts[..n], k) == LeftNothing(ts, k)
  {
    hide BytesOf;
    BytesOfPrefix(ts, n, k);
  }

  lemma {:induction false} SizeStep(ts: seq<Attempt>)
    requires ts != []
    ensures var n := |ts| - 1;
            var all, taken := |BytesOf(ts, n)|, ts[n].accepted;
            && |OnDisk(ts)| == |OnDisk(ts[..n])| + (if taken < all then taken else all)
            && CountedSize(ts) == CountedSize(ts[..n]) + (if taken >= all then all else 0)
            && (LeftNothing(ts, n) <==> (taken < all ==> taken == 0))
  {
    hide BytesOf;
  }

  lemma BytesOfPrefix(ts: seq<Attempt>, n: nat, k: nat)
    requires k < n <= |ts|
    ensures BytesOf(ts[..n], k) == BytesOf(ts, k)
  {
    hide UnitPackets, MuxTried, Concat;
    assert ts[..n][..k] == ts[..k];
  }

  function Tried(ts: seq<Attempt>): (ws: seq<Write>)
    ensures |ws| == |ts|
  {
    if ts == [] then [] else Tried(ts[..|ts| - 1]) + [ts[|ts| - 1].w]
  }

  ghost predicate Took(ts: seq<Attempt>, n: nat)
    requires n <= |ts|
  {
    forall k :: 0 <= k < n ==> ts[k].accepted >= |BytesOf(ts, k)|
  }

  lemma TookPrefix(ts: seq<Attempt>, n: nat)
    requires n <= |ts| && Took(ts, n)
    ensures Took(ts[..n], n)
  {
    hide BytesOf;
    forall k | 0 <= k < n ensures ts[..n][k].accepted >= |BytesOf(ts[..n], k)| { BytesOfPrefix(ts, n, k); }
  }

  lemma {:induction false} TookIsFile(ts: seq<Attempt>)
    requires Took(ts, |ts|)
    ensures OnDisk(ts) == File(Tried(ts)) && MuxTried(ts) == MuxFrom(BEGIN, Tried(ts))
  {
    if ts == [] {
      EmptyFile();
    } else {
      var n := |ts| - 1;
      var front, all := ts[..n], Tried(ts);
      TookPrefix(ts, n);
      TookIsFile(front);
      assert all[..n] == Tried(front) && all[n] == ts[n].w;
      hide UnitPackets, After, Concat, File;
      FileSnoc(all);
      var b := BytesOf(ts, n);
      assert b[..|b|] == b;
    }
  }

  lemma {:induction false} OnDiskGrows(ts: seq<Attempt>, n: nat)
    requires n <= |ts|
    ensures OnDisk(ts[..n]) <= OnDisk(ts)
    decreases |ts|
  {
    if n == |ts| {
      assert ts[..n] == ts;
    } else {
      var front := ts[..|ts| - 1];
      OnDiskGrows(front, n);
      assert front[..n] == ts[..n];
    }
  }

  /** After any mixture of failed, partial and successful writes, the units written before the first
      failure still play. */
  lemma {:induction false} EarlierUnitsStillPlay(ts: seq<Attempt>, n: nat)
    requires n <= |ts| && Took(ts, n)
    ensures Extends(Played(Tried(ts[..n])), Finish(Demultiplex(OnDisk(ts))))
  {
    hide *;
    var front := ts[..n];
    TookPrefix(ts, n);
    TookIsFile(front);
    OnDiskGrows(ts, n);
    var f := File(Tried(front));
    assert f + OnDisk(ts)[|f|..] == OnDisk(ts);
    NothingIsUnplayed(Tried(front), OnDisk(ts)[|f|..]);
  }

  /** The attempts that write anything: `write_nal` ignores an empty unit. */
  ghost function Worth(ts: seq<Attempt>): seq<Attempt> {
    if ts == [] then []
    else Worth(ts[..|ts| - 1]) + (if ts[|ts| - 1].w.au == [] then [] else [ts[|ts| - 1]])
  }

  /** One more attempt. */
  lemma {:induction false} AttemptNext(front: seq<Attempt>, t: Attempt)
    ensures var ts, m := front + [t], MuxTried(front);
            var bytes := Concat(UnitPackets(m, t.w.au));
            && MuxTried(ts) == After(m, t.w.au, t.w.duration)
            && OnDisk(ts) == OnDisk(front) + bytes[..Min(t.accepted, |bytes|)]
            && CountedSize(ts) == CountedSize(front) + (if t.accepted >= |bytes| then |bytes| else 0)
  {
    hide Concat, UnitPackets, After;
    var ts := front + [t];
    assert ts[..|front|] == front;
  }

  lemma NothingWorth()
    ensures Worth([]) == []
  {
  }

  lemma {:induction false} WorthStep(ts: seq<Attempt>)
    requires ts != []
    ensures var front, last := Worth(ts[..|ts| - 1]), ts[|ts| - 1];
            Worth(ts) == if last.w.au == [] then front else front + [last]
  {
  }

  /** The writer under such attempts. */
  method Try(ts: seq<Attempt>, now: int) returns (w: Writer)
    ensures fresh(w)
    ensures w.file == Some(OnDisk(Worth(ts))) && w.sizeBytes == CountedSize(Worth(ts))
  {
    hide UnitPackets, After, Concat, Worth, MuxTried, OnDisk, CountedSize;
    NothingTried();
    w := new Writer();
    var isOpen := w.Open(now, true);
    var started := w.BeginVideo();
    NothingWorth();
    for i := 0 to |ts|
      invariant fresh(w)
      invariant w.videoStarted && w.Muxer() == MuxTried(Worth(ts[..i]))
      invariant w.file == Some(OnDisk(Worth(ts[..i]))) && w.sizeBytes == CountedSize(Worth(ts[..i]))
    {
      assert ts[..i + 1][..i] == ts[..i];
      WorthStep(ts[..i + 1]);
      AttemptNext(Worth(ts[..i]), ts[i]);
      var ok := w.WriteNal(ts[i].w.au, ts[i].w.duration, ts[i].accepted, now, true);
    }
    assert ts[..|ts|] == ts;
  }
}
