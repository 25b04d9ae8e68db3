/** The second pass of the packer of lib/librtp/source/rtcp-rtpfb.c: it walks the chunks just written and
    appends the deltas they announce, taking for granted that they stand for every status. */
module TccDeltas {
  import opened Bytes
  import opened Tcc

  // ---------------------------------------------------------------- what the second pass writes

  /** What the second pass makes of symbol `e` of chunk `c` at a status: a run is taken at its word, a
      vector only for packets that arrived, and there anything but a one means two bytes. */
  function Act(c: U16, e: int, st: Status): int {
    if c < 0x8000 then e
    else if !st.received then 0
    else if c / 0x4000 % 2 == 1 then (if e == 1 then 1 else 2)
    else 1
  }

  /** The first `n` of the statuses chunk `c` stands for at `i`. */
  function Acts(c: U16, s: seq<Status>, i: nat, n: nat): (e: seq<int>)
    requires i <= |s| && n <= |DecodeChunk(c, |s| - i)|
    ensures |e| == n
  {
    if n == 0 then []
    else Acts(c, s, i, n - 1) + [Act(c, DecodeChunk(c, |s| - i)[n - 1], s[i + n - 1])]
  }

  /** How many statuses chunk `c` moves the second pass on from `i`. A run stops where the 16-bit numbers
      wrap: the comparison with the first number of the run is made in 32 bits. */
  function Reach(c: U16, s: seq<Status>, i: nat): (n: nat)
    requires i <= |s|
    ensures n <= |DecodeChunk(c, |s| - i)|
  {
    var n := |DecodeChunk(c, |s| - i)|;
    if c < 0x8000 && i < |s| then Min(n, 0x1_0000 - s[i].seqno) else n
  }

  function AllActs(c: U16, s: seq<Status>, i: nat): (e: seq<int>)
    requires i <= |s|
    ensures |e| == Reach(c, s, i)
  {
    Acts(c, s, i, Reach(c, s, i))
  }

  /** The deltas of a walk over a list of chunks, and the status it ends at. */
  datatype Walk = Walk(out: seq<Byte>, i: nat)

  function Second(s: seq<Status>, i: nat, cs: seq<int>): (r: Walk)
    requires i <= |s|
    ensures i <= r.i <= |s|
    decreases |cs|
  {
    if i == |s| || cs == [] then Walk([], i)
    else
      var e := AllActs(cs[0] % 0x1_0000, s, i);
      var rest := Second(s, i + |e|, cs[1..]);
      Walk(Deltas(e, s, i) + rest.out, rest.i)
  }

  /** A walk that goes on from deltas already written. */
  function Resumed(out: seq<Byte>, rest: Walk): Walk { Walk(out + rest.out, rest.i) }

  lemma {:induction false} UnfoldSecond(s: seq<Status>, i: nat, cs: seq<int>, p: nat)
    requires i <= |s| && p <= |cs|
    ensures i == |s| || p == |cs| ==> Second(s, i, cs[p..]) == Walk([], i)
    ensures i < |s| && p < |cs| ==>
              var e := AllActs(cs[p] % 0x1_0000, s, i);
              var rest := Second(s, i + |e|, cs[p + 1..]);
              Second(s, i, cs[p..]) == Walk(Deltas(e, s, i) + rest.out, rest.i)
  {
    hide AllActs, Deltas, DecodeChunk, Reach;
    if p < |cs| {
      assert cs[p..][1..] == cs[p + 1..];
    }
  }

  lemma {:induction false} DeltasSize(e: seq<int>, s: seq<Status>, i: nat)
    requires i + |e| <= |s|
    ensures |Deltas(e, s, i)| <= 2 * |e|
  {
    if e != [] { DeltasSize(e[..|e| - 1], s, i); }
  }

  lemma {:induction false} SecondSize(s: seq<Status>, i: nat, cs: seq<int>)
    requires i <= |s|
    ensures |Second(s, i, cs).out| <= 2 * (|s| - i)
    decreases |cs|
  {
    hide AllActs, Deltas, DecodeChunk;
    if i < |s| && cs != [] {
      var e := AllActs(cs[0] % 0x1_0000, s, i);
      DeltasSize(e, s, i);
      SecondSize(s, i + |e|, cs[1..]);
    }
  }

  lemma {:induction false} ActsAre(c: U16, s: seq<Status>, i: nat, e: seq<int>, n: nat)
    requires i <= |s| && e == DecodeChunk(c, |s| - i) && n <= |e|
    requires forall j :: 0 <= j < n ==> Fits(e[j], s[i + j])
    requires c >= 0x8000 && c / 0x4000 % 2 == 0 ==> forall j :: 0 <= j < n ==> e[j] < 2
    ensures Acts(c, s, i, n) == e[..n]
  {
    hide DecodeChunk, Large;
    if n > 0 {
      ActsAre(c, s, i, e, n - 1);
      assert Fits(e[n - 1], s[i + n - 1]);
      assert e[..n] == e[..n - 1] + [e[n - 1]];
    }
  }

  lemma OneBit(c: U16, left: nat)
    requires c >= 0x8000 && c / 0x4000 % 2 == 0
    ensures forall j :: 0 <= j < |DecodeChunk(c, left)| ==> DecodeChunk(c, left)[j] < 2
  {
  }

  /** The chunk at `i` is no run across the wrap of the sequence numbers. */
  predicate StraightAt(s: seq<Status>, i: nat)
    requires i < |s|
  {
    var r := CutAt(s, i);
    r.chunk < 0x8000 ==> s[i].seqno + r.k <= 0x1_0000
  }

  ghost predicate CutsStraight(s: seq<Status>, i: nat)
    requires i <= |s|
    decreases |s| - i
  {
    i == |s| || (StraightAt(s, i) && CutsStraight(s, i + CutAt(s, i).k))
  }

  lemma UnfoldStraight(s: seq<Status>, i: nat)
    requires i <= |s|
    ensures CutsStraight(s, i) <==> i == |s| || (StraightAt(s, i) && CutsStraight(s, i + CutAt(s, i).k))
  {
    hide CutAt, StraightAt;
  }

  /** A chunk moves the second pass over just the statuses it was made for iff its run fits the field and
      does not straddle the wrap. */
  lemma {:induction false} CutReachIff(s: seq<Status>, i: nat)
    requires i < |s| <= 0x1_0000
    ensures var r := CutAt(s, i);
            Reach(r.chunk % 0x1_0000, s, i) == r.k <==> RunLen(s, i) < 0x2000 && StraightAt(s, i)
    ensures Reach(CutAt(s, i).chunk % 0x1_0000, s, i) <= |DecodeChunk(CutAt(s, i).chunk % 0x1_0000, |s| - i)|
  {
    hide CutAt, RunLen, DecodeChunk;
    CutDecodesIff(s, i);
    CutWidth(s, i, |s| - i);
    if RunLen(s, i) < 0x2000 {
      CutDecodes(s, i);
    }
  }

  /** Where a run fits, the second pass acts on the symbols the first pass meant. */
  lemma {:induction false} CutActs(s: seq<Status>, i: nat)
    requires i < |s| <= 0x1_0000 && RunLen(s, i) < 0x2000 && StraightAt(s, i)
    ensures AllActs(CutAt(s, i).chunk % 0x1_0000, s, i) == CutAt(s, i).syms
  {
    hide CutAt, RunLen, DecodeChunk, Fits, Acts, StraightAt, Reach;
    CutDecodes(s, i);
    CutReachIff(s, i);
    var r := CutAt(s, i);
    var c: U16 := r.chunk;
    forall j | 0 <= j < |r.syms| ensures Fits(r.syms[j], s[i + j]) { CutFits(s, i, j); }
    if c >= 0x8000 && c / 0x4000 % 2 == 0 { OneBit(c, |s| - i); }
    ActsAre(c, s, i, r.syms, |r.syms|);
    assert r.syms[..|r.syms|] == r.syms;
  }

  /** On chunks whose runs fit and do not straddle the wrap, the second pass writes the deltas of every
      status, whatever it would read behind the chunks. */
  lemma {:induction false} SecondIsDeltas(s: seq<Status>, i: nat, memory: seq<int>)
    requires i <= |s| <= 0x1_0000 && CutsFit(s, i) && CutsStraight(s, i)
    ensures Second(s, i, Chunks(s, i) + memory) == Walk(Deltas(Symbols(s, i), s, i), |s|)
    decreases |s| - i
  {
    hide *;
    UnfoldCuts(s, i);
    UnfoldStraight(s, i);
    UnfoldSymbols(s, i);
    var cs := Chunks(s, i) + memory;
    UnfoldSecond(s, i, cs, 0);
    assert cs[0..] == cs;
    NoDeltasAt(s, i);
    if i < |s| {
      var r := CutAt(s, i);
      CutActs(s, i);
      assert cs[1..] == Chunks(s, i + r.k) + memory;
      SecondIsDeltas(s, i + r.k, memory);
      DeltasAppend(r.syms, Symbols(s, i + r.k), s, i);
    }
  }

  lemma {:induction false} NoDeltasAt(s: seq<Status>, i: nat)
    requires i <= |s|
    ensures Deltas([], s, i) == []
  {
  }

  // ---------------------------------------------------------------- a walk out of step

  /** Where the chunks from `i` on were made to end, and where a walk over `cs` from `p` gets to. */
  function Ends(s: seq<Status>, i: nat): seq<nat>
    requires i <= |s|
    decreases |s| - i
  {
    if i == |s| then [] else [i + CutAt(s, i).k] + Ends(s, i + CutAt(s, i).k)
  }

  function Walked(s: seq<Status>, p: nat, cs: seq<int>): seq<nat>
    requires p <= |s|
    decreases |cs|
  {
    if p == |s| || cs == [] then []
    else
      var n := Reach(cs[0] % 0x1_0000, s, p);
      [p + n] + Walked(s, p + n, cs[1..])
  }

  lemma UnfoldWalked(s: seq<Status>, i: nat, p: nat, cs: seq<int>)
    requires i < |s| && p < |s| && cs != []
    ensures Ends(s, i) == [i + CutAt(s, i).k] + Ends(s, i + CutAt(s, i).k)
    ensures var n := Reach(cs[0] % 0x1_0000, s, p); Walked(s, p, cs) == [p + n] + Walked(s, p + n, cs[1..])
  {
    hide CutAt, Reach;
  }

  lemma ConsEqual(x: nat, a: seq<nat>, y: nat, b: seq<nat>)
    ensures [x] + a == [y] + b <==> x == y && a == b
  {
    assert ([x] + a)[1..] == a && ([y] + b)[1..] == b;
    assert ([x] + a)[0] == x && ([y] + b)[0] == y;
  }

  /** The second pass keeps in step with the first, chunk by chunk, iff every run fits its field and none
      straddles the wrap. */
  lemma {:induction false} InStepIff(s: seq<Status>, i: nat)
    requires i <= |s| <= 0x1_0000
    ensures Walked(s, i, Chunks(s, i)) == Ends(s, i) <==> CutsFit(s, i) && CutsStraight(s, i)
    decreases |s| - i
  {
    hide *;
    UnfoldCuts(s, i);
    UnfoldStraight(s, i);
    WalkedOut(s);
    if i < |s| {
      var r, cs := CutAt(s, i), Chunks(s, i);
      var n := Reach(r.chunk % 0x1_0000, s, i);
      CutReachIff(s, i);
      assert cs[0] == r.chunk && cs[1..] == Chunks(s, i + r.k);
      UnfoldWalked(s, i, i, cs);
      ConsEqual(i + n, Walked(s, i + n, cs[1..]), i + r.k, Ends(s, i + r.k));
      if n == r.k {
        InStepIff(s, i + r.k);
      }
    }
  }

  lemma {:induction false} WalkedOut(s: seq<Status>)
    ensures Ends(s, |s|) == [] && forall cs :: Walked(s, |s|, cs) == []
  {
  }

  /** Chunk `i` from any place of the walk at or before it. */
  lemma {:induction false} ReachBound(s: seq<Status>, i: nat, p: nat)
    requires p <= i < |s| <= 0x1_0000
    ensures var r := CutAt(s, i);
            var n := Reach(r.chunk % 0x1_0000, s, p);
            && n <= r.k + 13
            && (i + r.k < |s| ==> n <= r.k)
            && (RunLen(s, i) >= 0x2000 ==> n <= r.k - 0x2000)
  {
    hide CutAt, RunLen, DecodeChunk;
    CutWidth(s, i, |s| - p);
  }

  /** A walk that is behind stays behind, but for the spare places of the last vector. */
  lemma {:induction false} WalkBound(s: seq<Status>, i: nat, p: nat)
    requires p <= i <= |s| <= 0x1_0000
    ensures Second(s, p, Chunks(s, i)).i <= p + (|s| - i) + 13
    ensures !CutsFit(s, i) ==> Second(s, p, Chunks(s, i)).i <= p + (|s| - i) + 13 - 0x2000
    decreases |s| - i
  {
    hide *;
    UnfoldCuts(s, i);
    var cs := Chunks(s, i);
    UnfoldSecond(s, p, cs, 0);
    assert cs[0..] == cs;
    if i < |s| {
      var r := CutAt(s, i);
      ReachBound(s, i, p);
      var q := p + |AllActs(r.chunk % 0x1_0000, s, p)|;
      assert cs[0] == r.chunk && cs[1..] == Chunks(s, i + r.k);
      if i + r.k < |s| {
        WalkBound(s, i + r.k, q);
      } else {
        UnfoldCuts(s, i + r.k);
        UnfoldSecond(s, q, cs[1..], 0);
        assert cs[1..][0..] == cs[1..];
      }
    }
  }

  // ---------------------------------------------------------------- the count of free bytes

  lemma {:induction false} DeltasGrow(e: seq<int>, s: seq<Status>, i: nat, k: nat)
    requires i + |e| <= |s| && k <= |e|
    ensures |Deltas(e[..k], s, i)| <= |Deltas(e, s, i)|
    decreases |e|
  {
    hide Delta;
    if k < |e| {
      assert e[..|e| - 1][..k] == e[..k];
      DeltasGrow(e[..|e| - 1], s, i, k);
    } else {
      assert e[..k] == e;
    }
  }

  lemma {:induction false} DeltasNext(e: seq<int>, s: seq<Status>, i: nat, k: nat)
    requires i + |e| <= |s| && k < |e|
    ensures Deltas(e[..k + 1], s, i) == Deltas(e[..k], s, i) + Delta(e[k], s[i + k])
    ensures |Deltas(e[..k], s, i)| + Size(e[k]) <= |Deltas(e, s, i)|
    ensures |Delta(e[k], s[i + k])| == Size(e[k])
  {
    hide Deltas;
    assert e[..k + 1][..k] == e[..k];
    DeltasGrow(e, s, i, k + 1);
    DeltasLast(e[..k + 1], s, i);
  }

  lemma {:induction false} DeltasLast(e: seq<int>, s: seq<Status>, i: nat)
    requires i + |e| <= |s| && e != []
    ensures Deltas(e, s, i) == Deltas(e[..|e| - 1], s, i) + Delta(e[|e| - 1], s[i + |e| - 1])
  {
    hide Delta;
  }

  /** The bytes of a delta, and those a loop wants to see free before it: a run what the delta takes, a
      vector of `w`-bit symbols `w` in any case. */
  function Size(e: int): nat { if e == 0 then 0 else if e == 1 then 1 else 2 }

  function Wanted(w: nat, e: int): nat { if w > Size(e) then w else Size(e) }

  /** The width of a vector chunk's symbols; zero for a run. */
  function Width(c: U16): nat { if c < 0x8000 then 0 else if c / 0x4000 % 2 == 1 then 2 else 1 }

  /** The symbol, from `k` on, that the loop over the deltas `e` stops at with `bytes` counted free. */
  function StopsAt(e: seq<int>, s: seq<Status>, i: nat, bytes: nat, w: nat, k: nat): (n: nat)
    requires i + |e| <= |s| && k <= |e|
    ensures k <= n <= |e|
    decreases |e| - k
  {
    if k == |e| || bytes - |Deltas(e[..k], s, i)| < Wanted(w, e[k]) then k
    else StopsAt(e, s, i, bytes, w, k + 1)
  }

  /** One chunk: whether the pass goes on, what it wrote, and where it is. */
  datatype Part = Part(ok: bool, out: seq<Byte>, next: nat)

  function ChunkPart(c: U16, s: seq<Status>, i: nat, bytes: nat): (r: Part)
    requires i <= |s|
    ensures i <= r.next <= |s|
  {
    var e := AllActs(c, s, i);
    var n := StopsAt(e, s, i, bytes, Width(c), 0);
    Part(Width(c) != 0 || n == |e|, Deltas(e[..n], s, i), i + n)
  }

  /** How a pass ends: complete as far as it can tell, with an error for want of room, or at the end of the
      chunks and of the memory behind them. */
  datatype End = Done | Refused | Stray
  datatype Outcome = Outcome(end: End, b: seq<Byte>)

  function SecondPass(s: seq<Status>, i: nat, cs: seq<int>, bytes: nat): Outcome
    requires i <= |s|
    decreases |cs|
  {
    if i == |s| || bytes == 0 then Outcome(Done, [])
    else if cs == [] then Outcome(Stray, [])
    else
      var p := ChunkPart(cs[0] % 0x1_0000, s, i, bytes);
      if !p.ok then Outcome(Refused, p.out)
      else
        var rest := SecondPass(s, p.next, cs[1..], if |p.out| <= bytes then bytes - |p.out| else 0);
        Outcome(rest.end, p.out + rest.b)
  }

  lemma {:induction false} StopsTight(e: seq<int>, s: seq<Status>, i: nat, bytes: nat, w: nat, k: nat)
    requires i + |e| <= |s| && k <= |e| && w <= 2 && |Deltas(e[..k], s, i)| <= bytes
    ensures var n := StopsAt(e, s, i, bytes, w, k);
            && |Deltas(e[..n], s, i)| <= bytes
            && (n < |e| ==> bytes - |Deltas(e[..n], s, i)| <= 1 && bytes < |Deltas(e, s, i)| + 2)
            && (n < |e| && w < 2 ==> bytes < |Deltas(e, s, i)| + w || bytes < |Deltas(e, s, i)|)
    decreases |e| - k
  {
    hide Deltas, Delta;
    if k < |e| {
      DeltasNext(e, s, i, k);
      if bytes - |Deltas(e[..k], s, i)| >= Wanted(w, e[k]) {
        StopsTight(e, s, i, bytes, w, k + 1);
      }
    }
  }

  /** A chunk is written out, or at most one byte is left. */
  lemma {:induction false} PartTight(c: U16, s: seq<Status>, i: nat, bytes: nat)
    requires i <= |s|
    ensures var e, p := AllActs(c, s, i), ChunkPart(c, s, i, bytes);
            && |p.out| <= bytes
            && (p == Part(true, Deltas(e, s, i), i + |e|)
                || (bytes - |p.out| <= 1 && bytes < |Deltas(e, s, i)| + 2))
  {
    hide AllActs, Deltas;
    var e := AllActs(c, s, i);
    assert e[..0] == [] && e[..|e|] == e;
    NoDeltasAt(s, i);
    StopsTight(e, s, i, bytes, Width(c), 0);
    hide StopsAt;
  }

  /** The pass writes what the walk calls for and ends as the walk does, or at most one byte is left. */
  ghost predicate Tight(p: Outcome, w: Walk, n: nat, bytes: nat) {
    && |p.b| <= bytes
    && (p == Outcome(if w.i == n then Done else Stray, w.out) || (bytes - |p.b| <= 1 && bytes < |w.out| + 2))
  }

  lemma {:induction false} PassTight(s: seq<Status>, i: nat, cs: seq<int>, bytes: nat)
    requires i <= |s|
    ensures Tight(SecondPass(s, i, cs, bytes), Second(s, i, cs), |s|, bytes)
    decreases |cs|
  {
    hide SecondPass, Second, ChunkPart, AllActs, Deltas;
    assert cs[0..] == cs;
    UnfoldPass(s, i, cs, 0, bytes);
    UnfoldSecond(s, i, cs, 0);
    if i < |s| && bytes > 0 && cs != [] {
      var c: U16 := cs[0] % 0x1_0000;
      PartTight(c, s, i, bytes);
      var p := ChunkPart(c, s, i, bytes);
      if p.ok {
        PassTight(s, p.next, cs[1..], bytes - |p.out|);
      }
    }
  }

  // ---------------------------------------------------------------- the second pass

  /** The loop over a run-length chunk; it fails when a delta finds no room. */
  method RunDeltas(s: seq<Status>, i: nat, chunk: U16, bytes: nat) returns (ok: bool, out: seq<Byte>, next: nat)
    requires i < |s| && chunk < 0x8000 && Straight(s, i)
    ensures Part(ok, out, next) == ChunkPart(chunk, s, i, bytes) && |out| <= bytes
  {
    hide Delta, Scaled, Deltas, StopsAt, AllActs;
    ghost var e := AllActs(chunk, s, i);
    RunActs(chunk, s, i);
    ok, out, next := true, [], i;
    NoDeltasAt(s, i);
    assert e[..0] == [];
    var k := 0;
    while k < chunk % 0x2000 && next < |s|
      invariant 0 <= k && next == i + Min(k, |e|)
      invariant out == Deltas(e[..next - i], s, i) && |out| <= bytes
      invariant StopsAt(e, s, i, bytes, 0, 0) == StopsAt(e, s, i, bytes, 0, next - i)
    {
      UnfoldStops(e, s, i, bytes, 0, next - i);
      if s[i].seqno as int + k == s[next].seqno {
        DeltasNext(e, s, i, k);
        var need := if chunk / 0x4000 % 2 == 1 then 2 else if chunk / 0x2000 % 2 == 1 then 1 else 0;
        if bytes - |out| < need {
          return false, out, next;
        }
        out := out + Delta(chunk / 0x2000, s[next]);
        next := next + 1;
      }
      k := k + 1;
    }
    UnfoldStops(e, s, i, bytes, 0, next - i);
  }

  /** From `i` on the sequence numbers count up, modulo 2^16. */
  predicate Straight(s: seq<Status>, i: nat)
    requires i < |s|
  {
    |s| - i <= 0x1_0000 && forall j :: i <= j < |s| ==> s[j].seqno == (s[i].seqno + j - i) as int % 0x1_0000
  }

  lemma UnfoldStops(e: seq<int>, s: seq<Status>, i: nat, bytes: nat, w: nat, k: nat)
    requires i + |e| <= |s| && k <= |e|
    ensures StopsAt(e, s, i, bytes, w, k)
         == if k == |e| || bytes - |Deltas(e[..k], s, i)| < Wanted(w, e[k]) then k
            else StopsAt(e, s, i, bytes, w, k + 1)
  {
    hide Deltas;
  }

  /** The loop over a status vector chunk; it ends early when fewer bytes than a symbol may need are
      counted free. */
  method VectorDeltas(s: seq<Status>, i: nat, chunk: U16, bytes: nat) returns (out: seq<Byte>, next: nat)
    requires i < |s| && chunk >= 0x8000
    ensures Part(true, out, next) == ChunkPart(chunk, s, i, bytes) && |out| <= bytes
  {
    hide Delta, Scaled, Shr, Deltas, StopsAt, AllActs;
    var w := if chunk / 0x4000 % 2 == 1 then 2 else 1;
    ghost var e := AllActs(chunk, s, i);
    VectorActs(chunk, s, i, w);
    out, next := [], i;
    NoDeltasAt(s, i);
    assert e[..0] == [];
    var k := 0;
    while k < 14 / w && next < |s| && bytes - |out| >= w
      invariant 0 <= k <= |e| && next == i + k && out == Deltas(e[..k], s, i) && |out| <= bytes
      invariant StopsAt(e, s, i, bytes, w, 0) == StopsAt(e, s, i, bytes, w, k)
    {
      UnfoldStops(e, s, i, bytes, w, k);
      DeltasNext(e, s, i, k);
      if s[next].received {
        out := out + Delta(if w == 1 || Shr(chunk, 14 - w * (k + 1)) % 4 == 1 then 1 else 2, s[next]);
      } else {
        assert Delta(e[k], s[next]) == [] by { NoDelta(s[next]); }
      }
      next := next + 1;
      k := k + 1;
    }
    UnfoldStops(e, s, i, bytes, w, k);
  }

  lemma NoDelta(st: Status)
    ensures Delta(0, st) == []
  {
  }

  lemma RunActs(c: U16, s: seq<Status>, i: nat)
    requires i < |s| && c < 0x8000
    ensures var e := AllActs(c, s, i);
            && |e| == Min(Min(c % 0x2000, |s| - i), 0x1_0000 - s[i].seqno)
            && forall j :: 0 <= j < |e| ==> e[j] == c / 0x2000
  {
    var e := AllActs(c, s, i);
    forall j | 0 <= j < |e| ensures e[j] == c / 0x2000 {
      ActAt(c, s, i, |e|, j);
    }
    hide Acts, Repeat;
  }

  lemma {:induction false} ActAt(c: U16, s: seq<Status>, i: nat, n: nat, j: nat)
    requires i <= |s| && j < n <= |DecodeChunk(c, |s| - i)|
    ensures Acts(c, s, i, n)[j] == Act(c, DecodeChunk(c, |s| - i)[j], s[i + j])
  {
    hide DecodeChunk, Act;
    if j < n - 1 { ActAt(c, s, i, n - 1, j); }
  }

  lemma VectorActs(c: U16, s: seq<Status>, i: nat, w: nat)
    requires i < |s| && c >= 0x8000 && w == (if c / 0x4000 % 2 == 1 then 2 else 1)
    ensures var e := AllActs(c, s, i);
            && |e| == Min(14 / w, |s| - i)
            && forall j :: 0 <= j < |e| ==>
                 w * (j + 1) <= 14
                 && e[j] == if !s[i + j].received then 0
                            else if w == 1 || Shr(c, 14 - w * (j + 1)) % 4 == 1 then 1 else 2
  {
    var e := AllActs(c, s, i);
    hide Acts, Shr;
    forall j | 0 <= j < |e|
      ensures w * (j + 1) <= 14
              && e[j] == if !s[i + j].received then 0
                         else if w == 1 || Shr(c, 14 - w * (j + 1)) % 4 == 1 then 1 else 2
    {
      ActAt(c, s, i, |e|, j);
    }
  }

  /** The second pass: walk the chunks just written and append the deltas they announce. `memory` is what
      it would read as chunks behind them. */
  method AllDeltas(begin: U16, s: seq<Status>, chunks: seq<int>, memory: seq<int>, bytes: nat) returns (r: Outcome)
    requires Contiguous(begin, s)
    ensures r == SecondPass(s, 0, chunks + memory, bytes) && |r.b| <= bytes
  {
    hide SecondPass, ChunkPart;
    var out: seq<Byte> := [];
    var i, p := 0, 0;
    var cs := chunks + memory;
    assert cs[0..] == cs;
    ghost var all := SecondPass(s, 0, cs, bytes);
    assert Outcome(all.end, [] + all.b) == all;
    while i < |s| && bytes - |out| >= 1
      invariant 0 <= i <= |s| && 0 <= p <= |cs| && |out| <= bytes
      invariant var rest := SecondPass(s, i, cs[p..], bytes - |out|); all == Outcome(rest.end, out + rest.b)
      decreases |cs| - p
    {
      UnfoldPass(s, i, cs, p, bytes - |out|);
      if p == |cs| {
        assert out + [] == out;
        return Outcome(Stray, out);
      }
      assert Straight(s, i);
      var ok, more, next;
      if cs[p] % 0x1_0000 < 0x8000 {
        ok, more, next := RunDeltas(s, i, cs[p] % 0x1_0000, bytes - |out|);
      } else {
        more, next := VectorDeltas(s, i, cs[p] % 0x1_0000, bytes - |out|);
        ok := true;
      }
      if !ok {
        return Outcome(Refused, out + more);
      }
      Regroup(out, more, SecondPass(s, next, cs[p + 1..], bytes - |out| - |more|).b);
      out := out + more;
      i, p := next, p + 1;
    }
    UnfoldPass(s, i, cs, p, bytes - |out|);
    assert out + [] == out;
    return Outcome(Done, out);
  }

  lemma {:induction false} UnfoldPass(s: seq<Status>, i: nat, cs: seq<int>, p: nat, bytes: nat)
    requires i <= |s| && p <= |cs|
    ensures SecondPass(s, i, cs[p..], bytes)
         == if i == |s| || bytes == 0 then Outcome(Done, [])
            else if p == |cs| then Outcome(Stray, [])
            else
              var part := ChunkPart(cs[p] % 0x1_0000, s, i, bytes);
              if !part.ok then Outcome(Refused, part.out)
              else
                var rest := SecondPass(s, part.next, cs[p + 1..],
                                       if |part.out| <= bytes then bytes - |part.out| else 0);
                Outcome(rest.end, part.out + rest.b)
  {
    hide ChunkPart;
    if p < |cs| {
      assert cs[p..][1..] == cs[p + 1..];
    }
  }
}
