/** The presentation stamps of an encoder session: src/encoder/video_encoder.cpp queues the pts of each
    frame it submits to the hardware and pops one for each packet that comes back. How many packets a
    drain or a flush yields is up to the hardware and is a parameter here. */
module PtsFifo {

  /** `past` and `out` are what the consumers were handed: one list per closed session, and the list of
      the running one. `last` is `last_emitted_pts_ms`. */
  datatype State = State(ready: bool, fifo: seq<int>, submitted: nat, emitted: nat, last: int,
                         out: seq<int>, past: seq<seq<int>>)

  const NEW := State(false, [], 0, 0, 0, [], [])

  // --- specification ----------------------------------------------------------------------

  function Emit(s: State): State {
    var pts := if s.fifo != [] then s.fifo[0] else s.last;
    s.(fifo := if s.fifo != [] then s.fifo[1..] else [], last := pts, emitted := s.emitted + 1, out := s.out + [pts])
  }

  function EmitMany(s: State, n: nat): State {
    if n == 0 then s else Emit(EmitMany(s, n - 1))
  }

  /** A flush stops taking packets once every submitted frame is accounted for. */
  function Flushed(s: State, n: nat): State {
    EmitMany(s, if s.emitted >= s.submitted then 0
                else if n < s.submitted - s.emitted then n else s.submitted - s.emitted)
  }

  /** A drain of `drained` packets, then perhaps a submission. */
  function Encode(s: State, pts: int, drained: nat, accepted: bool): State {
    var d := EmitMany(s, drained);
    if accepted then d.(fifo := d.fifo + [pts], submitted := d.submitted + 1) else d
  }

  function Teardown(s: State, drained: nat, flushed: nat): State {
    var d := if s.ready then Flushed(EmitMany(s, drained), flushed) else s;
    State(false, [], 0, 0, d.last, [], d.past + [d.out])
  }

  // --- the code ---------------------------------------------------------------------------

  class Session {
    var ready: bool
    var fifo: seq<int>
    var framesSubmitted: nat
    var framesEmitted: nat
    var lastEmitted: int
    var draining: bool
    var out: seq<int>
    var past: seq<seq<int>>

    function Value(): State
      reads this
    {
      State(ready, fifo, framesSubmitted, framesEmitted, lastEmitted, out, past)
    }

    constructor ()
      ensures Value() == NEW && !draining
    {
      ready, fifo, framesSubmitted, framesEmitted, lastEmitted := false, [], 0, 0, 0;
      draining, out, past := false, [], [];
    }

    method EmitPacket()
      modifies this
      ensures Value() == Emit(old(Value())) && draining == old(draining)
    {
      var pts;
      if fifo != [] {
        pts := fifo[0];
        fifo := fifo[1..];
      } else {
        pts := lastEmitted;
      }
      lastEmitted := pts;
      framesEmitted := framesEmitted + 1;
      out := out + [pts];
    }

    /** `drain_to_consumers`: a consumer that drains again from inside is turned away. */
    method DrainToConsumers(packets: nat)
      modifies this
      ensures draining == old(draining)
      ensures Value() == if old(draining) then old(Value()) else EmitMany(old(Value()), packets)
    {
      if draining {
        return;
      }
      draining := true;
      ghost var before := Value();
      for n := 0 to packets
        invariant draining && Value() == EmitMany(before, n)
      {
        EmitPacket();
      }
      draining := false;
    }

    method FlushEncoder(packets: nat)
      modifies this
      ensures draining == old(draining) && Value() == Flushed(old(Value()), packets)
    {
      ghost var before := Value();
      var n := 0;
      while n < packets
        invariant n <= packets && draining == old(draining)
        invariant Value() == EmitMany(before, n) && framesSubmitted == before.submitted
        invariant framesEmitted == before.emitted + n
        invariant n > 0 ==> framesEmitted <= framesSubmitted
      {
        if framesEmitted >= framesSubmitted {
          return;
        }
        EmitPacket();
        n := n + 1;
      }
    }

    method EncodeFrame(pts: int, drained: nat, imported: bool, submitFails: bool)
      requires !draining
      modifies this
      ensures !draining && Value() == Encode(old(Value()), pts, drained, imported && !submitFails)
    {
      DrainToConsumers(drained);
      if !imported {
        return;
      }
      if !submitFails {
        fifo := fifo + [pts];
        framesSubmitted := framesSubmitted + 1;
      }
    }

    method TearDown(drained: nat, flushed: nat)
      requires !draining
      modifies this
      ensures !draining && Value() == Teardown(old(Value()), drained, flushed)
    {
      if ready {
        DrainToConsumers(drained);
        FlushEncoder(flushed);
      }
      ready := false;
      ghost var left := Value();
      while fifo != []
        invariant Value() == left.(fifo := fifo) && !draining
        decreases |fifo|
      {
        fifo := fifo[1..];
      }
      framesSubmitted, framesEmitted := 0, 0;
      past, out := past + [out], [];
    }
  }

  // --- every run --------------------------------------------------------------------------

  datatype Event =
    | Ready                                             // the hardware encoder came up after a teardown
    | Frame(pts: int, drained: nat, accepted: bool)
    | Drain(drained: nat)                               // a consumer asks for what is there
    | End(drained: nat, flushed: nat)

  function Next(s: State, e: Event): State {
    match e
    case Ready => s.(ready := true)
    case Frame(pts, drained, accepted) => Encode(s, pts, drained, accepted)
    case Drain(drained) => if s.ready then EmitMany(s, drained) else s
    case End(drained, flushed) => Teardown(s, drained, flushed)
  }

  function Run(es: seq<Event>): State {
    if es == [] then NEW else Next(Run(es[..|es| - 1]), es[|es| - 1])
  }

  /** The stamps of the frames the hardware took, by session, straight from the events. */
  function Taken(es: seq<Event>): seq<int> {
    if es == [] then []
    else
      var earlier := Taken(es[..|es| - 1]);
      match es[|es| - 1]
      case Frame(pts, _, true) => earlier + [pts]
      case End(_, _) => []
      case _ => earlier
  }

  function TakenBefore(es: seq<Event>): seq<seq<int>> {
    if es == [] then []
    else
      var earlier := TakenBefore(es[..|es| - 1]);
      if es[|es| - 1].End? then earlier + [Taken(es[..|es| - 1])] else earlier
  }

  function Drained(s: State, e: Event): nat {
    match e
    case Frame(_, drained, _) => drained
    case Drain(drained) => if s.ready then drained else 0
    case End(drained, _) => if s.ready then drained else 0
    case Ready => 0
  }

  /** The hardware returns no more packets than it holds frames. Nothing is asked of a flush. */
  predicate Honest(es: seq<Event>) {
    forall k :: 0 <= k < |es| ==> Drained(Run(es[..k]), es[k]) <= |Run(es[..k]).fifo|
  }

  /** The session so far: stamps out are the first of those taken, and the queue holds the others. */
  predicate InStep(s: State, taken: seq<int>) {
    taken == s.out + s.fifo && s.submitted == |taken| && s.emitted == |s.out|
  }

  predicate Prefixes(out: seq<seq<int>>, taken: seq<seq<int>>) {
    |out| == |taken| && forall k :: 0 <= k < |out| ==> |out[k]| <= |taken[k]| && out[k] == taken[k][..|out[k]|]
  }

  /** As long as the queue lasts, packets take its stamps in order. */
  lemma {:induction false} EmitManyInStep(s: State, n: nat)
    requires n <= |s.fifo|
    ensures var d := EmitMany(s, n);
            d.out == s.out + s.fifo[..n] && d.fifo == s.fifo[n..] && d.emitted == s.emitted + n
            && d.submitted == s.submitted && d.past == s.past && d.ready == s.ready
  {
    if n == 0 {
      assert s.out + s.fifo[..0] == s.out && s.fifo[0..] == s.fifo;
    } else {
      EmitManyInStep(s, n - 1);
      var d := EmitMany(s, n - 1);
      assert s.fifo[..n] == s.fifo[..n - 1] + [s.fifo[n - 1]];
      assert d.fifo[0] == s.fifo[n - 1] && d.fifo[1..] == s.fifo[n..];
    }
  }

  lemma {:induction false} EmittedCounts(s: State, n: nat)
    ensures EmitMany(s, n).emitted == s.emitted + n && EmitMany(s, n).submitted == s.submitted
    ensures |EmitMany(s, n).fifo| == if n <= |s.fifo| then |s.fifo| - n else 0
  {
    if n > 0 {
      EmittedCounts(s, n - 1);
    }
  }

  /** A drain keeps the session in step exactly when the hardware returned no more than it held. */
  lemma {:induction false} DrainKeepsIff(s: State, taken: seq<int>, n: nat)
    requires InStep(s, taken)
    ensures InStep(EmitMany(s, n), taken) <==> n <= |s.fifo|
  {
    if n <= |s.fifo| {
      EmitManyInStep(s, n);
      var d := EmitMany(s, n);
      assert s.fifo == s.fifo[..n] + s.fifo[n..];
      assert d.out + d.fifo == taken;
    } else {
      EmittedCounts(s, n);
    }
  }

  /** A flush keeps it in step whatever the hardware does. */
  lemma FlushKeeps(s: State, taken: seq<int>, n: nat)
    requires InStep(s, taken)
    ensures InStep(Flushed(s, n), taken) && Flushed(s, n).past == s.past
  {
    var k := if s.emitted >= s.submitted then 0 else if n < s.submitted - s.emitted then n else s.submitted - s.emitted;
    DrainKeepsIff(s, taken, k);
    EmitManyInStep(s, k);
  }

  lemma NextKeeps(s: State, e: Event, taken: seq<int>)
    requires InStep(s, taken) && Drained(s, e) <= |s.fifo| && !e.End?
    ensures InStep(Next(s, e), match e case Frame(pts, _, true) => taken + [pts] case _ => taken)
    ensures Next(s, e).past == s.past
  {
    match e {
      case Ready =>
      case Drain(n) => if s.ready { DrainKeepsIff(s, taken, n); EmitManyInStep(s, n); }
      case Frame(pts, n, accepted) => DrainKeepsIff(s, taken, n); EmitManyInStep(s, n);
        var d := EmitMany(s, n);
        if accepted { assert d.out + (d.fifo + [pts]) == taken + [pts]; }
    }
  }

  lemma EndKeeps(s: State, e: Event, taken: seq<int>)
    requires InStep(s, taken) && Drained(s, e) <= |s.fifo| && e.End?
    ensures InStep(Next(s, e), []) && Next(s, e).fifo == []
    ensures |Next(s, e).past| == |s.past| + 1 && Next(s, e).past[..|s.past|] == s.past
    ensures var closed := Next(s, e).past[|s.past|]; |closed| <= |taken| && closed == taken[..|closed|]
  {
    hide EmitMany;
    if s.ready {
      DrainKeepsIff(s, taken, e.drained);
      EmitManyInStep(s, e.drained);
      FlushKeeps(EmitMany(s, e.drained), taken, e.flushed);
    }
  }

  /** In every run, across every session: the k-th access unit of a session carries the stamp of the
      k-th frame the session's hardware took, frames submitted are frames emitted plus the queue, and a
      session starts with an empty queue, so no stamp outlives a teardown. */
  lemma {:induction false} StampsInOrder(es: seq<Event>)
    requires Honest(es)
    ensures InStep(Run(es), Taken(es))
    ensures Prefixes(Run(es).past, TakenBefore(es))
    ensures Run(es).submitted == Run(es).emitted + |Run(es).fifo|
    ensures forall k :: 0 <= k < |Run(es).out| ==> k < |Taken(es)| && Run(es).out[k] == Taken(es)[k]
  {
    if es != [] {
      var earlier, e := es[..|es| - 1], es[|es| - 1];
      forall k | 0 <= k < |earlier| ensures Drained(Run(earlier[..k]), earlier[k]) <= |Run(earlier[..k]).fifo| {
        assert earlier[..k] == es[..k];
      }
      StampsInOrder(earlier);
      hide Run, Next;
      assert Run(es) == Next(Run(earlier), e) by { RunSnoc(es); }
      if e.End? {
        EndKeeps(Run(earlier), e, Taken(earlier));
        ClosedToo(Run(earlier).past, TakenBefore(earlier), Run(es).past, Taken(earlier));
      } else {
        NextKeeps(Run(earlier), e, Taken(earlier));
      }
    }
  }

  lemma ClosedToo(out: seq<seq<int>>, taken: seq<seq<int>>, now: seq<seq<int>>, last: seq<int>)
    requires Prefixes(out, taken) && |now| == |out| + 1 && now[..|out|] == out
    requires |now[|out|]| <= |last| && now[|out|] == last[..|now[|out|]|]
    ensures Prefixes(now, taken + [last])
  {
    forall k | 0 <= k < |out| ensures now[k] == out[k] {
      assert now[..|out|][k] == now[k];
    }
  }

  lemma {:induction false} RunSnoc(es: seq<Event>)
    requires es != []
    ensures Run(es) == Next(Run(es[..|es| - 1]), es[|es| - 1])
  {
  }

  /** All sessions are in step: the running one, and each closed one with the first of its frames. */
  ghost predicate AllInStep(es: seq<Event>) {
    InStep(Run(es), Taken(es)) && Prefixes(Run(es).past, TakenBefore(es))
  }

  lemma OverdrainBreaks(s: State, e: Event, taken: seq<int>)
    requires InStep(s, taken) && Drained(s, e) > |s.fifo|
    ensures !e.End? ==> !InStep(Next(s, e), match e case Frame(pts, _, true) => taken + [pts] case _ => taken)
    ensures e.End? ==> |Next(s, e).past| == |s.past| + 1 && |Next(s, e).past[|s.past|]| > |taken|
  {
    var n := Drained(s, e);
    EmittedCounts(s, n);
    EmittedOut(s, n);
    hide EmitMany;
    if e.End? {
      var d := EmitMany(s, n);
      assert d.emitted >= d.submitted;
      EmittedOut(d, 0);
    }
  }

  lemma {:induction false} EmittedOut(s: State, n: nat)
    ensures |EmitMany(s, n).out| == |s.out| + n && EmitMany(s, n).past == s.past
  {
    if n > 0 { EmittedOut(s, n - 1); }
  }

  /** Exactly: every session is in step at every point of a run iff no drain in it returned more packets
      than the hardware held frames. */
  lemma InStepIffHonest(es: seq<Event>)
    ensures (forall n :: 0 <= n <= |es| ==> AllInStep(es[..n])) <==> Honest(es)
  {
    hide Run, AllInStep, Next;
    if Honest(es) {
      forall n | 0 <= n <= |es| ensures AllInStep(es[..n]) {
        forall k | 0 <= k < n ensures Drained(Run(es[..n][..k]), es[..n][k]) <= |Run(es[..n][..k]).fifo| {
          assert es[..n][..k] == es[..k];
        }
        StampsInOrder(es[..n]);
        assert AllInStep(es[..n]) by { AllInStepIs(es[..n]); }
      }
    } else {
      var k :| 0 <= k < |es| && Drained(Run(es[..k]), es[k]) > |Run(es[..k]).fifo|;
      if AllInStep(es[..k]) {
        assert es[..k + 1][..k] == es[..k];
        OverdrainShows(es[..k + 1]);
      }
    }
  }

  lemma {:induction false} AllInStepIs(es: seq<Event>)
    ensures AllInStep(es) == (InStep(Run(es), Taken(es)) && Prefixes(Run(es).past, TakenBefore(es)))
  {
  }

  lemma OverdrainShows(es: seq<Event>)
    requires es != [] && AllInStep(es[..|es| - 1])
    requires Drained(Run(es[..|es| - 1]), es[|es| - 1]) > |Run(es[..|es| - 1]).fifo|
    ensures !AllInStep(es)
  {
    var s, e := Run(es[..|es| - 1]), es[|es| - 1];
    OverdrainBreaks(s, e, Taken(es[..|es| - 1]));
    RunSnoc(es);
    hide Next, Run;
    if e.End? {
      var k := |s.past|;
      assert |TakenBefore(es)| == k + 1 && TakenBefore(es)[k] == Taken(es[..|es| - 1]);
      assert |Run(es).past[k]| > |TakenBefore(es)[k]|;
    }
  }

  // --- what a session hands over ----------------------------------------------------------

  /** The hardware is up, and the packets it has returned in this session, straight from the events. */
  predicate Up(es: seq<Event>) {
    es != [] && (es[|es| - 1].Ready? || (!es[|es| - 1].End? && Up(es[..|es| - 1])))
  }

  function Yielded(es: seq<Event>): nat {
    if es == [] then 0
    else
      var earlier := es[..|es| - 1];
      match es[|es| - 1]
      case Ready => Yielded(earlier)
      case Frame(_, drained, _) => Yielded(earlier) + drained
      case Drain(drained) => Yielded(earlier) + (if Up(earlier) then drained else 0)
      case End(_, _) => 0
  }

  /** What the consumers of a session have been handed when it ends: all packets of its drains, and of the
      flush as many as are still missing. */
  function HandedOver(es: seq<Event>, drained: nat, flushed: nat): nat {
    if !Up(es) then Yielded(es)
    else if Yielded(es) + drained + flushed < |Taken(es)| then Yielded(es) + drained + flushed
    else |Taken(es)|
  }

  lemma HonestFront(es: seq<Event>)
    requires es != [] && Honest(es)
    ensures Honest(es[..|es| - 1])
  {
    hide Run, Drained;
    var earlier := es[..|es| - 1];
    forall k | 0 <= k < |earlier| ensures Drained(Run(earlier[..k]), earlier[k]) <= |Run(earlier[..k]).fifo| {
      assert earlier[..k] == es[..k];
    }
  }

  /** So far, a session has handed over one stamp for each packet returned. */
  lemma {:induction false} OutIsYielded(es: seq<Event>)
    requires Honest(es)
    ensures Run(es).ready == Up(es) && |Run(es).out| == Yielded(es) && Run(es).emitted == Yielded(es)
  {
    if es != [] {
      var earlier, e := es[..|es| - 1], es[|es| - 1];
      HonestFront(es);
      OutIsYielded(earlier);
      StampsInOrder(es);
      StampsInOrder(earlier);
      RunSnoc(es);
      hide Run, Taken, EmitMany;
      NextCounts(Run(earlier), e);
    }
  }

  lemma NextCounts(s: State, e: Event)
    ensures !e.End? ==> Next(s, e).emitted == s.emitted + Drained(s, e)
    ensures !e.End? ==> Next(s, e).ready == (s.ready || e.Ready?)
    ensures e.End? ==> !Next(s, e).ready && Next(s, e).emitted == 0 && Next(s, e).out == []
  {
    EmittedCounts(s, Drained(s, e));
    EmittedReady(s, Drained(s, e));
    hide EmitMany;
  }

  lemma {:induction false} EmittedReady(s: State, n: nat)
    ensures EmitMany(s, n).ready == s.ready
  {
    if n > 0 { EmittedReady(s, n - 1); }
  }

  /** A teardown closes the session with exactly the first stamps of its frames: the packets returned
      before, those of its own drain, and those of the flush, up to the number of frames taken. */
  lemma {:induction false} EndHandsOver(es: seq<Event>, drained: nat, flushed: nat)
    requires Honest(es + [End(drained, flushed)])
    ensures var s, n := Run(es + [End(drained, flushed)]), HandedOver(es, drained, flushed);
            && n <= |Taken(es)|
            && s.past == Run(es).past + [Taken(es)[..n]]
            && s.out == [] && s.fifo == [] && !s.ready
  {
    var e := End(drained, flushed);
    var all := es + [e];
    assert all[..|all| - 1] == es;
    HonestFront(all);
    LastIsHonest(es, drained, flushed);
    StampsInOrder(es);
    OutIsYielded(es);
    RunSnoc(all);
    hide Run, Taken, Yielded, Up, EmitMany, Honest, Teardown;
    EndTakes(Run(es), Taken(es), drained, flushed);
  }

  lemma {:induction false} LastIsHonest(es: seq<Event>, drained: nat, flushed: nat)
    requires Honest(es + [End(drained, flushed)])
    ensures Run(es).ready ==> drained <= |Run(es).fifo|
  {
    hide Run;
    var all := es + [End(drained, flushed)];
    assert all[..|es|] == es && all[|es|] == End(drained, flushed);
  }

  lemma EndTakes(s: State, taken: seq<int>, drained: nat, flushed: nat)
    requires InStep(s, taken) && (s.ready ==> drained <= |s.fifo|)
    ensures var n := if !s.ready then s.emitted
                     else if s.emitted + drained + flushed < |taken| then s.emitted + drained + flushed else |taken|;
            Teardown(s, drained, flushed) == State(false, [], 0, 0, Teardown(s, drained, flushed).last, [],
                                                   s.past + [taken[..n]])
  {
    assert taken[..s.emitted] == s.out;
    if s.ready {
      EmitManyInStep(s, drained);
      DrainKeepsIff(s, taken, drained);
      var d := EmitMany(s, drained);
      var left := |taken| - d.emitted;
      var k := if d.emitted >= d.submitted then 0 else if flushed < left then flushed else left;
      EmitManyInStep(d, k);
      hide EmitMany;
      assert Flushed(d, flushed) == EmitMany(d, k);
      hide Flushed;
      assert taken[..d.emitted + k] == d.out + d.fifo[..k];
    }
  }

  /** Nothing is lost: where the hardware returns all it holds, the consumers are handed the stamp of every
      frame of the session. */
  lemma {:induction false} NothingHeldBack(es: seq<Event>, drained: nat, flushed: nat)
    requires Honest(es + [End(drained, flushed)]) && Up(es)
    ensures Yielded(es) + drained + flushed >= |Taken(es)|
            <==> Run(es + [End(drained, flushed)]).past == Run(es).past + [Taken(es)]
  {
    hide Run, Taken, Yielded, Up, Honest;
    EndHandsOver(es, drained, flushed);
    var n := HandedOver(es, drained, flushed);
    assert Taken(es)[..|Taken(es)|] == Taken(es);
    var past := Run(es).past;
    assert (past + [Taken(es)[..n]])[|past|] == Taken(es)[..n];
    assert (past + [Taken(es)])[|past|] == Taken(es);
    assert |Taken(es)[..n]| == n;
  }

  /** One packet too many repeats an old stamp, even one from an earlier session. */
  lemma ExtraPacketRepeats(pts: int)
    ensures var es := [Ready, Frame(pts, 0, true), End(1, 0), Ready, Drain(1)];
            Run(es).out == [pts] && Taken(es) == []
  {
    var es := [Ready, Frame(pts, 0, true), End(1, 0), Ready, Drain(1)];
    hide Run, Taken, EmitMany;
    var s1, s2 := NEW.(ready := true), State(true, [pts], 1, 0, 0, [], []);
    var a, b, c, d := es[..1], es[..2], es[..3], es[..4];
    assert a[..0] == [] && b[..1] == a && c[..2] == b && d[..3] == c && es[..4] == d;
    RunSnoc(a); RunSnoc(b); RunSnoc(c); RunSnoc(d); RunSnoc(es);
    assert Run([]) == NEW by { RunNone(); }
    EmitFew(s1); EmitFew(s2);
    assert Run(b) == s2;
    var closed := EmitMany(s2, 1);
    EmitFew(closed);
    assert Run(c) == State(false, [], 0, 0, pts, [], [[pts]]);
    EmitFew(Run(d));
    TakenEnd(es);
  }

  lemma RunNone()
    ensures Run([]) == NEW
  {
  }

  lemma {:induction false} EmitFew(s: State)
    ensures EmitMany(s, 0) == s && EmitMany(s, 1) == Emit(s)
  {
  }

  lemma {:induction false} TakenEnd(es: seq<Event>)
    requires |es| == 5 && es[2].End? && es[3].Ready? && es[4].Drain?
    ensures Taken(es) == []
  {
    assert es[..4][..3] == es[..3];
    assert Taken(es[..3]) == [];
    assert Taken(es[..4]) == [];
  }
}
