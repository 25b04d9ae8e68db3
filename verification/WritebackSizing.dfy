/** How many buffers the writeback pool needs: six are enough in every interleaving, five are not. */
module WritebackSizing {
  import opened Bytes
  import opened WritebackPool
  import opened WritebackOwnership

  /** Some interleaving leads from `p` to `q`. */
  ghost predicate Can(p: Pool, q: Pool) { exists acts :: Execute(p, acts) == Some(q) }

  lemma {:induction false} ExecuteAppend(p: Pool, a: seq<Action>, b: seq<Action>)
    requires Execute(p, a).Some?
    ensures Execute(p, a + b) == Execute(Execute(p, a).value, b)
    decreases |b|
  {
    hide Apply;
    if b == [] {
      assert a + b == a;
    } else {
      assert (a + b)[..|a + b| - 1] == a + b[..|b| - 1];
      ExecuteAppend(p, a, b[..|b| - 1]);
    }
  }

  lemma CanThen(p: Pool, q: Pool, r: Pool)
    requires Can(p, q) && Can(q, r)
    ensures Can(p, r)
  {
    hide Execute;
    var a :| Execute(p, a) == Some(q);
    var b :| Execute(q, b) == Some(r);
    ExecuteAppend(p, a, b);
  }

  lemma CanOne(p: Pool, a: Action)
    requires Apply(p, a).Some?
    ensures Can(p, Apply(p, a).value)
  {
    hide Apply;
    var acts := [a];
    assert acts[..0] == [];
    assert Execute(p, []) == Some(p);
    assert Execute(p, acts) == Apply(p, a);
  }

  lemma CanStay(p: Pool)
    ensures Can(p, p)
  {
    assert Execute(p, []) == Some(p);
  }

  /** Two actions in a row. */
  lemma Step(p: Pool, q: Pool, a: Action)
    requires Can(p, q) && Apply(q, a).Some?
    ensures Can(p, Apply(q, a).value)
  {
    hide Apply, Can;
    CanOne(q, a);
    CanThen(p, q, Apply(q, a).value);
  }

  /** The scan walks past the busy slots in front. */
  lemma {:induction false} ScanPast(p: Pool, i: nat)
    requires p.display.Idle? && i <= |p.busy| && forall j :: 0 <= j < i ==> p.busy[j]
    ensures Can(p, p.(display := Scanning(i)))
  {
    hide Can;
    if i == 0 {
      CanStay(p);
      Step(p, p, ByDisplay(StartCapture));
    } else {
      ScanPast(p, i - 1);
      Step(p, p.(display := Scanning(i - 1)), ByDisplay(Scan));
    }
  }

  function Captured(i: nat): Task { FrameTask(Frame(Some(i), None)) }

  /** A whole capture: the first free slot ends up in the queue, with the fence of its commit. */
  lemma Capture(p: Pool, i: nat, fence: Option<nat>)
    requires p.display.Idle? && p.lock.Free? && |p.queue| < MAX_PENDING_FRAMES
    requires i < |p.busy| && !p.busy[i] && forall j :: 0 <= j < i ==> p.busy[j]
    requires fence.Some? ==> fence.value !in p.open
    ensures Can(p, p.(busy := p.busy[i := true], open := if fence.Some? then p.open + {fence.value} else p.open,
                      queue := p.queue + [FrameTask(Frame(Some(i), fence))]))
  {
    hide Can;
    ScanPast(p, i);
    var p1 := p.(display := Scanning(i));
    var p2 := p.(busy := p.busy[i := true], display := Held(i));
    Step(p, p1, ByDisplay(Scan));
    Step(p, p2, ByDisplay(Arm(true)));
    Step(p, p2.(display := Armed(i)), ByDisplay(Commit(true, fence)));
    var p3 := if fence.Some? then p2.(open := p.open + {fence.value}) else p2;
    Step(p, p3.(display := Committed(i, fence)), ByDisplay(HandOver));
  }

  /** The encoder takes a queued frame and leaves it with MPP. */
  lemma Encode(p: Pool, i: nat)
    requires p.enc.Waiting? && p.lock.Free? && p.queue == [Captured(i)] && p.pending == None
    ensures Can(p, p.(queue := [], pending := Some(i)))
  {
    hide Can;
    var f := Frame(Some(i), None);
    var q := p.(queue := []);
    CanStay(p);
    assert p.queue[1..] == [];
    Step(p, p, ByEncoder(Dequeue));
    Step(p, q.(enc := Got(Captured(i))), ByEncoder(Accept));
    Step(p, q.(enc := Polling(f)), ByEncoder(Poll(true)));
    Step(p, q.(enc := Polled(f)), ByEncoder(Drained));
    Step(p, q.(enc := Importing(f)), ByEncoder(Submit(true)));
    Step(p, q.(enc := Finished, pending := Some(i)), ByEncoder(Settle(false)));
  }

  /** The first `m` of `n` slots busy. */
  function Front(n: nat, m: nat): (b: seq<bool>)
    requires m <= n
    ensures |b| == n && forall i :: 0 <= i < n ==> b[i] == (i < m)
  {
    seq(n, i => i < m)
  }

  /** The pool with `m` slots taken in the worst order: one with MPP, one being encoded, the rest queued. */
  function Loaded(n: nat, m: nat): Pool
    requires m <= n && m <= 5
  {
    Pool(Front(n, m), {}, Idle, if m < 2 then Waiting else Got(Captured(1)),
         if m <= 2 then [] else if m == 3 then [Captured(2)] else if m == 4 then [Captured(2), Captured(3)]
         else [Captured(2), Captured(3), Captured(4)],
         Free, if m == 0 then None else Some(0))
  }

  lemma {:induction false} CanLoad(n: nat, m: nat)
    requires m <= n && m <= 5
    ensures Can(Initial(n), Loaded(n, m))
  {
    hide Can;
    if m == 0 {
      assert Front(n, 0) == AllFree(n);
      CanStay(Initial(n));
    } else {
      CanLoad(n, m - 1);
      var p := Loaded(n, m - 1);
      Capture(p, m - 1, None);
      assert Front(n, m - 1)[m - 1 := true] == Front(n, m);
      var p1 := p.(busy := Front(n, m), queue := p.queue + [Captured(m - 1)]);
      CanThen(Initial(n), p, p1);
      if m == 1 {
        Encode(p1, 0);
        CanThen(Initial(n), p1, Loaded(n, m));
      } else if m == 2 {
        assert p1.queue[1..] == [];
        Step(Initial(n), p1, ByEncoder(Dequeue));
      } else {
        assert p1.queue == Loaded(n, m).queue;
      }
    }
  }

  /** With five buffers or fewer, some interleaving leaves the display thread without one. */
  lemma Starves(n: nat)
    requires n < WB_BUF_COUNT
    ensures exists acts :: Execute(Initial(n), acts).Some? && Execute(Initial(n), acts).value.display.NoSlot?
  {
    hide Can;
    CanLoad(n, n);
    var p := Loaded(n, n);
    ScanPast(p, n);
    CanThen(Initial(n), p, p.(display := Scanning(n)));
    Step(Initial(n), p.(display := Scanning(n)), ByDisplay(Scan));
    CanIs(Initial(n), p.(display := NoSlot));
  }

  lemma {:induction false} CanIs(p: Pool, q: Pool)
    requires Can(p, q)
    ensures exists acts :: Execute(p, acts) == Some(q)
  {
    hide Execute;
  }

  /** The exact pool size: acquiring never fails, in any interleaving, if and only if the pool has at
      least six buffers. */
  lemma SixIsExact(n: nat)
    ensures n >= WB_BUF_COUNT
            <==> forall acts :: Execute(Initial(n), acts).Some? ==> !Execute(Initial(n), acts).value.display.NoSlot?
  {
    if n >= WB_BUF_COUNT {
      forall acts | Execute(Initial(n), acts).Some?
        ensures !Execute(Initial(n), acts).value.display.NoSlot?
      {
        Interleavings(n, acts);
      }
    } else {
      Starves(n);
    }
  }
}
