/** What happens to the tasks of the encoder queue: the order they are taken in, what a purge leaves, what
    becomes of a frame, and that a shutdown can always be carried through. */
module WritebackQueue {
  import opened Bytes
  import opened WritebackPool
  import opened WritebackOwnership
  import opened WritebackSizing

  // ---------------------------------------------------------------- in the order they were put

  /** The tasks that are not frames. */
  function Plain(q: seq<Task>): (r: seq<Task>)
    ensures forall t :: t in r ==> !t.FrameTask?
    ensures forall t :: t in q && !t.FrameTask? ==> t in r
  {
    if q == [] then [] else (if q[0].FrameTask? then [] else [q[0]]) + Plain(q[1..])
  }

  lemma {:induction false} PlainAppend(a: seq<Task>, b: seq<Task>)
    ensures Plain(a + b) == Plain(a) + Plain(b)
  {
    if a == [] {
      assert a + b == b;
    } else {
      assert (a + b)[1..] == a[1..] + b;
      PlainAppend(a[1..], b);
    }
  }

  lemma {:induction false} PlainAll(q: seq<Task>)
    requires forall t :: t in q ==> !t.FrameTask?
    ensures Plain(q) == q
  {
    if q != [] { PlainAll(q[1..]); }
  }

  lemma {:induction false} PlainPop(q: seq<Task>)
    requires q != []
    ensures Plain(q) == (if q[0].FrameTask? then [] else [q[0]]) + Plain(q[1..])
  {
  }

  /** The tasks in line, those a purge has put aside first. */
  function Line(p: Pool): seq<Task> { (if p.lock.Purging? then p.lock.kept else []) + p.queue }

  /** The task an action puts into the queue, and the one it takes out. */
  function Puts(p: Pool, a: Action): seq<Task> {
    match a
    case ByDisplay(HandOver) =>
      if p.display.Committed? && |p.queue| < 3
      then [FrameTask(Frame(Some(p.display.slot), p.display.fence))] else []
    case ByControl(Tap) => if |p.queue| < 3 then [FrameTask(Frame(None, None))] else []
    case ByControl(Post) => [RunTask]
    case ByControl(PurgeDone) => if p.lock.Purging? then [p.lock.then_] else []
    case _ => []
  }

  function Takes(a: Action, after: Pool): seq<Task> {
    if a == ByEncoder(Dequeue) && after.enc.Got? then [after.enc.t] else []
  }

  lemma LineStep(p: Pool, a: Action)
    requires Apply(p, a).Some?
    ensures var q := Apply(p, a).value;
            && (a != ByControl(Purge) ==> Line(p) + Puts(p, a) == Takes(a, q) + Line(q))
            && Plain(Line(p)) + Plain(Puts(p, a)) == Plain(Takes(a, q)) + Plain(Line(q))
  {
    var q := Apply(p, a).value;
    if a == ByControl(Purge) {
      PurgeStep(p);
      assert Puts(p, a) == [] && Takes(a, q) == [];
      hide *;
      NothingPlain();
      assert Plain(Line(p)) + [] == [] + Plain(Line(q));
    } else {
      match a {
        case ByDisplay(d) => DisplayLine(p, d);
        case ByControl(c) => ControlLine(p, c);
        case ByEncoder(e) => EncoderLine(p, e);
      }
      hide *;
      PlainAppend(Line(p), Puts(p, a));
      PlainAppend(Takes(a, q), Line(q));
    }
  }

  lemma NothingPlain()
    ensures Plain([]) == []
  {
  }

  lemma DisplayLine(p: Pool, d: DisplayStep)
    requires DisplayAct(p, d).Some?
    ensures var q := DisplayAct(p, d).value;
            Line(p) + Puts(p, ByDisplay(d)) == Takes(ByDisplay(d), q) + Line(q)
  {
    hide ReleaseOne, Remaining, Spent, SetBusy, Close;
    ReleaseKeeps(p);
    BusyKeeps(p);
    if !d.HandOver? {
      assert DisplayAct(p, d).value.queue == p.queue;
      assert [] + Line(p) == Line(p);
    }
  }

  lemma ControlLine(p: Pool, c: ControlStep)
    requires ControlAct(p, c).Some? && !c.Purge?
    ensures var q := ControlAct(p, c).value;
            Line(p) + Puts(p, ByControl(c)) == Takes(ByControl(c), q) + Line(q)
  {
    hide ReleaseOne, Remaining, Spent;
    if c.PurgeDone? { assert p.lock.kept + [] == p.lock.kept; }
  }

  lemma EncoderLine(p: Pool, e: EncoderStep)
    requires EncoderAct(p, e).Some?
    ensures var q := EncoderAct(p, e).value;
            Line(p) + Puts(p, ByEncoder(e)) == Takes(ByEncoder(e), q) + Line(q)
  {
    hide ReleaseOne, Remaining, Spent, Close, ReleasePending;
    ReleaseKeeps(p);
    PendingKeeps(p);
    BusyKeeps(p);
    if e.Dequeue? {
      assert p.queue == [p.queue[0]] + p.queue[1..];
    } else {
      assert EncoderAct(p, e).value.queue == p.queue;
    }
  }

  lemma BusyKeeps(p: Pool)
    ensures forall i, b :: SetBusy(p, i, b) == p.(busy := SetBusy(p, i, b).busy)
    ensures forall x :: Close(p, x) == p.(open := Close(p, x).open)
  {
  }

  /** A purge puts a task aside or takes something from a frame. */
  lemma PurgeStep(p: Pool)
    requires ControlAct(p, Purge).Some?
    ensures var q := ControlAct(p, Purge).value;
            && q.lock.Purging? && q.lock.then_ == p.lock.then_
            && Plain(Line(q)) == Plain(Line(p))
            && Plain(q.lock.kept) + Plain(q.queue) == Plain(p.lock.kept) + Plain(p.queue)
            && (forall t :: t in q.lock.kept ==> t in p.lock.kept || !t.FrameTask?)
  {
    PurgeMoves(p);
    PurgeCanStep(p);
    var q := ControlAct(p, Purge).value;
    hide ControlAct;
    PlainMoves(p.lock.kept, p.queue, q.lock.kept, q.queue);
    hide Plain;
    PlainAppend(p.lock.kept, p.queue);
    PlainAppend(q.lock.kept, q.queue);
  }

  lemma PurgeCanStep(p: Pool)
    requires ControlAct(p, Purge).Some?
    ensures p.lock.Purging? && p.queue != []
  {
  }

  /** One entry of the queue put aside, dropped or shortened. */
  lemma {:induction false} PlainMoves(k: seq<Task>, q: seq<Task>, k': seq<Task>, q': seq<Task>)
    requires q != []
    requires if q[0].FrameTask?
             then k' == k && (q' == q[1..] || (q' != [] && q'[0].FrameTask? && q'[1..] == q[1..]))
             else q' == q[1..] && k' == k + [q[0]]
    ensures Plain(k') + Plain(q') == Plain(k) + Plain(q)
  {
    hide Plain;
    PlainPop(q);
    if q[0].FrameTask? {
      if q' != q[1..] { PlainPop(q'); }
    } else {
      PlainAppend(k, [q[0]]);
      PlainAll([q[0]]);
      Regroup(Plain(k), [q[0]], Plain(q'));
    }
  }

  lemma PurgeMoves(p: Pool)
    requires ControlAct(p, Purge).Some?
    ensures var q, t := ControlAct(p, Purge).value, p.queue[0];
            if t.FrameTask? then
              && q.lock == p.lock
              && (q.queue == p.queue[1..] || (q.queue != [] && q.queue[0].FrameTask? && q.queue[1..] == p.queue[1..]))
            else
              q.queue == p.queue[1..] && q.lock == Purging(p.lock.kept + [t], p.lock.then_)
  {
    hide ReleaseOne, Remaining, Spent;
    ReleaseKeeps(p);
  }

  /** The tasks put into the queue over a run, and those the encoder thread took. */
  function AllPuts(p: Pool, acts: seq<Action>): seq<Task>
    requires Execute(p, acts).Some?
  {
    if acts == [] then []
    else
      var earlier := acts[..|acts| - 1];
      AllPuts(p, earlier) + Puts(Execute(p, earlier).value, acts[|acts| - 1])
  }

  function AllTakes(p: Pool, acts: seq<Action>): seq<Task>
    requires Execute(p, acts).Some?
  {
    if acts == [] then []
    else AllTakes(p, acts[..|acts| - 1]) + Takes(acts[|acts| - 1], Execute(p, acts).value)
  }

  /** In every interleaving tasks are taken in the order they were put: all of them as long as nothing is
      purged, and all but the frames in any case. None is lost and none is taken twice. */
  lemma {:induction false} TakenInOrder(p: Pool, acts: seq<Action>)
    requires Execute(p, acts).Some?
    ensures var q := Execute(p, acts).value;
            && (ByControl(Purge) !in acts ==> Line(p) + AllPuts(p, acts) == AllTakes(p, acts) + Line(q))
            && Plain(Line(p)) + Plain(AllPuts(p, acts)) == Plain(AllTakes(p, acts)) + Plain(Line(q))
  {
    hide Apply, Line, Puts, Takes;
    if acts == [] {
      assert Plain([]) == [];
      assert [] + Line(p) == Line(p) && Line(p) + [] == Line(p);
    } else {
      var earlier, a := acts[..|acts| - 1], acts[|acts| - 1];
      var m, q := Execute(p, earlier).value, Execute(p, acts).value;
      TakenInOrder(p, earlier);
      LineStep(m, a);
      hide Plain, Execute;
      Exchange(Line(p), AllPuts(p, earlier), AllTakes(p, earlier), Line(m), Puts(m, a), Takes(a, q), Line(q));
      PlainAppend(AllPuts(p, earlier), Puts(m, a));
      PlainAppend(AllTakes(p, earlier), Takes(a, q));
      Exchange(Plain(Line(p)), Plain(AllPuts(p, earlier)), Plain(AllTakes(p, earlier)), Plain(Line(m)),
               Plain(Puts(m, a)), Plain(Takes(a, q)), Plain(Line(q)));
    }
  }

  lemma Exchange(l: seq<Task>, p: seq<Task>, t: seq<Task>, m: seq<Task>, p1: seq<Task>, t1: seq<Task>, q: seq<Task>)
    ensures l + p == t + m && m + p1 == t1 + q ==> l + (p + p1) == (t + t1) + q
  {
    if l + p == t + m && m + p1 == t1 + q {
      Regroup(l, p, p1);
      Regroup(t, m, p1);
      Regroup(t, t1, q);
    }
  }

  // ---------------------------------------------------------------- a whole purge

  /** A purge under way for task `t` that began with the queue `q`. */
  predicate PurgingFrom(p: Pool, q: seq<Task>, t: Task) {
    p.lock.Purging? && p.lock.then_ == t && Plain(p.lock.kept) + Plain(p.queue) == Plain(q)
    && forall u :: u in p.lock.kept ==> !u.FrameTask?
  }

  lemma PurgingKept(p: Pool, a: Action, q: seq<Task>, t: Task)
    requires PurgingFrom(p, q, t) && Apply(p, a).Some? && a != ByControl(PurgeDone)
    ensures PurgingFrom(Apply(p, a).value, q, t)
  {
    hide ReleaseOne, Remaining, Spent, SetBusy, Close, ReleasePending, Plain;
    ReleaseKeeps(p);
    PendingKeeps(p);
    BusyKeeps(p);
    if a == ByControl(Purge) { PurgeStep(p); }
  }

  lemma {:induction false} PurgingAlong(p: Pool, acts: seq<Action>, q: seq<Task>, t: Task)
    requires PurgingFrom(p, q, t) && Execute(p, acts).Some? && ByControl(PurgeDone) !in acts
    ensures PurgingFrom(Execute(p, acts).value, q, t)
  {
    hide PurgingFrom, Apply;
    if acts != [] {
      var earlier := acts[..|acts| - 1];
      PurgingAlong(p, earlier, q, t);
      PurgingKept(Execute(p, earlier).value, acts[|acts| - 1], q, t);
    }
  }

  /** A call that purges and posts, however its steps are interleaved with the other threads: afterwards the
      queue holds the tasks that were no frames, in order, and then the posted one. */
  lemma {:induction false} PurgeLeaves(p: Pool, t: Task, acts: seq<Action>)
    requires Apply(p, ByControl(PostDrop(t))).Some? && ByControl(PurgeDone) !in acts
    requires var m := Apply(p, ByControl(PostDrop(t))).value;
             Execute(m, acts).Some? && Apply(Execute(m, acts).value, ByControl(PurgeDone)).Some?
    ensures var m := Apply(p, ByControl(PostDrop(t))).value;
            var q := Apply(Execute(m, acts).value, ByControl(PurgeDone)).value;
            q.queue == Plain(p.queue) + [t] && q.lock.Free?
  {
    var m := Apply(p, ByControl(PostDrop(t))).value;
    assert PurgingFrom(m, p.queue, t);
    PurgingAlong(m, acts, p.queue, t);
    var e := Execute(m, acts).value;
    hide Execute;
    PlainAll(e.lock.kept);
    assert Plain(e.lock.kept) + Plain([]) == e.lock.kept;
  }

  // ---------------------------------------------------------------- a shutdown can be carried through

  /** The steps the display thread still needs to end, if it captures no more. */
  function Left(f: Frame): nat { (if f.fence.Some? then 1 else 0) + (if f.slot.Some? then 1 else 0) }

  function DisplayRank(p: Pool): nat {
    match p.display
    case Ended => 0
    case Idle => 1
    case NoSlot => 2
    case Dropping(f) => 2 + Left(f)
    case Failed(_, x) => if x.Some? then 3 else 2
    case Held(_) => 3
    case Armed(_) => 4
    case Committed(_, _) => 5
    case Scanning(i) => if i < |p.busy| then 4 + |p.busy| - i else 4
  }

  function DisplayExit(d: Display): DisplayStep {
    match d
    case Ended => Exit
    case Idle => Exit
    case NoSlot => Skip
    case Dropping(_) => ReleaseDropped
    case Failed(_, _) => Reclaim
    case Held(_) => Arm(false)
    case Armed(_) => Commit(false, None)
    case Committed(_, _) => HandOver
    case Scanning(_) => Scan
  }

  lemma DisplayNearer(p: Pool)
    requires p.lock.Free? && !p.display.Ended?
    ensures var q := DisplayAct(p, DisplayExit(p.display));
            q.Some? && q.value.lock.Free? && q.value.enc == p.enc && DisplayRank(q.value) < DisplayRank(p)
  {
  }

  lemma {:induction false} DisplayEnds(p: Pool) returns (q: Pool)
    requires p.lock.Free?
    ensures Can(p, q) && q.display.Ended? && q.lock.Free? && q.enc == p.enc
    decreases DisplayRank(p)
  {
    hide Can;
    if p.display.Ended? {
      CanStay(p);
      q := p;
    } else {
      hide DisplayAct, DisplayExit, DisplayRank;
      DisplayNearer(p);
      var a := ByDisplay(DisplayExit(p.display));
      CanOne(p, a);
      q := DisplayEnds(Apply(p, a).value);
      CanThen(p, Apply(p, a).value, q);
    }
  }

  /** Likewise for the encoder thread, if it refuses its frame. */
  function EncoderRank(e: Encoder): nat {
    match e
    case Waiting => 0
    case Finished => 1
    case Releasing(f) => 2 + Left(f)
    case Importing(f) => 5
    case Polled(f) => 6
    case Polling(f) => 7
    case Rebuilding(f) => 5
    case Got(t) => 8
    case Last => 1
    case Gone => 0
  }

  function EncoderOn(e: Encoder): EncoderStep {
    match e
    case Waiting => Dequeue
    case Finished => Settle(false)
    case Releasing(_) => Release
    case Importing(_) => Submit(false)
    case Polled(_) => Drained
    case Polling(_) => Poll(true)
    case Rebuilding(_) => Rebuilt(false)
    case Got(t) => if t.FrameTask? then Refuse else if t.RunTask? then Run else Stop
    case Last => TearDown
    case Gone => TearDown
  }

  /** It will end, and not take up another task. */
  predicate Stopping(e: Encoder) { e.Last? || e.Gone? || (e.Got? && e.t.ShutdownTask?) }

  lemma EncoderNearer(p: Pool)
    requires !p.enc.Waiting? && !p.enc.Gone?
    ensures var q := EncoderAct(p, EncoderOn(p.enc));
            && q.Some? && q.value.lock == p.lock && q.value.display == p.display && q.value.queue == p.queue
            && EncoderRank(q.value.enc) < EncoderRank(p.enc)
            && Stopping(q.value.enc) == Stopping(p.enc)
  {
    hide SetBusy, Close;
    BusyKeeps(p);
  }

  lemma {:induction false} EncoderSettles(p: Pool) returns (q: Pool)
    ensures Can(p, q) && q.lock == p.lock && q.display == p.display && q.queue == p.queue
    ensures if Stopping(p.enc) then q.enc.Gone? else q.enc.Waiting?
    decreases EncoderRank(p.enc)
  {
    hide Can;
    if p.enc.Waiting? || p.enc.Gone? {
      CanStay(p);
      q := p;
    } else {
      hide EncoderAct, EncoderOn, EncoderRank, Stopping;
      EncoderNearer(p);
      var a := ByEncoder(EncoderOn(p.enc));
      CanOne(p, a);
      q := EncoderSettles(Apply(p, a).value);
      CanThen(p, Apply(p, a).value, q);
    }
  }

  /** The actions a purge still needs. */
  function PurgeRank(q: seq<Task>): nat {
    if q == [] then 0 else 1 + Left(TaskFrame(q[0])) + PurgeRank(q[1..])
  }

  lemma PurgeNearer(p: Pool)
    requires p.lock.Purging? && p.queue != []
    ensures var q := ControlAct(p, Purge);
            && q.Some? && q.value.display == p.display && q.value.enc == p.enc
            && q.value.lock.Purging? && q.value.lock.then_ == p.lock.then_
            && PurgeRank(q.value.queue) < PurgeRank(p.queue)
  {
    ReleaseKeeps(p);
    hide ReleaseOne;
    var q, t := ControlAct(p, Purge).value, p.queue[0];
    if t.FrameTask? && !Spent(t.f) {
      assert q.queue[1..] == p.queue[1..];
    }
  }

  lemma {:induction false} PurgeEnds(p: Pool) returns (q: Pool)
    requires p.lock.Purging?
    ensures Can(p, q) && q.lock.Free? && q.display == p.display && q.enc == p.enc
    ensures q.queue != [] && q.queue[|q.queue| - 1] == p.lock.then_
    decreases PurgeRank(p.queue)
  {
    hide Can;
    if p.queue == [] {
      CanOne(p, ByControl(PurgeDone));
      q := Apply(p, ByControl(PurgeDone)).value;
    } else {
      hide ControlAct, PurgeRank;
      PurgeNearer(p);
      var a := ByControl(Purge);
      CanOne(p, a);
      q := PurgeEnds(Apply(p, a).value);
      CanThen(p, Apply(p, a).value, q);
    }
  }

  /** Behind a queued shutdown request the encoder thread works off what is before it, and ends. */
  lemma {:induction false} QueueEnds(p: Pool) returns (q: Pool)
    requires p.lock.Free? && p.enc.Waiting? && ShutdownTask in p.queue
    ensures Can(p, q) && q.enc.Gone?
    decreases |p.queue|
  {
    hide Can;
    var a := ByEncoder(Dequeue);
    CanOne(p, a);
    var m := Apply(p, a).value;
    assert p.queue == [p.queue[0]] + p.queue[1..];
    var w := EncoderSettles(m);
    CanThen(p, m, w);
    if p.queue[0].ShutdownTask? {
      q := w;
    } else {
      q := QueueEnds(w);
      CanThen(p, w, q);
    }
  }

  /** From any state at all, some continuation has the encoder thread end. */
  lemma Finishes(p: Pool) returns (q: Pool)
    ensures Can(p, q) && q.enc.Gone?
  {
    hide Can;
    var a := p;
    CanStay(p);
    if p.lock.Purging? { a := PurgeEnds(p); }
    var b := DisplayEnds(a);
    CanThen(p, a, b);
    var c := EncoderSettles(b);
    CanThen(p, b, c);
    if Stopping(b.enc) {
      q := c;
    } else {
      var post := ByControl(PostDrop(ShutdownTask));
      Step(p, c, post);
      var d := Apply(c, post).value;
      var e := PurgeEnds(d);
      CanThen(p, d, e);
      q := QueueEnds(e);
      CanThen(p, e, q);
    }
  }

  /** In every interleaving, whatever has happened so far, a shutdown can still be carried through to the
      end of the encoder thread. */
  lemma {:induction false} ShutdownIsReachable(n: nat, acts: seq<Action>)
    requires Execute(Initial(n), acts).Some?
    ensures exists more ::
              Execute(Initial(n), acts + more).Some? && Execute(Initial(n), acts + more).value.enc.Gone?
  {
    var p := Execute(Initial(n), acts).value;
    var q := Finishes(p);
    hide Execute;
    var more :| Execute(p, more) == Some(q);
    ExecuteAppend(Initial(n), acts, more);
  }

  // ---------------------------------------------------------------- what becomes of a frame

  function EncoderSteps(acts: seq<Action>): (r: seq<EncoderStep>) {
    if acts == [] then []
    else
      var a := acts[|acts| - 1];
      EncoderSteps(acts[..|acts| - 1]) + (if a.ByEncoder? then [a.e] else [])
  }

  /** The frame was let through, with a ready encoder or with one rebuilt for it. */
  predicate LetThrough(steps: seq<EncoderStep>) { steps == [Accept] || steps == [Rebuild, Rebuilt(true)] }

  /** It was let through, its fence - if it has one - was signalled in time, what MPP held was given back,
      and the encoder took it. */
  predicate Submitted(steps: seq<EncoderStep>, f: Frame) {
    && Signalled(steps[..if |steps| < 2 then 0 else |steps| - 2], f)
    && |steps| >= 2 && steps[|steps| - 2] == Drained && steps[|steps| - 1] == Submit(true)
  }

  predicate Signalled(steps: seq<EncoderStep>, f: Frame) {
    |steps| >= 1 && LetThrough(steps[..|steps| - 1])
    && (steps[|steps| - 1] == Poll(true) || (f.fence.None? && steps[|steps| - 1].Poll?))
  }

  /** Where the encoder thread is with frame `f` after `steps`, MPP having held `first` before. */
  predicate Along(f: Frame, first: Option<nat>, p: Pool, steps: seq<EncoderStep>) {
    match p.enc
    case Got(t) => t == FrameTask(f) && steps == [] && p.pending == first
    case Rebuilding(g) => g == f && steps == [Rebuild] && p.pending == first
    case Polling(g) => g == f && LetThrough(steps) && p.pending == (if steps == [Accept] then first else None)
    case Polled(g) => g == f.(fence := None) && Signalled(steps, f)
    case Importing(g) =>
      && g == f.(fence := None) && p.pending == None
      && |steps| >= 1 && Signalled(steps[..|steps| - 1], f) && steps[|steps| - 1] == Drained
    case Releasing(_) => Submit(true) !in steps && p.pending == Kept(first, steps)
    case Finished =>
      if Submit(true) in steps then Submitted(steps, f) && p.pending == f.slot else p.pending == Kept(first, steps)
    case _ => false
  }

  /** What MPP still holds: the previous frame, until a rebuild or a drain. */
  function Kept(first: Option<nat>, steps: seq<EncoderStep>): Option<nat> {
    if Drained in steps || Rebuilt(true) in steps || Rebuilt(false) in steps then None else first
  }

  lemma AlongNext(f: Frame, first: Option<nat>, p: Pool, steps: seq<EncoderStep>, e: EncoderStep)
    requires Along(f, first, p, steps) && EncoderAct(p, e).Some? && !e.Settle?
    ensures Along(f, first, EncoderAct(p, e).value, steps + [e])
  {
    hide Remaining, Spent, SetBusy;
    BusyKeeps(p);
    PendingGone(p);
    ReleaseKeeps(p);
    hide ReleaseOne, ReleasePending;
    var after := steps + [e];
    assert after[..|steps|] == steps;
    if p.enc.Importing? { AlongImport(f, first, p, steps, e); }
  }

  lemma AlongImport(f: Frame, first: Option<nat>, p: Pool, steps: seq<EncoderStep>, e: EncoderStep)
    requires p.enc.Importing? && Along(f, first, p, steps) && EncoderAct(p, e).Some?
    ensures Along(f, first, EncoderAct(p, e).value, steps + [e])
  {
    hide ReleaseOne, ReleasePending, SetBusy, Remaining, Spent;
    var after := steps + [e];
    assert after[..|after| - 2] == steps[..|steps| - 1];
    assert steps == steps[..|steps| - 1] + [Drained];
  }

  lemma PendingGone(p: Pool)
    ensures ReleasePending(p).pending == None
  {
  }

  lemma AlongOthers(f: Frame, first: Option<nat>, p: Pool, steps: seq<EncoderStep>, a: Action)
    requires Along(f, first, p, steps) && Apply(p, a).Some? && !a.ByEncoder?
    ensures Along(f, first, Apply(p, a).value, steps)
  {
    hide Along, EncoderAct;
    ReleaseKeeps(p);
    BusyKeeps(p);
    hide ReleaseOne, SetBusy, Close, Remaining, Spent;
    var q := Apply(p, a).value;
    assert q.enc == p.enc && q.pending == p.pending;
    AlongSame(f, first, p, q, steps);
  }

  lemma AlongSame(f: Frame, first: Option<nat>, p: Pool, q: Pool, steps: seq<EncoderStep>)
    requires Along(f, first, p, steps) && q.enc == p.enc && q.pending == p.pending
    ensures Along(f, first, q, steps)
  {
  }

  lemma {:induction false} AlongRun(p: Pool, f: Frame, acts: seq<Action>)
    requires p.enc == Got(FrameTask(f)) && Execute(p, acts).Some?
    requires forall a :: a in acts && a.ByEncoder? ==> !a.e.Settle?
    ensures Along(f, p.pending, Execute(p, acts).value, EncoderSteps(acts))
  {
    hide Along, Apply;
    if acts == [] {
      AlongStart(p, f);
    } else {
      var earlier, a := acts[..|acts| - 1], acts[|acts| - 1];
      assert a in acts;
      AlongRun(p, f, earlier);
      var m := Execute(p, earlier).value;
      if a.ByEncoder? {
        ApplyEncoder(m, a.e);
        assert EncoderSteps(acts) == EncoderSteps(earlier) + [a.e];
        AlongNext(f, p.pending, m, EncoderSteps(earlier), a.e);
      } else {
        assert EncoderSteps(acts) == EncoderSteps(earlier);
        AlongOthers(f, p.pending, m, EncoderSteps(earlier), a);
      }
    }
  }

  lemma AlongStart(p: Pool, f: Frame)
    requires p.enc == Got(FrameTask(f))
    ensures Along(f, p.pending, p, [])
  {
  }

  lemma ApplyEncoder(p: Pool, e: EncoderStep)
    ensures Apply(p, ByEncoder(e)) == EncoderAct(p, e)
  {
  }

  /** What becomes of a frame the encoder thread has taken, in every interleaving, once its task is done:
      it is with MPP exactly when it was let through, its fence was signalled and the encoder took it;
      otherwise MPP holds what it held, or nothing once it was drained or rebuilt. */
  lemma {:induction false} FrameFate(p: Pool, f: Frame, acts: seq<Action>)
    requires p.enc == Got(FrameTask(f)) && Execute(p, acts).Some? && Execute(p, acts).value.enc.Finished?
    requires forall a :: a in acts && a.ByEncoder? ==> !a.e.Settle?
    ensures var steps := EncoderSteps(acts);
            && (Submit(true) in steps ==> Submitted(steps, f))
            && Execute(p, acts).value.pending == if Submit(true) in steps then f.slot else Kept(p.pending, steps)
  {
    AlongRun(p, f, acts);
    hide Execute, EncoderSteps, Submitted;
  }

  function AsActions(steps: seq<EncoderStep>): (r: seq<Action>)
    ensures |r| == |steps| && forall k :: 0 <= k < |r| ==> r[k] == ByEncoder(steps[k])
  {
    if steps == [] then [] else AsActions(steps[..|steps| - 1]) + [ByEncoder(steps[|steps| - 1])]
  }

  /** And conversely: whenever it is let through, its fence is signalled and the encoder takes it, it ends up
      with MPP; the steps are all possible, and its fence is closed. */
  lemma {:induction false} FrameArrives(p: Pool, f: Frame, steps: seq<EncoderStep>)
    requires p.enc == Got(FrameTask(f)) && Submitted(steps, f)
    ensures var q := Execute(p, AsActions(steps));
            q.Some? && q.value.enc == Finished && q.value.pending == f.slot
            && (f.fence.Some? ==> f.fence.value !in q.value.open)
  {
    hide *;
    var through, e := InParts(steps, f);
    LetIn(p, f, through);
    ThenStep(p, through, e);
    FenceStep(Execute(p, AsActions(through)).value, f, e);
    ThenStep(p, through + [e], Drained);
    LastSteps(Execute(p, AsActions(through + [e])).value, f);
    ThenStep(p, through + [e] + [Drained], Submit(true));
  }

  lemma InParts(steps: seq<EncoderStep>, f: Frame) returns (through: seq<EncoderStep>, e: EncoderStep)
    requires Submitted(steps, f)
    ensures LetThrough(through) && (e == Poll(true) || (f.fence.None? && e.Poll?))
    ensures steps == through + [e] + [Drained] + [Submit(true)]
  {
    hide LetThrough;
    var n := |steps| - 3;
    through, e := steps[..n], steps[n];
    assert steps[..|steps| - 2][..n] == through;
  }

  lemma FenceStep(p: Pool, f: Frame, e: EncoderStep)
    requires p.enc == Polling(f) && (e == Poll(true) || (f.fence.None? && e.Poll?))
    ensures var q := EncoderAct(p, e);
            q.Some? && q.value.enc == Polled(f.(fence := None)) && (f.fence.Some? ==> f.fence.value !in q.value.open)
  {
  }

  lemma LastSteps(p: Pool, f: Frame)
    requires p.enc == Polled(f.(fence := None))
    ensures var q := EncoderAct(p, Drained);
            && q.Some? && q.value.open == p.open
            && EncoderAct(q.value, Submit(true)) == Some(q.value.(pending := f.slot, enc := Finished))
  {
  }

  lemma {:induction false} LetIn(p: Pool, f: Frame, steps: seq<EncoderStep>)
    requires p.enc == Got(FrameTask(f)) && LetThrough(steps)
    ensures var q := Execute(p, AsActions(steps)); q.Some? && q.value.enc == Polling(f)
  {
    StepsNone(p);
    FirstStep(p, f);
    hide Execute, AsActions, EncoderAct;
    if steps == [Accept] {
      assert [] + [Accept] == steps;
      ThenStep(p, [], Accept);
    } else {
      assert [] + [Rebuild] == [Rebuild] && [Rebuild] + [Rebuilt(true)] == steps;
      ThenStep(p, [], Rebuild);
      RebuildStep(EncoderAct(p, Rebuild).value, f);
      ThenStep(p, [Rebuild], Rebuilt(true));
    }
  }

  lemma FirstStep(p: Pool, f: Frame)
    requires p.enc == Got(FrameTask(f))
    ensures EncoderAct(p, Accept).Some? && EncoderAct(p, Accept).value.enc == Polling(f)
    ensures EncoderAct(p, Rebuild).Some? && EncoderAct(p, Rebuild).value.enc == Rebuilding(f)
  {
  }

  lemma RebuildStep(p: Pool, f: Frame)
    requires p.enc == Rebuilding(f)
    ensures EncoderAct(p, Rebuilt(true)).Some? && EncoderAct(p, Rebuilt(true)).value.enc == Polling(f)
  {
  }

  lemma {:induction false} StepsNone(p: Pool)
    ensures Execute(p, AsActions([])) == Some(p)
  {
  }

  lemma {:induction false} ThenStep(p: Pool, steps: seq<EncoderStep>, e: EncoderStep)
    requires Execute(p, AsActions(steps)).Some?
    ensures Execute(p, AsActions(steps + [e])) == EncoderAct(Execute(p, AsActions(steps)).value, e)
  {
    hide EncoderAct, DisplayAct, ControlAct;
    assert (steps + [e])[..|steps|] == steps;
    var a := AsActions(steps) + [ByEncoder(e)];
    assert AsActions(steps + [e]) == a;
    assert a[..|a| - 1] == AsActions(steps);
  }
}
