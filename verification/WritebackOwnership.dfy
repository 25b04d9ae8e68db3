/** What every interleaving of the writeback pool's threads keeps. */
module WritebackOwnership {
  import opened Bytes
  import opened WritebackPool

  lemma {:induction false} QueueAppend(q: seq<Task>, t: Task, k: nat)
    ensures QueueSlots(q + [t], k) == QueueSlots(q, k) + Is(TaskFrame(t).slot, k)
    ensures QueueFences(q + [t], k) == QueueFences(q, k) + Is(TaskFrame(t).fence, k)
  {
    if q == [] {
      assert [t][1..] == [];
    } else {
      assert (q + [t])[1..] == q[1..] + [t];
      QueueAppend(q[1..], t, k);
    }
  }

  lemma {:induction false} QueuePop(q: seq<Task>, k: nat)
    requires q != []
    ensures QueueSlots(q, k) == Is(TaskFrame(q[0]).slot, k) + QueueSlots(q[1..], k)
    ensures QueueFences(q, k) == Is(TaskFrame(q[0]).fence, k) + QueueFences(q[1..], k)
  {
  }

  /** Tasks without frames hold nothing. */
  lemma {:induction false} NoFrames(q: seq<Task>, k: nat)
    requires forall t :: t in q ==> TaskFrame(t) == Frame(None, None)
    ensures QueueSlots(q, k) == 0 && QueueFences(q, k) == 0
  {
    if q != [] { NoFrames(q[1..], k); }
  }

  // ---------------------------------------------------------------- ownership, thread by thread

  predicate KeptIsControl(p: Pool) {
    p.lock.Purging? ==> !p.lock.then_.FrameTask? && forall t :: t in p.lock.kept ==> !t.FrameTask?
  }

  /** The two accounts, for one slot or fence number. */
  ghost predicate OwnedAt(p: Pool, k: nat) {
    && SlotHolders(p, k) == (if Busy(p, k) then 1 else 0)
    && FenceHolders(p, k) == (if k in p.open then 1 else 0)
  }

  lemma OwnedEverywhere(p: Pool)
    ensures Owned(p) <==> forall k: nat :: OwnedAt(p, k)
  {
    hide SlotHolders, FenceHolders, Busy;
    if forall k: nat :: OwnedAt(p, k) {
      forall k: nat ensures SlotHolders(p, k) == (if Busy(p, k) then 1 else 0) { assert OwnedAt(p, k); }
      forall k: nat ensures FenceHolders(p, k) == (if k in p.open then 1 else 0) { assert OwnedAt(p, k); }
    }
  }

  // ---------------------------------------------------------------- elementary moves

  /** Setting the busy flag of a free slot and holding it. */
  lemma Acquire(p: Pool, i: nat, k: nat)
    requires OwnedAt(p, k) && DisplaySlot(p.display) == None && DisplayFence(p.display) == None
    requires i < |p.busy| && !p.busy[i]
    ensures OwnedAt(SetBusy(p, i, true).(display := Held(i)), k)
  {
    hide QueueSlots, QueueFences, EncoderFrame;
  }

  /** The display thread gives its slot back. */
  lemma DisplayGives(p: Pool, i: nat, k: nat)
    requires OwnedAt(p, k) && DisplaySlot(p.display) == Some(i) && DisplayFence(p.display) == None
    ensures i == k ==> Busy(p, k)
    ensures OwnedAt(SetBusy(p, i, false).(display := Idle), k)
  {
    hide QueueSlots, QueueFences, EncoderFrame;
  }

  /** The display thread releases a frame it could not queue. */
  lemma DisplayReleases(p: Pool, f: Frame, k: nat)
    requires OwnedAt(p, k) && p.display == Dropping(f)
    ensures f.fence == Some(k) ==> k in p.open
    ensures OwnedAt(ReleaseOne(p, f).(display := Dropping(Remaining(f))), k)
  {
    hide QueueSlots, QueueFences, EncoderFrame;
  }

  lemma DisplayCloses(p: Pool, x: nat, s: nat, k: nat)
    requires OwnedAt(p, k) && p.display == Failed(s, Some(x))
    ensures OwnedAt(Close(p, x).(display := Failed(s, None)), k)
  {
    hide QueueSlots, QueueFences, EncoderFrame;
  }

  lemma DisplayOpens(p: Pool, s: nat, fence: Option<nat>, d: Display, k: nat)
    requires OwnedAt(p, k) && p.display == Armed(s) && (fence.Some? ==> fence.value !in p.open)
    requires d == Committed(s, fence) || d == Failed(s, fence)
    ensures OwnedAt((if fence.Some? then p.(open := p.open + {fence.value}) else p).(display := d), k)
  {
    hide QueueSlots, QueueFences, EncoderFrame;
  }

  /** A move that changes neither what the display thread nor what the encoder thread holds. */
  lemma SameHands(p: Pool, d: Display, e: Encoder, k: nat)
    requires OwnedAt(p, k)
    requires DisplaySlot(d) == DisplaySlot(p.display) && DisplayFence(d) == DisplayFence(p.display)
    requires EncoderFrame(e) == EncoderFrame(p.enc)
    ensures OwnedAt(p.(display := d, enc := e), k)
  {
    hide QueueSlots, QueueFences, EncoderFrame, DisplaySlot, DisplayFence;
  }

  lemma PendingGiven(p: Pool, k: nat)
    requires OwnedAt(p, k)
    ensures p.pending == Some(k) ==> Busy(p, k)
    ensures OwnedAt(ReleasePending(p), k) && ReleasePending(p).pending == None
    ensures ReleasePending(p) == p.(busy := ReleasePending(p).busy, pending := None)
  {
    hide QueueSlots, QueueFences, EncoderFrame, DisplaySlot, DisplayFence;
  }

  lemma EncoderReleases(p: Pool, f: Frame, k: nat)
    requires OwnedAt(p, k) && p.enc == Releasing(f)
    ensures f.fence == Some(k) ==> k in p.open
    ensures OwnedAt(ReleaseOne(p, f).(enc := Releasing(Remaining(f))), k)
  {
    hide QueueSlots, QueueFences, DisplaySlot, DisplayFence;
  }

  lemma FencePolled(p: Pool, f: Frame, e: Encoder, k: nat)
    requires OwnedAt(p, k) && p.enc == Polling(f) && f.fence.Some?
    requires EncoderFrame(e) == f.(fence := None)
    ensures OwnedAt(Close(p, f.fence.value).(enc := e), k)
  {
    hide QueueSlots, QueueFences, DisplaySlot, DisplayFence;
  }

  lemma Submitted(p: Pool, f: Frame, k: nat)
    requires OwnedAt(p, k) && p.enc == Importing(f) && p.pending == None && f.fence == None
    ensures OwnedAt(p.(pending := f.slot, enc := Finished), k)
  {
    hide QueueSlots, QueueFences, DisplaySlot, DisplayFence;
  }

  lemma Dequeued(p: Pool, k: nat)
    requires OwnedAt(p, k) && p.enc.Waiting? && p.queue != []
    ensures OwnedAt(p.(enc := Got(p.queue[0]), queue := p.queue[1..]), k)
  {
    QueuePop(p.queue, k);
    hide QueueSlots, QueueFences, DisplaySlot, DisplayFence;
  }

  lemma HandedOver(p: Pool, k: nat)
    requires OwnedAt(p, k) && p.display.Committed?
    ensures var f := Frame(Some(p.display.slot), p.display.fence);
            && OwnedAt(p.(queue := p.queue + [FrameTask(f)], display := Idle), k)
            && OwnedAt(p.(display := Dropping(f)), k)
  {
    QueueAppend(p.queue, FrameTask(Frame(Some(p.display.slot), p.display.fence)), k);
    hide QueueSlots, QueueFences, EncoderFrame;
  }

  // ---------------------------------------------------------------- thread by thread

  lemma DisplayKeeps(p: Pool, a: DisplayStep, k: nat)
    requires OwnedAt(p, k) && DisplayAct(p, a).Some?
    ensures OwnedAt(DisplayAct(p, a).value, k)
  {
    hide OwnedAt, SetBusy, ReleaseOne, Remaining, Spent;
    match a
    case StartCapture => SameHands(p, Scanning(0), p.enc, k);
    case Scan =>
      if p.display.i >= |p.busy| { SameHands(p, NoSlot, p.enc, k); }
      else if p.busy[p.display.i] { SameHands(p, Scanning(p.display.i + 1), p.enc, k); }
      else { Acquire(p, p.display.i, k); }
    case Skip => SameHands(p, Idle, p.enc, k);
    case Arm(ok) =>
      if ok { SameHands(p, Armed(p.display.slot), p.enc, k); } else { DisplayGives(p, p.display.slot, k); }
    case Commit(ok, fence) =>
      DisplayOpens(p, p.display.slot, fence,
                   if ok then Committed(p.display.slot, fence) else Failed(p.display.slot, fence), k);
    case Reclaim =>
      if p.display.fence.Some? { DisplayCloses(p, p.display.fence.value, p.display.slot, k); }
      else { DisplayGives(p, p.display.slot, k); }
    case HandOver => HandedOver(p, k);
    case ReleaseDropped =>
      if Spent(p.display.f) { SpentIs(p.display.f); SameHands(p, Idle, p.enc, k); }
      else { DisplayReleases(p, p.display.f, k); }
    case Exit => SameHands(p, Ended, p.enc, k);
  }

  lemma SpentIs(f: Frame)
    ensures Spent(f) <==> f == Frame(None, None)
  {
  }

  /** Only the queue changes, and it holds the same slots and fences. */
  lemma {:induction false} SameQueue(p: Pool, q: seq<Task>, l: Lock, k: nat)
    requires OwnedAt(p, k) && QueueSlots(q, k) == QueueSlots(p.queue, k) && QueueFences(q, k) == QueueFences(p.queue, k)
    ensures OwnedAt(p.(queue := q, lock := l), k)
  {
    hide QueueSlots, QueueFences, EncoderFrame, DisplaySlot, DisplayFence;
  }

  /** A purge releases the frame at the front of the queue. */
  lemma QueueReleases(p: Pool, f: Frame, k: nat)
    requires OwnedAt(p, k) && p.queue != [] && p.queue[0] == FrameTask(f)
    ensures f.fence == Some(k) ==> k in p.open
    ensures OwnedAt(ReleaseOne(p, f).(queue := [FrameTask(Remaining(f))] + p.queue[1..]), k)
  {
    QueuePop(p.queue, k);
    QueueFront(FrameTask(Remaining(f)), p.queue[1..], k);
    hide QueueSlots, QueueFences, EncoderFrame, DisplaySlot, DisplayFence;
    ReleaseAccounts(p, f, k, SlotHolders(p, k) - Is(f.slot, k), FenceHolders(p, k) - Is(f.fence, k));
    ReleaseKeeps(p);
    hide ReleaseOne, Remaining, Busy, Is;
  }

  lemma {:induction false} QueueFront(t: Task, rest: seq<Task>, k: nat)
    ensures QueueSlots([t] + rest, k) == Is(TaskFrame(t).slot, k) + QueueSlots(rest, k)
    ensures QueueFences([t] + rest, k) == Is(TaskFrame(t).fence, k) + QueueFences(rest, k)
  {
    hide TaskFrame, Is;
    assert ([t] + rest)[1..] == rest;
  }

  /** Releasing one thing of a frame, with `s` and `x` the other holders of slot and fence `k`. */
  lemma ReleaseAccounts(p: Pool, f: Frame, k: nat, s: nat, x: nat)
    requires s + Is(f.slot, k) == (if Busy(p, k) then 1 else 0)
    requires x + Is(f.fence, k) == (if k in p.open then 1 else 0)
    ensures f.fence == Some(k) ==> k in p.open
    ensures var q := ReleaseOne(p, f);
            && s + Is(Remaining(f).slot, k) == (if Busy(q, k) then 1 else 0)
            && x + Is(Remaining(f).fence, k) == (if k in q.open then 1 else 0)
  {
  }

  lemma ControlKeeps(p: Pool, a: ControlStep, k: nat)
    requires OwnedAt(p, k) && KeptIsControl(p) && ControlAct(p, a).Some?
    ensures OwnedAt(ControlAct(p, a).value, k)
  {
    hide OwnedAt, ReleaseOne, Remaining, Spent, QueueSlots, QueueFences;
    match a
    case Tap =>
      QueueAppend(p.queue, FrameTask(Frame(None, None)), k);
      SameQueue(p, p.queue + [FrameTask(Frame(None, None))], Free, k);
    case Post =>
      QueueAppend(p.queue, RunTask, k);
      SameQueue(p, p.queue + [RunTask], Free, k);
    case PostDrop(t) => SameQueue(p, p.queue, Purging([], t), k);
    case Purge =>
      var t := p.queue[0];
      QueuePop(p.queue, k);
      if !t.FrameTask? {
        SameQueue(p, p.queue[1..], Purging(p.lock.kept + [t], p.lock.then_), k);
      } else if Spent(t.f) {
        SpentIs(t.f);
        SameQueue(p, p.queue[1..], p.lock, k);
      } else {
        QueueReleases(p, t.f, k);
      }
    case PurgeDone =>
      NoFrames(p.lock.kept, k);
      NoFrames([], k);
      QueueAppend(p.lock.kept, p.lock.then_, k);
      SameQueue(p, p.lock.kept + [p.lock.then_], Free, k);
  }

  /** Once the fence has been waited for, the task carries none. */
  predicate FenceGone(p: Pool) { (p.enc.Polled? || p.enc.Importing?) ==> p.enc.f.fence == None }

  /** Between the drain and the submit MPP holds nothing. */
  predicate DrainedBeforeSubmit(p: Pool) { (p.enc.Importing? || p.enc.Gone?) ==> p.pending == None }

  lemma EncoderKeeps(p: Pool, a: EncoderStep, k: nat)
    requires OwnedAt(p, k) && DrainedBeforeSubmit(p) && FenceGone(p) && EncoderAct(p, a).Some?
    ensures OwnedAt(EncoderAct(p, a).value, k)
  {
    hide OwnedAt, SetBusy, ReleaseOne, Remaining, Spent, ReleasePending;
    PendingGiven(p, k);
    var q := ReleasePending(p);
    match a
    case Dequeue => Dequeued(p, k);
    case Refuse => SameHands(p, p.display, Releasing(p.enc.t.f), k);
    case Accept => SameHands(p, p.display, Polling(p.enc.t.f), k);
    case Rebuild => SameHands(p, p.display, Rebuilding(p.enc.t.f), k);
    case Rebuilt(ok) => SameHands(q, p.display, if ok then Polling(p.enc.f) else Releasing(p.enc.f), k);
    case Poll(ok) =>
      var f := p.enc.f.(fence := None);
      if p.enc.f.fence.None? { SameHands(p, p.display, Polled(p.enc.f), k); }
      else { FencePolled(p, p.enc.f, if ok then Polled(f) else Releasing(f), k); }
    case Drained => SameHands(q, p.display, Importing(p.enc.f), k);
    case Submit(ok) =>
      if ok { Submitted(p, p.enc.f, k); } else { SameHands(p, p.display, Releasing(p.enc.f), k); }
    case Release =>
      if Spent(p.enc.f) { SpentIs(p.enc.f); SameHands(p, p.display, Finished, k); }
      else { EncoderReleases(p, p.enc.f, k); }
    case Run => SameHands(p, p.display, Finished, k);
    case Settle(teardown) => SameHands(if teardown then q else p, p.display, Waiting, k);
    case Stop => SameHands(p, p.display, Last, k);
    case TearDown => SameHands(q, p.display, Gone, k);
  }

  // ---------------------------------------------------------------- the pool's size

  function Frames(q: seq<Task>): nat {
    if q == [] then 0 else (if q[0].FrameTask? then 1 else 0) + Frames(q[1..])
  }

  lemma {:induction false} FramesAppend(q: seq<Task>, t: Task)
    ensures Frames(q + [t]) == Frames(q) + (if t.FrameTask? then 1 else 0)
    ensures Frames(q) <= |q|
  {
    if q == [] {
      assert [t][1..] == [];
    } else {
      assert (q + [t])[1..] == q[1..] + [t];
      FramesAppend(q[1..], t);
    }
  }

  lemma {:induction false} NoFrameTasks(q: seq<Task>)
    requires forall t :: t in q ==> !t.FrameTask?
    ensures Frames(q) == 0
  {
    if q != [] { NoFrameTasks(q[1..]); }
  }

  /** How many of the slots below `n` are busy, and how many holds they are under. */
  function BusyBelow(p: Pool, n: nat): nat {
    if n == 0 then 0 else BusyBelow(p, n - 1) + (if Busy(p, n - 1) then 1 else 0)
  }

  function IsBelow(x: Option<nat>, n: nat): nat { if x.Some? && x.value < n then 1 else 0 }

  function QueueBelow(q: seq<Task>, n: nat): (r: nat)
    ensures r <= Frames(q)
  {
    if q == [] then 0 else IsBelow(TaskFrame(q[0]).slot, n) + QueueBelow(q[1..], n)
  }

  lemma {:induction false} QueueBelowStep(q: seq<Task>, n: nat)
    ensures QueueBelow(q, n + 1) == QueueBelow(q, n) + QueueSlots(q, n)
  {
    if q != [] { QueueBelowStep(q[1..], n); }
  }

  lemma {:induction false} QueueBelowZero(q: seq<Task>)
    ensures QueueBelow(q, 0) == 0
  {
    if q != [] { QueueBelowZero(q[1..]); }
  }

  lemma BelowStep(x: Option<nat>, n: nat)
    ensures IsBelow(x, n + 1) == IsBelow(x, n) + Is(x, n)
  {
  }

  lemma {:induction false} BusyIsHeld(p: Pool, n: nat)
    requires Owned(p)
    ensures BusyBelow(p, n) == IsBelow(DisplaySlot(p.display), n) + QueueBelow(p.queue, n)
                               + IsBelow(EncoderFrame(p.enc).slot, n) + IsBelow(p.pending, n)
  {
    if n == 0 {
      QueueBelowZero(p.queue);
    } else {
      BusyIsHeld(p, n - 1);
      QueueBelowStep(p.queue, n - 1);
      BelowStep(DisplaySlot(p.display), n - 1);
      BelowStep(EncoderFrame(p.enc).slot, n - 1);
      BelowStep(p.pending, n - 1);
      assert SlotHolders(p, n - 1) == if Busy(p, n - 1) then 1 else 0;
      hide QueueBelow, QueueSlots, EncoderFrame, DisplaySlot, IsBelow, Is, Owned, Busy;
    }
  }

  lemma {:induction false} FreeSlot(p: Pool, n: nat) returns (j: nat)
    requires BusyBelow(p, n) < n
    ensures j < n && !Busy(p, j)
  {
    if Busy(p, n - 1) { j := FreeSlot(p, n - 1); } else { j := n - 1; }
  }

  /** At most three queued, one being encoded and one held by MPP: outside the display thread's hands
      never more than five slots are taken. */
  lemma {:induction false} FiveTaken(p: Pool)
    requires Owned(p) && Frames(p.queue) <= MAX_PENDING_FRAMES && DisplaySlot(p.display) == None
    ensures BusyBelow(p, |p.busy|) <= 5
  {
    hide QueueBelow, Owned, EncoderFrame, DisplaySlot, BusyBelow;
    BusyIsHeld(p, |p.busy|);
  }

  // ---------------------------------------------------------------- the invariant

  predicate IsShutdown(t: Task) { t.ShutdownTask? }

  /** A shutdown request is on its way: queued, put aside by a purge, or taken. */
  predicate Closing(p: Pool) {
    || (exists t :: t in p.queue && IsShutdown(t))
    || (p.lock.Purging? && exists t :: t in p.lock.kept && IsShutdown(t))
    || (p.enc.Got? && IsShutdown(p.enc.t)) || p.enc.Last? || p.enc.Gone?
  }

  /** Once it is, the display thread has ended and no captured frame is queued any more. */
  ghost predicate ClosingIsQuiet(p: Pool) {
    && (p.lock.Purging? && IsShutdown(p.lock.then_) ==> p.display.Ended?)
    && (Closing(p) ==> p.display.Ended? && forall t :: t in p.queue ==> TaskFrame(t) == Frame(None, None))
  }

  /** While the display thread scans, a free slot lies ahead. */
  ghost predicate SlotAhead(p: Pool) {
    p.display.Scanning? ==> exists j: nat :: p.display.i <= j < |p.busy| && !Busy(p, j)
  }

  ghost predicate Inv(p: Pool) {
    && Owned(p) && KeptIsControl(p) && FenceGone(p) && DrainedBeforeSubmit(p)
    && Frames(p.queue) <= MAX_PENDING_FRAMES
    && ClosingIsQuiet(p)
    && (|p.busy| >= WB_BUF_COUNT ==> SlotAhead(p) && !p.display.NoSlot?)
  }

  lemma OwnedKept(p: Pool, a: Action)
    requires Owned(p) && KeptIsControl(p) && FenceGone(p) && DrainedBeforeSubmit(p) && Apply(p, a).Some?
    ensures Owned(Apply(p, a).value)
  {
    OwnedEverywhere(p);
    OwnedEverywhere(Apply(p, a).value);
    hide Owned, OwnedAt, DisplayAct, ControlAct, EncoderAct, KeptIsControl, FenceGone, DrainedBeforeSubmit;
    forall k: nat ensures OwnedAt(Apply(p, a).value, k) {
      match a
      case ByDisplay(d) => DisplayKeeps(p, d, k);
      case ByControl(c) => ControlKeeps(p, c, k);
      case ByEncoder(e) => EncoderKeeps(p, e, k);
    }
  }

  lemma FramesKept(p: Pool, a: Action)
    requires Frames(p.queue) <= MAX_PENDING_FRAMES && KeptIsControl(p) && Apply(p, a).Some?
    ensures Frames(Apply(p, a).value.queue) <= MAX_PENDING_FRAMES
  {
    var p' := Apply(p, a).value;
    match a
    case ByDisplay(d) =>
      if d.HandOver? { FramesAppend(p.queue, FrameTask(Frame(Some(p.display.slot), p.display.fence))); }
    case ByControl(c) =>
      FramesAppend(p.queue, FrameTask(Frame(None, None)));
      FramesAppend(p.queue, RunTask);
      if c.Purge? && p.queue[0].FrameTask? && p'.queue != p.queue[1..] { assert p'.queue[1..] == p.queue[1..]; }
      if c.PurgeDone? {
        NoFrameTasks(p.lock.kept);
        FramesAppend(p.lock.kept, p.lock.then_);
      }
    case ByEncoder(e) =>
  }

  lemma SmallKept(p: Pool, a: Action)
    requires KeptIsControl(p) && FenceGone(p) && DrainedBeforeSubmit(p) && Apply(p, a).Some?
    ensures var q := Apply(p, a).value;
            KeptIsControl(q) && FenceGone(q) && DrainedBeforeSubmit(q) && |q.busy| == |p.busy|
  {
    PoolSize(p, a);
    match a {
      case ByDisplay(d) => DisplayTouches(p, d);
      case ByControl(c) => ControlTouches(p, c);
      case ByEncoder(e) => EncoderTouches(p, e);
    }
    hide DisplayAct, ControlAct, EncoderAct;
  }

  /** The display thread touches neither the encoder's frame, nor the pending slot, nor the lock. */
  lemma DisplayTouches(p: Pool, d: DisplayStep)
    requires DisplayAct(p, d).Some?
    ensures var q := DisplayAct(p, d).value; q.enc == p.enc && q.pending == p.pending && q.lock == p.lock
  {
    hide Spent, Remaining;
  }

  lemma ControlTouches(p: Pool, c: ControlStep)
    requires KeptIsControl(p) && ControlAct(p, c).Some?
    ensures var q := ControlAct(p, c).value; q.enc == p.enc && q.pending == p.pending && KeptIsControl(q)
  {
    hide Spent, Remaining;
  }

  lemma EncoderTouches(p: Pool, e: EncoderStep)
    requires FenceGone(p) && DrainedBeforeSubmit(p) && EncoderAct(p, e).Some?
    ensures var q := EncoderAct(p, e).value; q.lock == p.lock && FenceGone(q) && DrainedBeforeSubmit(q)
  {
    hide Spent, Remaining;
  }

  lemma QuietDisplay(p: Pool, a: DisplayStep)
    requires ClosingIsQuiet(p) && DisplayAct(p, a).Some?
    ensures ClosingIsQuiet(DisplayAct(p, a).value)
  {
    hide TaskFrame, IsShutdown, ReleaseOne, Remaining, Spent;
    ReleaseKeeps(p);
    var p' := DisplayAct(p, a).value;
    if a.HandOver? && p'.queue != p.queue {
      var t := FrameTask(Frame(Some(p.display.slot), p.display.fence));
      NotShutdown(t);
      forall u | u in p'.queue && IsShutdown(u) ensures Closing(p) { assert u in p.queue; }
    } else {
      SameTasks(p, p');
    }
  }

  lemma NotShutdown(t: Task)
    ensures IsShutdown(t) <==> t.ShutdownTask?
  {
  }

  lemma SameTasks(p: Pool, q: Pool)
    requires ClosingIsQuiet(p) && q.queue == p.queue && q.lock == p.lock && q.enc == p.enc
    requires p.display.Ended? ==> q.display.Ended?
    ensures ClosingIsQuiet(q)
  {
    hide TaskFrame, IsShutdown;
  }

  lemma QuietControl(p: Pool, a: ControlStep)
    requires ClosingIsQuiet(p) && KeptIsControl(p) && ControlAct(p, a).Some?
    ensures ClosingIsQuiet(ControlAct(p, a).value)
  {
    hide ReleaseOne, Remaining, Spent;
    var p' := ControlAct(p, a).value;
    assert p'.display == p.display && p'.enc == p.enc by { ReleaseKeeps(p); }
    match a
    case Tap => forall u | u in p'.queue && IsShutdown(u) ensures Closing(p) { assert u in p.queue; }
    case Post => forall u | u in p'.queue && IsShutdown(u) ensures Closing(p) { assert u in p.queue; }
    case PostDrop(t) =>
    case Purge => QuietPurge(p);
    case PurgeDone =>
      forall t | t in p'.queue ensures TaskFrame(t) == Frame(None, None) {
        assert t in p.lock.kept || t == p.lock.then_;
      }
  }

  lemma ReleaseKeeps(p: Pool)
    ensures forall f :: var q := ReleaseOne(p, f);
              && q.display == p.display && q.enc == p.enc && q.lock == p.lock
              && q.queue == p.queue && q.pending == p.pending
  {
  }

  lemma QuietPurge(p: Pool)
    requires ClosingIsQuiet(p) && p.lock.Purging? && p.queue != []
    ensures ClosingIsQuiet(ControlAct(p, Purge).value)
  {
    ReleaseKeeps(p);
    hide ReleaseOne, Spent;
    var p', t := ControlAct(p, Purge).value, p.queue[0];
    assert t in p.queue;
    if t.FrameTask? {
      forall u | u in p'.queue && IsShutdown(u) ensures Closing(p) { assert u in p.queue; }
    } else {
      forall u | u in p'.lock.kept && IsShutdown(u) ensures Closing(p) { assert u in p.lock.kept || u == t; }
      forall u | u in p'.queue && IsShutdown(u) ensures Closing(p) { assert u in p.queue; }
    }
  }

  lemma QuietEncoder(p: Pool, a: EncoderStep)
    requires ClosingIsQuiet(p) && EncoderAct(p, a).Some?
    ensures ClosingIsQuiet(EncoderAct(p, a).value)
  {
    hide ReleaseOne, Remaining, Spent, ReleasePending;
    ReleaseKeeps(p);
    PendingKeeps(p);
    var p' := EncoderAct(p, a).value;
    if a.Dequeue? {
      assert p.queue[0] in p.queue;
      forall u | u in p'.queue && IsShutdown(u) ensures Closing(p) { assert u in p.queue; }
    }
  }

  lemma PendingKeeps(p: Pool)
    ensures var q := ReleasePending(p);
            q.display == p.display && q.enc == p.enc && q.lock == p.lock && q.queue == p.queue
  {
  }

  lemma QuietKept(p: Pool, a: Action)
    requires ClosingIsQuiet(p) && KeptIsControl(p) && Apply(p, a).Some?
    ensures ClosingIsQuiet(Apply(p, a).value)
  {
    hide ClosingIsQuiet, KeptIsControl, DisplayAct, ControlAct, EncoderAct;
    match a
    case ByDisplay(d) => QuietDisplay(p, d);
    case ByControl(c) => QuietControl(p, c);
    case ByEncoder(e) => QuietEncoder(p, e);
  }

  /** Only the display thread takes slots. */
  lemma OthersOnlyFree(p: Pool, a: Action, j: nat)
    requires Apply(p, a).Some? && !a.ByDisplay? && Busy(Apply(p, a).value, j)
    ensures Busy(p, j)
  {
    hide DisplayAct;
    match a {
      case ByControl(c) => hide EncoderAct; return;
      case ByEncoder(e) => hide ControlAct; return;
    }
  }

  lemma AheadKept(p: Pool, a: Action)
    requires Owned(p) && Frames(p.queue) <= MAX_PENDING_FRAMES && |p.busy| >= WB_BUF_COUNT
    requires SlotAhead(p) && !p.display.NoSlot? && Apply(p, a).Some?
    ensures SlotAhead(Apply(p, a).value) && !Apply(p, a).value.display.NoSlot?
  {
    var p' := Apply(p, a).value;
    if a.ByDisplay? && a.d.StartCapture? {
      FiveTaken(p);
      var j := FreeSlot(p, |p.busy|);
      assert !Busy(p', j);
    } else if a.ByDisplay? {
      hide Owned, Frames;
      if p.display.Scanning? {
        var j: nat :| p.display.i <= j < |p.busy| && !Busy(p, j);
        assert p'.display.Scanning? ==> !Busy(p', j);
      }
    } else if p.display.Scanning? {
      var j: nat :| p.display.i <= j < |p.busy| && !Busy(p, j);
      if Busy(p', j) { OthersOnlyFree(p, a, j); }
      OthersKeepDisplay(p, a);
    } else {
      OthersKeepDisplay(p, a);
    }
  }

  lemma OthersKeepDisplay(p: Pool, a: Action)
    requires Apply(p, a).Some? && !a.ByDisplay?
    ensures Apply(p, a).value.display == p.display && |Apply(p, a).value.busy| == |p.busy|
  {
  }

  /** One action of any thread keeps the invariant. */
  lemma StepKeeps(p: Pool, a: Action)
    requires Inv(p) && Apply(p, a).Some?
    ensures Inv(Apply(p, a).value)
  {
    hide Owned, KeptIsControl, FenceGone, DrainedBeforeSubmit, Frames, ClosingIsQuiet, SlotAhead, Apply;
    OwnedKept(p, a);
    FramesKept(p, a);
    SmallKept(p, a);
    QuietKept(p, a);
    if |p.busy| >= WB_BUF_COUNT { AheadKept(p, a); }
  }

  // ---------------------------------------------------------------- every interleaving

  /** The pool after a list of actions, or None when one of them is not possible. */
  function Execute(p: Pool, acts: seq<Action>): (r: Option<Pool>)
  {
    if acts == [] then Some(p) else
    var q := Execute(p, acts[..|acts| - 1]);
    if q.None? then None else Apply(q.value, acts[|acts| - 1])
  }

  lemma {:induction false} Interleavings(n: nat, acts: seq<Action>)
    requires Execute(Initial(n), acts).Some?
    ensures Inv(Execute(Initial(n), acts).value) && |Execute(Initial(n), acts).value.busy| == n
  {
    if acts != [] {
      hide Inv, Apply, Initial;
      Interleavings(n, acts[..|acts| - 1]);
      var p, a := Execute(Initial(n), acts[..|acts| - 1]).value, acts[|acts| - 1];
      StepKeeps(p, a);
      PoolSize(p, a);
    } else {
      InitialInv(n);
    }
  }

  lemma PoolSize(p: Pool, a: Action)
    requires Apply(p, a).Some?
    ensures |Apply(p, a).value.busy| == |p.busy|
  {
  }

  lemma InitialInv(n: nat)
    ensures Inv(Initial(n)) && |Initial(n).busy| == n
  {
  }

  /** In every interleaving a slot is busy iff it has exactly one holder, and a fence is open iff it
      has exactly one holder; nothing ever has two. */
  lemma {:induction false} OneHolderEach(n: nat, acts: seq<Action>, k: nat)
    requires Execute(Initial(n), acts).Some?
    ensures var p := Execute(Initial(n), acts).value;
            && SlotHolders(p, k) <= 1 && (Busy(p, k) <==> SlotHolders(p, k) == 1)
            && FenceHolders(p, k) <= 1 && (k in p.open <==> FenceHolders(p, k) == 1)
  {
    Interleavings(n, acts);
    OwnedEverywhere(Execute(Initial(n), acts).value);
    assert OwnedAt(Execute(Initial(n), acts).value, k);
    hide Execute, SlotHolders, FenceHolders, Busy, Inv;
  }

  /** The slot an action gives back and the fence it closes. */
  function GivenBack(p: Pool, a: Action): (r: Frame)
  {
    match a
    case ByDisplay(Arm(false)) => if p.display.Held? then Frame(Some(p.display.slot), None) else Frame(None, None)
    case ByDisplay(Reclaim) =>
      if !p.display.Failed? then Frame(None, None)
      else if p.display.fence.Some? then Frame(None, p.display.fence) else Frame(Some(p.display.slot), None)
    case ByDisplay(ReleaseDropped) => if p.display.Dropping? then First(p.display.f) else Frame(None, None)
    case ByControl(Purge) => if p.queue != [] then First(TaskFrame(p.queue[0])) else Frame(None, None)
    case ByEncoder(Poll(_)) => if p.enc.Polling? then Frame(None, p.enc.f.fence) else Frame(None, None)
    case ByEncoder(Release) => if p.enc.Releasing? then First(p.enc.f) else Frame(None, None)
    case ByEncoder(Rebuilt(_)) => Frame(p.pending, None)
    case ByEncoder(Drained) => Frame(p.pending, None)
    case ByEncoder(Settle(true)) => Frame(p.pending, None)
    case ByEncoder(TearDown) => Frame(p.pending, None)
    case _ => Frame(None, None)
  }

  function First(f: Frame): Frame { if f.fence.Some? then Frame(None, f.fence) else Frame(f.slot, None) }

  /** Nothing is released twice: what an action gives back is busy, or open, when it does - and it is
      everything the action clears. */
  lemma {:induction false} ReleasedOnce(n: nat, acts: seq<Action>, a: Action)
    requires Execute(Initial(n), acts).Some? && Apply(Execute(Initial(n), acts).value, a).Some?
    ensures var p := Execute(Initial(n), acts).value;
            var q, g := Apply(p, a).value, GivenBack(p, a);
            && (g.slot.Some? ==> Busy(p, g.slot.value))
            && (g.fence.Some? ==> g.fence.value in p.open)
            && Cleared(p, q, g)
  {
    Interleavings(n, acts);
    var p := Execute(Initial(n), acts).value;
    hide Execute, Initial;
    var g := GivenBack(p, a);
    GivenIsHeld(p, a);
    GivenIsCleared(p, a);
    OwnedEverywhere(p);
    if g.slot.Some? { assert OwnedAt(p, g.slot.value); }
    if g.fence.Some? { assert OwnedAt(p, g.fence.value); }
    hide GivenBack, Apply, Inv;
  }

  lemma GivenIsHeld(p: Pool, a: Action)
    requires Apply(p, a).Some?
    ensures var g := GivenBack(p, a);
            && (g.slot.Some? ==> SlotHolders(p, g.slot.value) > 0)
            && (g.fence.Some? ==> FenceHolders(p, g.fence.value) > 0)
  {
    var g := GivenBack(p, a);
    if p.queue != [] {
      if g.slot.Some? { QueuePop(p.queue, g.slot.value); }
      if g.fence.Some? { QueuePop(p.queue, g.fence.value); }
    }
    hide QueueSlots, QueueFences;
  }

  lemma GivenIsCleared(p: Pool, a: Action)
    requires Apply(p, a).Some?
    ensures Cleared(p, Apply(p, a).value, GivenBack(p, a))
  {
    match a
    case ByDisplay(d) => DisplayClears(p, d);
    case ByControl(c) => ControlClears(p, c);
    case ByEncoder(e) => EncoderClears(p, e);
  }

  /** From `p` to `q` exactly `g` is given back. */
  ghost predicate Cleared(p: Pool, q: Pool, g: Frame) {
    && (g.slot.Some? ==> !Busy(q, g.slot.value))
    && (g.fence.Some? ==> g.fence.value !in q.open)
    && (forall k: nat :: Busy(p, k) && !Busy(q, k) ==> g.slot == Some(k))
    && (forall x :: x in p.open && x !in q.open ==> g.fence == Some(x))
  }

  lemma DisplayClears(p: Pool, d: DisplayStep)
    requires DisplayAct(p, d).Some?
    ensures Cleared(p, DisplayAct(p, d).value, GivenBack(p, ByDisplay(d)))
  {
  }

  lemma ControlClears(p: Pool, c: ControlStep)
    requires ControlAct(p, c).Some?
    ensures Cleared(p, ControlAct(p, c).value, GivenBack(p, ByControl(c)))
  {
  }

  lemma EncoderClears(p: Pool, e: EncoderStep)
    requires EncoderAct(p, e).Some?
    ensures Cleared(p, EncoderAct(p, e).value, GivenBack(p, ByEncoder(e)))
  {
  }

  /** After the encoder thread has gone, every slot is free and every fence is closed. */
  lemma {:induction false} ShutdownFreesAll(n: nat, acts: seq<Action>, k: nat)
    requires Execute(Initial(n), acts).Some? && Execute(Initial(n), acts).value.enc.Gone?
    ensures var p := Execute(Initial(n), acts).value; !Busy(p, k) && k !in p.open
  {
    var p := Execute(Initial(n), acts).value;
    Interleavings(n, acts);
    hide Execute;
    assert Closing(p);
    NoFrames(p.queue, k);
    OwnedEverywhere(p);
    assert OwnedAt(p, k);
  }
}
