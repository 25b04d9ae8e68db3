/** The writeback capture pool: buffers cycling between the display thread of src/main.cpp and the
    encoder thread of src/encoder/video_encoder.cpp. Every step is one atomic action - an atomic flag
    operation, a close, a critical section, or one queue entry handled inside one. MPP, the kernel and
    the gates that decide whether frames are wanted are the free choices of the actions. */
module WritebackPool {
  import opened Bytes

  const WB_BUF_COUNT := 6
  const MAX_PENDING_FRAMES := 3

  /** `enc_frame_info`: the pool slot and the capture fence it carries, none for a decode-tap frame. */
  datatype Frame = Frame(slot: Option<nat>, fence: Option<nat>)

  datatype Task = FrameTask(f: Frame) | RunTask | ShutdownTask

  /** Where the display thread is, and what it holds there. */
  datatype Display =
    | Idle
    | Scanning(i: nat)                              // the compare-exchange loop, at slot i
    | NoSlot                                        // the loop found none
    | Held(slot: nat)                               // acquired, not armed yet
    | Armed(slot: nat)                              // armed, commit in progress
    | Committed(slot: nat, fence: Option<nat>)      // about to hand over
    | Failed(slot: nat, fence: Option<nat>)         // commit failed, reclaiming
    | Dropping(f: Frame)                            // queue was full, releasing
    | Ended

  /** Where the encoder thread is, and the frame it holds there. */
  datatype Encoder =
    | Waiting
    | Got(t: Task)                                  // dequeued
    | Rebuilding(f: Frame)                          // ensure_encoder, tearing down first
    | Polling(f: Frame)                             // encode_wb: waiting for the fence
    | Polled(f: Frame)                              // encode_wb: fence closed, draining
    | Importing(f: Frame)                           // encode_wb: previous slot given back
    | Releasing(f: Frame)                           // release_wb_frame
    | Finished                                      // task done, maybe tearing down
    | Last                                          // the final teardown
    | Gone

  /** The queue mutex: free, or held by a control call that is dropping frames. */
  datatype Lock = Free | Purging(kept: seq<Task>, then_: Task)

  datatype Pool = Pool(busy: seq<bool>, open: set<nat>, display: Display, enc: Encoder, queue: seq<Task>,
                       lock: Lock, pending: Option<nat>)

  function Initial(n: nat): Pool {
    Pool(AllFree(n), {}, Idle, Waiting, [], Free, None)
  }

  function AllFree(n: nat): (b: seq<bool>)
    ensures |b| == n && forall i :: 0 <= i < n ==> !b[i]
  {
    seq(n, _ => false)
  }

  // ---------------------------------------------------------------- atomic actions

  /** The display thread. */
  datatype DisplayStep =
    | StartCapture | Scan | Skip | Arm(ok: bool) | Commit(ok: bool, fence: Option<nat>) | Reclaim | HandOver
    | ReleaseDropped | Exit

  /** Calls from other threads: a decode-tap frame, a posted task, and a posted task that purges the
      queued frames first. */
  datatype ControlStep = Tap | Post | PostDrop(t: Task) | Purge | PurgeDone

  /** The encoder thread. */
  datatype EncoderStep =
    | Dequeue | Refuse | Accept | Rebuild | Rebuilt(ok: bool) | Poll(ok: bool) | Drained | Submit(ok: bool)
    | Release | Run | Settle(teardown: bool) | Stop | TearDown

  datatype Action = ByDisplay(d: DisplayStep) | ByControl(c: ControlStep) | ByEncoder(e: EncoderStep)

  /** `wb_busy[i] = b`; an index outside the pool is ignored. */
  function SetBusy(p: Pool, i: nat, b: bool): Pool {
    if i < |p.busy| then p.(busy := p.busy[i := b]) else p
  }

  function Close(p: Pool, fd: nat): Pool { p.(open := p.open - {fd}) }

  /** One action of `release_wb_frame`: close the fence, or else give back the slot. */
  function ReleaseOne(p: Pool, f: Frame): Pool {
    if f.fence.Some? then Close(p, f.fence.value)
    else if f.slot.Some? then SetBusy(p, f.slot.value, false) else p
  }

  /** What of the frame is left after that action. */
  function Remaining(f: Frame): Frame {
    if f.fence.Some? then f.(fence := None) else f.(slot := None)
  }

  predicate Spent(f: Frame) { f.fence.None? && f.slot.None? }

  function ReleasePending(p: Pool): Pool {
    if p.pending.Some? then SetBusy(p, p.pending.value, false).(pending := None) else p
  }

  /** The pool after an action, or None when the action is not possible. */
  function Apply(p: Pool, a: Action): (r: Option<Pool>)
  {
    match a
    case ByDisplay(d) => DisplayAct(p, d)
    case ByControl(c) => ControlAct(p, c)
    case ByEncoder(e) => EncoderAct(p, e)
  }

  function DisplayAct(p: Pool, a: DisplayStep): (r: Option<Pool>)
  {
    match a
    case StartCapture => if p.display.Idle? then Some(p.(display := Scanning(0))) else None
    case Scan =>
      if !p.display.Scanning? then None
      else if p.display.i >= |p.busy| then Some(p.(display := NoSlot))
      else if p.busy[p.display.i] then Some(p.(display := Scanning(p.display.i + 1)))
      else Some(SetBusy(p, p.display.i, true).(display := Held(p.display.i)))
    case Skip => if p.display.NoSlot? then Some(p.(display := Idle)) else None
    case Arm(ok) =>
      if !p.display.Held? then None
      else if ok then Some(p.(display := Armed(p.display.slot)))
      else Some(SetBusy(p, p.display.slot, false).(display := Idle))
    case Commit(ok, fence) =>
      if !p.display.Armed? || (fence.Some? && fence.value in p.open) then None
      else
        var q := if fence.Some? then p.(open := p.open + {fence.value}) else p;
        Some(q.(display := if ok then Committed(p.display.slot, fence) else Failed(p.display.slot, fence)))
    case Reclaim =>
      if !p.display.Failed? then None
      else if p.display.fence.Some? then
        Some(Close(p, p.display.fence.value).(display := Failed(p.display.slot, None)))
      else Some(SetBusy(p, p.display.slot, false).(display := Idle))
    case HandOver =>
      if !p.display.Committed? || !p.lock.Free? then None
      else
        var f := Frame(Some(p.display.slot), p.display.fence);
        if |p.queue| >= MAX_PENDING_FRAMES then Some(p.(display := Dropping(f)))
        else Some(p.(queue := p.queue + [FrameTask(f)], display := Idle))
    case ReleaseDropped =>
      if !p.display.Dropping? then None
      else if Spent(p.display.f) then Some(p.(display := Idle))
      else Some(ReleaseOne(p, p.display.f).(display := Dropping(Remaining(p.display.f))))
    case Exit => if p.display.Idle? then Some(p.(display := Ended)) else None
  }

  function ControlAct(p: Pool, a: ControlStep): (r: Option<Pool>)
  {
    match a
    case Tap =>
      if !p.lock.Free? then None
      else if |p.queue| >= MAX_PENDING_FRAMES then Some(p)
      else Some(p.(queue := p.queue + [FrameTask(Frame(None, None))]))
    case Post => if p.lock.Free? then Some(p.(queue := p.queue + [RunTask])) else None
    case PostDrop(t) =>
      // main() joins the display thread before it calls shutdown()
      if !p.lock.Free? || t.FrameTask? || (t.ShutdownTask? && !p.display.Ended?) then None
      else Some(p.(lock := Purging([], t)))
    case Purge =>
      if !p.lock.Purging? || p.queue == [] then None
      else
        var t := p.queue[0];
        if !t.FrameTask? then Some(p.(lock := Purging(p.lock.kept + [t], p.lock.then_), queue := p.queue[1..]))
        else if Spent(t.f) then Some(p.(queue := p.queue[1..]))
        else Some(ReleaseOne(p, t.f).(queue := [FrameTask(Remaining(t.f))] + p.queue[1..]))
    case PurgeDone =>
      if !p.lock.Purging? || p.queue != [] then None
      else Some(p.(queue := p.lock.kept + [p.lock.then_], lock := Free))
  }

  function EncoderAct(p: Pool, a: EncoderStep): (r: Option<Pool>)
  {
    match a
    case Dequeue =>
      if !p.enc.Waiting? || !p.lock.Free? || p.queue == [] then None
      else Some(p.(enc := Got(p.queue[0]), queue := p.queue[1..]))
    case Refuse =>      // no consumer wants frames, or the encoder cannot be set up
      if p.enc.Got? && p.enc.t.FrameTask? then Some(p.(enc := Releasing(p.enc.t.f))) else None
    case Accept =>      // the encoder is ready
      if p.enc.Got? && p.enc.t.FrameTask? then Some(p.(enc := Polling(p.enc.t.f))) else None
    case Rebuild =>
      if p.enc.Got? && p.enc.t.FrameTask? then Some(p.(enc := Rebuilding(p.enc.t.f))) else None
    case Rebuilt(ok) =>
      if !p.enc.Rebuilding? then None
      else Some(ReleasePending(p).(enc := if ok then Polling(p.enc.f) else Releasing(p.enc.f)))
    case Poll(ok) =>
      if !p.enc.Polling? then None
      else if p.enc.f.fence.None? then Some(p.(enc := Polled(p.enc.f)))
      else
        var f := p.enc.f.(fence := None);
        Some(Close(p, p.enc.f.fence.value).(enc := if ok then Polled(f) else Releasing(f)))
    case Drained =>
      if p.enc.Polled? then Some(ReleasePending(p).(enc := Importing(p.enc.f))) else None
    case Submit(ok) =>
      if !p.enc.Importing? then None
      else if ok then Some(p.(pending := p.enc.f.slot, enc := Finished))
      else Some(p.(enc := Releasing(p.enc.f)))
    case Release =>
      if !p.enc.Releasing? then None
      else if Spent(p.enc.f) then Some(p.(enc := Finished))
      else Some(ReleaseOne(p, p.enc.f).(enc := Releasing(Remaining(p.enc.f))))
    case Run => if p.enc.Got? && p.enc.t.RunTask? then Some(p.(enc := Finished)) else None
    case Settle(teardown) =>
      if !p.enc.Finished? then None
      else Some((if teardown then ReleasePending(p) else p).(enc := Waiting))
    case Stop => if p.enc.Got? && p.enc.t.ShutdownTask? then Some(p.(enc := Last)) else None
    case TearDown => if p.enc.Last? then Some(ReleasePending(p).(enc := Gone)) else None
  }

  // ---------------------------------------------------------------- ownership

  /** How often `x` names `k`. */
  function Is(x: Option<nat>, k: nat): nat { if x == Some(k) then 1 else 0 }

  /** The slot and the fence the display thread holds. */
  function DisplaySlot(d: Display): Option<nat> {
    match d
    case Held(s) => Some(s)
    case Armed(s) => Some(s)
    case Committed(s, _) => Some(s)
    case Failed(s, _) => Some(s)
    case Dropping(f) => f.slot
    case _ => None
  }

  function DisplayFence(d: Display): Option<nat> {
    match d
    case Committed(_, x) => x
    case Failed(_, x) => x
    case Dropping(f) => f.fence
    case _ => None
  }

  function TaskFrame(t: Task): Frame { if t.FrameTask? then t.f else Frame(None, None) }

  /** The frame the encoder thread is working on. */
  function EncoderFrame(e: Encoder): Frame {
    match e
    case Got(t) => TaskFrame(t)
    case Rebuilding(f) => f
    case Polling(f) => f
    case Polled(f) => f
    case Importing(f) => f
    case Releasing(f) => f
    case _ => Frame(None, None)
  }

  function QueueSlots(q: seq<Task>, k: nat): nat {
    if q == [] then 0 else Is(TaskFrame(q[0]).slot, k) + QueueSlots(q[1..], k)
  }

  function QueueFences(q: seq<Task>, x: nat): nat {
    if q == [] then 0 else Is(TaskFrame(q[0]).fence, x) + QueueFences(q[1..], x)
  }

  /** The number of holders of slot `k`: the display thread, queued tasks, the task being encoded, MPP. */
  function SlotHolders(p: Pool, k: nat): nat {
    Is(DisplaySlot(p.display), k) + QueueSlots(p.queue, k) + Is(EncoderFrame(p.enc).slot, k) + Is(p.pending, k)
  }

  function FenceHolders(p: Pool, x: nat): nat {
    Is(DisplayFence(p.display), x) + QueueFences(p.queue, x) + Is(EncoderFrame(p.enc).fence, x)
  }

  predicate Busy(p: Pool, k: nat) { k < |p.busy| && p.busy[k] }

  /** Ownership: a slot is busy, and a fence is open, exactly when it has one holder. */
  ghost predicate Owned(p: Pool) {
    && (forall k: nat :: SlotHolders(p, k) == if Busy(p, k) then 1 else 0)
    && (forall x: nat :: FenceHolders(p, x) == if x in p.open then 1 else 0)
  }
}
