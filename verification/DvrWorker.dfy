/** The recorder of src/dvr/dvr.cpp as the threads that drive it: the DVR worker, the encoder thread
    (access units, queued commands and the stall watchdog) and control calls. Every step is one atomic
    action: an operation on an atomic, a critical section, or a stretch of the worker's private work.
    Storage, the clock and the choice of commands are free. */
module DvrWorker {
  import opened Bytes

  const MAX_QUEUE_BYTES := 32 * 1024 * 1024
  const MAX_CONSECUTIVE_WRITE_FAILURES := 5
  const MAX_OPEN_ATTEMPTS := 3
  const FAT32_FILE_SIZE_CAP := 4 * 1024 * 1024 * 1024 - 128 * 1024 * 1024

  datatype State = Idle | Recording | Disabled

  /** `dvr_rpc`: an access unit by its length and keyframe flag, or a command. */
  datatype Rpc =
    | Au(len: nat, key: bool)
    | StartCmd | StopCmd | ToggleCmd | DisableCmd | RotateCmd | FailCmd | ShutdownCmd

  function Payload(r: Rpc): nat { if r.Au? then r.len else 0 }

  /** Where `stop` returns to, and where `finish_storage_work` was called from. */
  datatype Ret = ToCheck(rpc: Option<Rpc>) | ToFinish | ToEnd | ToFinalFinish | ToDrain
  datatype From = Loop | Break | Final

  /** The worker's program counter. */
  datatype Pc =
    | Waiting                                   // cv.wait_for
    | Stamp(rpc: Option<Rpc>)                   // popped, or timed out; busy_since_ms_ next
    | Status(rpc: Option<Rpc>)                  // update_storage_status
    | Gate(cmd: Rpc)                            // dvr_is_disabled() before the switch
    | Switch(cmd: Rpc)
    | Ready | Arming                            // inside start(): state exchange, then armed
    | Overflow(au: Rpc) | Write(au: Rpc)        // inside handle_access_unit()
    | Fail(fatal: bool, ret: Ret)               // fail(): is the DVR disabled already?
    | StopArmed(fatal: bool, ret: Ret)          // stop(): recording_armed, pending_open
    | StopQueue(fatal: bool, ret: Ret)          // stop(): queue_overflow_
    | StopState(fatal: bool, ret: Ret)          // stop(): Recording -> Idle
    | StopFile(fatal: bool, ret: Ret)           // stop(): finalize_current_file
    | Latch(ret: Ret)                           // fail(): Disabled
    | Clear(from: From) | Exchange(from: From)  // finish_storage_work()
    | Again                                     // dvr_is_disabled() at the end of the loop
    | End                                       // after the loop
    | Drain | Returned

  /** The encoder thread: idle, offering an access unit, or in the watchdog past its time-out. */
  datatype Enc = Free | Offering(au: Rpc) | TimedOut | Stalling | Disabling | Disarming | Purging

  /** The atomics, the mutex-protected queue, and what only the worker touches. */
  datatype Flags = Flags(state: State, armed: bool, stalled: bool, busy: bool)
  datatype Queue = Queue(items: seq<Rpc>, bytes: int, overflow: bool)
  datatype Segment = Segment(pendingOpen: bool, openAttempts: nat, file: Option<nat>, cap: nat, failStreak: nat)

  datatype Dvr = Dvr(f: Flags, q: Queue, s: Segment, pc: Pc, enc: Enc)

  const Initial := Dvr(Flags(Idle, false, false, false), Queue([], 0, false), Segment(false, 0, None, 0, 0),
                       Waiting, Free)

  /** The size of one muxed access unit: an optional PAT/PMT pair, then 188-byte packets of which the
      first carries 176 bytes of the PES packet and the others up to 184. */
  function MuxedSize(len: nat, psi: bool): nat {
    var total := 14 + len;
    var packets := if total <= 176 then 1 else 1 + (total - 176 + 183) / 184;
    188 * packets + (if psi then 376 else 0)
  }

  // ---------------------------------------------------------------- the worker

  /** What the environment decides for a worker step. */
  datatype Choice =
    | Step                          // nothing to decide
    | TimeOut                       // cv.wait_for gave up
    | StorageBad(fatal: bool)       // update_storage_status finds a reason to stop
    | NotReady                      // storage.is_ready() fails
    | OpenFails                     // open_output_file() fails
    | Opened(fat32: bool)           // it succeeds, on a volume with or without a size cap
    | Written(ok: bool, psi: bool, syncFailed: bool, rotate: bool)  // write_nal(), and the segment limit

  function Resume(ret: Ret): Pc {
    match ret
    case ToCheck(Some(r)) => Gate(r)
    case ToCheck(None) => Clear(Loop)
    case ToFinish => Clear(Loop)
    case ToEnd => End
    case ToFinalFinish => Clear(Final)
    case ToDrain => Drain
  }

  predicate InLoop(pc: Pc) { pc.Waiting? || pc.Stamp? || pc.Status? || pc.Gate? || pc.Again? }
  predicate InCommand(pc: Pc) { pc.Ready? || pc.Arming? || pc.Overflow? }
  predicate InStop(pc: Pc) { pc.StopArmed? || pc.StopQueue? || pc.StopState? || pc.StopFile? }
  predicate InFail(pc: Pc) { pc.Fail? || pc.Latch? }

  /** One step of the worker. */
  function WorkerAct(d: Dvr, c: Choice): (r: Dvr)
  {
    if InLoop(d.pc) then LoopAct(d, c)
    else if InCommand(d.pc) then CommandAct(d)
    else if InStop(d.pc) then StopAct(d)
    else if InFail(d.pc) then FailAct(d)
    else if d.pc.Switch? then Dispatch(d, d.pc.cmd, c)
    else if d.pc.Write? then WriteUnit(d, d.pc.au, c)
    else FinishAct(d)
  }

  function LoopAct(d: Dvr, c: Choice): (r: Dvr)
    requires InLoop(d.pc)
  {
    match d.pc
    case Waiting =>
      if d.q.items == [] then (if c.TimeOut? then d.(pc := Stamp(None)) else d)
      else
        var rpc := d.q.items[0];
        d.(pc := Stamp(Some(rpc)), q := d.q.(items := d.q.items[1..], bytes := d.q.bytes - Payload(rpc)))
    case Stamp(rpc) => d.(f := d.f.(busy := true), pc := Status(rpc))
    case Status(rpc) =>
      if c.StorageBad? && d.f.armed && d.s.file.Some? then d.(pc := Fail(c.fatal, ToCheck(rpc)))
      else d.(pc := Resume(ToCheck(rpc)))
    case Gate(rpc) =>
      if d.f.state.Disabled? && !rpc.ShutdownCmd? && !rpc.DisableCmd? then d.(pc := Clear(Break))
      else d.(pc := Switch(rpc))
    case Again => d.(pc := if d.f.state.Disabled? then End else Waiting)
  }

  /** start() from the state exchange on, and the overflow flag in handle_access_unit(). */
  function CommandAct(d: Dvr): (r: Dvr)
    requires InCommand(d.pc)
  {
    match d.pc
    case Ready =>
      if d.f.state.Idle? then d.(f := d.f.(state := Recording), pc := Arming) else d.(pc := Clear(Loop))
    case Arming =>
      d.(f := d.f.(armed := true), s := d.s.(openAttempts := 0, pendingOpen := true), pc := Clear(Loop))
    case Overflow(au) =>
      if d.q.overflow then d.(q := d.q.(overflow := false), pc := Fail(true, ToFinish)) else d.(pc := Write(au))
  }

  function StopAct(d: Dvr): (r: Dvr)
    requires InStop(d.pc)
  {
    match d.pc
    case StopArmed(fatal, ret) =>
      d.(f := d.f.(armed := false), s := d.s.(pendingOpen := false), pc := StopQueue(fatal, ret))
    case StopQueue(fatal, ret) => d.(q := d.q.(overflow := false), pc := StopState(fatal, ret))
    case StopState(fatal, ret) =>
      d.(f := d.f.(state := if d.f.state.Recording? then Idle else d.f.state), pc := StopFile(fatal, ret))
    case StopFile(fatal, ret) => d.(s := d.s.(file := None), pc := if fatal then Latch(ret) else Resume(ret))
  }

  function FailAct(d: Dvr): (r: Dvr)
    requires InFail(d.pc)
  {
    match d.pc
    case Fail(fatal, ret) => d.(pc := if fatal && d.f.state.Disabled? then Resume(ret) else StopArmed(fatal, ret))
    case Latch(ret) => d.(f := d.f.(state := Disabled), pc := Resume(ret))
  }

  /** finish_storage_work(), and what follows the loop. */
  function FinishAct(d: Dvr): (r: Dvr)
    requires !InLoop(d.pc) && !InCommand(d.pc) && !InStop(d.pc) && !InFail(d.pc) && !d.pc.Switch? && !d.pc.Write?
  {
    match d.pc
    case Clear(from) => d.(f := d.f.(busy := false), pc := Exchange(from))
    case Exchange(from) =>
      var back := if from.Final? then ToDrain else ToEnd;
      var on := match from case Loop => Again case Break => End case Final => Drain;
      d.(f := d.f.(stalled := false), pc := if d.f.stalled then StopArmed(false, back) else on)
    case End => d.(pc := if d.f.armed then StopArmed(false, ToFinalFinish) else Clear(Final))
    case Drain => d.(q := Queue([], 0, false), pc := Returned)
    case Returned => d
  }

  /** The switch over the command; every case reads `recording_armed` at most once. */
  function Dispatch(d: Dvr, rpc: Rpc, c: Choice): (r: Dvr)
  {
    var armed := d.f.armed;
    match rpc
    case Au(_, _) => d.(pc := if armed then Overflow(rpc) else Clear(Loop))
    case StartCmd => d.(pc := if !armed && !c.NotReady? then Ready else Clear(Loop))
    case StopCmd => d.(pc := if armed then StopArmed(false, ToFinish) else Clear(Loop))
    case ToggleCmd =>
      d.(pc := if armed then StopArmed(false, ToFinish) else if c.NotReady? then Clear(Loop) else Ready)
    case DisableCmd => d.(pc := if armed then StopArmed(false, ToFinish) else Clear(Loop))
    case RotateCmd => d.(s := d.s.(pendingOpen := d.s.pendingOpen || armed), pc := Clear(Loop))
    case FailCmd => d.(pc := if armed then Fail(true, ToFinish) else Clear(Loop))
    case ShutdownCmd => d.(pc := End)
  }

  /** The rest of `handle_access_unit`: roll to the next file on a keyframe, write, look for a reason to
      rotate. While a rotation is pending, units other than keyframes are dropped. */
  function WriteUnit(d: Dvr, au: Rpc, c: Choice): (r: Dvr)
  {
    if d.s.pendingOpen && au.Au? && !au.key then d.(pc := Clear(Loop))
    else if d.s.pendingOpen && !c.Opened? then
      var tries := d.s.openAttempts + 1;
      d.(s := d.s.(file := None, openAttempts := tries),
         pc := if tries >= MAX_OPEN_ATTEMPTS then Fail(true, ToFinish) else Clear(Loop))
    else if d.s.pendingOpen then
      d.(s := Segment(false, 0, Some(0), if c.fat32 then FAT32_FILE_SIZE_CAP else 0, 0))
    else if d.s.file.None? then d.(pc := Clear(Loop))
    else if !c.Written? then d
    else
      var size := d.s.file.value + (if c.ok then MuxedSize(Payload(au), c.psi) else 0);
      var streak := if c.ok then (if c.syncFailed then 1 else 0) else d.s.failStreak + 1;
      d.(s := d.s.(file := Some(size), failStreak := streak,
                   pendingOpen := (d.s.cap > 0 && size >= d.s.cap) || c.rotate),
         pc := if streak >= MAX_CONSECUTIVE_WRITE_FAILURES then Fail(true, ToFinish) else Clear(Loop))
  }

  // ---------------------------------------------------------------- the other threads

  datatype EncStep = Offer(au: Rpc) | Push | Enqueue(cmd: Rpc) | Tick | Advance

  function Commands(q: seq<Rpc>): (r: seq<Rpc>) {
    if q == [] then [] else (if q[0].Au? then [] else [q[0]]) + Commands(q[1..])
  }

  /** The encoder thread: `on_access_unit`, the posted `enqueue` of a command, and `on_tick`. */
  function EncAct(d: Dvr, a: EncStep): (r: Dvr)
  {
    match a
    case Offer(au) => if d.enc.Free? && au.Au? && au.len > 0 && d.f.armed then d.(enc := Offering(au)) else d
    case Push =>
      if !d.enc.Offering? then d
      else
        var n := d.q.bytes + Payload(d.enc.au);
        if !d.f.armed then d.(enc := Free)
        else if n > MAX_QUEUE_BYTES then d.(q := d.q.(overflow := true), enc := Free)
        else d.(q := d.q.(items := d.q.items + [d.enc.au], bytes := n), enc := Free)
    case Enqueue(cmd) => if d.enc.Free? && !cmd.Au? then d.(q := d.q.(items := d.q.items + [cmd])) else d
    case Tick => if d.enc.Free? && d.f.busy then d.(enc := TimedOut) else d
    case Advance => Watchdog(d)
  }

  /** `on_tick` past its time-out, one atomic operation at a time. */
  function Watchdog(d: Dvr): (r: Dvr)
  {
    match d.enc
    case TimedOut => d.(enc := if d.f.state.Disabled? then Free else Stalling)
    case Stalling =>
      if d.f.stalled then d.(enc := Free) else d.(f := d.f.(stalled := true), enc := Disabling)
    case Disabling => d.(f := d.f.(state := Disabled), enc := Disarming)
    case Disarming => d.(f := d.f.(armed := false), enc := Purging)
    case Purging => d.(q := Queue(Commands(d.q.items), 0, false), enc := Free)
    case _ => d
  }

  /** What a control call does at once; the command it posts arrives later as an `Enqueue`. */
  datatype Control = StopOrShutdown | Disable

  function ControlAct(d: Dvr, a: Control): Dvr {
    match a
    case StopOrShutdown => d.(f := d.f.(state := if d.f.state.Recording? then Idle else d.f.state))
    case Disable => d.(f := d.f.(state := Disabled))
  }

  datatype Action = Worker(c: Choice) | Encoder(e: EncStep) | Call(k: Control)

  function Apply(d: Dvr, a: Action): Dvr {
    match a
    case Worker(c) => WorkerAct(d, c)
    case Encoder(e) => EncAct(d, e)
    case Call(k) => ControlAct(d, k)
  }

  function Execute(acts: seq<Action>): Dvr {
    if acts == [] then Initial else Apply(Execute(acts[..|acts| - 1]), acts[|acts| - 1])
  }
}
