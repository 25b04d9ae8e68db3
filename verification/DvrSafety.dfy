/** What every interleaving of the recorder's threads keeps. */
module DvrSafety {
  import opened Bytes
  import opened DvrWorker

  // ---------------------------------------------------------------- the file is always accounted for

  /** The worker is past the loop's last look at `recording_armed`. */
  predicate PastEnd(pc: Pc) {
    || pc == Clear(Final) || pc == Exchange(Final) || pc.Drain? || pc.Returned?
    || (InStop(pc) && (pc.ret.ToDrain? || pc.ret.ToFinalFinish?))
  }

  /** The worker has left the loop, or is about to after consuming a stall. */
  predicate Leaving(pc: Pc) {
    pc.End? || PastEnd(pc) || (InStop(pc) && pc.ret.ToEnd?)
  }

  /** fail() is only called from inside the loop; every stop() on the way out is not a failure. */
  predicate RetKind(pc: Pc) {
    && (InFail(pc) ==> pc.ret.ToCheck? || pc.ret.ToFinish?)
    && (InStop(pc) && (pc.ret.ToEnd? || pc.ret.ToFinalFinish? || pc.ret.ToDrain?) ==> !pc.fatal)
  }

  /** Over whether a file is open, `recording_armed`, `stalled_` and the two program counters. */
  ghost predicate Accounted(open: bool, armed: bool, stalled: bool, enc: Enc, pc: Pc) {
    && RetKind(pc)
    // the key invariant: outside stop(), an open file means armed or stalled
    && (open && !InStop(pc) ==> armed || stalled)
    && ((pc.Overflow? || pc.Write?) ==> armed || stalled)
    // the watchdog disarms only after it has declared the stall
    && ((enc.Disabling? || enc.Disarming?) ==> stalled || (Leaving(pc) && (!open || InStop(pc))))
    && (PastEnd(pc) && !pc.StopArmed? ==> !armed)
    && (PastEnd(pc) && open && !InStop(pc) ==> stalled)
    && ((pc.Drain? || pc.Returned?) ==> !open)
  }

  ghost predicate FileAccounted(d: Dvr) { Accounted(d.s.file.Some?, d.f.armed, d.f.stalled, d.enc, d.pc) }

  /** Moving on inside the loop, or out of it. */
  lemma Move(open: bool, armed: bool, stalled: bool, enc: Enc, pc: Pc, to: Pc)
    requires Accounted(open, armed, stalled, enc, pc) && !InStop(pc) && !Leaving(pc)
    requires !InStop(to) && !PastEnd(to) && RetKind(to)
    requires to.Overflow? || to.Write? ==> armed || stalled
    ensures Accounted(open, armed, stalled, enc, to)
    ensures Accounted(false, armed, stalled, enc, to)
    ensures armed || stalled ==> Accounted(true, armed, stalled, enc, to)
  {
  }

  /** Entering stop(). */
  lemma Enter(open: bool, armed: bool, stalled: bool, enc: Enc, pc: Pc, to: Pc)
    requires Accounted(open, armed, stalled, enc, pc) && !InStop(pc) && (Leaving(pc) ==> Leaving(to))
    requires to.StopArmed? && RetKind(to)
    ensures Accounted(open, armed, stalled, enc, to)
  {
  }

  /** A worker step that touches none of what `Accounted` is about, but the program counter. */
  predicate Mild(d: Dvr, r: Dvr) {
    && r.s.file.Some? == d.s.file.Some? && r.f.armed == d.f.armed && r.f.stalled == d.f.stalled && r.enc == d.enc
    && RetKind(r.pc) && !PastEnd(r.pc)
    && (InStop(r.pc) ==> r.pc.StopArmed?)
    && (r.pc.Overflow? || r.pc.Write? ==> d.f.armed || d.f.stalled)
  }

  lemma MildAccounts(d: Dvr, r: Dvr)
    requires FileAccounted(d) && !InStop(d.pc) && !Leaving(d.pc) && Mild(d, r)
    ensures FileAccounted(r)
  {
    hide Accounted;
    if r.pc.StopArmed? {
      Enter(d.s.file.Some?, d.f.armed, d.f.stalled, d.enc, d.pc, r.pc);
    } else {
      Move(d.s.file.Some?, d.f.armed, d.f.stalled, d.enc, d.pc, r.pc);
    }
  }

  lemma LoopMild(d: Dvr, c: Choice)
    requires InLoop(d.pc)
    ensures Mild(d, LoopAct(d, c))
  {
    match d.pc
    case Waiting => return;
    case Stamp(_) => return;
    case Status(_) => return;
    case Gate(_) => return;
    case Again => return;
  }

  lemma DispatchMild(d: Dvr, c: Choice)
    requires d.pc.Switch?
    ensures Mild(d, Dispatch(d, d.pc.cmd, c))
  {
    match d.pc.cmd
    case Au(_, _) => return;
    case StartCmd => return;
    case StopCmd => return;
    case ToggleCmd => return;
    case DisableCmd => return;
    case RotateCmd => return;
    case FailCmd => return;
    case ShutdownCmd => return;
  }

  lemma CommandAccounts(d: Dvr)
    requires FileAccounted(d) && InCommand(d.pc)
    ensures FileAccounted(CommandAct(d))
  {
    match d.pc
    case Ready => return;
    case Arming => return;
    case Overflow(_) => return;
  }

  /** Writing opens and closes files, but always armed or stalled. */
  lemma WriteAccounts(d: Dvr, c: Choice)
    requires FileAccounted(d) && d.pc.Write?
    ensures FileAccounted(WriteUnit(d, d.pc.au, c))
  {
    hide MuxedSize, Payload, Accounted;
    var r := WriteUnit(d, d.pc.au, c);
    WriteMoves(d, c);
    Armed(d.s.file.Some?, d.f.armed, d.f.stalled, d.enc, d.pc);
    Move(d.s.file.Some?, d.f.armed, d.f.stalled, d.enc, d.pc, r.pc);
  }

  lemma Armed(open: bool, armed: bool, stalled: bool, enc: Enc, pc: Pc)
    requires Accounted(open, armed, stalled, enc, pc) && pc.Write?
    ensures armed || stalled
  {
  }

  lemma WriteMoves(d: Dvr, c: Choice)
    requires d.pc.Write?
    ensures var r := WriteUnit(d, d.pc.au, c);
            && r.f == d.f && r.q == d.q && r.enc == d.enc
            && (r.pc == d.pc || r.pc == Clear(Loop) || r.pc == Fail(true, ToFinish))
  {
    hide MuxedSize, Payload;
  }

  lemma StopAccounts(d: Dvr)
    requires FileAccounted(d) && InStop(d.pc)
    ensures FileAccounted(StopAct(d))
  {
    match d.pc
    case StopArmed(_, _) => return;
    case StopQueue(_, _) => return;
    case StopState(_, _) => return;
    case StopFile(_, _) => return;
  }

  lemma FailAccounts(d: Dvr)
    requires FileAccounted(d) && InFail(d.pc)
    ensures FileAccounted(FailAct(d))
  {
    match d.pc
    case Fail(_, _) => return;
    case Latch(_) => return;
  }

  lemma FinishAccounts(d: Dvr)
    requires FileAccounted(d)
    requires !InLoop(d.pc) && !InCommand(d.pc) && !InStop(d.pc) && !InFail(d.pc) && !d.pc.Switch? && !d.pc.Write?
    ensures FileAccounted(FinishAct(d))
  {
    match d.pc
    case Clear(_) => return;
    case Exchange(_) => return;
    case End => return;
    case Drain => return;
    case Returned => return;
  }

  lemma WorkerAccounts(d: Dvr, c: Choice)
    requires FileAccounted(d)
    ensures FileAccounted(WorkerAct(d, c))
  {
    hide FileAccounted, Mild, LoopAct, CommandAct, StopAct, FailAct, FinishAct, Dispatch, WriteUnit;
    if InLoop(d.pc) { LoopMild(d, c); MildAccounts(d, LoopAct(d, c)); }
    else if InCommand(d.pc) { CommandAccounts(d); }
    else if InStop(d.pc) { StopAccounts(d); }
    else if InFail(d.pc) { FailAccounts(d); }
    else if d.pc.Switch? { DispatchMild(d, c); MildAccounts(d, Dispatch(d, d.pc.cmd, c)); }
    else if d.pc.Write? { WriteAccounts(d, c); }
    else { FinishAccounts(d); }
  }

  lemma EncAccounts(d: Dvr, e: EncStep)
    requires FileAccounted(d)
    ensures FileAccounted(EncAct(d, e))
  {
    hide Commands, Payload;
    if !e.Advance? {
      return;
    }
    match d.enc
    case TimedOut => return;
    case Stalling => return;
    case Disabling => return;
    case Disarming => return;
    case Purging => return;
    case _ => return;
  }

  // ---------------------------------------------------------------- recording means armed

  /** `Recording` implies armed, but for the worker inside start() or stop(). */
  ghost predicate RecordingArmed(f: Flags, enc: Enc, pc: Pc) {
    && (enc.Disarming? ==> f.state.Disabled?)
    && (f.state.Recording? ==> f.armed || pc.Arming? || pc.StopQueue? || pc.StopState?)
  }

  /** Most steps of the worker leave `dvr_state` and `recording_armed` alone. */
  lemma FlagsKept(d: Dvr, c: Choice)
    requires !InStop(d.pc) && !d.pc.Ready? && !d.pc.Arming? && !d.pc.Latch?
    ensures var r := WorkerAct(d, c); r.f.state == d.f.state && r.f.armed == d.f.armed && r.enc == d.enc
  {
    if InLoop(d.pc) { LoopFlags(d, c); return; }
    if d.pc.Switch? { DispatchFlags(d, c); return; }
    if d.pc.Write? { WriteMoves(d, c); return; }
    hide LoopAct, Dispatch, WriteUnit;
    if InLoop(d.pc) { hide CommandAct, StopAct, FailAct, FinishAct; return; }
    if InCommand(d.pc) { hide LoopAct, StopAct, FailAct, FinishAct; return; }
    if InStop(d.pc) { hide LoopAct, CommandAct, FailAct, FinishAct; return; }
    if InFail(d.pc) { hide LoopAct, CommandAct, StopAct, FinishAct; return; }
    hide LoopAct, CommandAct, StopAct, FailAct;
  }

  lemma LoopFlags(d: Dvr, c: Choice)
    requires InLoop(d.pc)
    ensures var r := LoopAct(d, c); r.f == d.f.(busy := r.f.busy) && r.enc == d.enc
  {
    match d.pc
    case Waiting => return;
    case Stamp(_) => return;
    case Status(_) => return;
    case Gate(_) => return;
    case Again => return;
  }

  lemma DispatchFlags(d: Dvr, c: Choice)
    requires d.pc.Switch?
    ensures var r := Dispatch(d, d.pc.cmd, c); r.f == d.f && r.enc == d.enc
  {
  }

  lemma RecordingKept(d: Dvr, a: Action)
    requires RecordingArmed(d.f, d.enc, d.pc)
    ensures var r := Apply(d, a); RecordingArmed(r.f, r.enc, r.pc)
  {
    hide Commands, Payload, LoopAct, Dispatch, WriteUnit;
    if a.Encoder? || a.Call? {
      return;
    }
    if !InStop(d.pc) && !d.pc.Ready? && !d.pc.Arming? && !d.pc.Latch? {
      FlagsKept(d, a.c);
      hide WorkerAct;
      return;
    }
    if InLoop(d.pc) { hide CommandAct, StopAct, FailAct, FinishAct; return; }
    if InCommand(d.pc) { hide LoopAct, StopAct, FailAct, FinishAct; return; }
    if InStop(d.pc) { hide LoopAct, CommandAct, FailAct, FinishAct; return; }
    if InFail(d.pc) { hide LoopAct, CommandAct, StopAct, FinishAct; return; }
    hide LoopAct, CommandAct, StopAct, FailAct;
  }

  // ---------------------------------------------------------------- the latch

  /** No action of any thread leaves `Disabled`. */
  lemma DisabledKept(d: Dvr, a: Action)
    requires d.f.state.Disabled?
    ensures Apply(d, a).f.state.Disabled?
  {
    hide Commands, Payload, LoopAct, Dispatch, WriteUnit;
    if a.Encoder? || a.Call? {
      return;
    }
    if !InStop(d.pc) && !d.pc.Ready? && !d.pc.Arming? && !d.pc.Latch? {
      FlagsKept(d, a.c);
      hide WorkerAct;
      return;
    }
    if InLoop(d.pc) { hide CommandAct, StopAct, FailAct, FinishAct; return; }
    if InCommand(d.pc) { hide LoopAct, StopAct, FailAct, FinishAct; return; }
    if InStop(d.pc) { hide LoopAct, CommandAct, FailAct, FinishAct; return; }
    if InFail(d.pc) { hide LoopAct, CommandAct, StopAct, FinishAct; return; }
    hide LoopAct, CommandAct, StopAct, FailAct;
  }

  /** `Disabled` is a latch: once set at some point of an interleaving it is set at every later one. */
  lemma {:induction false} DisabledForGood(acts: seq<Action>, n: nat, m: nat)
    requires n <= m <= |acts| && Execute(acts[..n]).f.state.Disabled?
    ensures Execute(acts[..m]).f.state.Disabled?
    decreases m
  {
    hide Apply;
    if n < m {
      DisabledForGood(acts, n, m - 1);
      assert acts[..m][..m - 1] == acts[..m - 1] && acts[..m][m - 1] == acts[m - 1];
      DisabledKept(Execute(acts[..m - 1]), acts[m - 1]);
    }
  }

  // ---------------------------------------------------------------- the byte-accounted queue

  function Sum(q: seq<Rpc>): nat { if q == [] then 0 else Payload(q[0]) + Sum(q[1..]) }

  lemma {:induction false} SumAppend(q: seq<Rpc>, r: Rpc)
    ensures Sum(q + [r]) == Sum(q) + Payload(r)
  {
    if q == [] {
      assert [r][1..] == [];
    } else {
      assert (q + [r])[1..] == q[1..] + [r];
      SumAppend(q[1..], r);
    }
  }

  lemma {:induction false} SumCommands(q: seq<Rpc>)
    ensures Sum(Commands(q)) == 0
  {
    if q != [] {
      SumCommands(q[1..]);
      if q[0].Au? {
        assert [] + Commands(q[1..]) == Commands(q[1..]);
      } else {
        assert Commands(q)[1..] == Commands(q[1..]);
      }
    }
  }

  /** The command a worker state carries. */
  function RetCarries(ret: Ret): Option<Rpc> { if ret.ToCheck? then ret.rpc else None }

  function Carried(pc: Pc): Option<Rpc> {
    match pc
    case Stamp(r) => r
    case Status(r) => r
    case Gate(r) => Some(r)
    case Switch(r) => Some(r)
    case Overflow(r) => Some(r)
    case Write(r) => Some(r)
    case Fail(_, ret) => RetCarries(ret)
    case StopArmed(_, ret) => RetCarries(ret)
    case StopQueue(_, ret) => RetCarries(ret)
    case StopState(_, ret) => RetCarries(ret)
    case StopFile(_, ret) => RetCarries(ret)
    case Latch(ret) => RetCarries(ret)
    case _ => None
  }

  predicate Fits(r: Option<Rpc>) { r.Some? ==> Payload(r.value) <= MAX_QUEUE_BYTES }

  /** Queued bytes equal the queued payloads and stay within the limit, and so does what the worker
      has taken out. */
  ghost predicate BytesAccounted(q: Queue, pc: Pc) {
    q.bytes == Sum(q.items) <= MAX_QUEUE_BYTES && Fits(Carried(pc))
  }

  /** What the worker carries stays the same or is done with. */
  lemma CarriedKept(d: Dvr, c: Choice)
    requires !d.pc.Waiting?
    ensures var r := WorkerAct(d, c);
            && (Carried(r.pc) == Carried(d.pc) || Carried(r.pc) == None)
            && ((r.q.items == d.q.items && r.q.bytes == d.q.bytes) || r.q == Queue([], 0, false))
  {
    if d.pc.Write? { WriteMoves(d, c); hide WriteUnit, MuxedSize; return; }
    if d.pc.Switch? { DispatchCarries(d, c); hide Dispatch; return; }
    hide WriteUnit, Dispatch;
    if InLoop(d.pc) { hide CommandAct, StopAct, FailAct, FinishAct; return; }
    if InCommand(d.pc) { hide LoopAct, StopAct, FailAct, FinishAct; return; }
    if InStop(d.pc) { hide LoopAct, CommandAct, FailAct, FinishAct; return; }
    if InFail(d.pc) { hide LoopAct, CommandAct, StopAct, FinishAct; return; }
    hide LoopAct, CommandAct, StopAct, FailAct;
  }

  lemma DispatchCarries(d: Dvr, c: Choice)
    requires d.pc.Switch?
    ensures var r := Dispatch(d, d.pc.cmd, c);
            r.q == d.q && (Carried(r.pc) == Carried(d.pc) || Carried(r.pc) == None)
  {
    match d.pc.cmd
    case Au(_, _) => return;
    case StartCmd => return;
    case StopCmd => return;
    case ToggleCmd => return;
    case DisableCmd => return;
    case RotateCmd => return;
    case FailCmd => return;
    case ShutdownCmd => return;
  }

  lemma WorkerBytes(d: Dvr, c: Choice)
    requires BytesAccounted(d.q, d.pc)
    ensures var r := WorkerAct(d, c); BytesAccounted(r.q, r.pc)
  {
    if d.pc.Waiting? {
      assert WorkerAct(d, c) == LoopAct(d, c);
    } else {
      CarriedKept(d, c);
      hide WorkerAct, Carried;
    }
  }

  lemma EncBytes(d: Dvr, e: EncStep)
    requires BytesAccounted(d.q, d.pc)
    ensures var r := EncAct(d, e); BytesAccounted(r.q, r.pc)
  {
    if e.Enqueue? { SumAppend(d.q.items, e.cmd); }
    if d.enc.Offering? { SumAppend(d.q.items, d.enc.au); }
    SumCommands(d.q.items);
    hide Sum, Commands, Carried;
  }

  // ---------------------------------------------------------------- the file size cap

  /** One muxed unit of at most 32 MiB fits the margin below 4 GiB. */
  lemma ExpansionFits(len: nat, psi: bool)
    requires len <= MAX_QUEUE_BYTES
    ensures FAT32_FILE_SIZE_CAP + MuxedSize(len, psi) < 0x1_0000_0000
  {
  }

  /** On FAT32: below the cap unless a rotation is pending or the file is being closed, and below 4 GiB
      always. */
  ghost predicate Capped(s: Segment, pc: Pc) {
    s.file.Some? ==>
      && s.cap == FAT32_FILE_SIZE_CAP
      && s.file.value < 0x1_0000_0000
      && (!s.pendingOpen && !pc.StopQueue? && !pc.StopState? && !pc.StopFile? ==> s.file.value < FAT32_FILE_SIZE_CAP)
  }

  /** The volume is FAT32 at every open. */
  predicate OnFat32(a: Action) { a.Worker? && a.c.Opened? ==> a.c.fat32 }

  lemma WriteCapped(d: Dvr, c: Choice)
    requires Capped(d.s, d.pc) && d.pc.Write? && Fits(Some(d.pc.au)) && OnFat32(Worker(c))
    ensures var r := WriteUnit(d, d.pc.au, c); Capped(r.s, r.pc)
  {
    if c.Written? { ExpansionFits(Payload(d.pc.au), c.psi); }
    hide MuxedSize, Payload;
  }

  lemma CapKept(d: Dvr, a: Action)
    requires Capped(d.s, d.pc) && OnFat32(a) && Fits(Carried(d.pc))
    ensures var r := Apply(d, a); Capped(r.s, r.pc)
  {
    if !a.Worker? {
      OthersKeepSegment(d, a);
      hide Apply;
      return;
    }
    var c := a.c;
    if d.pc.Write? { WriteCapped(d, c); hide WriteUnit; return; }
    if d.pc.Switch? { hide WriteUnit; return; }
    hide WriteUnit, Dispatch;
    if InLoop(d.pc) { hide CommandAct, StopAct, FailAct, FinishAct; return; }
    if InCommand(d.pc) { hide LoopAct, StopAct, FailAct, FinishAct; return; }
    if InStop(d.pc) { hide LoopAct, CommandAct, FailAct, FinishAct; return; }
    if InFail(d.pc) { hide LoopAct, CommandAct, StopAct, FinishAct; return; }
    hide LoopAct, CommandAct, StopAct, FailAct;
  }

  lemma OthersKeepSegment(d: Dvr, a: Action)
    requires !a.Worker?
    ensures Apply(d, a).s == d.s && Apply(d, a).pc == d.pc
  {
    hide Commands, Payload;
  }

  // ---------------------------------------------------------------- every interleaving

  ghost predicate Inv(d: Dvr) {
    FileAccounted(d) && RecordingArmed(d.f, d.enc, d.pc) && BytesAccounted(d.q, d.pc)
  }

  lemma StepKeeps(d: Dvr, a: Action)
    requires Inv(d)
    ensures Inv(Apply(d, a))
  {
    hide FileAccounted, RecordingArmed, BytesAccounted, WorkerAct, EncAct;
    RecordingKept(d, a);
    match a
    case Worker(c) => WorkerAccounts(d, c); WorkerBytes(d, c);
    case Encoder(e) => EncAccounts(d, e); EncBytes(d, e);
    case Call(k) => CallKeeps(d, k);
  }

  lemma CallKeeps(d: Dvr, k: Control)
    requires FileAccounted(d) && BytesAccounted(d.q, d.pc)
    ensures var r := ControlAct(d, k); FileAccounted(r) && BytesAccounted(r.q, r.pc)
  {
    hide Accounted, BytesAccounted;
  }

  lemma {:induction false} Interleavings(acts: seq<Action>)
    ensures Inv(Execute(acts))
  {
    if acts != [] {
      hide Inv, Apply;
      Interleavings(acts[..|acts| - 1]);
      StepKeeps(Execute(acts[..|acts| - 1]), acts[|acts| - 1]);
    }
  }

  /** Whenever the worker returns, no recording file is open and `recording_armed` is false. */
  lemma {:induction false} ReturnsClean(acts: seq<Action>)
    requires Execute(acts).pc.Returned?
    ensures Execute(acts).s.file == None && !Execute(acts).f.armed
  {
    Interleavings(acts);
    hide Execute;
  }

  /** An open file outside stop() always has someone who will close it: the recording is armed, or the
      watchdog has declared a stall the worker has yet to consume. */
  lemma {:induction false} OpenMeansArmedOrStalled(acts: seq<Action>)
    ensures var d := Execute(acts); d.s.file.Some? && !InStop(d.pc) ==> d.f.armed || d.f.stalled
  {
    Interleavings(acts);
    hide Execute;
  }

  /** Whenever the worker is idle, `Recording` means armed. */
  lemma {:induction false} IdleRecordingIsArmed(acts: seq<Action>)
    requires Execute(acts).pc.Waiting?
    ensures Execute(acts).f.state.Recording? ==> Execute(acts).f.armed
  {
    Interleavings(acts);
    hide Execute;
  }

  /** Queued bytes always equal the sum of the queued payloads and never exceed 32 MiB. */
  lemma {:induction false} QueueIsBounded(acts: seq<Action>)
    ensures Execute(acts).q.bytes == Sum(Execute(acts).q.items) <= MAX_QUEUE_BYTES
  {
    Interleavings(acts);
    hide Execute, Sum;
  }

  lemma {:induction false} SizesCapped(acts: seq<Action>)
    requires forall a :: a in acts ==> OnFat32(a)
    ensures Capped(Execute(acts).s, Execute(acts).pc)
  {
    if acts != [] {
      var before, a := acts[..|acts| - 1], acts[|acts| - 1];
      SizesCapped(before);
      Interleavings(before);
      CapKept(Execute(before), a);
      hide Capped, Apply;
    }
  }

  /** On a FAT32 volume the recording file stays below 4 GiB in every interleaving. */
  lemma {:induction false} FilesBelow4GiB(acts: seq<Action>)
    requires forall a :: a in acts ==> OnFat32(a)
    ensures Execute(acts).s.file.Some? ==> Execute(acts).s.file.value < 4 * 1024 * 1024 * 1024
  {
    SizesCapped(acts);
    hide Execute;
  }

  // ---------------------------------------------------------------- giving up

  /** Too many failed writes in a row, or too many failed opens, are on their way to a disabled DVR. */
  ghost predicate GivingUp(s: Segment, f: Flags, pc: Pc) {
    (s.file.Some? && s.failStreak >= MAX_CONSECUTIVE_WRITE_FAILURES) || s.openAttempts >= MAX_OPEN_ATTEMPTS ==>
      f.state.Disabled? || pc.Latch? || (pc.Fail? && pc.fatal) || (InStop(pc) && pc.fatal)
  }

  lemma GivingUpKept(d: Dvr, a: Action)
    requires GivingUp(d.s, d.f, d.pc)
    ensures var r := Apply(d, a); GivingUp(r.s, r.f, r.pc)
  {
    if !a.Worker? {
      if d.f.state.Disabled? { DisabledKept(d, a); }
      OthersKeepSegment(d, a);
      hide Apply;
      return;
    }
    if d.pc.Write? { hide MuxedSize, Payload; return; }
    if d.pc.Switch? { hide WriteUnit; return; }
    hide WriteUnit, Dispatch;
    if InLoop(d.pc) { hide CommandAct, StopAct, FailAct, FinishAct; return; }
    if InCommand(d.pc) { hide LoopAct, StopAct, FailAct, FinishAct; return; }
    if InStop(d.pc) { hide LoopAct, CommandAct, FailAct, FinishAct; return; }
    if InFail(d.pc) { hide LoopAct, CommandAct, StopAct, FinishAct; return; }
    hide LoopAct, CommandAct, StopAct, FailAct;
  }

  /** In every interleaving: once five writes in a row or three opens have failed, the DVR is disabled
      or the worker is on the way to disabling it, and an idle worker has done so. */
  lemma {:induction false} GivesUpForGood(acts: seq<Action>)
    ensures GivingUp(Execute(acts).s, Execute(acts).f, Execute(acts).pc)
    ensures Execute(acts).pc.Waiting? && Execute(acts).s.file.Some? && !Execute(acts).f.state.Disabled? ==>
              Execute(acts).s.failStreak < MAX_CONSECUTIVE_WRITE_FAILURES
  {
    if acts != [] {
      GivesUpForGood(acts[..|acts| - 1]);
      GivingUpKept(Execute(acts[..|acts| - 1]), acts[|acts| - 1]);
      hide Apply;
    }
  }

  /** While a rotation is pending no action of any thread adds to the open file: it stays as it is, is
      closed, or is replaced by an empty one. */
  lemma NothingAppendedWhilePending(d: Dvr, a: Action)
    requires d.s.pendingOpen && d.s.file.Some?
    ensures var r := Apply(d, a); r.s.file == d.s.file || r.s.file == None || r.s.file == Some(0)
  {
    if !a.Worker? {
      OthersKeepSegment(d, a);
      hide Apply;
      return;
    }
    hide MuxedSize, Payload;
  }
}
