/** What the recorder's worker achieves: one turn of its loop, from the wait that takes a message to the
    next wait or to its end, against a description of each command as a whole. */
module DvrCommands {
  import opened Bytes
  import opened DvrWorker
  import opened DvrSafety

  // ---------------------------------------------------------------- a turn, step by step

  /** What storage and the clock decide in one turn: a reason to stop, readiness, the outcome of opening a
      file (a volume with or without a cap, or none) and of a write. */
  datatype Env = Env(storage: Option<bool>, ready: bool, volume: Option<bool>, write: Choice)

  function Pick(env: Env, d: Dvr): Choice {
    match d.pc
    case Status(_) => if env.storage.Some? then StorageBad(env.storage.value) else Step
    case Switch(_) => if env.ready then Step else NotReady
    case Write(_) =>
      if !d.s.pendingOpen then env.write else if env.volume.Some? then Opened(env.volume.value) else OpenFails
    case Waiting => TimeOut
    case _ => Step
  }

  /** How many steps of the turn are left, at most. */
  function Base(ret: Ret): nat {
    match ret
    case ToDrain => 1
    case ToFinalFinish => 8
    case ToEnd => 14
    case ToFinish => 21
    case ToCheck(_) => 32
  }

  function Rank(d: Dvr): nat {
    match d.pc
    case Waiting => 0
    case Returned => 0
    case Drain => 1
    case Latch(ret) => Base(ret) + 1
    case StopFile(_, ret) => Base(ret) + 2
    case StopState(_, ret) => Base(ret) + 3
    case StopQueue(_, ret) => Base(ret) + 4
    case StopArmed(_, ret) => Base(ret) + 5
    case Fail(_, ret) => Base(ret) + 6
    case Exchange(from) => if from.Final? then 7 else 20
    case Clear(from) => if from.Final? then 8 else 21
    case End => 14
    case Again => 15
    case Arming => 22
    case Ready => 23
    case Write(_) => if d.s.pendingOpen then 29 else 28
    case Overflow(_) => 30
    case Switch(_) => 31
    case Gate(_) => 32
    case Status(_) => 39
    case Stamp(_) => 40
  }

  predicate Resting(pc: Pc) { pc.Waiting? || pc.Returned? }

  lemma RankDown(d: Dvr, env: Env)
    requires !Resting(d.pc) && env.write.Written?
    ensures Rank(WorkerAct(d, Pick(env, d))) < Rank(d)
  {
    if d.pc.Write? {
      hide LoopAct, CommandAct, StopAct, FailAct, FinishAct, Dispatch, MuxedSize;
    } else if d.pc.Switch? {
      hide LoopAct, CommandAct, StopAct, FailAct, FinishAct, WriteUnit;
    } else if InLoop(d.pc) {
      hide Dispatch, WriteUnit, CommandAct, StopAct, FailAct, FinishAct;
    } else if InStop(d.pc) || InFail(d.pc) {
      hide Dispatch, WriteUnit, CommandAct, LoopAct, FinishAct;
    } else {
      hide Dispatch, WriteUnit, LoopAct, StopAct, FailAct;
    }
  }

  /** The worker on its own until it waits again or has returned. */
  function Settled(d: Dvr, env: Env): (r: Dvr)
    requires env.write.Written?
    ensures Resting(r.pc)
    decreases Rank(d)
  {
    if Resting(d.pc) then d
    else
      RankDown(d, env);
      Settled(WorkerAct(d, Pick(env, d)), env)
  }

  function Turn(d: Dvr, env: Env): (r: Dvr)
    requires d.pc.Waiting? && env.write.Written?
  {
    Settled(WorkerAct(d, TimeOut), env)
  }

  // ---------------------------------------------------------------- a turn, as a whole

  /** `stop` as a whole: disarmed, nothing pending, the file closed, the overflow forgotten. */
  function Stopped(d: Dvr): Dvr {
    d.(f := d.f.(armed := false, state := if d.f.state.Recording? then Idle else d.f.state),
       s := d.s.(pendingOpen := false, file := None),
       q := d.q.(overflow := false))
  }

  function Disabled(d: Dvr): Dvr { d.(f := d.f.(state := State.Disabled)) }

  /** `fail` as a whole: only a fatal failure of a DVR that is disabled already is ignored. */
  function Failed(d: Dvr, fatal: bool): Dvr {
    if fatal && d.f.state.Disabled? then d else if fatal then Disabled(Stopped(d)) else Stopped(d)
  }

  /** The way out: what is open is closed, what is queued is dropped. */
  function Ended(d: Dvr): Dvr {
    Drained(if d.f.armed || d.f.stalled then Stopped(d) else d)
  }

  function Drained(d: Dvr): Dvr {
    d.(f := d.f.(busy := false, stalled := false), q := Queue([], 0, false), pc := Returned)
  }

  /** The end of a turn: out after a stall, or when disabled; otherwise back to the wait. */
  function Rested(d: Dvr): Dvr {
    if d.f.stalled then Ended(Stopped(d).(f := Stopped(d).f.(stalled := false)))
    else if d.f.state.Disabled? then Ended(d)
    else d.(f := d.f.(busy := false), pc := Waiting)
  }

  /** An access unit, as a whole. */
  function Unit(d: Dvr, au: Rpc, env: Env): Dvr
    requires env.write.Written?
  {
    if !d.f.armed then d
    else if d.q.overflow then Failed(d.(q := d.q.(overflow := false)), true)
    else if d.s.pendingOpen && !(au.Au? && !au.key) && env.volume.None? then
      var closed := d.(s := d.s.(file := None, openAttempts := d.s.openAttempts + 1));
      if d.s.openAttempts + 1 >= 3 then Failed(closed, true) else closed
    else if d.s.pendingOpen && au.Au? && !au.key then d
    else
      var o := if d.s.pendingOpen
               then d.(s := Segment(false, 0, Some(0), if env.volume.value then 4294967296 - 134217728 else 0, 0))
               else d;
      if o.s.file.None? then o else Appended(o, Payload(au), env.write)
  }

  /** A unit written to the open file, or not. */
  function Appended(d: Dvr, len: nat, w: Choice): Dvr
    requires d.s.file.Some? && w.Written?
  {
    var size := d.s.file.value + (if w.ok then MuxedSize(len, w.psi) else 0);
    var streak := if w.ok then (if w.syncFailed then 1 else 0) else d.s.failStreak + 1;
    var full := d.s.cap > 0 && size >= d.s.cap;
    var n := d.(s := d.s.(file := Some(size), failStreak := streak, pendingOpen := full || w.rotate));
    if streak >= 5 then Failed(n, true) else n
  }

  /** A command, as a whole. */
  function Obeyed(d: Dvr, rpc: Rpc, env: Env): Dvr
    requires env.write.Written?
  {
    var started := if env.ready && d.f.state.Idle?
                   then d.(f := d.f.(state := Recording, armed := true),
                           s := d.s.(openAttempts := 0, pendingOpen := true))
                   else d;
    match rpc
    case Au(_, _) => Unit(d, rpc, env)
    case StartCmd => if d.f.armed then d else started
    case ToggleCmd => if d.f.armed then Stopped(d) else started
    case StopCmd => if d.f.armed then Stopped(d) else d
    case DisableCmd => if d.f.armed then Stopped(d) else d
    case RotateCmd => if d.f.armed then d.(s := d.s.(pendingOpen := true)) else d
    case FailCmd => if d.f.armed then Failed(d, true) else d
    case ShutdownCmd => d
  }

  /** A whole turn: take what is queued, look at storage, obey unless disabled, and rest. */
  function Served(d: Dvr, env: Env): Dvr
    requires env.write.Written?
  {
    Answered(Looked(d, env), if d.q.items == [] then None else Some(d.q.items[0]), env)
  }

  /** The message taken, and storage looked at. */
  function Looked(d: Dvr, env: Env): Dvr {
    var taken := if d.q.items == [] then d
                 else d.(q := d.q.(items := d.q.items[1..], bytes := d.q.bytes - Payload(d.q.items[0])));
    var busy := taken.(f := taken.f.(busy := true));
    if env.storage.Some? && busy.f.armed && busy.s.file.Some? then Failed(busy, env.storage.value) else busy
  }

  /** From the look at storage on. */
  function Answered(d: Dvr, rpc: Option<Rpc>, env: Env): Dvr
    requires env.write.Written?
  {
    if rpc.None? then Rested(d)
    else if rpc.value.ShutdownCmd? then Ended(d)
    else if d.f.state.Disabled? && !rpc.value.DisableCmd? then
      Ended(if d.f.stalled then Stopped(d).(f := Stopped(d).f.(stalled := false)) else d)
    else Rested(Obeyed(d, rpc.value, env))
  }

  // ---------------------------------------------------------------- the steps make the whole

  lemma {:induction false} Unfold(d: Dvr, env: Env)
    requires env.write.Written? && !Resting(d.pc)
    ensures Settled(d, env) == Settled(WorkerAct(d, Pick(env, d)), env)
  {
    hide WorkerAct, Pick;
    RankDown(d, env);
  }

  lemma {:induction false} SettledAt(d: Dvr, env: Env)
    requires env.write.Written? && Resting(d.pc)
    ensures Settled(d, env) == d
  {
  }

  lemma StopTurn(d: Dvr, env: Env)
    requires env.write.Written? && d.pc.StopArmed?
    ensures var s := if d.pc.fatal then Disabled(Stopped(d)) else Stopped(d);
            Settled(d, env) == Settled(s.(pc := Resume(d.pc.ret)), env)
  {
    hide Settled, LoopAct, CommandAct, FinishAct, Dispatch, WriteUnit, Resume;
    Unfold(d, env);
    var d1 := WorkerAct(d, Pick(env, d));
    Unfold(d1, env);
    var d2 := WorkerAct(d1, Pick(env, d1));
    Unfold(d2, env);
    var d3 := WorkerAct(d2, Pick(env, d2));
    Unfold(d3, env);
    var d4 := WorkerAct(d3, Pick(env, d3));
    if d.pc.fatal {
      Unfold(d4, env);
    }
  }

  lemma {:induction false} FailTurn(d: Dvr, env: Env)
    requires env.write.Written? && d.pc.Fail?
    ensures Settled(d, env) == Settled(Failed(d, d.pc.fatal).(pc := Resume(d.pc.ret)), env)
  {
    hide Settled, LoopAct, CommandAct, FinishAct, Dispatch, WriteUnit, Resume, StopAct;
    Unfold(d, env);
    if !(d.pc.fatal && d.f.state.Disabled?) {
      StopTurn(WorkerAct(d, Pick(env, d)), env);
    }
  }

  /** From the last look at the armed flag on. */
  lemma {:induction false} FinalTurn(d: Dvr, env: Env)
    requires env.write.Written? && d.pc == Clear(Final)
    ensures Settled(d, env) == Drained(if d.f.stalled then Stopped(d) else d)
  {
    hide Settled, LoopAct, CommandAct, Dispatch, WriteUnit, StopAct, FailAct;
    Unfold(d, env);
    var d1 := WorkerAct(d, Pick(env, d));
    Unfold(d1, env);
    var d2 := WorkerAct(d1, Pick(env, d1));
    var d3 := d2;
    if d.f.stalled {
      StopTurn(d2, env);
      d3 := Stopped(d2).(pc := Drain);
    }
    Unfold(d3, env);
    SettledAt(WorkerAct(d3, Pick(env, d3)), env);
  }

  lemma {:induction false} EndTurn(d: Dvr, env: Env)
    requires env.write.Written? && d.pc == End
    ensures Settled(d, env) == Ended(d)
  {
    hide Settled, LoopAct, CommandAct, Dispatch, WriteUnit, StopAct, FailAct;
    Unfold(d, env);
    var d1 := WorkerAct(d, Pick(env, d));
    if d.f.armed {
      StopTurn(d1, env);
      FinalTurn(Stopped(d1).(pc := Clear(Final)), env);
    } else {
      FinalTurn(d1, env);
    }
  }

  lemma {:induction false} RestTurn(d: Dvr, env: Env)
    requires env.write.Written? && d.pc == Clear(Loop)
    ensures Settled(d, env) == Rested(d)
  {
    hide Settled, CommandAct, Dispatch, WriteUnit, StopAct, FailAct;
    Unfold(d, env);
    var d1 := WorkerAct(d, Pick(env, d));
    Unfold(d1, env);
    var d2 := WorkerAct(d1, Pick(env, d1));
    if d.f.stalled {
      StopTurn(d2, env);
      EndTurn(Stopped(d2).(pc := End), env);
    } else {
      Unfold(d2, env);
      var d3 := WorkerAct(d2, Pick(env, d2));
      if d.f.state.Disabled? { EndTurn(d3, env); } else { SettledAt(d3, env); }
    }
  }

  lemma {:induction false} BreakTurn(d: Dvr, env: Env)
    requires env.write.Written? && d.pc == Clear(Break)
    ensures Settled(d, env) == Ended(if d.f.stalled then Stopped(d).(f := Stopped(d).f.(stalled := false)) else d)
  {
    hide Settled, LoopAct, CommandAct, Dispatch, WriteUnit, StopAct, FailAct;
    Unfold(d, env);
    var d1 := WorkerAct(d, Pick(env, d));
    Unfold(d1, env);
    var d2 := WorkerAct(d1, Pick(env, d1));
    if d.f.stalled {
      StopTurn(d2, env);
      EndTurn(Stopped(d2).(pc := End), env);
    } else {
      EndTurn(d2, env);
    }
  }

  lemma {:induction false} UnitTurn(d: Dvr, env: Env)
    requires env.write.Written? && d.pc.Switch? && d.pc.cmd.Au?
    ensures Settled(d, env) == Rested(Unit(d, d.pc.cmd, env))
  {
    hide Settled, LoopAct, StopAct, FailAct, FinishAct, Rested, MuxedSize, Stopped;
    var au := d.pc.cmd;
    Unfold(d, env);
    var d1 := WorkerAct(d, Pick(env, d));
    if !d.f.armed {
      RestTurn(d1, env);
      RestedAt(d, d1);
    } else {
      Unfold(d1, env);
      var d2 := WorkerAct(d1, Pick(env, d1));
      if d.q.overflow {
        FailTurn(d2, env);
        RestTurn(Failed(d2, true).(pc := Clear(Loop)), env);
        FailedAt(d.(q := d.q.(overflow := false)), d2.pc, true);
        RestedAt(Failed(d.(q := d.q.(overflow := false)), true), Failed(d2, true).(pc := Clear(Loop)));
      } else {
        WriteTurn(d2, env);
        UnitAt(d, d2, au, env);
      }
    }
  }

  /** What follows does not look at the program counter. */
  lemma RestedAt(a: Dvr, b: Dvr)
    requires b == a.(pc := b.pc)
    ensures Rested(a) == Rested(b)
  {
  }

  lemma FailedAt(d: Dvr, pc: Pc, fatal: bool)
    ensures Failed(d.(pc := pc), fatal) == Failed(d, fatal).(pc := pc)
  {
  }

  lemma UnitAt(a: Dvr, b: Dvr, au: Rpc, env: Env)
    requires env.write.Written? && b == a.(pc := b.pc)
    ensures Rested(Unit(a, au, env)) == Rested(Unit(b, au, env))
  {
    hide Rested, Unit;
    UnitPc(a, b.pc, au, env);
    RestedAt(Unit(a, au, env), Unit(b, au, env));
  }

  lemma UnitPc(d: Dvr, pc: Pc, au: Rpc, env: Env)
    requires env.write.Written?
    ensures Unit(d.(pc := pc), au, env) == Unit(d, au, env).(pc := pc)
  {
    hide Failed, MuxedSize, Appended;
    forall e: Dvr ensures Failed(e.(pc := pc), true) == Failed(e, true).(pc := pc) { FailedAt(e, pc, true); }
    forall e: Dvr | e.s.file.Some?
      ensures Appended(e.(pc := pc), Payload(au), env.write) == Appended(e, Payload(au), env.write).(pc := pc)
    {
      AppendedPc(e, pc, Payload(au), env.write);
    }
  }

  lemma AppendedPc(d: Dvr, pc: Pc, len: nat, w: Choice)
    requires d.s.file.Some? && w.Written?
    ensures Appended(d.(pc := pc), len, w) == Appended(d, len, w).(pc := pc)
  {
    hide MuxedSize;
  }

  lemma {:induction false} WriteTurn(d: Dvr, env: Env)
    requires env.write.Written? && d.pc.Write? && d.pc.au.Au? && d.f.armed && !d.q.overflow
    ensures Settled(d, env) == Rested(Unit(d, d.pc.au, env))
  {
    hide Settled, LoopAct, CommandAct, StopAct, FailAct, FinishAct, Rested, MuxedSize, Stopped;
    var au := d.pc.au;
    Unfold(d, env);
    var d1 := WorkerAct(d, Pick(env, d));
    if d.s.pendingOpen && au.key && env.volume.Some? {
      AppendTurn(d1, env);
    } else if d.s.pendingOpen {
      if d1.pc.Fail? {
        FailTurn(d1, env);
        FailedAt(d.(s := d1.s), d1.pc, true);
        RestTurn(Failed(d1, true).(pc := Clear(Loop)), env);
        RestedAt(Failed(d.(s := d1.s), true), Failed(d1, true).(pc := Clear(Loop)));
      } else {
        RestTurn(d1, env);
        RestedAt(Unit(d, au, env), d1);
      }
    } else {
      AppendTurn(d, env);
    }
  }

  lemma {:induction false} AppendTurn(d: Dvr, env: Env)
    requires env.write.Written? && d.pc.Write? && !d.s.pendingOpen
    ensures Settled(d, env)
         == Rested(if d.s.file.None? then d else Appended(d, Payload(d.pc.au), env.write))
  {
    hide Settled, LoopAct, CommandAct, StopAct, FailAct, FinishAct, Rested, MuxedSize, Stopped;
    Unfold(d, env);
    var d1 := WorkerAct(d, Pick(env, d));
    if d1.pc.Fail? {
      FailTurn(d1, env);
      FailedAt(d.(s := d1.s), d1.pc, true);
      RestTurn(Failed(d1, true).(pc := Clear(Loop)), env);
      RestedAt(Failed(d.(s := d1.s), true), Failed(d1, true).(pc := Clear(Loop)));
    } else {
      RestTurn(d1, env);
      RestedAt(if d.s.file.None? then d else Appended(d, Payload(d.pc.au), env.write), d1);
    }
  }

  lemma {:induction false} StartTurn(d: Dvr, env: Env)
    requires env.write.Written? && d.pc.Ready?
    ensures var started := if d.f.state.Idle?
                           then d.(f := d.f.(state := Recording, armed := true),
                                   s := d.s.(openAttempts := 0, pendingOpen := true))
                           else d;
            Settled(d, env) == Rested(started)
  {
    hide Settled, LoopAct, StopAct, FailAct, FinishAct, Rested, Dispatch, WriteUnit;
    Unfold(d, env);
    var d1 := WorkerAct(d, Pick(env, d));
    var d2 := d1;
    if d.f.state.Idle? {
      Unfold(d1, env);
      d2 := WorkerAct(d1, Pick(env, d1));
    }
    RestTurn(d2, env);
    RestedAt(d2.(pc := d.pc), d2);
  }

  lemma {:induction false} ObeyTurn(d: Dvr, env: Env)
    requires env.write.Written? && d.pc.Switch?
    ensures Settled(d, env)
         == if d.pc.cmd.ShutdownCmd? then Ended(d) else Rested(Obeyed(d, d.pc.cmd, env))
  {
    hide Settled, LoopAct, StopAct, FailAct, FinishAct, Rested, WriteUnit, Unit, CommandAct;
    var cmd := d.pc.cmd;
    if cmd.Au? {
      UnitTurn(d, env);
    } else {
      Unfold(d, env);
      var d1 := WorkerAct(d, Pick(env, d));
      assert d1 == Dispatch(d, cmd, Pick(env, d));
      if d1.pc.StopArmed? {
        StopRests(d, d1, env);
      } else if d1.pc.Ready? {
        StartTurn(d1, env);
        RestedAt(Obeyed(d, cmd, env), Obeyed(d1, cmd, env));
      } else if d1.pc.Fail? {
        FailRests(d, d1, env);
      } else if d1.pc.End? {
        EndTurn(d1, env);
        EndedAt(d, d1);
      } else {
        RestTurn(d1, env);
        RestedAt(Obeyed(d, cmd, env), d1);
      }
    }
  }

  lemma {:induction false} StopRests(d: Dvr, d1: Dvr, env: Env)
    requires env.write.Written? && d1 == d.(pc := StopArmed(false, ToFinish))
    ensures Settled(d1, env) == Rested(Stopped(d))
  {
    hide Settled, Rested;
    StopTurn(d1, env);
    RestTurn(Stopped(d1).(pc := Clear(Loop)), env);
    RestedAt(Stopped(d), Stopped(d1).(pc := Clear(Loop)));
  }

  lemma {:induction false} FailRests(d: Dvr, d1: Dvr, env: Env)
    requires env.write.Written? && d1 == d.(pc := Fail(true, ToFinish))
    ensures Settled(d1, env) == Rested(Failed(d, true))
  {
    hide Settled, Rested, Stopped;
    FailTurn(d1, env);
    FailedAt(d, d1.pc, true);
    RestTurn(Failed(d1, true).(pc := Clear(Loop)), env);
    RestedAt(Failed(d, true), Failed(d1, true).(pc := Clear(Loop)));
  }

  lemma EndedAt(a: Dvr, b: Dvr)
    requires b == a.(pc := b.pc)
    ensures Ended(a) == Ended(b)
  {
  }

  lemma {:induction false} AnswerTurn(d: Dvr, rpc: Option<Rpc>, env: Env)
    requires env.write.Written? && d.pc == Resume(ToCheck(rpc))
    ensures Settled(d, env) == Answered(d, rpc, env)
  {
    hide Settled, StopAct, FailAct, FinishAct, WriteUnit, CommandAct, Dispatch, Rested, Ended, Obeyed, Stopped;
    if rpc.None? {
      RestTurn(d, env);
    } else {
      Unfold(d, env);
      var d1 := WorkerAct(d, Pick(env, d));
      if d1.pc.Clear? {
        BreakTurn(d1, env);
        BrokenAt(d, d1);
      } else {
        ObeyTurn(d1, env);
        EndedAt(d, d1);
        ObeyedAt(d, d1, rpc.value, env);
      }
    }
  }

  lemma BrokenAt(a: Dvr, b: Dvr)
    requires b == a.(pc := b.pc)
    ensures Ended(if a.f.stalled then Stopped(a).(f := Stopped(a).f.(stalled := false)) else a)
         == Ended(if b.f.stalled then Stopped(b).(f := Stopped(b).f.(stalled := false)) else b)
  {
  }

  lemma ObeyedAt(a: Dvr, b: Dvr, rpc: Rpc, env: Env)
    requires env.write.Written? && b == a.(pc := b.pc)
    ensures Rested(Obeyed(a, rpc, env)) == Rested(Obeyed(b, rpc, env))
  {
    if rpc.Au? {
      hide Rested, Unit;
      UnitAt(a, b, rpc, env);
    } else {
      hide Rested, Unit, Stopped;
      StoppedAt(a, b.pc);
      FailedAt(a, b.pc, true);
      RestedAt(Obeyed(a, rpc, env), Obeyed(b, rpc, env));
    }
  }

  lemma StoppedAt(d: Dvr, pc: Pc)
    ensures Stopped(d.(pc := pc)) == Stopped(d).(pc := pc)
  {
  }

  lemma AnsweredAt(a: Dvr, b: Dvr, rpc: Option<Rpc>, env: Env)
    requires env.write.Written? && b == a.(pc := b.pc)
    ensures Answered(a, rpc, env) == Answered(b, rpc, env)
  {
    hide Rested, Ended, Obeyed, Stopped;
    RestedAt(a, b);
    EndedAt(a, b);
    BrokenAt(a, b);
    if rpc.Some? { ObeyedAt(a, b, rpc.value, env); }
  }

  /** One turn of the worker's loop does exactly what the description says, for every message, every state
      it can wait in and whatever storage does. */
  lemma TurnServes(d: Dvr, env: Env)
    requires d.pc.Waiting? && env.write.Written?
    ensures Turn(d, env) == Served(d, env)
  {
    hide Settled, StopAct, FailAct, FinishAct, WriteUnit, CommandAct, Dispatch, Answered, Failed;
    var rpc := if d.q.items == [] then None else Some(d.q.items[0]);
    var d1 := WorkerAct(d, TimeOut);
    Unfold(d1, env);
    var d2 := WorkerAct(d1, Pick(env, d1));
    Unfold(d2, env);
    var d3 := WorkerAct(d2, Pick(env, d2));
    if d3.pc.Fail? {
      FailTurn(d3, env);
      FailedAt(d2, d3.pc, d3.pc.fatal);
      FailedAt(d2, d.pc, d3.pc.fatal);
      var looked := Failed(d3, d3.pc.fatal).(pc := Resume(ToCheck(rpc)));
      AnswerTurn(looked, rpc, env);
      AnsweredAt(Failed(d2.(pc := d.pc), d3.pc.fatal), looked, rpc, env);
    } else {
      AnswerTurn(d3, rpc, env);
      AnsweredAt(d2.(pc := d.pc), d3, rpc, env);
    }
  }

  // ---------------------------------------------------------------- what each command achieves

  /** The next message is `rpc`, storage is fine, the DVR is not disabled and nothing has stalled. */
  predicate Takes(d: Dvr, env: Env, rpc: Rpc) {
    && d.pc.Waiting? && env.write.Written? && d.q.items != [] && d.q.items[0] == rpc
    && env.storage.None? && !d.f.stalled && !d.f.state.Disabled?
  }

  /** A stop request, and a toggle of a running recording: back at the wait, the file is closed, nothing is
      armed or pending, and the state is not Recording. */
  lemma StopCloses(d: Dvr, env: Env, rpc: Rpc)
    requires Takes(d, env, rpc) && d.f.armed && (rpc.StopCmd? || rpc.ToggleCmd?)
    ensures var r := Turn(d, env);
            && r.pc.Waiting? && r.s.file == None && !r.f.armed && !r.s.pendingOpen && r.f.state == Idle
            && r.q.items == d.q.items[1..]
  {
    TurnServes(d, env);
    hide Turn;
  }

  /** A start request, or a toggle, of an idle DVR whose storage is ready: recording, armed, and the next
      keyframe opens a file. If storage is not ready nothing changes. */
  lemma StartArms(d: Dvr, env: Env, rpc: Rpc)
    requires Takes(d, env, rpc) && !d.f.armed && d.f.state == Idle && (rpc.StartCmd? || rpc.ToggleCmd?)
    ensures var r := Turn(d, env);
            && r.pc.Waiting? && r.f.armed == env.ready && r.f.state == (if env.ready then Recording else Idle)
            && r.s == (if env.ready then d.s.(pendingOpen := true, openAttempts := 0) else d.s)
  {
    TurnServes(d, env);
    hide Turn;
  }

  /** A rotation while recording: the next keyframe opens a file; the one that is open stays so until then. */
  lemma RotatePends(d: Dvr, env: Env)
    requires Takes(d, env, RotateCmd)
    ensures var r := Turn(d, env);
            r.pc.Waiting? && r.s == d.s.(pendingOpen := d.s.pendingOpen || d.f.armed) && r.f == d.f.(busy := false)
  {
    TurnServes(d, env);
    hide Turn;
  }

  /** A failure of the encoder while recording: disabled, closed, and the worker is done. */
  lemma FailDisables(d: Dvr, env: Env)
    requires Takes(d, env, FailCmd) && d.f.armed
    ensures var r := Turn(d, env);
            r.pc.Returned? && r.f.state == State.Disabled && r.s.file == None && !r.f.armed && r.q.items == []
  {
    TurnServes(d, env);
    hide Turn;
  }

  /** A disabled DVR, whether the request to disable it or any other message comes next: what is open is
      closed and the worker is done. */
  lemma DisabledReturns(d: Dvr, env: Env)
    requires d.pc.Waiting? && env.write.Written? && d.f.state.Disabled?
    requires d.s.file.Some? ==> d.f.armed || d.f.stalled
    ensures var r := Turn(d, env);
            r.pc.Returned? && r.f.state == State.Disabled && r.s.file == None && !r.f.armed && r.q.items == []
  {
    hide Turn, Unit, Ended, Rested, Answered;
    TurnServes(d, env);
    var rpc := if d.q.items == [] then None else Some(d.q.items[0]);
    var looked := Looked(d, env);
    DisabledAnswers(looked, rpc, env);
  }

  lemma DisabledAnswers(d: Dvr, rpc: Option<Rpc>, env: Env)
    requires env.write.Written? && d.f.state.Disabled? && (d.s.file.Some? ==> d.f.armed || d.f.stalled)
    ensures var r := Answered(d, rpc, env);
            r.pc.Returned? && r.f.state == State.Disabled && r.s.file == None && !r.f.armed && r.q.items == []
  {
    hide Unit;
  }

  /** A shutdown from any state: the worker is done, nothing is open, armed or queued. */
  lemma ShutdownReturns(d: Dvr, env: Env)
    requires d.pc.Waiting? && env.write.Written? && d.q.items != [] && d.q.items[0].ShutdownCmd?
    requires d.s.file.Some? ==> d.f.armed || d.f.stalled
    ensures var r := Turn(d, env);
            r.pc.Returned? && r.s.file == None && !r.f.armed && r.q == Queue([], 0, false) && !r.f.stalled
  {
    TurnServes(d, env);
    hide Turn;
  }

  /** A reason to stop that storage gives: an open recording is closed before the message is looked at. */
  lemma StorageStops(d: Dvr, env: Env)
    requires d.pc.Waiting? && env.write.Written? && d.q.items == [] && !d.f.stalled && !d.f.state.Disabled?
    requires env.storage.Some? && d.f.armed && d.s.file.Some?
    ensures var r := Turn(d, env);
            && r.s.file == None && !r.f.armed
            && (if env.storage.value then r.pc.Returned? && r.f.state.Disabled? else r.pc.Waiting? && r.f.state == Idle)
  {
    TurnServes(d, env);
    hide Turn;
  }

  // ---------------------------------------------------------------- the watchdog

  function Watched(d: Dvr, n: nat): Dvr { if n == 0 then d else Watchdog(Watched(d, n - 1)) }

  /** The watchdog past its time-out, on its own: it disables and disarms the DVR, marks the stall for the
      worker, and drops the queued access units but no command; it does nothing to a disabled or stalled
      one. */
  lemma {:induction false} WatchdogDisables(d: Dvr)
    requires d.enc == TimedOut
    ensures !d.f.state.Disabled? && !d.f.stalled ==>
              Watched(d, 5) == d.(f := Flags(State.Disabled, false, true, d.f.busy),
                                  q := Queue(Commands(d.q.items), 0, false), enc := Free)
    ensures d.f.state.Disabled? || d.f.stalled ==> Watched(d, if d.f.state.Disabled? then 1 else 2) == d.(enc := Free)
  {
    hide Commands;
    var w1 := Watched(d, 1);
    var w2 := Watched(d, 2);
    var w3 := Watched(d, 3);
    var w4 := Watched(d, 4);
    assert w1 == Watchdog(Watched(d, 0));
    assert Watched(d, 5) == Watchdog(w4);
  }

  /** And the worker, when storage answers again, closes the file and is done. */
  lemma {:induction false} StallReturns(d: Dvr, env: Env)
    requires env.write.Written? && d.pc == Clear(Loop) && d.f.stalled
    ensures var r := Settled(d, env);
            r.pc.Returned? && r.s.file == None && !r.f.armed && !r.f.stalled && r.q.items == []
  {
    RestTurn(d, env);
    hide Settled;
  }

  // ---------------------------------------------------------------- what the other threads ask for

  /** An access unit offered while recording ends up at the back of the queue if it fits; if it does not, the
      overflow is noted for the worker. */
  lemma OfferedIsQueued(d: Dvr, au: Rpc)
    requires d.enc.Free? && d.f.armed && au.Au? && au.len > 0
    ensures var r := EncAct(EncAct(d, Offer(au)), Push);
            if d.q.bytes + au.len <= 33554432
            then r == d.(q := Queue(d.q.items + [au], d.q.bytes + au.len, d.q.overflow))
            else r == d.(q := d.q.(overflow := true))
  {
  }

  /** The watchdog looks up from a worker that is busy, and only then. */
  lemma TickLooks(d: Dvr)
    requires d.enc.Free?
    ensures EncAct(d, Tick) == if d.f.busy then d.(enc := TimedOut) else d
  {
  }

  /** A control call takes effect at once: nothing counts as recording any more, or the DVR is disabled. */
  lemma CallsTake(d: Dvr)
    ensures !ControlAct(d, StopOrShutdown).f.state.Recording?
    ensures d.f.state.Disabled? ==> ControlAct(d, StopOrShutdown) == d
    ensures ControlAct(d, Disable).f == d.f.(state := State.Disabled)
  {
  }

  // ---------------------------------------------------------------- a stop, however interleaved

  /** From the switch on a stop request to the next wait. */
  ghost predicate Quieting(d: Dvr) {
    match d.pc
    case Switch(cmd) => cmd.StopCmd?
    case StopArmed(_, ret) => ret.ToFinish? || ret.ToEnd? || ret.ToFinalFinish? || ret.ToDrain?
    case StopQueue(_, ret) => !d.f.armed && (ret.ToFinish? || ret.ToEnd? || ret.ToFinalFinish? || ret.ToDrain?)
    case StopState(_, ret) => !d.f.armed && (ret.ToFinish? || ret.ToEnd? || ret.ToFinalFinish? || ret.ToDrain?)
    case StopFile(_, ret) => !d.f.armed && (ret.ToFinish? || ret.ToEnd? || ret.ToFinalFinish? || ret.ToDrain?)
    case Clear(_) => !d.f.armed && (d.s.file.Some? ==> d.f.stalled)
    case Exchange(_) => !d.f.armed && (d.s.file.Some? ==> d.f.stalled)
    case Latch(ret) => !d.f.armed && d.s.file.None? && !ret.ToCheck?
    case Again => !d.f.armed && d.s.file.None?
    case End => !d.f.armed && d.s.file.None?
    case Waiting => !d.f.armed && d.s.file.None?
    case Drain => !d.f.armed && d.s.file.None?
    case Returned => !d.f.armed && d.s.file.None?
    case _ => false
  }

  lemma QuietingKept(d: Dvr, a: Action)
    requires Inv(d) && Quieting(d) && !d.pc.Waiting?
    ensures Quieting(Apply(d, a))
  {
    hide BytesAccounted, RecordingArmed;
    match a
    case Worker(c) => hide EncAct, CommandAct, WriteUnit;
    case Encoder(e) => hide WorkerAct;
    case Call(k) => hide WorkerAct, EncAct;
  }

  function ExecuteFrom(d: Dvr, acts: seq<Action>): Dvr {
    if acts == [] then d else Apply(ExecuteFrom(d, acts[..|acts| - 1]), acts[|acts| - 1])
  }

  /** A turn is a run of the worker's steps. */
  lemma {:induction false} SettledIsRun(d: Dvr, env: Env) returns (acts: seq<Action>)
    requires env.write.Written?
    ensures Settled(d, env) == ExecuteFrom(d, acts) && forall a :: a in acts ==> a.Worker?
    decreases Rank(d)
  {
    if Resting(d.pc) {
      acts := [];
    } else {
      hide WorkerAct, Pick, Rank;
      RankDown(d, env);
      var a := Worker(Pick(env, d));
      var rest := SettledIsRun(WorkerAct(d, Pick(env, d)), env);
      acts := [a] + rest;
      FirstThen(d, a, rest);
    }
  }

  lemma {:induction false} FirstThen(d: Dvr, a: Action, rest: seq<Action>)
    ensures ExecuteFrom(d, [a] + rest) == ExecuteFrom(Apply(d, a), rest)
  {
    hide Apply;
    if rest == [] {
      assert [a] + rest == [a] && [a][..0] == [];
      assert ExecuteFrom(d, []) == d;
    } else {
      assert ([a] + rest)[..|rest|] == [a] + rest[..|rest| - 1];
      FirstThen(d, a, rest[..|rest| - 1]);
    }
  }

  /** Once the worker has come to a stop request, whatever the other threads do in between: at its next wait
      no file is open, nothing is armed, and the state is not Recording. */
  lemma {:induction false} StopHolds(d: Dvr, acts: seq<Action>)
    requires Inv(d) && d.pc == Switch(StopCmd)
    requires forall n :: 0 <= n < |acts| ==> !ExecuteFrom(d, acts[..n]).pc.Waiting?
    ensures var r := ExecuteFrom(d, acts);
            && Inv(r) && Quieting(r)
            && (r.pc.Waiting? ==> r.s.file == None && !r.f.armed && !r.f.state.Recording?)
  {
    hide Inv, Quieting, Apply;
    if acts == [] {
      assert Quieting(d) by { SwitchQuiets(d); }
    } else {
      var earlier := acts[..|acts| - 1];
      forall n | 0 <= n < |earlier| ensures !ExecuteFrom(d, earlier[..n]).pc.Waiting? {
        assert earlier[..n] == acts[..n];
      }
      StopHolds(d, earlier);
      StepKeeps(ExecuteFrom(d, earlier), acts[|acts| - 1]);
      QuietingKept(ExecuteFrom(d, earlier), acts[|acts| - 1]);
    }
    if ExecuteFrom(d, acts).pc.Waiting? { QuietWait(ExecuteFrom(d, acts)); }
  }

  lemma SwitchQuiets(d: Dvr)
    requires d.pc == Switch(StopCmd)
    ensures Quieting(d)
  {
  }

  lemma QuietWait(d: Dvr)
    requires Inv(d) && Quieting(d) && d.pc.Waiting?
    ensures d.s.file == None && !d.f.armed && !d.f.state.Recording?
  {
    hide FileAccounted, BytesAccounted;
  }
}
