/** What the recorder's runs add up to: messages are taken in the order they came, and the size of a file is
    that of the units written to it, the first of which is a keyframe. */
module DvrHistory {
  import opened Bytes
  import opened DvrWorker
  import opened DvrSafety

  // ---------------------------------------------------------------- the queue

  /** The message an action puts into the queue: a command, or an access unit while armed if it fits. */
  function Puts(d: Dvr, a: Action): seq<Rpc> {
    match a
    case Encoder(Enqueue(cmd)) => if d.enc.Free? && !cmd.Au? then [cmd] else []
    case Encoder(Push) =>
      if d.enc.Offering? && d.f.armed && d.q.bytes + Payload(d.enc.au) <= 32 * 1024 * 1024 then [d.enc.au] else []
    case _ => []
  }

  /** The message the worker takes. */
  function Takes(d: Dvr, a: Action): seq<Rpc> {
    if a.Worker? && d.pc.Waiting? && Apply(d, a).pc.Stamp? && Apply(d, a).pc.rpc.Some?
    then [Apply(d, a).pc.rpc.value] else []
  }

  function AllPuts(acts: seq<Action>): seq<Rpc> {
    if acts == [] then []
    else
      var earlier := acts[..|acts| - 1];
      AllPuts(earlier) + Puts(Execute(earlier), acts[|acts| - 1])
  }

  function AllTakes(acts: seq<Action>): seq<Rpc> {
    if acts == [] then []
    else
      var earlier := acts[..|acts| - 1];
      AllTakes(earlier) + Takes(Execute(earlier), acts[|acts| - 1])
  }

  /** The watchdog has dropped queued units, or may do so with its next step. */
  predicate Purges(d: Dvr, a: Action) { d.enc.Purging? && a == Encoder(Advance) }

  ghost predicate NeverPurged(acts: seq<Action>) {
    forall n :: 0 <= n < |acts| ==> !Purges(Execute(acts[..n]), acts[n])
  }

  lemma {:induction false} CommandsAppend(a: seq<Rpc>, b: seq<Rpc>)
    ensures Commands(a + b) == Commands(a) + Commands(b)
  {
    if a == [] {
      assert a + b == b;
    } else {
      assert (a + b)[1..] == a[1..] + b;
      CommandsAppend(a[1..], b);
    }
  }

  lemma {:induction false} CommandsTwice(a: seq<Rpc>)
    ensures Commands(Commands(a)) == Commands(a)
  {
    if a != [] {
      CommandsTwice(a[1..]);
      var c := if a[0].Au? then [] else [a[0]];
      CommandsAppend(c, Commands(a[1..]));
      assert a[0].Au? || Commands([a[0]]) == [a[0]];
      assert Commands([]) == [];
    }
  }

  /** What one action does to the queue, as long as the worker has not dropped it at its end. */
  lemma QueueStep(d: Dvr, a: Action)
    requires !d.pc.Drain?
    ensures var r := Apply(d, a);
            && (!Purges(d, a) ==> d.q.items + Puts(d, a) == Takes(d, a) + r.q.items)
            && (Purges(d, a) ==> Puts(d, a) == [] && Takes(d, a) == [] && r.q.items == Commands(d.q.items))
  {
    match a {
      case Worker(c) => QueueWorker(d, c);
      case Encoder(e) => hide WorkerAct, Commands;
      case Call(k) => hide WorkerAct, EncAct;
    }
  }

  lemma QueueWorker(d: Dvr, c: Choice)
    requires !d.pc.Drain?
    ensures d.q.items == Takes(d, Worker(c)) + WorkerAct(d, c).q.items
  {
    if d.pc.Waiting? {
      hide WriteUnit, Dispatch, CommandAct, StopAct, FailAct, FinishAct;
      if d.q.items != [] { assert d.q.items == [d.q.items[0]] + d.q.items[1..]; }
    } else {
      ItemsKept(d, c);
    }
  }

  lemma ItemsKept(d: Dvr, c: Choice)
    requires !d.pc.Drain? && !d.pc.Waiting?
    ensures WorkerAct(d, c).q.items == d.q.items
  {
    if d.pc.Write? {
      hide LoopAct, CommandAct, StopAct, FailAct, FinishAct, Dispatch, MuxedSize;
    } else if d.pc.Switch? {
      hide LoopAct, CommandAct, StopAct, FailAct, FinishAct, WriteUnit;
    } else {
      hide Dispatch, WriteUnit;
    }
  }

  /** The worker is still in its loop, or on the way out of it. */
  ghost predicate NeverDrained(acts: seq<Action>) {
    forall n :: 0 <= n < |acts| ==> !Execute(acts[..n]).pc.Drain?
  }

  /** In every interleaving, until the worker has returned: messages are taken in the order they were put,
      none is lost and none is taken twice - all of them as long as the watchdog drops nothing, and the
      commands in any case. */
  lemma {:induction false} TakenInOrder(acts: seq<Action>)
    requires NeverDrained(acts)
    ensures NeverPurged(acts) ==> AllPuts(acts) == AllTakes(acts) + Execute(acts).q.items
    ensures Commands(AllPuts(acts)) == Commands(AllTakes(acts)) + Commands(Execute(acts).q.items)
  {
    hide Apply, Puts, Takes, Purges;
    if acts == [] {
      assert Commands([]) == [];
    } else {
      var n := |acts| - 1;
      var earlier, a := acts[..n], acts[n];
      Shorter(acts);
      TakenInOrder(earlier);
      var d, r := Execute(earlier), Execute(acts);
      QueueStep(d, a);
      hide Execute, NeverPurged;
      Exchange(AllPuts(earlier), AllTakes(earlier), d.q.items, Puts(d, a), Takes(d, a), r.q.items);
      CommandsAppend(AllPuts(earlier), Puts(d, a));
      CommandsAppend(AllTakes(earlier), Takes(d, a));
      CommandsAppend(d.q.items, Puts(d, a));
      CommandsAppend(Takes(d, a), r.q.items);
      if Purges(d, a) {
        CommandsTwice(d.q.items);
        assert Commands([]) == [];
      }
      Exchange(Commands(AllPuts(earlier)), Commands(AllTakes(earlier)), Commands(d.q.items),
               Commands(Puts(d, a)), Commands(Takes(d, a)), Commands(r.q.items));
    }
  }

  lemma Shorter(acts: seq<Action>)
    requires acts != [] && NeverDrained(acts)
    ensures var n := |acts| - 1;
            && NeverDrained(acts[..n]) && !Execute(acts[..n]).pc.Drain?
            && (NeverPurged(acts) ==> NeverPurged(acts[..n]) && !Purges(Execute(acts[..n]), acts[n]))
  {
    hide Execute, Purges;
    var n := |acts| - 1;
    forall k | 0 <= k < n ensures acts[..n][..k] == acts[..k] && acts[..n][k] == acts[k] {
    }
  }

  lemma Exchange(p: seq<Rpc>, t: seq<Rpc>, m: seq<Rpc>, p1: seq<Rpc>, t1: seq<Rpc>, q: seq<Rpc>)
    ensures p == t + m && m + p1 == t1 + q ==> p + p1 == (t + t1) + q
  {
    if p == t + m && m + p1 == t1 + q {
      Regroup(t, m, p1);
      Regroup(t, t1, q);
    }
  }

  // ---------------------------------------------------------------- the file

  /** A write to the open file: the unit, and what became of it. */
  datatype Entry = Entry(au: Rpc, ok: bool, psi: bool)

  /** A file is opened for the unit at hand. */
  predicate Opens(d: Dvr, a: Action) {
    d.pc.Write? && d.s.pendingOpen && (d.pc.au.Au? ==> d.pc.au.key) && a.Worker? && a.c.Opened?
  }

  predicate Writes(d: Dvr, a: Action) {
    d.pc.Write? && !d.s.pendingOpen && d.s.file.Some? && a.Worker? && a.c.Written?
  }

  /** The writes since a file was last opened. */
  function Entries(acts: seq<Action>): seq<Entry> {
    if acts == [] then []
    else
      var earlier, a := acts[..|acts| - 1], acts[|acts| - 1];
      var d := Execute(earlier);
      if Opens(d, a) then []
      else if Writes(d, a) then Entries(earlier) + [Entry(d.pc.au, a.c.ok, a.c.psi)]
      else Entries(earlier)
  }

  /** The bytes of the units that were written. */
  function Volume(es: seq<Entry>): nat {
    if es == [] then 0
    else
      var e := es[|es| - 1];
      Volume(es[..|es| - 1]) + (if e.ok then MuxedSize(Payload(e.au), e.psi) else 0)
  }

  /** The size on record is the sum of what was written, and the first unit of the file is a keyframe, which
      is written right after the file is opened. */
  ghost predicate Recorded(d: Dvr, es: seq<Entry>) {
    d.s.file.Some? ==>
      && d.s.file.value == Volume(es)
      && (if es == [] then d.pc.Write? && !d.s.pendingOpen && (d.pc.au.Au? ==> d.pc.au.key)
          else es[0].au.Au? ==> es[0].au.key)
  }

  lemma RecordedStep(d: Dvr, es: seq<Entry>, a: Action)
    requires Recorded(d, es)
    ensures var next := if Opens(d, a) then [] else if Writes(d, a) then es + [Entry(d.pc.au, a.c.ok, a.c.psi)] else es;
            Recorded(Apply(d, a), next)
  {
    match a {
      case Worker(c) =>
        if d.pc.Write? {
          hide LoopAct, CommandAct, StopAct, FailAct, FinishAct, Dispatch, MuxedSize, Volume;
          VolumeNone();
          if Writes(d, a) {
            var more := es + [Entry(d.pc.au, c.ok, c.psi)];
            VolumeMore(es, Entry(d.pc.au, c.ok, c.psi));
            assert more[0] == if es == [] then Entry(d.pc.au, c.ok, c.psi) else es[0];
          }
        } else {
          FileKept(d, c);
        }
      case Encoder(e) => EncKeepsFile(d, e);
      case Call(k) =>
    }
  }

  lemma VolumeNone()
    ensures Volume([]) == 0
  {
  }

  lemma {:induction false} VolumeMore(es: seq<Entry>, e: Entry)
    ensures Volume(es + [e]) == Volume(es) + (if e.ok then MuxedSize(Payload(e.au), e.psi) else 0)
  {
    hide MuxedSize;
    assert (es + [e])[..|es|] == es;
  }

  lemma FileKept(d: Dvr, c: Choice)
    requires !d.pc.Write?
    ensures WorkerAct(d, c).s.file == d.s.file || WorkerAct(d, c).s.file.None?
  {
    if d.pc.Switch? {
      hide LoopAct, CommandAct, StopAct, FailAct, FinishAct, WriteUnit;
    } else {
      hide Dispatch, WriteUnit;
    }
  }

  lemma EncKeepsFile(d: Dvr, e: EncStep)
    ensures EncAct(d, e).s == d.s && EncAct(d, e).pc == d.pc
  {
  }

  /** In every interleaving the size of the open file is the sum of the muxed sizes of the units written to
      it since it was opened, failed writes not counted, and the first of them is a keyframe. */
  lemma {:induction false} FileIsItsUnits(acts: seq<Action>)
    ensures Recorded(Execute(acts), Entries(acts))
  {
    if acts != [] {
      hide Recorded, Apply, Opens, Writes;
      FileIsItsUnits(acts[..|acts| - 1]);
      RecordedStep(Execute(acts[..|acts| - 1]), Entries(acts[..|acts| - 1]), acts[|acts| - 1]);
    }
  }
}
