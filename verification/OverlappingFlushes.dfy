/** The buffer protocol with any number of flushers at once. WaitForWriteToFinishAndSwapWriteBuffers of
    DBKKernel/ultimap2.c waits for an event that stays signalled and then queues the DPC, so flushers that have
    waited together may queue it one after the other. */
module OverlappingFlushes {
  import opened Options
  import opened Topa
  import opened TraceOutput
  import opened TraceBuffers

  /** `waited` are the flushers between their wait and their queueing; `again` tells that the DPC was queued
      while it was running. */
  datatype Shared = Shared(cpu: Cpu, waited: set<nat>, again: bool)

  datatype Flush =
    | Own(a: Action)
    | Wait(f: nat)
    | Insert(f: nat)
    | Begin

  function Queue(s: Cpu): Cpu {
    s.(threads := s.threads.(flushing := true, dpc := Queued))
  }

  /** The DPC object is free and nobody else has put it into the queue. */
  predicate Queueable(s: Shared) {
    s.cpu.threads.dpc.Idle? && !s.again
  }

  ghost function Act(pair: Pair, s: Shared, b: Flush): Option<Shared>
    requires |pair| == 2
  {
    match b
    case Own(a) =>
      if a.WaitAndQueueDpc? || a.DpcsFlushed? then None
      else
        (match Do(pair, s.cpu, a)
         case None => None
         case Some(t) => Some(s.(cpu := t)))
    case Wait(f) => if s.cpu.threads.ready then Some(s.(waited := s.waited + {f})) else None
    case Insert(f) =>
      if f !in s.waited then None
      else
        var t := s.(waited := s.waited - {f});
        Some(if Queueable(s) then t.(cpu := Queue(s.cpu))
             else if s.cpu.threads.dpc.Queued? then t
             else t.(again := true))
    case Begin =>
      if s.again && s.cpu.threads.dpc.Idle? then Some(s.(cpu := Queue(s.cpu), again := false)) else None
  }

  ghost function ActAll(pair: Pair, s: Shared, bs: seq<Flush>): Option<Shared>
    requires |pair| == 2
    decreases |bs|
  {
    if bs == [] then Some(s)
    else
      match Act(pair, s, bs[0])
      case None => None
      case Some(t) => ActAll(pair, t, bs[1..])
  }

  /** The step queues the DPC for a run of its own. */
  predicate Queues(s: Shared, b: Flush) {
    (b.Insert? && b.f in s.waited && Queueable(s)) || (b.Begin? && s.again && s.cpu.threads.dpc.Idle?)
  }

  // ---- runs without late queueings ----

  lemma {:induction false} QueueKeeps(pair: Pair, noPMI: bool, s: Shared, b: Flush)
    requires |pair| == 2 && Inv(pair, noPMI, s.cpu) && Queues(s, b) && s.cpu.threads.ready
    ensures Act(pair, s, b).Some? && Inv(pair, noPMI, Act(pair, s, b).value.cpu)
  {
    hide Apart, OwnerOf, Denotes, Holds, WriterSize, Conserved;
  }

  lemma {:induction false} ActKeeps(pair: Pair, noPMI: bool, s: Shared, b: Flush)
    requires |pair| == 2 && Inv(pair, noPMI, s.cpu) && Act(pair, s, b).Some?
    requires Queues(s, b) ==> s.cpu.threads.ready
    ensures Inv(pair, noPMI, Act(pair, s, b).value.cpu)
  {
    hide Inv, Do;
    if b.Own? {
      StepKeeps(pair, noPMI, s.cpu, b.a);
    } else if Queues(s, b) {
      QueueKeeps(pair, noPMI, s, b);
    }
  }

  /** Every queueing of the run finds the event signalled. */
  ghost predicate Timely(pair: Pair, s: Shared, bs: seq<Flush>)
    requires |pair| == 2
    decreases |bs|
  {
    bs == [] ||
    ((Queues(s, bs[0]) ==> s.cpu.threads.ready)
     && (Act(pair, s, bs[0]).Some? ==> Timely(pair, Act(pair, s, bs[0]).value, bs[1..])))
  }

  /** With any number of flushers, a run keeps the invariant if every queueing finds the event signalled. */
  lemma {:induction false} TimelyKeeps(pair: Pair, noPMI: bool, s: Shared, bs: seq<Flush>)
    requires |pair| == 2 && Inv(pair, noPMI, s.cpu) && ActAll(pair, s, bs).Some? && Timely(pair, s, bs)
    ensures Inv(pair, noPMI, ActAll(pair, s, bs).value.cpu)
    decreases |bs|
  {
    if bs != [] {
      hide Inv, Act, Queues;
      ActKeeps(pair, noPMI, s, bs[0]);
      TimelyKeeps(pair, noPMI, Act(pair, s, bs[0]).value, bs[1..]);
    }
  }

  /** The writer is at rest, or has only been told to save nothing. */
  predicate NothingToSave(s: Cpu) {
    s.threads.writer.Waiting? && (s.threads.initiateSave ==> s.log.pending == [])
  }

  lemma {:induction false} SwitchKeeps(pair: Pair, noPMI: bool, s: Cpu)
    requires |pair| == 2 && Inv(pair, noPMI, s) && s.threads.dpc.Idle? && NothingToSave(s)
    ensures s.info.header2 < 2 && |pair[s.info.header2].tables| > 0
    ensures Inv(pair, noPMI, Switched(pair, Queue(s), true))
  {
    hide Inv, Switched;
    IdleSides(pair, noPMI, s);
    SwitchKept(pair, noPMI, s);
    SwitchRest(pair, noPMI, s);
  }

  /** Where everything is while no DPC runs. */
  lemma {:induction false} IdleSides(pair: Pair, noPMI: bool, s: Cpu)
    requires |pair| == 2 && Inv(pair, noPMI, s) && s.threads.dpc.Idle?
    ensures var hw := OwnerOf(pair, s.registers.position.base);
      && s.info == Fields(hw, 1 - hw, hw, 1 - hw, hw, 1 - hw, hw, 1 - hw)
      && |pair[0].tables| > 0 && |pair[1].tables| > 0 && |pair[0].pages| > 0 && |pair[1].pages| > 0
      && Denotes(pair[hw], s.registers.position, |s.log.current|)
  {
    hide Apart, OwnerOf, Denotes, Holds, WriterSize, Conserved;
    ApartFacts(pair, noPMI);
  }

  /** The saved registers give the number of bytes swapped out last. */
  lemma {:induction false} SavedSize(pair: Pair, noPMI: bool, s: Cpu)
    requires |pair| == 2 && Inv(pair, noPMI, s) && s.threads.dpc.Idle?
    ensures s.info.header2 < 2 && |pair[s.info.header2].tables| > 0
    ensures var t := Switched(pair, Queue(s), true);
      && t.info.lookup2 == t.info.buffer2 == OwnerOf(pair, s.registers.position.base)
      && WriterSize(pair[t.info.lookup2].lookup, t.saveBase, t.saveMask) == Some(|s.log.current|)
      && t.memory == s.memory && t.log == SwapOut(s.log)
      && t.threads == s.threads.(flushing := true, ready := false, initiateSave := true)
  {
    hide Inv, Denotes, WriterSize, SwapOut;
    IdleSides(pair, noPMI, s);
    var hw, p := OwnerOf(pair, s.registers.position.base), s.registers.position;
    var low := p.(stopped := false);
    SizeOfPosition(pair[hw], p, |s.log.current|, 127);
    assert MaskPtrs(low, 127) == MaskPtrs(p, 127);
  }

  lemma {:induction false} InvHolds(pair: Pair, noPMI: bool, s: Cpu)
    requires |pair| == 2 && Inv(pair, noPMI, s)
    ensures Holds(pair[OwnerOf(pair, s.registers.position.base)], s.memory, s.log.current) && Conserved(s.log)
    ensures Apart(pair, noPMI) && Handshake(s.threads, s.registers.traceEn)
    ensures Kept(pair, s)
  {
    hide Apart, OwnerOf, Denotes, Holds, WriterSize, Conserved;
  }

  lemma {:induction false} SwitchKept(pair: Pair, noPMI: bool, s: Cpu)
    requires |pair| == 2 && Inv(pair, noPMI, s) && s.threads.dpc.Idle? && NothingToSave(s)
    requires s.info.header2 < 2 && |pair[s.info.header2].tables| > 0
    ensures Kept(pair, Switched(pair, Queue(s), true))
  {
    hide Inv, Switched, WriterSize, Holds;
    SavedSize(pair, noPMI, s);
    InvHolds(pair, noPMI, s);
    assert [] + s.log.current == s.log.current;
  }

  lemma {:induction false} SwitchRest(pair: Pair, noPMI: bool, s: Cpu)
    requires |pair| == 2 && Inv(pair, noPMI, s) && s.threads.dpc.Idle? && s.threads.writer.Waiting?
    requires s.info.header2 < 2 && |pair[s.info.header2].tables| > 0
    requires Kept(pair, Switched(pair, Queue(s), true))
    ensures Inv(pair, noPMI, Switched(pair, Queue(s), true))
  {
    hide Apart, OwnerOf, Denotes, Holds, WriterSize, Kept, Conserved, MaskPtrs, SwapOut;
    IdleSides(pair, noPMI, s);
    InvHolds(pair, noPMI, s);
    var hw := OwnerOf(pair, s.registers.position.base);
    ApartFacts(pair, noPMI);
    StartDenotes(pair[1 - hw], noPMI);
    DenotesBase(pair, noPMI, 1 - hw, Start(pair[1 - hw]), 0);
    EmptyHolds(pair[1 - hw], s.memory);
    SwapConserves(s.log);
    assert SwapOut(s.log).current == [] by {
      SwapOutEmpties(s.log);
    }
  }

  lemma {:induction false} SwapOutEmpties(log: Log)
    ensures SwapOut(log).current == []
  {
  }

  // ---- what a late exchange loses ----

  ghost function WriterMoves(pair: Pair, s: Cpu, n: nat): Option<Cpu>
    requires |pair| == 2
    decreases n
  {
    if n == 0 then Some(s)
    else
      match WriterMove(pair, s)
      case None => None
      case Some(t) => WriterMoves(pair, t, n - 1)
  }

  /** How many steps the writer needs until it has nothing to do. */
  function RestSteps(t: Threads): nat {
    (if t.writer.Saving? then 2 else if t.writer.Saved? then 1 else 0) + if t.initiateSave then 3 else 0
  }

  /** Everything the hardware has output and nobody has given up, in order. */
  function Alive(log: Log): seq<nat> {
    log.file + log.pending + log.current
  }

  /** The bytes that the writer has still to save are the ones that it saves in their place. */
  predicate SameBytes(s: Cpu) {
    s.log.pending == if s.threads.writer.Saving? then s.log.current else []
  }

  /** A DPC is queued at any moment, signalled or not, and runs; then the writer saves what it was told to. Nothing
      is lost, doubled or moved exactly when the DPC returns early, or the writer had nothing left to save, or it
      was just saving bytes equal to those that it now saves twice. */
  lemma {:induction false} LateSwapBytes(pair: Pair, noPMI: bool, s: Cpu, flushAll: bool)
    requires |pair| == 2 && Inv(pair, noPMI, s) && s.threads.dpc.Idle?
    ensures s.info.header2 < 2 && |pair[s.info.header2].tables| > 0
    ensures var t := Switched(pair, Queue(s), flushAll);
      var r := WriterMoves(pair, t, RestSteps(t.threads));
      && r.Some? && r.value.threads.writer.Waiting? && !r.value.threads.initiateSave && r.value.log.pending == []
      && r.value.log.traced == s.log.traced
      && (Alive(r.value.log) == Alive(s.log) <==> TooLittle(s, flushAll) || SameBytes(s))
  {
    hide Inv, Switched, WriterSize, WriterMoves, Holds, Append, SwapOut;
    IdleSides(pair, noPMI, s);
    if TooLittle(s, flushAll) {
      EarlySaves(pair, noPMI, s, flushAll);
    } else {
      LateSaves(pair, noPMI, s, flushAll);
    }
  }

  /** One step of the writer that saves these bytes. */
  lemma {:induction false} SaveMove(pair: Pair, s: Cpu, bytes: seq<nat>)
    requires |pair| == 2 && s.threads.writer.Saving? && s.info.lookup2 < 2 && s.info.buffer2 < 2
    requires WriterSize(pair[s.info.lookup2].lookup, s.saveBase, s.saveMask) == Some(|bytes|)
    requires Holds(pair[s.info.buffer2], s.memory, bytes)
    ensures WriterMove(pair, s) == Some(s.(threads := s.threads.(writer := Saved), log := Append(s.log, bytes)))
  {
    hide WriterSize, Contents;
  }

  lemma {:induction false} MoreWriterMoves(pair: Pair, s: Cpu, t: Cpu, n: nat)
    requires |pair| == 2 && WriterMove(pair, s) == Some(t)
    ensures WriterMoves(pair, s, n + 1) == WriterMoves(pair, t, n)
  {
    hide WriterMove;
  }

  lemma {:induction false} NoWriterMoves(pair: Pair, s: Cpu)
    requires |pair| == 2
    ensures WriterMoves(pair, s, 0) == Some(s)
  {
  }

  /** The writer finishes what it is at, given the bytes it finds. */
  lemma {:induction false} Finish(pair: Pair, s: Cpu, bytes: seq<nat>, n: nat)
    requires |pair| == 2 && s.threads.writer.Saving? && s.info.lookup2 < 2 && s.info.buffer2 < 2
    requires WriterSize(pair[s.info.lookup2].lookup, s.saveBase, s.saveMask) == Some(|bytes|)
    requires Holds(pair[s.info.buffer2], s.memory, bytes)
    ensures WriterMoves(pair, s, n + 2) ==
      WriterMoves(pair, s.(threads := s.threads.(writer := Waiting, ready := true), log := Append(s.log, bytes)), n)
  {
    hide WriterSize, WriterMoves, Holds, Append;
    SaveMove(pair, s, bytes);
    var s1 := s.(threads := s.threads.(writer := Saved), log := Append(s.log, bytes));
    MoreWriterMoves(pair, s, s1, n + 1);
    MoreWriterMoves(pair, s1, s1.(threads := s1.threads.(writer := Waiting, ready := true)), n);
  }

  /** From its wait to its wait. */
  lemma {:induction false} WholeSave(pair: Pair, s: Cpu, bytes: seq<nat>)
    requires |pair| == 2 && s.threads.writer.Waiting? && s.threads.initiateSave
    requires s.info.lookup2 < 2 && s.info.buffer2 < 2
    requires WriterSize(pair[s.info.lookup2].lookup, s.saveBase, s.saveMask) == Some(|bytes|)
    requires Holds(pair[s.info.buffer2], s.memory, bytes)
    ensures WriterMoves(pair, s, 3) ==
      Some(s.(threads := s.threads.(initiateSave := false, ready := true), log := Append(s.log, bytes)))
  {
    hide WriterSize, WriterMoves, Holds, Append;
    var s1 := s.(threads := s.threads.(writer := Saving, initiateSave := false));
    MoreWriterMoves(pair, s, s1, 2);
    Finish(pair, s1, bytes, 0);
    NoWriterMoves(pair, s1.(threads := s1.threads.(writer := Waiting, ready := true), log := Append(s.log, bytes)));
  }

  lemma {:induction false} EarlySaves(pair: Pair, noPMI: bool, s: Cpu, flushAll: bool)
    requires |pair| == 2 && Inv(pair, noPMI, s) && s.threads.dpc.Idle? && TooLittle(s, flushAll)
    requires s.info.header2 < 2 && |pair[s.info.header2].tables| > 0
    ensures var t := Switched(pair, Queue(s), flushAll);
      var r := WriterMoves(pair, t, RestSteps(t.threads));
      && r.Some? && r.value.threads.writer.Waiting? && !r.value.threads.initiateSave && r.value.log.pending == []
      && r.value.log.traced == s.log.traced && Alive(r.value.log) == Alive(s.log)
  {
    hide Inv, WriterSize, WriterMoves, Holds, MaskPtrs, Denotes, OwnerOf, Apart;
    InvHolds(pair, noPMI, s);
    var t := Switched(pair, Queue(s), flushAll);
    assert t == s.(threads := s.threads.(flushing := true));
    var rested := t.(threads := t.threads.(writer := Waiting, ready := true));
    if t.threads.initiateSave {
      WholeSave(pair, t, s.log.pending);
    } else if t.threads.writer.Saving? {
      Finish(pair, t, s.log.pending, 0);
    } else if t.threads.writer.Saved? {
      MoreWriterMoves(pair, t, rested, 0);
    }
    NoWriterMoves(pair, t);
    NoWriterMoves(pair, rested);
    NoWriterMoves(pair, rested.(log := Append(t.log, s.log.pending)));
    assert s.log.file + [] + s.log.current == s.log.file + s.log.current;
  }

  lemma {:induction false} LateSaves(pair: Pair, noPMI: bool, s: Cpu, flushAll: bool)
    requires |pair| == 2 && Inv(pair, noPMI, s) && s.threads.dpc.Idle? && !TooLittle(s, flushAll)
    requires s.info.header2 < 2 && |pair[s.info.header2].tables| > 0
    ensures var t := Switched(pair, Queue(s), flushAll);
      var r := WriterMoves(pair, t, RestSteps(t.threads));
      && r.Some? && r.value.threads.writer.Waiting? && !r.value.threads.initiateSave && r.value.log.pending == []
      && r.value.log.traced == s.log.traced && (Alive(r.value.log) == Alive(s.log) <==> SameBytes(s))
  {
    hide Inv, Switched, WriterSize, WriterMoves, Holds;
    InvHolds(pair, noPMI, s);
    SavedSize(pair, noPMI, s);
    SameExchange(pair, s, flushAll);
    var t, c := Switched(pair, Queue(s), true), s.log.current;
    var u := t;
    if t.threads.writer.Saving? {
      Finish(pair, t, c, 3);
      u := t.(threads := t.threads.(writer := Waiting, ready := true), log := Append(t.log, c));
    } else if t.threads.writer.Saved? {
      u := t.(threads := t.threads.(writer := Waiting, ready := true));
      MoreWriterMoves(pair, t, u, 3);
    }
    WholeSave(pair, u, c);
    Cancel(s.log.file, s.log.pending, c);
  }

  lemma SameExchange(pair: Pair, s: Cpu, flushAll: bool)
    requires |pair| == 2 && s.info.header2 < 2 && |pair[s.info.header2].tables| > 0 && !TooLittle(s, flushAll)
    ensures Switched(pair, Queue(s), flushAll) == Switched(pair, Queue(s), true)
  {
    hide MaskPtrs, SwapOut;
  }

  lemma Cancel(f: seq<nat>, p: seq<nat>, c: seq<nat>)
    ensures f + c + [] + [] == f + p + c <==> p == []
    ensures f + c + c + [] + [] == f + p + c <==> p == c
  {
    assert f + c + [] + [] == f + c && f + c + c + [] + [] == f + c + c;
    assert p == [] ==> f + p == f;
    if f + c + c == f + p + c {
      assert |p| == |c| && p == (f + p + c)[|f|..|f| + |p|] == (f + c + c)[|f|..|f| + |c|] == c;
    }
  }

  /** While the writer is saving, an exchange makes it save the other buffer: the bytes it was told to save are
      nowhere any more. */
  lemma {:induction false} LateSwapLoses(pair: Pair, noPMI: bool, s: Cpu)
    requires |pair| == 2 && Inv(pair, noPMI, s) && s.threads.dpc.Idle? && s.threads.writer.Saving?
    ensures s.info.header2 < 2 && |pair[s.info.header2].tables| > 0
    ensures var t := Switched(pair, Queue(s), true);
      && WriterMove(pair, t).Some?
      && WriterMove(pair, t).value.log ==
           Log(s.log.traced, [], [], s.log.file + s.log.current, s.log.traceFileSize + |s.log.current|, s.log.lost)
  {
    hide Inv, Switched, WriterSize, Contents;
    SavedSize(pair, noPMI, s);
    InvHolds(pair, noPMI, s);
  }

  // ---- a flush that has the CPU to itself ----

  /** In any state that a run leads to, with no DPC under way and the writer at rest: the event is signalled, and a
      forced flush saves all that was output, in order, keeps tracing as it was, and leaves everything ready for
      the next one. */
  lemma {:induction false} FlushSavesAll(pair: Pair, noPMI: bool, s0: Cpu, actions: seq<Action>)
    requires Apart(pair, noPMI) && |pair[0].tables| > 0 && Init(pair, s0) && RunAll(pair, s0, actions).Some?
    requires var t := RunAll(pair, s0, actions).value.threads;
      t.dpc.Idle? && !t.flushing && t.writer.Waiting? && !t.initiateSave
    ensures |pair| == 2
    ensures var s := RunAll(pair, s0, actions).value;
      && Do(pair, s, WaitAndQueueDpc).Some?
      && var d := DpcMoves(pair, Do(pair, s, WaitAndQueueDpc).value, true, 12);
      && d.Some? && Do(pair, d.value, DpcsFlushed).Some?
      && var w := WriterMoves(pair, Do(pair, d.value, DpcsFlushed).value, 3);
      && w.Some? && w.value.threads == Threads(true, false, false, Idle, Waiting)
      && w.value.log.file == s.log.file + s.log.current && w.value.log.pending == w.value.log.current == []
      && w.value.log.traced == s.log.traced && w.value.registers.traceEn == s.registers.traceEn
  {
    hide Inv, RunAll, DpcMoves, WriterMoves, WriterSize, Holds, MaskPtrs, Start;
    InitInv(pair, noPMI, s0);
    RunKeeps(pair, noPMI, s0, actions);
    RunOnItsWay(pair, s0, actions);
    var s := RunAll(pair, s0, actions).value;
    SavedSize(pair, noPMI, s);
    InvHolds(pair, noPMI, s);
    var q := Do(pair, s, WaitAndQueueDpc).value;
    assert q == Queue(s);
    MovesSwitch(pair, q, true);
    var t := Switched(pair, q, true);
    WholeSave(pair, t.(threads := t.threads.(flushing := false)), s.log.current);
    assert [] + s.log.current == s.log.current;
  }

  /** A flusher that queues the DPC while it runs is served: the DPC stays marked until it runs once more. */
  lemma {:induction false} InsertServed(pair: Pair, s: Shared, f: nat, b: Flush)
    requires |pair| == 2 && f in s.waited
    ensures Act(pair, s, Insert(f)).Some?
    ensures var t := Act(pair, s, Insert(f)).value;
      && t.waited == s.waited - {f} && (t.cpu.threads.dpc.Queued? || t.again)
      && (t.again && Act(pair, t, b).Some? ==>
            Act(pair, t, b).value.again || (b.Begin? && Act(pair, t, b).value.cpu.threads.dpc.Queued?))
      && (t.again && t.cpu.threads.dpc.Idle? ==> Act(pair, t, Begin).Some?)
  {
    hide Do;
  }

  // ---- a run in which it happens ----

  /** Steps of a forced DPC with nothing between them. */
  ghost function Steps(n: nat): seq<Flush> {
    if n == 0 then [] else [Own(DpcStep(true))] + Steps(n - 1)
  }

  lemma {:induction false} Then(pair: Pair, s: Shared, bs: seq<Flush>, cs: seq<Flush>)
    requires |pair| == 2 && ActAll(pair, s, bs).Some?
    ensures ActAll(pair, s, bs + cs) == ActAll(pair, ActAll(pair, s, bs).value, cs)
    decreases |bs|
  {
    if bs == [] {
      assert bs + cs == cs;
    } else {
      hide Act;
      assert (bs + cs)[0] == bs[0] && (bs + cs)[1..] == bs[1..] + cs;
      Then(pair, Act(pair, s, bs[0]).value, bs[1..], cs);
    }
  }

  lemma {:induction false} One(pair: Pair, s: Shared, b: Flush)
    requires |pair| == 2
    ensures ActAll(pair, s, [b]) == Act(pair, s, b)
  {
    hide Act;
  }

  lemma {:induction false} StepsMove(pair: Pair, s: Shared, n: nat)
    requires |pair| == 2 && DpcMoves(pair, s.cpu, true, n).Some?
    ensures ActAll(pair, s, Steps(n)) == Some(s.(cpu := DpcMoves(pair, s.cpu, true, n).value))
    decreases n
  {
    if n > 0 {
      hide DpcMove;
      var t := s.(cpu := DpcMove(pair, s.cpu, true).value);
      StepsMove(pair, t, n - 1);
      assert Steps(n)[1..] == Steps(n - 1);
    }
  }

  /** A forced DPC that has the processor to itself. */
  lemma {:induction false} WholeDpc(pair: Pair, s: Shared)
    requires |pair| == 2 && s.cpu.threads.dpc.Queued?
    requires s.cpu.info.header2 < 2 && |pair[s.cpu.info.header2].tables| > 0
    ensures ActAll(pair, s, Steps(12)) == Some(s.(cpu := Switched(pair, s.cpu, true)))
  {
    hide DpcMoves, Switched, Steps, ActAll;
    MovesSwitch(pair, s.cpu, true);
    StepsMove(pair, s, 12);
  }

  /** One byte is traced, two flushers wait, one of them flushes. */
  ghost function FirstFlush(v: nat): seq<Flush> {
    [Own(Hardware(Emit(v, false))), Wait(0), Wait(1), Insert(0)]
  }

  /** The writer begins, another byte is traced, and the second flusher goes on from its wait. */
  ghost function SecondFlush(w: nat): seq<Flush> {
    [Own(WriterStep), Own(Hardware(Emit(w, false))), Insert(1)]
  }

  lemma {:induction false} FirstFlushActs(pair: Pair, noPMI: bool, s0: Cpu, v: nat) returns (c: Cpu, t: Shared)
    requires Apart(pair, noPMI) && |pair[0].tables| > 0 && Init(pair, s0) && s0.registers.traceEn
    ensures |pair| == 2 && ActAll(pair, Shared(s0, {}, false), FirstFlush(v)) == Some(t)
    ensures t == Shared(Queue(c), {1}, false) && Inv(pair, noPMI, c) && c.threads.dpc.Idle? && c.threads.ready
    ensures c.log == Log([v], [v], [], [], 0, 0) && c.info == s0.info && c.registers.traceEn
  {
    hide Apart, Inv, Do;
    var s := Shared(s0, {}, false);
    InitInv(pair, noPMI, s0);
    CanEmit(pair, noPMI, s0, 0, v);
    c := Do(pair, s0, Hardware(Emit(v, false))).value;
    StepKeeps(pair, noPMI, s0, Hardware(Emit(v, false)));
    var f := FirstFlush(v);
    assert [] + [v] == [v];
    var s1, s2, s3 := s.(cpu := c), Shared(c, {0}, false), Shared(c, {0, 1}, false);
    assert s1.waited + {0} == {0} && {0} + {1} == {0, 1} && {0, 1} - {0} == {1};
    t := Shared(Queue(c), {1}, false);
    Four(pair, s, s1, s2, s3, t, f);
  }

  lemma {:induction false} Four(pair: Pair, s: Shared, s1: Shared, s2: Shared, s3: Shared, t: Shared, f: seq<Flush>)
    requires |pair| == 2 && |f| == 4
    requires Act(pair, s, f[0]) == Some(s1) && Act(pair, s1, f[1]) == Some(s2)
    requires Act(pair, s2, f[2]) == Some(s3) && Act(pair, s3, f[3]) == Some(t)
    ensures ActAll(pair, s, f) == Some(t)
  {
    hide Act;
    assert f[3..][1..] == [] && f[2..][1..] == f[3..] && f[1..][1..] == f[2..];
    assert ActAll(pair, t, []) == Some(t);
    assert ActAll(pair, s3, f[3..]) == Some(t);
    assert ActAll(pair, s2, f[2..]) == Some(t);
    assert ActAll(pair, s1, f[1..]) == Some(t);
  }

  /** A reachable run with two flushers and nothing but forced flushes: the first byte is traced, and it is in
      no buffer, not waiting, not in the file and not given up. */
  lemma {:induction false} OverlapLoses(pair: Pair, noPMI: bool, s0: Cpu, v: nat, w: nat)
    requires Apart(pair, noPMI) && |pair[0].tables| > 0 && Init(pair, s0) && s0.registers.traceEn
    ensures |pair| == 2
    ensures var run := FirstFlush(v) + Steps(12) + SecondFlush(w) + Steps(12) + [Own(WriterStep)];
      var r := ActAll(pair, Shared(s0, {}, false), run);
      && r.Some? && r.value.cpu.threads.dpc.Idle?
      && r.value.cpu.log == Log([v, w], [], [], [w], 1, 0)
  {
    hide Apart, Inv, Act, ActAll, Steps, FirstFlush, SecondFlush;
    var s := Shared(s0, {}, false);
    var c, t1 := FirstFlushActs(pair, noPMI, s0, v);
    var t2 := AfterFirst(pair, noPMI, c, t1, v);
    Then(pair, s, FirstFlush(v), Steps(12));
    var d, t3 := SecondFlushActs(pair, noPMI, t2, v, w);
    Then(pair, s, FirstFlush(v) + Steps(12), SecondFlush(w));
    var t4 := AfterSecond(pair, noPMI, d, t3, v, w);
    Then(pair, s, FirstFlush(v) + Steps(12) + SecondFlush(w), Steps(12));
    Then(pair, s, FirstFlush(v) + Steps(12) + SecondFlush(w) + Steps(12), [Own(WriterStep)]);
  }

  /** The first exchange is timely: the invariant holds after it, and the writer has one byte to save. */
  lemma {:induction false} AfterFirst(pair: Pair, noPMI: bool, c: Cpu, t: Shared, v: nat) returns (r: Shared)
    requires |pair| == 2 && Apart(pair, noPMI)
    requires Inv(pair, noPMI, c) && c.threads.dpc.Idle? && c.threads.ready && t == Shared(Queue(c), {1}, false)
    requires c.log == Log([v], [v], [], [], 0, 0) && c.registers.traceEn && c.info == Fields(0, 1, 0, 1, 0, 1, 0, 1)
    ensures ActAll(pair, t, Steps(12)) == Some(r)
    ensures r.waited == {1} && !r.again && Inv(pair, noPMI, r.cpu) && |pair[1].tables| > 0
    ensures r.cpu.log == Log([v], [], [v], [], 0, 0) && r.cpu.registers == Registers(true, Start(pair[1]))
    ensures r.cpu.threads.dpc.Idle? && r.cpu.threads.writer.Waiting? && r.cpu.threads.initiateSave
  {
    hide Apart, Inv, ActAll, Steps, MaskPtrs, Start;
    ReadyRests(pair, noPMI, c);
    SwitchKeeps(pair, noPMI, c);
    WholeDpc(pair, t);
    r := t.(cpu := Switched(pair, t.cpu, true));
    assert [] + [v] == [v];
  }

  lemma {:induction false} ReadyRests(pair: Pair, noPMI: bool, c: Cpu)
    requires |pair| == 2 && Inv(pair, noPMI, c) && c.threads.ready
    ensures NothingToSave(c) && c.threads.writer.Waiting? && !c.threads.initiateSave
  {
    InvHolds(pair, noPMI, c);
  }

  lemma {:induction false} SecondFlushActs(pair: Pair, noPMI: bool, s: Shared, v: nat, w: nat)
    returns (c: Cpu, r: Shared)
    requires |pair| == 2 && Apart(pair, noPMI) && Inv(pair, noPMI, s.cpu) && |pair[1].tables| > 0
    requires s.waited == {1} && !s.again
    requires s.cpu.log == Log([v], [], [v], [], 0, 0) && s.cpu.registers == Registers(true, Start(pair[1]))
    requires s.cpu.threads.dpc.Idle? && s.cpu.threads.writer.Waiting? && s.cpu.threads.initiateSave
    ensures ActAll(pair, s, SecondFlush(w)) == Some(r)
    ensures Inv(pair, noPMI, c) && c.threads.dpc.Idle? && c.threads.writer.Saving?
    ensures r == Shared(Queue(c), {}, false) && c.log == Log([v, w], [w], [v], [], 0, 0)
  {
    hide Apart, Inv, Start;
    var c1 := WriterMove(pair, s.cpu).value;
    StepKeeps(pair, noPMI, s.cpu, WriterStep);
    CanEmit(pair, noPMI, c1, 1, w);
    c := Do(pair, c1, Hardware(Emit(w, false))).value;
    StepKeeps(pair, noPMI, c1, Hardware(Emit(w, false)));
    assert [v] + [w] == [v, w] && [] + [w] == [w];
    assert {1} - {1} == {};
    r := Shared(Queue(c), {}, false);
    Three(pair, s, s.(cpu := c1), s.(cpu := c), r, SecondFlush(w));
  }

  lemma {:induction false} Three(pair: Pair, s: Shared, s1: Shared, s2: Shared, t: Shared, f: seq<Flush>)
    requires |pair| == 2 && |f| == 3
    requires Act(pair, s, f[0]) == Some(s1) && Act(pair, s1, f[1]) == Some(s2) && Act(pair, s2, f[2]) == Some(t)
    ensures ActAll(pair, s, f) == Some(t)
  {
    hide Act;
    assert f[2..][1..] == [] && f[1..][1..] == f[2..];
    assert ActAll(pair, t, []) == Some(t);
    assert ActAll(pair, s2, f[2..]) == Some(t);
    assert ActAll(pair, s1, f[1..]) == Some(t);
  }

  /** The second exchange comes while the writer is saving. */
  lemma {:induction false} AfterSecond(pair: Pair, noPMI: bool, c: Cpu, s: Shared, v: nat, w: nat) returns (r: Shared)
    requires |pair| == 2 && Inv(pair, noPMI, c) && c.threads.dpc.Idle? && c.threads.writer.Saving?
    requires s == Shared(Queue(c), {}, false) && c.log == Log([v, w], [w], [v], [], 0, 0)
    ensures ActAll(pair, s, Steps(12)) == Some(r)
    ensures var q := ActAll(pair, r, [Own(WriterStep)]);
      q.Some? && q.value.cpu.threads.dpc.Idle? && q.value.cpu.log == Log([v, w], [], [], [w], 1, 0)
  {
    hide Inv, ActAll, Steps, WriterMove, MaskPtrs, Start;
    LateSwapLoses(pair, noPMI, c);
    WholeDpc(pair, s);
    r := s.(cpu := Switched(pair, s.cpu, true));
    One(pair, r, Own(WriterStep));
    assert [] + [w] == [w];
    WriterLeaves(pair, r.cpu);
  }

  lemma {:induction false} WriterLeaves(pair: Pair, s: Cpu)
    requires |pair| == 2 && WriterMove(pair, s).Some?
    ensures WriterMove(pair, s).value.threads.dpc == s.threads.dpc
  {
    hide WriterSize, Contents;
  }
}
