/** The double-buffer protocol of DBKKernel/ultimap2.c for one CPU in file mode: the trace hardware, the
    profiling interrupt, a flusher, the swap DPC and the writer thread take single steps in any order. */
module TraceBuffers {
  import opened Arithmetic
  import opened Options
  import opened Topa
  import opened TraceOutput

  /** The two tables and buffers that SetupUltimap2 makes for the CPU. */
  type Pair = seq<Layout>

  /** The next instruction group of SwitchToPABuffer. */
  datatype Dpc = Idle | Queued | Decided | Off | Cleared | SwappedBuffer | SwappedMdl | SwappedHeader
    | SwappedLookup | Captured | Signalled | Rebased | Rewound

  datatype Writer = Waiting | Saving | Saved

  /** The fields of ProcessorInfo that name a table or buffer; 0 or 1 is the number of the setupToPA call
      it came from. */
  datatype Fields = Fields(
    buffer: nat, buffer2: nat, mdl: nat, mdl2: nat, header: nat, header2: nat, lookup: nat, lookup2: nat)

  /** The trace registers. */
  datatype Registers = Registers(traceEn: bool, position: Position)

  /** What the hardware output: in all, since the last swap, swapped out but not yet saved; what the writer made
      of it, and how many bytes were given up. */
  datatype Log = Log(
    traced: seq<nat>, current: seq<nat>, pending: seq<nat>, file: seq<nat>, traceFileSize: nat, lost: nat)

  /** The events and the places of the threads. */
  datatype Threads = Threads(
    ready: bool, initiateSave: bool, flushing: bool, dpc: Dpc, writer: Writer)

  datatype Cpu = Cpu(
    info: Fields, threads: Threads, interrupted: bool, saveBase: nat, saveMask: nat, savedCtl: bool,
    registers: Registers, memory: map<nat, nat>, log: Log)

  datatype Action =
    | Hardware(event: Event)
    | ProfilingInterrupt
    | Pause
    | Resume
    | WaitAndQueueDpc
    | DpcStep(flushAll: bool)
    | DpcsFlushed
    | WriterStep

  // ---- memory ----

  function ReadMemory(m: map<nat, nat>, a: nat): nat {
    if a in m then m[a] else 0
  }

  /** The first k bytes of a buffer. */
  function Contents(m: map<nat, nat>, pages: seq<nat>, k: nat): (s: seq<nat>)
    requires k <= |pages| * 4096
    ensures |s| == k
  {
    seq(k, i requires 0 <= i < k => ReadMemory(m, LinearAddress(pages, i)))
  }

  function StoreAll(m: map<nat, nat>, ws: seq<Write>): map<nat, nat> {
    if ws == [] then m else StoreAll(m, ws[..|ws| - 1])[ws[|ws| - 1].address := ws[|ws| - 1].value]
  }

  function Values(ws: seq<Write>): (vs: seq<nat>)
    ensures |vs| == |ws|
  {
    seq(|ws|, i requires 0 <= i < |ws| => ws[i].value)
  }

  // ---- single steps ----

  /** The table whose memory the hardware reads its entries from. */
  function OwnerOf(pair: Pair, base: nat): nat
    requires |pair| == 2
  {
    if base in pair[0].tables then 0 else 1
  }

  /** SwitchToPABuffer returns early. */
  predicate TooLittle(s: Cpu, flushAll: bool) {
    !s.interrupted && !flushAll && s.registers.position.index < 2
  }

  /** SwitchToPABuffer, one instruction group at a time. */
  function DpcMove(pair: Pair, s: Cpu, flushAll: bool): Option<Cpu>
    requires |pair| == 2
  {
    var i, t, r := s.info, s.threads, s.registers;
    match t.dpc
    case Idle => None
    case Queued =>
      if TooLittle(s, flushAll) then Some(s.(threads := t.(dpc := Idle)))
      else Some(s.(threads := t.(dpc := Decided), savedCtl := r.traceEn))
    case Decided =>
      Some(s.(threads := t.(dpc := Off), registers := Registers(false, r.position.(stopped := false))))
    case Off => Some(s.(threads := t.(dpc := Cleared, ready := false)))
    case Cleared => Some(s.(threads := t.(dpc := SwappedBuffer), info := Swap(i, t.dpc)))
    case SwappedBuffer => Some(s.(threads := t.(dpc := SwappedMdl), info := Swap(i, t.dpc)))
    case SwappedMdl => Some(s.(threads := t.(dpc := SwappedHeader), info := Swap(i, t.dpc)))
    case SwappedHeader => Some(s.(threads := t.(dpc := SwappedLookup), info := Swap(i, t.dpc)))
    case SwappedLookup =>
      Some(s.(threads := t.(dpc := Captured), saveBase := r.position.base, saveMask := MaskPtrs(r.position, 127),
              log := SwapOut(s.log)))
    case Captured => Some(s.(threads := t.(dpc := Signalled, initiateSave := true)))
    case Signalled =>
      if i.header < 2 && |pair[i.header].tables| > 0 then
        Some(s.(threads := t.(dpc := Rebased), interrupted := false,
                registers := r.(position := r.position.(base := pair[i.header].tables[0]))))
      else None
    case Rebased =>
      Some(s.(threads := t.(dpc := Rewound), registers := r.(position := r.position.(index := 0, offset := 0))))
    case Rewound => Some(s.(threads := t.(dpc := Idle), registers := r.(traceEn := s.savedCtl)))
  }

  /** The exchange of two fields that follows each stage. */
  function Swap(i: Fields, d: Dpc): Fields {
    match d
    case Cleared => i.(buffer := i.buffer2, buffer2 := i.buffer)
    case SwappedBuffer => i.(mdl := i.mdl2, mdl2 := i.mdl)
    case SwappedMdl => i.(header := i.header2, header2 := i.header)
    case SwappedHeader => i.(lookup := i.lookup2, lookup2 := i.lookup)
    case _ => i
  }

  /** Everything output since the last swap is now swapped out. */
  function SwapOut(log: Log): Log {
    log.(pending := log.pending + log.current, current := [])
  }

  /** The hardware starts again at the first table; what it wrote since the last swap is given up. */
  function GiveUp(log: Log): Log {
    log.(lost := log.lost + |log.current|, current := [])
  }

  /** ZwWriteFile of the given bytes. */
  function Append(log: Log, bytes: seq<nat>): Log {
    log.(file := log.file + bytes, traceFileSize := log.traceFileSize + |bytes|, pending := [])
  }

  /** WriteThreadForSpecificCPU, one instruction group at a time. */
  function WriterMove(pair: Pair, s: Cpu): Option<Cpu>
    requires |pair| == 2
  {
    var i, t := s.info, s.threads;
    match t.writer
    case Waiting =>
      if t.initiateSave then Some(s.(threads := t.(writer := Saving, initiateSave := false))) else None
    case Saving =>
      if i.lookup2 >= 2 || i.buffer2 >= 2 then None
      else
        (match WriterSize(pair[i.lookup2].lookup, s.saveBase, s.saveMask)
         case None => Some(s.(threads := t.(writer := Saved)))
         case Some(size) =>
           if size > |pair[i.buffer2].pages| * 4096 then None
           else
             Some(s.(threads := t.(writer := Saved),
                     log := Append(s.log, Contents(s.memory, pair[i.buffer2].pages, size)))))
    case Saved => Some(s.(threads := t.(writer := Waiting, ready := true)))
  }

  /** The hardware has moved on and stored its bytes. */
  function Output(s: Cpu, o: Outcome): Cpu {
    var bytes := Values(o.writes);
    s.(registers := s.registers.(position := o.position), memory := StoreAll(s.memory, o.writes),
       log := s.log.(traced := s.log.traced + bytes, current := s.log.current + bytes))
  }

  ghost function Do(pair: Pair, s: Cpu, a: Action): Option<Cpu>
    requires |pair| == 2
  {
    var t, r := s.threads, s.registers;
    match a
    case Hardware(ev) =>
      if !r.traceEn then None
      else
        (match Step(pair[OwnerOf(pair, r.position.base)], r.position, ev)
         case None => None
         case Some(o) => Some(Output(s, o)))
    case ProfilingInterrupt => Some(s.(interrupted := true))
    case Pause => if t.dpc.Idle? || t.dpc.Queued? then Some(s.(registers := r.(traceEn := false))) else None
    case Resume =>
      if (t.dpc.Idle? || t.dpc.Queued?) && s.info.header < 2 && |pair[s.info.header].tables| > 0 then
        Some(s.(registers := Registers(true, Start(pair[s.info.header])), log := GiveUp(s.log)))
      else None
    case WaitAndQueueDpc =>
      if t.flushing || !t.ready then None else Some(s.(threads := t.(flushing := true, dpc := Queued)))
    case DpcStep(flushAll) => DpcMove(pair, s, flushAll)
    case DpcsFlushed => if t.flushing && t.dpc.Idle? then Some(s.(threads := t.(flushing := false))) else None
    case WriterStep => WriterMove(pair, s)
  }

  ghost function RunAll(pair: Pair, s: Cpu, actions: seq<Action>): Option<Cpu>
    requires |pair| == 2
  {
    if actions == [] then Some(s)
    else
      match RunAll(pair, s, actions[..|actions| - 1])
      case None => None
      case Some(t) => Do(pair, t, actions[|actions| - 1])
  }

  // ---- the invariant ----

  /** Page-aligned buffers, no page or table shared between the two. */
  ghost predicate Apart(pair: Pair, noPMI: bool) {
    && |pair| == 2
    && (forall k | 0 <= k < 2 :: Built(pair[k], noPMI))
    && (forall k, i | 0 <= k < 2 && 0 <= i < |pair[k].pages| :: pair[k].pages[i] % 4096 == 0)
    && (forall k | 0 <= k < 2 :: Distinct(pair[k].pages))
    && (forall p | p in pair[0].pages :: p !in pair[1].pages)
    && (forall t | t in pair[0].tables :: t !in pair[1].tables)
  }

  /** How far the DPC is. */
  function Rank(d: Dpc): nat {
    match d
    case Idle => 0
    case Queued => 1
    case Decided => 2
    case Off => 3
    case Cleared => 4
    case SwappedBuffer => 5
    case SwappedMdl => 6
    case SwappedHeader => 7
    case SwappedLookup => 8
    case Captured => 9
    case Signalled => 10
    case Rebased => 11
    case Rewound => 12
  }

  /** The first field of a pair names the table the hardware points at, the second the other one; the other
      way round between the swap of that pair (at rank `since`) and the reload of the base register. */
  predicate Names(first: nat, second: nat, hw: nat, d: Dpc, since: nat)
    requires hw < 2
  {
    && first == (if since <= Rank(d) <= 10 then 1 - hw else hw)
    && second == 1 - first
  }

  /** Buffer, MDL, header and lookup table move together. */
  predicate Together(i: Fields, d: Dpc, hw: nat) {
    hw < 2 && BuffersTogether(i, d, hw) && TablesTogether(i, d, hw)
  }

  predicate BuffersTogether(i: Fields, d: Dpc, hw: nat)
    requires hw < 2
  {
    Names(i.buffer, i.buffer2, hw, d, 5) && Names(i.mdl, i.mdl2, hw, d, 6)
  }

  predicate TablesTogether(i: Fields, d: Dpc, hw: nat)
    requires hw < 2
  {
    Names(i.header, i.header2, hw, d, 7) && Names(i.lookup, i.lookup2, hw, d, 8)
  }

  /** A DPC is never in the queue or running without a flusher that waits for it. */
  predicate Orderly(t: Threads) {
    !t.dpc.Idle? ==> t.flushing
  }

  /** The DPC is queued only after the writer has finished, and the writer starts only when it is told to. */
  predicate Handshake(t: Threads, traceEn: bool) {
    && (t.ready ==> t.writer.Waiting? && !t.initiateSave && (Rank(t.dpc) <= 3 || Rank(t.dpc) >= 10))
    && (1 <= Rank(t.dpc) <= 3 ==> t.ready)
    && (4 <= Rank(t.dpc) <= 9 ==> t.writer.Waiting? && !t.initiateSave)
    && (t.initiateSave ==> t.writer.Waiting?)
    && Orderly(t)
    && (Rank(t.dpc) >= 3 ==> !traceEn)
  }

  /** The registers agree with the number of bytes output since the last swap. */
  ghost predicate Counted(l: Layout, d: Dpc, p: Position, count: nat)
    requires |l.pages| > 0
  {
    && p.base in l.tables
    && (Rank(d) <= 2 ==> Denotes(l, p, count))
    && (3 <= Rank(d) <= 8 ==> Denotes(l, p.(stopped := true), count))
    && (Rank(d) >= 3 ==> !p.stopped)
    && (Rank(d) >= 9 ==> count == 0)
    && (Rank(d) >= 11 ==> p.base == l.tables[0])
    && (Rank(d) == 12 ==> p.index == 0 && p.offset == 0)
  }

  /** The buffer begins with these bytes. */
  ghost predicate Holds(l: Layout, memory: map<nat, nat>, bytes: seq<nat>) {
    |bytes| <= |l.pages| * 4096 && bytes == Contents(memory, l.pages, |bytes|)
  }

  predicate SavePending(t: Threads) {
    t.dpc.Captured? || t.initiateSave || t.writer.Saving?
  }

  /** The bytes that were swapped out are still in the second buffer, and the saved registers give their number. */
  ghost predicate Kept(pair: Pair, s: Cpu)
    requires |pair| == 2
  {
    if SavePending(s.threads) then
      && s.info.buffer2 < 2 && s.info.lookup2 < 2
      && WriterSize(pair[s.info.lookup2].lookup, s.saveBase, s.saveMask) == Some(|s.log.pending|)
      && Holds(pair[s.info.buffer2], s.memory, s.log.pending)
    else s.log.pending == []
  }

  /** Nothing is duplicated or reordered, and nothing is missing but what was given up. */
  predicate Conserved(log: Log) {
    && |log.traced| == |log.file| + |log.pending| + |log.current| + log.lost
    && (log.lost == 0 ==> log.traced == log.file + log.pending + log.current)
    && log.traceFileSize == |log.file|
  }

  ghost predicate Inv(pair: Pair, noPMI: bool, s: Cpu) {
    && Apart(pair, noPMI)
    && var hw := OwnerOf(pair, s.registers.position.base);
    && Together(s.info, s.threads.dpc, hw) && Handshake(s.threads, s.registers.traceEn)
    && Counted(pair[hw], s.threads.dpc, s.registers.position, |s.log.current|)
    && Holds(pair[hw], s.memory, s.log.current)
    && Kept(pair, s) && Conserved(s.log)
  }

  /** After SetupUltimap2: the first pair is traced into, Buffer2ReadyForSwap is signalled. */
  ghost predicate Init(pair: Pair, s: Cpu)
    requires |pair| == 2 && |pair[0].tables| > 0
  {
    && s.info == Fields(0, 1, 0, 1, 0, 1, 0, 1)
    && s.threads == Threads(true, false, false, Idle, Waiting)
    && s.registers.position == Start(pair[0])
    && s.log == Log([], [], [], [], 0, 0)
  }

  lemma {:induction false} ApartFacts(pair: Pair, noPMI: bool)
    requires Apart(pair, noPMI)
    ensures forall k | 0 <= k < 2 :: |pair[k].pages| > 0 && |pair[k].tables| > 0 && Built(pair[k], noPMI)
  {
    StartDenotes(pair[0], noPMI);
    StartDenotes(pair[1], noPMI);
  }

  /** The owner of a table base. */
  lemma {:induction false} OwnerIs(pair: Pair, noPMI: bool, base: nat, k: nat)
    requires Apart(pair, noPMI) && k < 2 && base in pair[k].tables
    ensures OwnerOf(pair, base) == k
  {
  }

  lemma {:induction false} DenotesBase(pair: Pair, noPMI: bool, k: nat, p: Position, c: nat)
    requires Apart(pair, noPMI) && k < 2 && |pair[k].pages| > 0 && Denotes(pair[k], p, c)
    ensures p.base in pair[k].tables && OwnerOf(pair, p.base) == k
  {
    assert Built(pair[k], noPMI);
    assert pair[k].tables[pair[k].lookup[p.base]] == p.base;
    OwnerIs(pair, noPMI, p.base, k);
  }

  lemma {:induction false} InitInv(pair: Pair, noPMI: bool, s: Cpu)
    requires Apart(pair, noPMI) && |pair[0].tables| > 0 && Init(pair, s)
    ensures Inv(pair, noPMI, s)
  {
    ApartFacts(pair, noPMI);
    StartDenotes(pair[0], noPMI);
    DenotesBase(pair, noPMI, 0, s.registers.position, 0);
  }

  // ---- memory lemmas ----

  lemma {:induction false} SameAddress(pair: Pair, noPMI: bool, j: nat, k: nat, c: nat, i: nat)
    requires Apart(pair, noPMI) && j < 2 && k < 2
    requires c / 4096 < |pair[j].pages| && i / 4096 < |pair[k].pages|
    ensures LinearAddress(pair[j].pages, c) == LinearAddress(pair[k].pages, i) <==> j == k && c == i
  {
    var p, q := pair[j].pages[c / 4096], pair[k].pages[i / 4096];
    if p + c % 4096 == q + i % 4096 {
      assert p == q;
      assert p in pair[j].pages && q in pair[k].pages;
    }
  }

  /** A byte stored at place c of buffer j extends that buffer's first c bytes and leaves the other's alone. */
  lemma {:induction false} StoreByte(pair: Pair, noPMI: bool, j: nat, c: nat, m: map<nat, nat>, value: nat, k: nat,
                                     len: nat)
    requires Apart(pair, noPMI) && j < 2 && k < 2
    requires c < |pair[j].pages| * 4096 && len <= |pair[k].pages| * 4096
    ensures var m' := m[LinearAddress(pair[j].pages, c) := value];
      && Contents(m', pair[j].pages, c + 1) == Contents(m, pair[j].pages, c) + [value]
      && (k != j ==> Contents(m', pair[k].pages, len) == Contents(m, pair[k].pages, len))
  {
    var m' := m[LinearAddress(pair[j].pages, c) := value];
    forall i | 0 <= i < c
      ensures LinearAddress(pair[j].pages, i) != LinearAddress(pair[j].pages, c)
    {
      SameAddress(pair, noPMI, j, j, c, i);
    }
    if k != j {
      forall i | 0 <= i < len
        ensures LinearAddress(pair[k].pages, i) != LinearAddress(pair[j].pages, c)
      {
        SameAddress(pair, noPMI, j, k, c, i);
      }
    }
  }

  // ---- every step keeps the invariant ----

  /** What one hardware step stores: nothing, or the next byte of the buffer. */
  ghost predicate NextByte(l: Layout, c: nat, ws: seq<Write>) {
    || ws == []
    || (c < |l.pages| * 4096 && c / 4096 < |l.pages| && |ws| == 1 && ws[0].address == LinearAddress(l.pages, c))
  }

  lemma {:induction false} OutputBytes(pair: Pair, noPMI: bool, k: nat, m: map<nat, nat>, c: nat, ws: seq<Write>,
                                       other: nat, len: nat)
    requires Apart(pair, noPMI) && k < 2 && other < 2 && other != k && NextByte(pair[k], c, ws)
    requires c <= |pair[k].pages| * 4096 && len <= |pair[other].pages| * 4096
    ensures |ws| <= 1 && c + |ws| <= |pair[k].pages| * 4096
    ensures Contents(StoreAll(m, ws), pair[k].pages, c + |ws|) == Contents(m, pair[k].pages, c) + Values(ws)
    ensures Contents(StoreAll(m, ws), pair[other].pages, len) == Contents(m, pair[other].pages, len)
  {
    if ws == [] {
      assert Contents(m, pair[k].pages, c) + Values(ws) == Contents(m, pair[k].pages, c);
    } else {
      assert ws[..0] == [];
      assert StoreAll(m, ws) == m[ws[0].address := ws[0].value];
      assert Values(ws) == [ws[0].value];
      hide Contents, Apart;
      StoreByte(pair, noPMI, k, c, m, ws[0].value, other, len);
    }
  }

  lemma {:induction false} HardwareKeeps(pair: Pair, noPMI: bool, s: Cpu, ev: Event)
    requires |pair| == 2 && Inv(pair, noPMI, s) && Do(pair, s, Hardware(ev)).Some?
    ensures Inv(pair, noPMI, Do(pair, s, Hardware(ev)).value)
  {
    hide Apart, Built, Step, Denotes, OwnerOf, Contents, LinearAddress, Kept, Names, Conserved, Output, NextByte;
    var p, log := s.registers.position, s.log;
    var hw := OwnerOf(pair, p.base);
    ApartFacts(pair, noPMI);
    var o := Step(pair[hw], p, ev).value;
    StepNext(pair[hw], noPMI, p, |log.current|, ev);
    DenotesBase(pair, noPMI, hw, o.position, |log.current| + |o.writes|);
    OutputKeeps(pair, noPMI, s, hw, o);
  }

  lemma {:induction false} StepNext(l: Layout, noPMI: bool, p: Position, c: nat, ev: Event)
    requires Built(l, noPMI) && |l.pages| > 0 && Denotes(l, p, c) && Step(l, p, ev).Some?
    ensures var o := Step(l, p, ev).value;
      Denotes(l, o.position, c + |o.writes|) && NextByte(l, c, o.writes)
  {
    hide Built, Step, Denotes;
    StepDenotes(l, noPMI, p, c, ev);
  }

  lemma {:induction false} OutputKeeps(pair: Pair, noPMI: bool, s: Cpu, hw: nat, o: Outcome)
    requires |pair| == 2 && Inv(pair, noPMI, s) && OwnerOf(pair, s.registers.position.base) == hw && hw < 2
    requires OwnerOf(pair, o.position.base) == hw && o.position.base in pair[hw].tables && |pair[hw].pages| > 0
    requires Denotes(pair[hw], o.position, |s.log.current| + |o.writes|)
    requires NextByte(pair[hw], |s.log.current|, o.writes) && s.registers.traceEn
    ensures Inv(pair, noPMI, Output(s, o))
  {
    hide Apart, Denotes, OwnerOf, Contents, StoreAll, WriterSize, NextByte, BuffersTogether, TablesTogether;
    hide Conserved;
    var log := s.log;
    ApartFacts(pair, noPMI);
    SecondBuffer(s.info, s.threads.dpc, hw);
    OutputBytes(pair, noPMI, hw, s.memory, |log.current|, o.writes, 1 - hw,
                if SavePending(s.threads) then |log.pending| else 0);
    OutputConserves(log, Values(o.writes));
  }

  lemma {:induction false} OutputConserves(log: Log, bytes: seq<nat>)
    requires Conserved(log)
    ensures Conserved(log.(traced := log.traced + bytes, current := log.current + bytes))
  {
    assert log.file + log.pending + log.current + bytes == log.file + log.pending + (log.current + bytes);
  }

  lemma {:induction false} SecondBuffer(i: Fields, d: Dpc, hw: nat)
    requires Together(i, d, hw) && Rank(d) <= 2
    ensures i.buffer2 == 1 - hw
  {
  }

  lemma {:induction false} StoppedDenotes(l: Layout, p: Position, c: nat)
    requires |l.pages| > 0 && Denotes(l, p, c)
    ensures Denotes(l, p.(stopped := true), c)
    ensures Denotes(l, p.(stopped := false).(stopped := true), c)
  {
  }

  /** The table the hardware points at after a DPC step. */
  function NextHw(d: Dpc, hw: nat): nat
    requires hw < 2
  {
    if d.Signalled? then 1 - hw else hw
  }

  lemma {:induction false} DpcCountedEarly(pair: Pair, noPMI: bool, s: Cpu, flushAll: bool, hw: nat)
    requires |pair| == 2 && DpcMove(pair, s, flushAll).Some? && hw < 2
    requires |pair[0].pages| > 0 && |pair[1].pages| > 0 && |pair[1 - hw].tables| > 0 && |pair[hw].tables| > 0
    requires Counted(pair[hw], s.threads.dpc, s.registers.position, |s.log.current|)
    requires Rank(s.threads.dpc) < 8
    ensures var s' := DpcMove(pair, s, flushAll).value;
      && Counted(pair[NextHw(s.threads.dpc, hw)], s'.threads.dpc, s'.registers.position, |s'.log.current|)
      && (s'.log.current == s.log.current || s'.log.current == [])
      && (s.threads.dpc.Signalled? ==> s'.log.current == [])
  {
    hide MaskPtrs, Denotes, Swap, SwapOut, TooLittle;
    if s.threads.dpc.Decided? {
      StoppedDenotes(pair[hw], s.registers.position, |s.log.current|);
    }
  }

  lemma {:induction false} DpcCountedSave(pair: Pair, noPMI: bool, s: Cpu, flushAll: bool, hw: nat)
    requires |pair| == 2 && DpcMove(pair, s, flushAll).Some? && hw < 2
    requires |pair[0].pages| > 0 && |pair[1].pages| > 0 && |pair[1 - hw].tables| > 0 && |pair[hw].tables| > 0
    requires Counted(pair[hw], s.threads.dpc, s.registers.position, |s.log.current|)
    requires 8 <= Rank(s.threads.dpc) <= 9
    ensures var s' := DpcMove(pair, s, flushAll).value;
      && Counted(pair[NextHw(s.threads.dpc, hw)], s'.threads.dpc, s'.registers.position, |s'.log.current|)
      && (s'.log.current == s.log.current || s'.log.current == [])
      && (s.threads.dpc.Signalled? ==> s'.log.current == [])
  {
    hide MaskPtrs, Denotes, Swap, TooLittle;
  }

  lemma {:induction false} DpcCountedRewind(pair: Pair, noPMI: bool, s: Cpu, flushAll: bool, hw: nat)
    requires |pair| == 2 && DpcMove(pair, s, flushAll).Some? && hw < 2
    requires |pair[0].pages| > 0 && |pair[1].pages| > 0 && |pair[1 - hw].tables| > 0 && |pair[hw].tables| > 0
    requires Counted(pair[hw], s.threads.dpc, s.registers.position, |s.log.current|)
    requires Rank(s.threads.dpc) >= 10 && Denotes(pair[hw], Start(pair[hw]), 0)
    requires s.info.header == (if 7 <= Rank(s.threads.dpc) <= 10 then 1 - hw else hw)
    ensures var s' := DpcMove(pair, s, flushAll).value;
      && Counted(pair[NextHw(s.threads.dpc, hw)], s'.threads.dpc, s'.registers.position, |s'.log.current|)
      && (s'.log.current == s.log.current || s'.log.current == [])
      && (s.threads.dpc.Signalled? ==> s'.log.current == [])
  {
    hide MaskPtrs, Denotes, Swap, SwapOut, TooLittle;
  }

  lemma {:induction false} DpcKept(pair: Pair, s: Cpu, flushAll: bool, hw: nat)
    requires |pair| == 2 && DpcMove(pair, s, flushAll).Some? && hw < 2
    requires |pair[0].pages| > 0 && |pair[1].pages| > 0
    requires Counted(pair[hw], s.threads.dpc, s.registers.position, |s.log.current|)
    requires Holds(pair[hw], s.memory, s.log.current)
    requires Kept(pair, s) && Together(s.info, s.threads.dpc, hw) && Handshake(s.threads, s.registers.traceEn)
    ensures Kept(pair, DpcMove(pair, s, flushAll).value)
  {
    hide Denotes, Holds, WriterSize;
    if s.threads.dpc.SwappedLookup? {
      var p := s.registers.position;
      SizeOfPosition(pair[hw], p.(stopped := true), |s.log.current|, 127);
      assert MaskPtrs(p, 127) == MaskPtrs(p.(stopped := true), 127);
      assert s.log.pending == [];
      assert [] + s.log.current == s.log.current;
    }
  }

  lemma {:induction false} DpcSwaps(pair: Pair, s: Cpu, flushAll: bool)
    requires |pair| == 2 && DpcMove(pair, s, flushAll).Some?
    ensures DpcMove(pair, s, flushAll).value.info == Swap(s.info, s.threads.dpc) && !s.threads.dpc.Idle?
  {
    hide MaskPtrs, SwapOut;
  }

  /** The stages follow each other; only the first may be left early. */
  lemma {:induction false} DpcStage(pair: Pair, s: Cpu, flushAll: bool)
    requires |pair| == 2 && DpcMove(pair, s, flushAll).Some?
    ensures FollowedBy(s.threads.dpc, DpcMove(pair, s, flushAll).value.threads.dpc)
  {
    hide MaskPtrs, SwapOut, Swap, TooLittle;
  }

  predicate FollowedBy(d: Dpc, d': Dpc) {
    match d
    case Idle => false
    case Queued => d'.Idle? || d'.Decided?
    case Decided => d'.Off?
    case Off => d'.Cleared?
    case Cleared => d'.SwappedBuffer?
    case SwappedBuffer => d'.SwappedMdl?
    case SwappedMdl => d'.SwappedHeader?
    case SwappedHeader => d'.SwappedLookup?
    case SwappedLookup => d'.Captured?
    case Captured => d'.Signalled?
    case Signalled => d'.Rebased?
    case Rebased => d'.Rewound?
    case Rewound => d'.Idle?
  }

  lemma {:induction false} SwapTogether(i: Fields, d: Dpc, hw: nat, d': Dpc)
    requires Together(i, d, hw) && FollowedBy(d, d')
    ensures Together(Swap(i, d), d', NextHw(d, hw))
  {
  }

  lemma {:induction false} DpcLog(pair: Pair, s: Cpu, flushAll: bool)
    requires |pair| == 2 && DpcMove(pair, s, flushAll).Some?
    ensures var s' := DpcMove(pair, s, flushAll).value;
      s'.memory == s.memory && (s'.log == s.log || s'.log == SwapOut(s.log))
  {
    hide MaskPtrs, SwapOut;
  }

  lemma {:induction false} DpcHandshake(pair: Pair, s: Cpu, flushAll: bool)
    requires |pair| == 2 && DpcMove(pair, s, flushAll).Some? && Handshake(s.threads, s.registers.traceEn)
    ensures Handshake(DpcMove(pair, s, flushAll).value.threads, DpcMove(pair, s, flushAll).value.registers.traceEn)
  {
    hide MaskPtrs, SwapOut, Swap, TooLittle;
  }

  lemma {:induction false} EmptyHolds(l: Layout, memory: map<nat, nat>)
    ensures Holds(l, memory, [])
  {
  }

  lemma {:induction false} SwapConserves(log: Log)
    requires Conserved(log)
    ensures Conserved(SwapOut(log))
  {
    assert log.file + log.pending + log.current == log.file + (log.pending + log.current) + [];
  }

  lemma {:induction false} DpcKeeps(pair: Pair, noPMI: bool, s: Cpu, flushAll: bool)
    requires |pair| == 2 && Inv(pair, noPMI, s) && DpcMove(pair, s, flushAll).Some?
    ensures Inv(pair, noPMI, DpcMove(pair, s, flushAll).value)
  {
    hide Apart, Built, OwnerOf, FollowedBy, BuffersTogether, TablesTogether, Handshake, Denotes, Holds, Kept;
    hide Conserved, DpcMove, SwapOut;
    var hw := OwnerOf(pair, s.registers.position.base);
    var s' := DpcMove(pair, s, flushAll).value;
    ApartFacts(pair, noPMI);
    HeaderOf(s.info, s.threads.dpc, hw);
    StartDenotes(pair[hw], noPMI);
    DpcSwaps(pair, s, flushAll);
    DpcStage(pair, s, flushAll);
    SwapTogether(s.info, s.threads.dpc, hw, s'.threads.dpc);
    DpcLog(pair, s, flushAll);
    DpcHandshake(pair, s, flushAll);
    if Rank(s.threads.dpc) < 8 {
      DpcCountedEarly(pair, noPMI, s, flushAll, hw);
    } else if Rank(s.threads.dpc) < 10 {
      DpcCountedSave(pair, noPMI, s, flushAll, hw);
    } else {
      DpcCountedRewind(pair, noPMI, s, flushAll, hw);
    }
    DpcKept(pair, s, flushAll, hw);
    SwapConserves(s.log);
    EmptyHolds(pair[NextHw(s.threads.dpc, hw)], s.memory);
    OwnerIs(pair, noPMI, s'.registers.position.base, NextHw(s.threads.dpc, hw));
  }

  lemma {:induction false} HeaderOf(i: Fields, d: Dpc, hw: nat)
    requires Together(i, d, hw)
    ensures i.header == (if 7 <= Rank(d) <= 10 then 1 - hw else hw)
  {
  }

  lemma {:induction false} WriterParts(pair: Pair, s: Cpu)
    requires |pair| == 2 && WriterMove(pair, s).Some? && Kept(pair, s) && Conserved(s.log)
    requires Handshake(s.threads, s.registers.traceEn)
    ensures var s' := WriterMove(pair, s).value;
      && Kept(pair, s') && Conserved(s'.log) && Handshake(s'.threads, s'.registers.traceEn)
      && s' == s.(threads := s'.threads, log := s'.log)
      && s'.threads.dpc == s.threads.dpc && s'.log.current == s.log.current
  {
    hide WriterSize, Contents;
    var log := s.log;
    assert log.file + log.pending + [] + log.current == log.file + log.pending + log.current;
  }

  lemma {:induction false} WriterKeeps(pair: Pair, noPMI: bool, s: Cpu)
    requires |pair| == 2 && Inv(pair, noPMI, s) && WriterMove(pair, s).Some?
    ensures Inv(pair, noPMI, WriterMove(pair, s).value)
  {
    hide Apart, OwnerOf, WriterMove, Together, Handshake, Counted, Kept, Conserved, Holds;
    ApartFacts(pair, noPMI);
    WriterParts(pair, s);
  }

  lemma {:induction false} GiveUpConserves(log: Log)
    requires Conserved(log)
    ensures Conserved(GiveUp(log))
  {
    assert log.current == [] ==> log.file + log.pending + [] == log.file + log.pending + log.current;
  }

  lemma {:induction false} ResumeKeeps(pair: Pair, noPMI: bool, s: Cpu)
    requires |pair| == 2 && Inv(pair, noPMI, s) && Do(pair, s, Resume).Some?
    ensures Inv(pair, noPMI, Do(pair, s, Resume).value)
  {
    hide Apart, Built, OwnerOf, BuffersTogether, TablesTogether, Denotes, Holds, WriterSize, Conserved;
    var hw := OwnerOf(pair, s.registers.position.base);
    ApartFacts(pair, noPMI);
    HeaderOf(s.info, s.threads.dpc, hw);
    StartDenotes(pair[hw], noPMI);
    DenotesBase(pair, noPMI, hw, Start(pair[hw]), 0);
    EmptyHolds(pair[hw], s.memory);
    GiveUpConserves(s.log);
  }

  lemma {:induction false} StepKeeps(pair: Pair, noPMI: bool, s: Cpu, a: Action)
    requires |pair| == 2 && Inv(pair, noPMI, s) && Do(pair, s, a).Some?
    ensures Inv(pair, noPMI, Do(pair, s, a).value)
  {
    hide Apart, OwnerOf, Step, DpcMove, WriterMove, Denotes, Contents, WriterSize;
    match a
    case Hardware(ev) => HardwareKeeps(pair, noPMI, s, ev);
    case ProfilingInterrupt =>
    case Pause =>
    case Resume => ResumeKeeps(pair, noPMI, s);
    case WaitAndQueueDpc =>
    case DpcStep(flushAll) => DpcKeeps(pair, noPMI, s, flushAll);
    case DpcsFlushed =>
    case WriterStep => WriterKeeps(pair, noPMI, s);
  }

  lemma {:induction false} RunKeeps(pair: Pair, noPMI: bool, s: Cpu, actions: seq<Action>)
    requires |pair| == 2 && Inv(pair, noPMI, s) && RunAll(pair, s, actions).Some?
    ensures Inv(pair, noPMI, RunAll(pair, s, actions).value)
  {
    if actions != [] {
      hide Inv, Do;
      RunKeeps(pair, noPMI, s, actions[..|actions| - 1]);
      StepKeeps(pair, noPMI, RunAll(pair, s, actions[..|actions| - 1]).value, actions[|actions| - 1]);
    }
  }

  // ---- what a reader may rely on in every reachable state ----

  /** Traced into, and saved from, are different buffers whenever the hardware can write; the bytes to be saved
      lie untouched in the second buffer. */
  ghost predicate BuffersDiffer(pair: Pair, s: Cpu)
    requires |pair| == 2
  {
    SavePending(s.threads) ==>
      && s.info.buffer2 < 2
      && (s.registers.traceEn ==> OwnerOf(pair, s.registers.position.base) == 1 - s.info.buffer2)
      && Holds(pair[s.info.buffer2], s.memory, s.log.pending)
  }

  /** Outside the swap itself, one number names the buffer, MDL, header and lookup table traced into, and the
      other number names the four kept in reserve. */
  ghost predicate OneSide(pair: Pair, s: Cpu)
    requires |pair| == 2
  {
    var hw := OwnerOf(pair, s.registers.position.base);
    s.threads.dpc.Idle? || s.threads.dpc.Queued? ==>
      s.info == Fields(hw, 1 - hw, hw, 1 - hw, hw, 1 - hw, hw, 1 - hw)
  }

  lemma {:induction false} SafeForever(pair: Pair, noPMI: bool, s0: Cpu, actions: seq<Action>)
    requires Apart(pair, noPMI) && |pair[0].tables| > 0 && Init(pair, s0) && RunAll(pair, s0, actions).Some?
    ensures var s := RunAll(pair, s0, actions).value;
      && BuffersDiffer(pair, s) && OneSide(pair, s)
      && |s.log.traced| == |s.log.file| + |s.log.pending| + |s.log.current| + s.log.lost
      && (s.log.lost == 0 ==> s.log.traced == s.log.file + s.log.pending + s.log.current)
      && s.log.traceFileSize == |s.log.file|
      && (s.threads.dpc.SwappedLookup? ==> s.log.pending == [])
      && (s.log.lost == 0 && s.log.current == [] && !SavePending(s.threads) ==> s.log.file == s.log.traced)
  {
    InitInv(pair, noPMI, s0);
    RunKeeps(pair, noPMI, s0, actions);
    Consequences(pair, noPMI, RunAll(pair, s0, actions).value);
  }

  lemma {:induction false} Consequences(pair: Pair, noPMI: bool, s: Cpu)
    requires Inv(pair, noPMI, s) && |pair| == 2
    ensures BuffersDiffer(pair, s) && OneSide(pair, s) && Conserved(s.log)
    ensures s.threads.dpc.SwappedLookup? ==> s.log.pending == []
    ensures !SavePending(s.threads) ==> s.log.pending == []
  {
    hide Apart, OwnerOf, Holds, WriterSize, Denotes;
  }

  /** The writer always recognises the saved base, and it appends exactly the bytes swapped out. */
  lemma {:induction false} WriterSavesAll(pair: Pair, noPMI: bool, s0: Cpu, actions: seq<Action>)
    requires Apart(pair, noPMI) && |pair[0].tables| > 0 && Init(pair, s0) && RunAll(pair, s0, actions).Some?
    requires RunAll(pair, s0, actions).value.threads.writer.Saving?
    ensures var s := RunAll(pair, s0, actions).value;
      && WriterMove(pair, s).Some?
      && WriterMove(pair, s).value.log.file == s.log.file + s.log.pending
  {
    InitInv(pair, noPMI, s0);
    RunKeeps(pair, noPMI, s0, actions);
    WriterAppends(pair, noPMI, RunAll(pair, s0, actions).value);
  }

  lemma {:induction false} WriterAppends(pair: Pair, noPMI: bool, s: Cpu)
    requires |pair| == 2 && Inv(pair, noPMI, s) && s.threads.writer.Saving?
    ensures WriterMove(pair, s).Some? && WriterMove(pair, s).value.log.file == s.log.file + s.log.pending
  {
    hide Apart, OwnerOf, WriterSize, Denotes, Together, Counted, Handshake, Contents;
  }

  /** While the event is not signalled, somebody is on the way to signalling it. */
  predicate OnItsWay(t: Threads) {
    !t.ready ==> 4 <= Rank(t.dpc) <= 9 || t.initiateSave || t.writer.Saving? || t.writer.Saved?
  }

  lemma {:induction false} DpcOnItsWay(pair: Pair, s: Cpu, flushAll: bool)
    requires |pair| == 2 && OnItsWay(s.threads) && DpcMove(pair, s, flushAll).Some?
    ensures OnItsWay(DpcMove(pair, s, flushAll).value.threads)
  {
    hide Start, MaskPtrs, Swap, SwapOut, TooLittle;
  }

  lemma {:induction false} WriterOnItsWay(pair: Pair, s: Cpu)
    requires |pair| == 2 && OnItsWay(s.threads) && WriterMove(pair, s).Some?
    ensures OnItsWay(WriterMove(pair, s).value.threads)
  {
    hide WriterSize, Contents, Append;
  }

  lemma {:induction false} StepOnItsWay(pair: Pair, s: Cpu, a: Action)
    requires |pair| == 2 && OnItsWay(s.threads) && Do(pair, s, a).Some?
    ensures OnItsWay(Do(pair, s, a).value.threads)
  {
    hide Step, OwnerOf, Start, DpcMove, WriterMove, StoreAll;
    match a
    case DpcStep(flushAll) => DpcOnItsWay(pair, s, flushAll);
    case WriterStep => WriterOnItsWay(pair, s);
    case _ =>
  }

  lemma {:induction false} RunOnItsWay(pair: Pair, s: Cpu, actions: seq<Action>)
    requires |pair| == 2 && OnItsWay(s.threads) && RunAll(pair, s, actions).Some?
    ensures OnItsWay(RunAll(pair, s, actions).value.threads)
  {
    if actions != [] {
      hide Do, OnItsWay;
      RunOnItsWay(pair, s, actions[..|actions| - 1]);
      StepOnItsWay(pair, RunAll(pair, s, actions[..|actions| - 1]).value, actions[|actions| - 1]);
    }
  }

  // ---- the swap without interruption ----

  /** The exchange as a whole. */
  ghost function Exchanged(pair: Pair, s: Cpu): Cpu
    requires |pair| == 2 && s.info.header2 < 2 && |pair[s.info.header2].tables| > 0
  {
    var i, r := s.info, s.registers;
    Cpu(Fields(i.buffer2, i.buffer, i.mdl2, i.mdl, i.header2, i.header, i.lookup2, i.lookup),
        s.threads.(dpc := Idle, ready := false, initiateSave := true), false,
        r.position.base, MaskPtrs(r.position.(stopped := false), 127), r.traceEn,
        Registers(r.traceEn, Start(pair[i.header2])), s.memory, SwapOut(s.log))
  }

  /** What SwitchToPABuffer as a whole does. */
  ghost function Switched(pair: Pair, s: Cpu, flushAll: bool): Cpu
    requires |pair| == 2 && s.info.header2 < 2 && |pair[s.info.header2].tables| > 0
  {
    if TooLittle(s, flushAll) then s.(threads := s.threads.(dpc := Idle))
    else Exchanged(pair, s)
  }

  ghost function DpcMoves(pair: Pair, s: Cpu, flushAll: bool, n: nat): Option<Cpu>
    requires |pair| == 2
    decreases n
  {
    if n == 0 then Some(s)
    else
      match DpcMove(pair, s, flushAll)
      case None => None
      case Some(t) => DpcMoves(pair, t, flushAll, n - 1)
  }

  lemma {:induction false} MoreMoves(pair: Pair, s: Cpu, flushAll: bool, t: Cpu, n: nat)
    requires |pair| == 2 && DpcMove(pair, s, flushAll) == Some(t)
    ensures DpcMoves(pair, s, flushAll, n + 1) == DpcMoves(pair, t, flushAll, n)
  {
    hide DpcMove;
  }

  /** From the cleared event to the captured registers. */
  lemma {:induction false} SwapMoves(pair: Pair, s: Cpu, flushAll: bool, n: nat)
    requires |pair| == 2 && s.threads.dpc.Cleared?
    ensures var i, p := s.info, s.registers.position;
      DpcMoves(pair, s, flushAll, n + 5) ==
      DpcMoves(pair, s.(info := Fields(i.buffer2, i.buffer, i.mdl2, i.mdl, i.header2, i.header, i.lookup2, i.lookup),
                        threads := s.threads.(dpc := Captured), saveBase := p.base, saveMask := MaskPtrs(p, 127),
                        log := SwapOut(s.log)), flushAll, n)
  {
    hide DpcMoves, MaskPtrs, SwapOut;
    var t, i := s.threads, s.info;
    var s1 := s.(threads := t.(dpc := SwappedBuffer), info := i.(buffer := i.buffer2, buffer2 := i.buffer));
    MoreMoves(pair, s, flushAll, s1, n + 4);
    var s2 := s1.(threads := t.(dpc := SwappedMdl), info := s1.info.(mdl := i.mdl2, mdl2 := i.mdl));
    MoreMoves(pair, s1, flushAll, s2, n + 3);
    var s3 := s2.(threads := t.(dpc := SwappedHeader), info := s2.info.(header := i.header2, header2 := i.header));
    MoreMoves(pair, s2, flushAll, s3, n + 2);
    var s4 := s3.(threads := t.(dpc := SwappedLookup), info := s3.info.(lookup := i.lookup2, lookup2 := i.lookup));
    MoreMoves(pair, s3, flushAll, s4, n + 1);
    MoreMoves(pair, s4, flushAll, DpcMove(pair, s4, flushAll).value, n);
  }

  /** From the captured registers to the end. */
  lemma {:induction false} RestartMoves(pair: Pair, s: Cpu, flushAll: bool)
    requires |pair| == 2 && s.threads.dpc.Captured? && s.info.header < 2 && |pair[s.info.header].tables| > 0
    requires !s.registers.position.stopped
    ensures DpcMoves(pair, s, flushAll, 4) ==
            Some(s.(threads := s.threads.(dpc := Idle, initiateSave := true), interrupted := false,
                    registers := Registers(s.savedCtl, Start(pair[s.info.header]))))
  {
    hide DpcMoves, MaskPtrs, SwapOut, Swap;
    var s1 := DpcMove(pair, s, flushAll).value;
    MoreMoves(pair, s, flushAll, s1, 3);
    var s2 := DpcMove(pair, s1, flushAll).value;
    MoreMoves(pair, s1, flushAll, s2, 2);
    var s3 := DpcMove(pair, s2, flushAll).value;
    MoreMoves(pair, s2, flushAll, s3, 1);
    var s4 := DpcMove(pair, s3, flushAll).value;
    MoreMoves(pair, s3, flushAll, s4, 0);
    NoMoves(pair, s4, flushAll);
  }

  lemma {:induction false} NoMoves(pair: Pair, s: Cpu, flushAll: bool)
    requires |pair| == 2
    ensures DpcMoves(pair, s, flushAll, 0) == Some(s)
  {
  }

  /** The stages of the DPC, nothing coming between them, add up to one exchange. */
  lemma {:induction false} MovesSwitch(pair: Pair, s: Cpu, flushAll: bool)
    requires |pair| == 2 && s.threads.dpc.Queued? && s.info.header2 < 2 && |pair[s.info.header2].tables| > 0
    ensures var early := TooLittle(s, flushAll);
      DpcMoves(pair, s, flushAll, if early then 1 else 12) == Some(Switched(pair, s, flushAll))
  {
    hide DpcMoves, SwapOut, Swap;
    var s1 := DpcMove(pair, s, flushAll).value;
    if TooLittle(s, flushAll) {
      MoreMoves(pair, s, flushAll, s1, 0);
      NoMoves(pair, s1, flushAll);
    } else {
      MoreMoves(pair, s, flushAll, s1, 11);
      var s2 := DpcMove(pair, s1, flushAll).value;
      MoreMoves(pair, s1, flushAll, s2, 10);
      var s3 := DpcMove(pair, s2, flushAll).value;
      MoreMoves(pair, s2, flushAll, s3, 9);
      SwapMoves(pair, s3, flushAll, 4);
      var i, p := s.info, s3.registers.position;
      RestartMoves(pair,
        s3.(info := Fields(i.buffer2, i.buffer, i.mdl2, i.mdl, i.header2, i.header, i.lookup2, i.lookup),
            threads := s3.threads.(dpc := Captured), saveBase := p.base, saveMask := MaskPtrs(p, 127),
            log := SwapOut(s3.log)), flushAll);
    }
  }

  /** When the whole DPC does nothing: no interrupt is pending, the flush is not forced, the hardware is not at the
      link of its table, and it has output less than two pages of that table (all but the byte that filled a page
      it has not left). Otherwise it swaps everything out. */
  lemma {:induction false} EarlyReturnExact(pair: Pair, noPMI: bool, s: Cpu, flushAll: bool)
    requires |pair| == 2 && Inv(pair, noPMI, s) && s.threads.dpc.Queued?
    ensures var p, c := s.registers.position, |s.log.current|;
      var little := p.index != 511 && (if p.offset == 4096 then c - 1 else c) % (511 * 4096) < 2 * 4096;
      if !s.interrupted && !flushAll && little then
        DpcMoves(pair, s, flushAll, 1) == Some(s.(threads := s.threads.(dpc := Idle)))
      else
        && DpcMoves(pair, s, flushAll, 12).Some?
        && var t := DpcMoves(pair, s, flushAll, 12).value;
        && t.threads.dpc.Idle? && t.info.buffer == s.info.buffer2 != s.info.buffer && !t.interrupted
        && t.registers.traceEn == s.registers.traceEn && t.log == s.log.(pending := s.log.current, current := [])
  {
    hide Inv, DpcMoves, MaskPtrs, Start;
    QueuedFacts(pair, noPMI, s);
    LittleOutput(pair[OwnerOf(pair, s.registers.position.base)], s.registers.position, |s.log.current|);
    MovesSwitch(pair, s, flushAll);
    assert [] + s.log.current == s.log.current;
  }

  lemma QueuedFacts(pair: Pair, noPMI: bool, s: Cpu)
    requires |pair| == 2 && Inv(pair, noPMI, s) && s.threads.dpc.Queued?
    ensures var hw := OwnerOf(pair, s.registers.position.base);
      && |pair[hw].pages| > 0 && Denotes(pair[hw], s.registers.position, |s.log.current|)
    ensures s.info.buffer != s.info.buffer2 && s.info.header2 < 2 && |pair[s.info.header2].tables| > 0
    ensures s.log.pending == []
  {
    hide Apart, OwnerOf, Holds, WriterSize, Denotes, Conserved;
    ApartFacts(pair, noPMI);
  }

  /** The position's index in its table from the number of bytes output. */
  lemma LittleOutput(l: Layout, p: Position, c: nat)
    requires |l.pages| > 0 && Denotes(l, p, c)
    ensures p.index < 2
       <==> p.index != 511 && (if p.offset == 4096 then c - 1 else c) % (511 * 4096) < 2 * 4096
  {
    var j := l.lookup[p.base];
    var d := p.index * 4096 + if p.offset == 4096 then 4095 else p.offset;
    if p.index < 511 {
      DivModUnique(511 * 4096, j, d);
    }
  }

  /** A profiling interrupt makes the next DPC swap, forced or not, whatever happens before it. */
  lemma {:induction false} InterruptFlushes(pair: Pair, noPMI: bool, s: Cpu, actions: seq<Action>, flushAll: bool)
    requires |pair| == 2 && Inv(pair, noPMI, s)
    requires Do(pair, s, ProfilingInterrupt).Some?
    requires var n := Do(pair, s, ProfilingInterrupt).value;
      && RunAll(pair, n, actions).Some? && (forall i | 0 <= i < |actions| :: !actions[i].DpcStep?)
      && RunAll(pair, n, actions).value.threads.dpc.Queued?
    ensures var t := RunAll(pair, Do(pair, s, ProfilingInterrupt).value, actions).value;
      && DpcMoves(pair, t, flushAll, 12).Some?
      && DpcMoves(pair, t, flushAll, 12).value.log == t.log.(pending := t.log.current, current := [])
  {
    hide Inv, RunAll, DpcMoves;
    var n := Do(pair, s, ProfilingInterrupt).value;
    StepKeeps(pair, noPMI, s, ProfilingInterrupt);
    RunKeeps(pair, noPMI, n, actions);
    StaysInterrupted(pair, n, actions);
    EarlyReturnExact(pair, noPMI, RunAll(pair, n, actions).value, flushAll);
  }

  lemma {:induction false} StaysInterrupted(pair: Pair, s: Cpu, actions: seq<Action>)
    requires |pair| == 2 && s.interrupted && RunAll(pair, s, actions).Some?
    requires forall i | 0 <= i < |actions| :: !actions[i].DpcStep?
    ensures RunAll(pair, s, actions).value.interrupted
  {
    if actions != [] {
      hide Do;
      StaysInterrupted(pair, s, actions[..|actions| - 1]);
      InterruptStays(pair, RunAll(pair, s, actions[..|actions| - 1]).value, actions[|actions| - 1]);
    }
  }

  lemma {:induction false} InterruptStays(pair: Pair, s: Cpu, a: Action)
    requires |pair| == 2 && s.interrupted && Do(pair, s, a).Some? && !a.DpcStep?
    ensures Do(pair, s, a).value.interrupted
  {
    hide Step, OwnerOf, Start, WriterSize, Contents, StoreAll;
  }

  // ---- pausing and resuming ----

  /** Only a resume gives bytes up, namely those output since the last swap. */
  lemma {:induction false} OnlyResumeLoses(pair: Pair, s: Cpu, a: Action)
    requires |pair| == 2 && Do(pair, s, a).Some?
    ensures Do(pair, s, a).value.log.lost == s.log.lost + if a.Resume? then |s.log.current| else 0
  {
    hide Step, OwnerOf, Start, WriterSize, Contents, MaskPtrs, StoreAll, Swap;
  }

  /** Whenever no DPC runs, a pause is possible and only turns tracing off, and a resume is possible and turns it on
      at the start of the buffer that was traced into before. */
  lemma {:induction false} PauseAndResume(pair: Pair, noPMI: bool, s: Cpu)
    requires |pair| == 2 && Inv(pair, noPMI, s) && (s.threads.dpc.Idle? || s.threads.dpc.Queued?)
    ensures Do(pair, s, Pause) == Some(s.(registers := s.registers.(traceEn := false)))
    ensures var hw := OwnerOf(pair, s.registers.position.base);
      && |pair[hw].tables| > 0 && Do(pair, s, Resume).Some?
      && Do(pair, s, Resume).value.registers == Registers(true, Position(pair[hw].tables[0], 0, 0, false))
  {
    hide Apart, OwnerOf, Denotes, Holds, WriterSize, Conserved, Kept;
    ApartFacts(pair, noPMI);
    HeaderOf(s.info, s.threads.dpc, OwnerOf(pair, s.registers.position.base));
  }

  /** At the start of a table the hardware can output a byte. */
  lemma {:induction false} CanEmit(pair: Pair, noPMI: bool, s: Cpu, hw: nat, v: nat)
    requires Apart(pair, noPMI) && hw < 2 && |pair[hw].tables| > 0
    requires s.registers == Registers(true, Start(pair[hw]))
    ensures |pair| == 2 && Do(pair, s, Hardware(Emit(v, false))).Some?
    ensures var s' := Do(pair, s, Hardware(Emit(v, false))).value;
      && s' == s.(registers := s'.registers, memory := s'.memory, log := s'.log)
      && s'.log == s.log.(traced := s.log.traced + [v], current := s.log.current + [v])
      && s'.registers.traceEn
  {
    hide Built, Denotes, EntryAt, LastSlot, StoreAll, LinearAddress;
    var l, p := pair[hw], s.registers.position;
    StartDenotes(l, noPMI);
    StartTable(pair, noPMI, hw);
    StartEmits(l, noPMI, v);
    StepDenotes(l, noPMI, p, 0, Emit(v, false));
    assert Values([Write(LinearAddress(l.pages, 0), v)]) == [v];
  }

  lemma {:induction false} StartTable(pair: Pair, noPMI: bool, hw: nat)
    requires Apart(pair, noPMI) && hw < 2 && |pair[hw].tables| > 0
    ensures OwnerOf(pair, Start(pair[hw]).base) == hw
  {
    OwnerIs(pair, noPMI, pair[hw].tables[0], hw);
  }

  lemma {:induction false} StartEmits(l: Layout, noPMI: bool, v: nat)
    requires Built(l, noPMI) && |l.tables| > 0 && |l.pages| > 0
    ensures Step(l, Start(l), Emit(v, false)).Some?
  {
    hide Built, Denotes, EntryAt, LastSlot;
    StartDenotes(l, noPMI);
    WhatHardwareFinds(l, noPMI, Start(l), 0);
    assert Pow2(0) == 1;
  }

  /** From the very beginning: one byte is output, tracing is resumed, and the byte is given up. */
  lemma {:induction false} ResumeLoses(pair: Pair, noPMI: bool, s0: Cpu, v: nat)
    requires Apart(pair, noPMI) && |pair[0].tables| > 0 && Init(pair, s0) && s0.registers.traceEn
    ensures var run := [Hardware(Emit(v, false)), Resume];
      && RunAll(pair, s0, run).Some?
      && RunAll(pair, s0, run).value.log.traced == [v] && RunAll(pair, s0, run).value.log.lost == 1
  {
    hide Step, OwnerOf, Apart;
    CanEmit(pair, noPMI, s0, 0, v);
    var run := [Hardware(Emit(v, false)), Resume];
    assert run[..1] == [Hardware(Emit(v, false))];
    assert run[..1][..0] == [];
    assert RunAll(pair, s0, []) == Some(s0);
    assert [] + [v] == [v];
  }

  /** Two buffers of one page each, as SetupUltimap2 might find them in memory. */
  function OnePage(table: nat, page: nat): Layout {
    Layout([TopaEntry(page, false, true, true, 0)], [table], [page], map[table := 0])
  }

  lemma {:induction false} OnePageBuilt(table: nat, page: nat)
    ensures Built(OnePage(table, page), false)
  {
  }

  /** There is a run from a real start that loses a byte. */
  lemma {:induction false} ResumeLosesExample()
    ensures var pair := [OnePage(0x1000, 0x2000), OnePage(0x3000, 0x4000)];
      var s0 := Cpu(Fields(0, 1, 0, 1, 0, 1, 0, 1), Threads(true, false, false, Idle, Waiting), false, 0, 0, false,
                    Registers(true, Start(pair[0])), map[], Log([], [], [], [], 0, 0));
      var run := [Hardware(Emit(7, false)), Resume];
      && Apart(pair, false) && Init(pair, s0)
      && RunAll(pair, s0, run).Some? && RunAll(pair, s0, run).value.log.lost == 1
  {
    hide Built, RunAll;
    var pair := [OnePage(0x1000, 0x2000), OnePage(0x3000, 0x4000)];
    OnePageBuilt(0x1000, 0x2000);
    OnePageBuilt(0x3000, 0x4000);
    var s0 := Cpu(Fields(0, 1, 0, 1, 0, 1, 0, 1), Threads(true, false, false, Idle, Waiting), false, 0, 0, false,
                  Registers(true, Start(pair[0])), map[], Log([], [], [], [], 0, 0));
    ResumeLoses(pair, false, s0, 7);
  }

  /** Tracing is off and will stay off. */
  predicate TracingOff(s: Cpu) {
    !s.registers.traceEn && (Rank(s.threads.dpc) >= 2 ==> !s.savedCtl)
  }

  /** Everything output has been swapped out as well. */
  predicate Paused(s: Cpu) {
    TracingOff(s) && s.log.current == []
  }

  /** Tracing is off, and unless a DPC is about to capture the registers, nothing is left to swap out. */
  predicate Draining(s: Cpu) {
    TracingOff(s) && Orderly(s.threads) && (2 <= Rank(s.threads.dpc) <= 8 || s.log.current == [])
  }

  /** A forced DPC does not return early, as one that is not forced may. */
  lemma {:induction false} ForcedGoesOn(pair: Pair, s: Cpu)
    requires |pair| == 2 && s.threads.dpc.Queued? && TracingOff(s) && Orderly(s.threads)
    ensures DpcMove(pair, s, true).Some? && Draining(DpcMove(pair, s, true).value)
  {
  }

  lemma {:induction false} StaysOff(pair: Pair, s: Cpu, a: Action)
    requires |pair| == 2 && TracingOff(s) && Orderly(s.threads) && Do(pair, s, a).Some? && !a.Resume?
    ensures TracingOff(Do(pair, s, a).value) && Orderly(Do(pair, s, a).value.threads)
  {
    hide Step, OwnerOf, Start, WriterSize, Contents, MaskPtrs, StoreAll, Swap, SwapOut, Append, TooLittle;
  }

  lemma {:induction false} StaysDraining(pair: Pair, s: Cpu, a: Action)
    requires |pair| == 2 && Draining(s) && Do(pair, s, a).Some? && !a.Resume?
    ensures Draining(Do(pair, s, a).value)
  {
    hide Step, OwnerOf, Start, WriterSize, Contents, MaskPtrs, StoreAll, Swap, TooLittle;
    StaysOff(pair, s, a);
  }

  lemma {:induction false} RunStaysOff(pair: Pair, s: Cpu, actions: seq<Action>)
    requires |pair| == 2 && TracingOff(s) && Orderly(s.threads) && RunAll(pair, s, actions).Some?
    requires forall i | 0 <= i < |actions| :: !actions[i].Resume?
    ensures TracingOff(RunAll(pair, s, actions).value) && Orderly(RunAll(pair, s, actions).value.threads)
  {
    if actions != [] {
      hide Do, TracingOff, Orderly, Draining;
      RunStaysOff(pair, s, actions[..|actions| - 1]);
      StaysOff(pair, RunAll(pair, s, actions[..|actions| - 1]).value, actions[|actions| - 1]);
    }
  }

  lemma {:induction false} RunDrains(pair: Pair, s: Cpu, actions: seq<Action>, k: nat)
    requires |pair| == 2 && TracingOff(s) && Orderly(s.threads) && RunAll(pair, s, actions).Some?
    requires forall i | 0 <= i < |actions| :: !actions[i].Resume?
    requires k < |actions| && actions[k] == DpcStep(true)
    requires RunAll(pair, s, actions[..k]).Some? && RunAll(pair, s, actions[..k]).value.threads.dpc.Queued?
    ensures Draining(RunAll(pair, s, actions).value)
  {
    hide DpcMove, TracingOff, Orderly, Draining;
    var init := actions[..|actions| - 1];
    RunStaysOff(pair, s, init);
    var t := RunAll(pair, s, init).value;
    if k < |init| {
      assert init[..k] == actions[..k];
      RunDrains(pair, s, init, k);
      StaysDraining(pair, t, actions[|actions| - 1]);
    } else {
      ForcedGoesOn(pair, t);
    }
  }

  /** A pause, then a run without a resume in which a queued DPC starts with its flush forced; whatever the other
      threads do before it, between its steps and after it, the next resume loses nothing. */
  lemma {:induction false} PauseThenResume(pair: Pair, s: Cpu, actions: seq<Action>, k: nat)
    requires |pair| == 2 && Orderly(s.threads) && Do(pair, s, Pause).Some?
    requires var p := Do(pair, s, Pause).value;
      && RunAll(pair, p, actions).Some? && (forall i | 0 <= i < |actions| :: !actions[i].Resume?)
      && k < |actions| && actions[k] == DpcStep(true)
      && RunAll(pair, p, actions[..k]).Some? && RunAll(pair, p, actions[..k]).value.threads.dpc.Queued?
      && Do(pair, RunAll(pair, p, actions).value, Resume).Some?
    ensures var t := RunAll(pair, Do(pair, s, Pause).value, actions).value;
      Do(pair, t, Resume).value.log.lost == t.log.lost
  {
    hide RunAll, Start;
    var p := Do(pair, s, Pause).value;
    RunDrains(pair, p, actions, k);
    OnlyResumeLoses(pair, RunAll(pair, p, actions).value, Resume);
  }

  /** The forced flush on its own, with nothing between its steps. */
  lemma {:induction false} ForcedFlushPauses(pair: Pair, s: Cpu)
    requires |pair| == 2 && s.threads.dpc.Queued? && s.info.header2 < 2 && |pair[s.info.header2].tables| > 0
    requires !s.registers.traceEn
    ensures DpcMoves(pair, s, true, 12).Some? && Paused(DpcMoves(pair, s, true, 12).value)
  {
    hide DpcMoves, MaskPtrs, Start;
    MovesSwitch(pair, s, true);
  }
}
