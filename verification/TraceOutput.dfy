/** The trace hardware as a machine that steps over a table built by setupToPA, and the size the writer
    thread computes from the machine's saved registers (DBKKernel/ultimap2.c). */
module TraceOutput {
  import opened Arithmetic
  import opened Options
  import opened Topa

  /** IA32_RTIT_OUTPUT_BASE, the table offset and output offset of IA32_RTIT_OUTPUT_MASK_PTRS, and the
      Stopped bit of IA32_RTIT_STATUS. */
  datatype Position = Position(base: nat, index: nat, offset: nat, stopped: bool)

  /** The hardware outputs a byte, or follows a link before the next byte. After the byte that fills a STOP
      region the manual allows both positions, at the end of the region or at the start of the next. */
  datatype Event = Emit(value: nat, hold: bool) | Follow

  datatype Write = Write(address: nat, value: nat)

  datatype Outcome = Outcome(position: Position, writes: seq<Write>)

  function Start(l: Layout): Position
    requires |l.tables| > 0
  {
    Position(l.tables[0], 0, 0, false)
  }

  /** The entry the processor reads at physical address base + 8 * index. */
  ghost function EntryAt(l: Layout, base: nat, index: nat): Option<TopaEntry> {
    if exists j: nat :: j < |l.tables| && l.tables[j] == base && index < 512 && j * 512 + index < |l.slots| then
      var j: nat :| j < |l.tables| && l.tables[j] == base && index < 512 && j * 512 + index < |l.slots|;
      Some(l.slots[j * 512 + index])
    else None
  }

  function RegionSize(e: TopaEntry): nat {
    4096 * Pow2(e.size)
  }

  function Pow2(k: nat): (p: nat)
    ensures p > 0
  {
    if k == 0 then 1 else 2 * Pow2(k - 1)
  }

  ghost function Step(l: Layout, p: Position, ev: Event): Option<Outcome> {
    if p.stopped then None
    else
      match EntryAt(l, p.base, p.index)
      case None => None
      case Some(e) =>
        match ev
        case Follow => if e.end && p.offset == 0 then Some(Outcome(Position(e.base, 0, 0, false), [])) else None
        case Emit(value, hold) =>
          if e.end || p.offset >= RegionSize(e) then None
          else
            var next :=
              if p.offset + 1 < RegionSize(e) then p.(offset := p.offset + 1)
              else if e.stop && hold then p.(offset := p.offset + 1, stopped := true)
              else p.(index := p.index + 1, offset := 0, stopped := e.stop);
            Some(Outcome(next, [Write(e.base + p.offset, value)]))
  }

  ghost function Run(l: Layout, evs: seq<Event>): Option<Outcome>
    requires |l.tables| > 0
  {
    if evs == [] then Some(Outcome(Start(l), []))
    else
      match Run(l, evs[..|evs| - 1])
      case None => None
      case Some(o) =>
        match Step(l, o.position, evs[|evs| - 1])
        case None => None
        case Some(o') => Some(Outcome(o'.position, o.writes + o'.writes))
  }

  // ---- the writer's view ----

  /** The register image: output offset, table offset, and seven low bits the code shifts out. */
  function MaskPtrs(p: Position, low: nat): nat {
    p.offset * TWO32 + p.index * 128 + low
  }

  /** The size computation of WriteThreadForSpecificCPU; None when the base is not in the lookup table. */
  function WriterSize(lookup: map<nat, nat>, outputBase: nat, mask: nat): Option<nat> {
    if outputBase !in lookup then None
    else Some((lookup[outputBase] * 511 + mask % TWO32 / 128) * 4096 + mask / TWO32)
  }

  /** Where byte c of the buffer lies in physical memory. */
  function LinearAddress(pages: seq<nat>, c: nat): nat
    requires c / 4096 < |pages|
  {
    pages[c / 4096] + c % 4096
  }

  /** Position p has c bytes of the buffer behind it. */
  ghost predicate Denotes(l: Layout, p: Position, c: nat)
    requires |l.pages| > 0
  {
    && p.base in l.lookup && p.index < 512 && p.offset <= 4096
    && var i := l.lookup[p.base] * 512 + p.index;
    && c == (l.lookup[p.base] * 511 + p.index) * 4096 + p.offset
    && c <= |l.pages| * 4096
    && (!p.stopped ==> i <= LastSlot(|l.pages|) && p.offset < 4096 && (IsLink(i) ==> p.offset == 0))
  }

  lemma SlotParts(j: nat, index: nat)
    requires index < 512
    ensures IsLink(j * 512 + index) <==> index == 511
    ensures DataIndex(j * 512 + index) == j * 511 + index
    ensures index < 511 ==> SlotOf(j * 511 + index) == j * 512 + index
    ensures (j * 512 + index + 1) / 512 == if index == 511 then j + 1 else j
  {
    DivModUnique(512, j, index);
    DivModUnique(511, j, if index < 511 then index else 0);
    if index == 511 {
      DivModUnique(512, j + 1, 0);
    } else {
      DivModUnique(512, j, index + 1);
    }
  }

  lemma DataLast(pages: nat, i: nat)
    requires pages > 0 && i <= LastSlot(pages) && !IsLink(i)
    ensures i == LastSlot(pages) <==> DataIndex(i) == pages - 1
    ensures DataIndex(i) < pages
  {
    DataOfSlot(i);
    SlotOfData(pages - 1);
    EntryInRange(pages, i);
  }

  /** What the hardware finds at a running position: a link to the next table in entry 511, otherwise the
      page that follows the pages of all slots before it, with STOP on the buffer's last page. */
  ghost predicate Finds(l: Layout, j: nat, index: nat, e: Option<TopaEntry>)
    requires |l.pages| > 0
  {
    && e.Some?
    && if index == 511 then
         && e.value.end && e.value.base in l.lookup && l.lookup[e.value.base] == j + 1
         && (j + 1) * 512 <= LastSlot(|l.pages|)
       else
         && j * 511 + index < |l.pages|
         && !e.value.end && e.value.size == 0 && e.value.base == l.pages[j * 511 + index]
         && (e.value.stop <==> j * 511 + index + 1 == |l.pages|)
         && (!e.value.stop ==> j * 512 + index + 1 <= LastSlot(|l.pages|))
  }

  lemma EntryAtSlot(l: Layout, noPMI: bool, base: nat, index: nat)
    requires Built(l, noPMI) && base in l.lookup && index < 512
    requires l.lookup[base] * 512 + index <= LastSlot(|l.pages|)
    ensures var i := l.lookup[base] * 512 + index;
      && l.lookup[base] < |l.tables| && i < |l.slots|
      && EntryAt(l, base, index) == Some(l.slots[i])
      && l.slots[i] == Entry(l.tables, l.pages, noPMI, i)
  {
    hide Entry;
    var j := l.lookup[base];
    DivModUnique(512, j, index);
    assert j < |l.tables| && l.tables[j] == base && j * 512 + index < |l.slots|;
  }

  lemma WhatHardwareFinds(l: Layout, noPMI: bool, p: Position, c: nat)
    requires Built(l, noPMI) && Denotes(l, p, c) && !p.stopped
    ensures Finds(l, l.lookup[p.base], p.index, EntryAt(l, p.base, p.index))
  {
    var j := l.lookup[p.base];
    var i := j * 512 + p.index;
    EntryAtSlot(l, noPMI, p.base, p.index);
    SlotParts(j, p.index);
    EntryInRange(|l.pages|, i);
    hide EntryAt, IsLink, DataIndex, LastSlot, InterruptAt;
    if p.index != 511 {
      DataLast(|l.pages|, i);
    } else {
      LinkTarget(l, noPMI, i);
    }
  }

  lemma LinkTarget(l: Layout, noPMI: bool, i: nat)
    requires Built(l, noPMI) && i <= LastSlot(|l.pages|) && IsLink(i)
    ensures (i + 1) / 512 < |l.tables|
    ensures var a := l.tables[(i + 1) / 512]; a in l.lookup && l.lookup[a] == (i + 1) / 512
  {
    EntryInRange(|l.pages|, i);
  }

  lemma StartDenotes(l: Layout, noPMI: bool)
    requires Built(l, noPMI)
    ensures |l.tables| > 0 && |l.pages| > 0
    ensures Denotes(l, Start(l), 0)
  {
    hide Entry;
    assert l.tables[0] in l.lookup && l.lookup[l.tables[0]] == 0;
  }

  /** One hardware step keeps the correspondence; an output byte goes to byte c of the buffer. */
  lemma {:induction false} StepDenotes(l: Layout, noPMI: bool, p: Position, c: nat, ev: Event)
    requires Built(l, noPMI) && |l.pages| > 0 && Denotes(l, p, c) && Step(l, p, ev).Some?
    ensures var o := Step(l, p, ev).value;
      && Denotes(l, o.position, c + |o.writes|)
      && (ev.Follow? ==> o.writes == [])
      && (ev.Emit? ==> c < |l.pages| * 4096 && o.writes == [Write(LinearAddress(l.pages, c), ev.value)])
  {
    hide Built, EntryAt, IsLink, LastSlot;
    var j := l.lookup[p.base];
    WhatHardwareFinds(l, noPMI, p, c);
    if ev.Follow? {
      SlotParts(j + 1, 0);
    } else {
      DivModUnique(4096, j * 511 + p.index, p.offset);
      assert Pow2(0) == 1;
      SlotParts(j, p.index);
      if p.index < 510 {
        SlotParts(j, p.index + 1);
      }
    }
  }

  /** The writer reads back what the position denotes. */
  lemma {:induction false} SizeOfPosition(l: Layout, p: Position, c: nat, low: nat)
    requires |l.pages| > 0 && Denotes(l, p, c) && low < 128
    ensures var w := MaskPtrs(p, low);
      w / 0x1_0000_0000 == p.offset && w % 0x1_0000_0000 / 128 == p.index && w % 128 == low
    ensures WriterSize(l.lookup, p.base, MaskPtrs(p, low)) == Some(c)
  {
    DivModUnique(TWO32, p.offset, p.index * 128 + low);
    DivModUnique(128, p.index, low);
    DivModUnique(128, p.offset * 0x200_0000 + p.index, low);
  }

  /** For every run of the hardware over a table built by setupToPA: byte k went to byte k of the buffer, the
      saved base is in the lookup table, and the size formula gives the number of bytes output. */
  lemma {:induction false} SizeFormulaCorrect(l: Layout, noPMI: bool, evs: seq<Event>, low: nat)
    requires Built(l, noPMI) && low < 128
    ensures |l.tables| > 0 && |l.pages| > 0
    ensures Run(l, evs).Some? ==>
      var o := Run(l, evs).value;
      && Denotes(l, o.position, |o.writes|)
      && |o.writes| <= |l.pages| * 4096
      && WriterSize(l.lookup, o.position.base, MaskPtrs(o.position, low)) == Some(|o.writes|)
      && forall k | 0 <= k < |o.writes| :: o.writes[k].address == LinearAddress(l.pages, k)
  {
    hide EntryAt, Step, Built, WriterSize, MaskPtrs;
    StartDenotes(l, noPMI);
    if evs != [] && Run(l, evs).Some? {
      SizeFormulaCorrect(l, noPMI, evs[..|evs| - 1], low);
      var o := Run(l, evs[..|evs| - 1]).value;
      StepDenotes(l, noPMI, o.position, |o.writes|, evs[|evs| - 1]);
    }
    if Run(l, evs).Some? {
      SizeOfPosition(l, Run(l, evs).value.position, |Run(l, evs).value.writes|, low);
    }
  }

  /** A running machine can always go on, and it stops exactly when the buffer is full. */
  lemma {:induction false} NeverStuck(l: Layout, noPMI: bool, p: Position, c: nat, value: nat, hold: bool)
    requires Built(l, noPMI) && |l.pages| > 0 && Denotes(l, p, c) && !p.stopped
    ensures Step(l, p, Follow).Some? || Step(l, p, Emit(value, hold)).Some?
    ensures Step(l, p, Emit(value, hold)).Some? ==>
      (Step(l, p, Emit(value, hold)).value.position.stopped <==> c + 1 == |l.pages| * 4096)
  {
    hide Built, EntryAt, LastSlot;
    var j := l.lookup[p.base];
    WhatHardwareFinds(l, noPMI, p, c);
    SlotParts(j, p.index);
    assert Pow2(0) == 1;
  }
}
