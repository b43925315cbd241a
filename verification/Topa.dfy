/** The table of physical addresses for Intel Processor Trace output that setupToPA builds
    (DBKKernel/ultimap2.c; section "Table of Physical Addresses (ToPA)" of the Intel SDM, Volume 3C). */
module Topa {
  import opened Arithmetic

  const TWO32: nat := 0x1_0000_0000

  /** One entry: the base address and the END, INT and STOP bits; the region size is 4 KB << size. */
  datatype TopaEntry = TopaEntry(base: nat, end: bool, int_: bool, stop: bool, size: nat)

  function GetToPAHeaderCount(bufferSize: nat): nat {
    1 + bufferSize / 4096 / 511
  }

  function GetToPAHeaderSize(bufferSize: nat): nat {
    GetToPAHeaderCount(bufferSize) * 4096
  }

  function PageCount(bufferSize: nat): nat {
    (bufferSize + 4095) / 4096
  }

  /** Every 512th slot is a link, so the first 511 slots of each table hold buffer pages. */
  predicate IsLink(slot: nat) {
    (slot + 1) % 512 == 0
  }

  function DataIndex(slot: nat): nat {
    slot / 512 * 511 + slot % 512
  }

  /** The slot of buffer page k. */
  function SlotOf(k: nat): nat {
    k + k / 511
  }

  function LastSlot(pages: nat): nat
    requires pages > 0
  {
    SlotOf(pages - 1)
  }

  lemma SlotOfData(k: nat)
    ensures !IsLink(SlotOf(k)) && DataIndex(SlotOf(k)) == k
    ensures SlotOf(k) / 512 == k / 511 && SlotOf(k) % 512 == k % 511
  {
    var q, r := k / 511, k % 511;
    assert SlotOf(k) == q * 512 + r;
    DivModUnique(512, q, r);
    DivModUnique(512, q, r + 1);
  }

  lemma DataOfSlot(i: nat)
    requires !IsLink(i)
    ensures SlotOf(DataIndex(i)) == i
  {
    var q, r := i / 512, i % 512;
    assert i == q * 512 + r;
    if r == 511 {
      DivModUnique(512, q + 1, 0);
      assert false;
    }
    DivModUnique(511, q, r);
  }

  lemma SlotOrder(k: nat, l: nat)
    ensures k < l ==> SlotOf(k) < SlotOf(l)
  {
  }

  /** All slots up to the last one fit into the header that is allocated for the buffer, which has one table more
      than they need at most. */
  lemma {:induction false} SlotsFit(bufferSize: nat)
    requires bufferSize > 0
    ensures PageCount(bufferSize) > 0
    ensures (PageCount(bufferSize) - 1) * 4096 < bufferSize <= PageCount(bufferSize) * 4096
    ensures GetToPAHeaderCount(bufferSize) <= LastSlot(PageCount(bufferSize)) / 512 + 2
    ensures GetToPAHeaderSize(bufferSize) == GetToPAHeaderCount(bufferSize) * 4096
    ensures LastSlot(PageCount(bufferSize)) * 8 < GetToPAHeaderSize(bufferSize)
    ensures LastSlot(PageCount(bufferSize)) / 512 < GetToPAHeaderCount(bufferSize)
  {
    var k := PageCount(bufferSize) - 1;
    assert k <= bufferSize / 4096;
    SlotOfData(k);
  }

  // ---- interrupts ----

  /** The first slot that interrupts: 90 % of the way, but neither the last slot nor a link if avoidable. */
  function FirstInterrupt(last: nat): (i: nat) {
    var i0 := last * 90 / 100;
    var i1 := if i0 == last && i0 > 0 then i0 - 1 else i0;
    if i1 > 0 && IsLink(i1) then i1 - 1 else i1
  }

  predicate InterruptAt(last: nat, noPMI: bool, i: nat) {
    var f := FirstInterrupt(last);
    && !noPMI
    && (i == f || (f <= i && i + 1 < last && (i - f) % 2 == 0 && !IsLink(i)))
  }

  /** INT is never on a link, and on the last slot only when that is the only one. */
  lemma {:induction false} InterruptPlacement(last: nat, noPMI: bool, i: nat)
    requires i <= last && InterruptAt(last, noPMI, i)
    ensures !noPMI && !IsLink(i)
    ensures i == last ==> last == 0
  {
    var i0 := last * 90 / 100;
    assert last > 0 ==> i0 < last;
    if i0 > 0 && IsLink(i0) {
      DivModUnique(512, (i0 + 1) / 512 - 1, 511);
    }
  }

  /** From the first INT on, one of any four slots before the last interrupts. */
  lemma {:induction false} InterruptsKeepComing(last: nat, i: nat)
    requires FirstInterrupt(last) <= i && i + 4 < last
    ensures exists j | i <= j < i + 4 :: InterruptAt(last, false, j)
  {
    var f := FirstInterrupt(last);
    hide FirstInterrupt;
    var d := (i - f) % 2;
    var j := i + d;
    assert (i + d - f) % 2 == 0 && (i + d + 2 - f) % 2 == 0;
    if IsLink(j) {
      NoTwoLinks(j);
      assert InterruptAt(last, false, j + 2);
    } else {
      assert InterruptAt(last, false, j);
    }
  }

  lemma NoTwoLinks(j: nat)
    requires IsLink(j)
    ensures !IsLink(j + 2)
  {
    DivModUnique(512, (j + 1) / 512, 2);
  }

  /** Slot i is nine tenths of the way to the last slot, rounded down. */
  predicate AtNineTenths(last: nat, i: nat) {
    100 * i <= 90 * last < 100 * (i + 1)
  }

  /** The first INT comes nine tenths of the way, or one slot before that when there is the link. */
  lemma {:induction false} FirstInterruptIsLate(last: nat)
    ensures var f := FirstInterrupt(last);
      && InterruptAt(last, false, f) && (f + 1) % 512 != 0
      && (AtNineTenths(last, f) || (AtNineTenths(last, f + 1) && (f + 2) % 512 == 0))
  {
    InterruptPlacement(last, false, FirstInterrupt(last));
  }

  // ---- the table ----

  /** The table header (whose page j lies at physical address tables[j]), the buffer (whose page k lies at
      pages[k]), and the lookup table from physical address to table number. */
  datatype Layout = Layout(slots: seq<TopaEntry>, tables: seq<nat>, pages: seq<nat>, lookup: map<nat, nat>)

  ghost predicate Distinct(s: seq<nat>) {
    forall i, j | 0 <= i < j < |s| :: s[i] != s[j]
  }

  function Entry(tables: seq<nat>, pages: seq<nat>, noPMI: bool, i: nat): TopaEntry
    requires |pages| > 0 && i <= LastSlot(|pages|) && LastSlot(|pages|) / 512 < |tables|
  {
    var last := LastSlot(|pages|);
    EntryInRange(|pages|, i);
    if IsLink(i) then TopaEntry(tables[(i + 1) / 512], true, false, false, 0)
    else TopaEntry(pages[DataIndex(i)], false, InterruptAt(last, noPMI, i), i == last, 0)
  }

  lemma EntryInRange(pages: nat, i: nat)
    requires pages > 0 && i <= LastSlot(pages)
    ensures if IsLink(i) then i < LastSlot(pages) && (i + 1) / 512 <= LastSlot(pages) / 512
            else DataIndex(i) < pages
    ensures i < LastSlot(pages) && !IsLink(i) ==> DataIndex(i) + 1 < pages
  {
    SlotOfData(pages - 1);
    if !IsLink(i) {
      DataOfSlot(i);
      SlotOrder(pages - 1, DataIndex(i));
    }
  }

  /** What setupToPA promises about the table it built. */
  ghost predicate Built(l: Layout, noPMI: bool) {
    && |l.pages| > 0 && Distinct(l.tables)
    && LastSlot(|l.pages|) / 512 < |l.tables| && LastSlot(|l.pages|) < |l.slots|
    && (forall i | 0 <= i <= LastSlot(|l.pages|) :: l.slots[i] == Entry(l.tables, l.pages, noPMI, i))
    && (forall j | 0 <= j <= LastSlot(|l.pages|) / 512 :: l.tables[j] in l.lookup && l.lookup[l.tables[j]] == j)
    && (forall a | a in l.lookup :: l.lookup[a] <= LastSlot(|l.pages|) / 512 && a == l.tables[l.lookup[a]])
  }

  /** The INT bits of a finished table: none without interrupts; otherwise the lowest is on such a slot f, and the
      others are on every second slot from there to the second before the last, links left out. */
  lemma {:induction false} InterruptsExact(l: Layout, noPMI: bool) returns (f: nat)
    requires Built(l, noPMI)
    ensures var last := LastSlot(|l.pages|);
      && f <= last < |l.slots| && (f + 1) % 512 != 0
      && (AtNineTenths(last, f) || (AtNineTenths(last, f + 1) && (f + 2) % 512 == 0))
      && (forall k | 0 <= k <= last :: l.slots[k].int_ <==>
            !noPMI && (k == f || (f < k < last - 1 && (k - f) % 2 == 0 && (k + 1) % 512 != 0)))
      && (forall k | 0 <= k <= last :: l.slots[k].stop <==> k == last)
  {
    var last := LastSlot(|l.pages|);
    f := FirstInterrupt(last);
    FirstInterruptIsLate(last);
    forall k | 0 <= k <= last
      ensures l.slots[k].int_ <==> InterruptAt(last, noPMI, k)
      ensures l.slots[k].stop <==> k == last
    {
      EntryBits(l, noPMI, k);
    }
  }

  lemma EntryBits(l: Layout, noPMI: bool, k: nat)
    requires Built(l, noPMI) && k <= LastSlot(|l.pages|)
    ensures l.slots[k].int_ <==> InterruptAt(LastSlot(|l.pages|), noPMI, k)
    ensures l.slots[k].stop <==> k == LastSlot(|l.pages|)
  {
    EntryInRange(|l.pages|, k);
    if InterruptAt(LastSlot(|l.pages|), noPMI, k) {
      InterruptPlacement(LastSlot(|l.pages|), noPMI, k);
    }
    assert l.slots[k] == Entry(l.tables, l.pages, noPMI, k);
  }

  /** RtlInsertElementGenericTable leaves an element with an equal key alone. */
  function InsertElement(gt: map<nat, nat>, address: nat, index: nat): map<nat, nat> {
    if address in gt then gt else gt[address := index]
  }

  /** Slots 0 .. i-1 are filled and their tables known. */
  ghost predicate FilledTo(r: seq<TopaEntry>, tables: seq<nat>, pages: seq<nat>, gt: map<nat, nat>,
                           i: nat, index: nat)
    requires |pages| > 0 && LastSlot(|pages|) / 512 < |tables|
  {
    && i <= LastSlot(|pages|) + 1 && i <= |r| && index < |tables|
    && (forall k | 0 <= k < i :: r[k] == Plain(tables, pages, k))
    && (forall j | 0 <= j <= index :: tables[j] in gt && gt[tables[j]] == j)
    && (forall a | a in gt :: gt[a] <= index && a == tables[gt[a]])
  }

  /** The filling loop: data entries in order, with a link in every 512th slot. */
  method FillSlots(r: array<TopaEntry>, tables: seq<nat>, pages: seq<nat>, bufferSize: nat)
    returns (gt: map<nat, nat>, toPAIndex: nat)
    requires 0 < bufferSize && |pages| == PageCount(bufferSize) && |pages| > 0
    requires Distinct(tables) && LastSlot(|pages|) / 512 < |tables| && LastSlot(|pages|) < r.Length
    modifies r
    ensures toPAIndex == LastSlot(|pages|)
    ensures FilledTo(r[..], tables, pages, gt, toPAIndex + 1, toPAIndex / 512)
  {
    hide PageCount, LastSlot, IsLink, FilledPages, DataIndex, Plain, Entry;
    gt := InsertElement(map[], tables[0], 0);
    var index, output := 0, 0;
    toPAIndex := 0;
    FirstSlot(|pages|, bufferSize);
    while output < bufferSize
      invariant toPAIndex <= LastSlot(|pages|) + 1
      invariant output == FilledPages(toPAIndex) * 4096
      invariant output < bufferSize <==> toPAIndex <= LastSlot(|pages|)
      invariant index == if toPAIndex <= LastSlot(|pages|) then toPAIndex / 512 else LastSlot(|pages|) / 512
      invariant FilledTo(r[..], tables, pages, gt, toPAIndex, index)
      decreases LastSlot(|pages|) + 1 - toPAIndex
    {
      SlotStep(|pages|, toPAIndex, bufferSize);
      PlainIs(tables, pages, toPAIndex);
      if IsLink(toPAIndex) {
        r[toPAIndex] := TopaEntry(tables[(toPAIndex + 1) / 512], true, false, false, 0);
        index := index + 1;
        gt := InsertElement(gt, tables[(toPAIndex + 1) / 512], index);
      } else {
        r[toPAIndex] := TopaEntry(pages[output / 4096], false, false, false, 0);
        output := output + 4096;
      }
      toPAIndex := toPAIndex + 1;
    }
    toPAIndex := toPAIndex - 1;
  }

  /** The entry array is filled in place; `tables` and `pages` are the physical addresses of the header's and
      the buffer's pages. */
  method SetupToPA(r: array<TopaEntry>, tables: seq<nat>, pages: seq<nat>, bufferSize: nat, noPMI: bool)
    returns (gt: map<nat, nat>)
    requires 0 < bufferSize < TWO32
    requires |pages| == PageCount(bufferSize) && |tables| == GetToPAHeaderCount(bufferSize) && Distinct(tables)
    requires r.Length == GetToPAHeaderSize(bufferSize) / 8
    modifies r
    ensures Built(Layout(r[..], tables, pages, gt), noPMI)
  {
    SlotsFit(bufferSize);
    assert LastSlot(|pages|) < r.Length;
    hide PageCount, LastSlot, IsLink, DataIndex, Plain, Entry, InterruptAt, GetToPAHeaderSize, GetToPAHeaderCount;
    var toPAIndex;
    gt, toPAIndex := FillSlots(r, tables, pages, bufferSize);
    ghost var filled := r[..];
    r[toPAIndex] := r[toPAIndex].(stop := true);
    forall k | 0 <= k <= toPAIndex
      ensures !r[k].int_
    {
      PlainIs(tables, pages, k);
    }
    MarkInterrupts(r, toPAIndex, noPMI);
    forall k | 0 <= k <= toPAIndex
      ensures r[k] == Entry(tables, pages, noPMI, k)
    {
      PlainIs(tables, pages, k);
      Finished(tables, pages, noPMI, k);
    }
  }

  lemma FirstSlot(pages: nat, bufferSize: nat)
    requires bufferSize > 0 && pages == PageCount(bufferSize)
    ensures FilledPages(0) == 0
    ensures !IsLink(LastSlot(pages))
  {
    SlotOfData(pages - 1);
  }

  lemma PlainIs(tables: seq<nat>, pages: seq<nat>, i: nat)
    requires |pages| > 0 && i <= LastSlot(|pages|) && LastSlot(|pages|) / 512 < |tables|
    ensures IsLink(i) <==> (i + 1) % 512 == 0
    ensures if IsLink(i) then
        (i + 1) / 512 < |tables|
        && Plain(tables, pages, i) == TopaEntry(tables[(i + 1) / 512], true, false, false, 0)
      else
        FilledPages(i) < |pages|
        && Plain(tables, pages, i) == TopaEntry(pages[FilledPages(i)], false, false, false, 0)
  {
    EntryInRange(|pages|, i);
    assert FilledPages(i) == DataIndex(i) + 0;
  }

  /** Setting STOP and INT completes the entry. */
  lemma Finished(tables: seq<nat>, pages: seq<nat>, noPMI: bool, i: nat)
    requires |pages| > 0 && i <= LastSlot(|pages|) && LastSlot(|pages|) / 512 < |tables|
    ensures Entry(tables, pages, noPMI, i) ==
      Plain(tables, pages, i).(stop := i == LastSlot(|pages|), int_ := InterruptAt(LastSlot(|pages|), noPMI, i))
  {
    EntryInRange(|pages|, i);
    if InterruptAt(LastSlot(|pages|), noPMI, i) {
      InterruptPlacement(LastSlot(|pages|), noPMI, i);
    }
  }

  /** Buffer pages placed in slots 0 .. i-1. */
  function FilledPages(i: nat): nat {
    i - i / 512
  }

  /** An entry as the filling loop leaves it. */
  function Plain(tables: seq<nat>, pages: seq<nat>, i: nat): TopaEntry
    requires |pages| > 0 && i <= LastSlot(|pages|) && LastSlot(|pages|) / 512 < |tables|
  {
    Entry(tables, pages, true, i).(stop := false)
  }

  lemma SlotStep(pages: nat, i: nat, bufferSize: nat)
    requires bufferSize > 0 && pages == PageCount(bufferSize) && i <= LastSlot(pages)
    ensures IsLink(i) ==>
      && FilledPages(i + 1) == FilledPages(i) && i < LastSlot(pages)
      && (i + 1) / 512 == i / 512 + 1 && (i + 1) / 512 <= LastSlot(pages) / 512
    ensures !IsLink(i) ==>
      && FilledPages(i) == DataIndex(i) < pages && FilledPages(i + 1) == FilledPages(i) + 1
      && (i + 1) / 512 == i / 512
      && ((FilledPages(i) + 1) * 4096 < bufferSize <==> i < LastSlot(pages))
  {
    EntryInRange(pages, i);
    if !IsLink(i) {
      assert (FilledPages(i) + 1) * 4096 < bufferSize <==> DataIndex(i) + 1 < pages;
      if i == LastSlot(pages) {
        SlotOfData(pages - 1);
      }
    }
  }

  /** The INT bits, set after the loop. */
  method MarkInterrupts(r: array<TopaEntry>, toPAIndex: nat, noPMI: bool)
    requires toPAIndex < r.Length
    requires forall k | 0 <= k <= toPAIndex :: !r[k].int_
    modifies r
    ensures forall k | 0 <= k < r.Length :: r[k] == Marked(old(r[..]), toPAIndex, noPMI, k, k <= toPAIndex)
  {
    hide Marked;
    var i := toPAIndex * 90 / 100;
    if i == toPAIndex && i > 0 {
      i := i - 1;
    }
    if i > 0 && (i + 1) % 512 == 0 {
      i := i - 1;
    }
    MarkFrom(r, i, toPAIndex, noPMI);
  }

  /** INT on slot f and on every second slot after it that is not a link. */
  method MarkFrom(r: array<TopaEntry>, f: nat, toPAIndex: nat, noPMI: bool)
    requires f <= toPAIndex < r.Length && f == FirstInterrupt(toPAIndex)
    requires forall k | 0 <= k <= toPAIndex :: !r[k].int_
    modifies r
    ensures forall k | 0 <= k < r.Length :: r[k] == Marked(old(r[..]), toPAIndex, noPMI, k, k <= toPAIndex)
  {
    hide IsLink, FirstInterrupt;
    var i := f;
    r[i] := r[i].(int_ := !noPMI);
    if toPAIndex > 0 {
      while i + 1 < toPAIndex
        invariant f <= i && (i - f) % 2 == 0
        invariant forall k | 0 <= k < r.Length ::
                    r[k] == Marked(old(r[..]), toPAIndex, noPMI, k, k == f || (k < i && k <= toPAIndex))
      {
        if !IsLink(i) && !noPMI {
          r[i] := r[i].(int_ := true);
        }
        i := i + 2;
      }
    }
  }

  function Marked(s: seq<TopaEntry>, last: nat, noPMI: bool, k: nat, done: bool): TopaEntry
    requires k < |s|
  {
    if done then s[k].(int_ := InterruptAt(last, noPMI, k)) else s[k]
  }
}
