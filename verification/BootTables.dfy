/** The page tables that bring DBVM up: the layout and loops of initializeDBVM in DBKKernel/vmxoffload.c and of
    InitializeDBVM in DBVM UEFI/dbvmoffload.c. Both put their tables behind the image they load. */
module BootTables {
  import opened Arithmetic
  import opened Options
  import opened Paging

  /** What differs between the two: the low 4 MB are mapped read-only or for all, and the first page of the
      stack is left out or not. */
  datatype Version = Windows | Uefi

  /** Bit 2 of an entry, user/supervisor. */
  const US: nat := 4

  /** The 1024 pages of the image, and pages behind it if there are any: all are different frames. */
  ghost predicate Image(frames: seq<nat>) {
    |frames| >= 1024 && forall i, j | 0 <= i < j < |frames| :: frames[i] != frames[j]
  }

  // ---- layout ----

  /** Pages reserved from FreeVA on: the stack, the GDT, and five tables. */
  const STACK_PAGES: nat := 16
  const GDT: nat := 16
  const TABLES: nat := 17
  const RESERVED: nat := 22

  /** The slots of the tables, counted from the page-directory-pointer table on. */
  const PDPT: nat := 0
  const PD: nat := 512
  const PT1: nat := 1024
  const PT2: nat := 1536
  const PML4: nat := 2048
  const SLOTS: nat := 2560

  /** The physical slot of table slot k when the reserved pages start at page f of the image. */
  function SlotAt(frames: seq<nat>, f: nat, k: nat): nat
    requires k < SLOTS && f + RESERVED <= |frames|
  {
    frames[f + TABLES + k / 512] * 512 + k % 512
  }

  function TablePage(frames: seq<nat>, f: nat, table: nat): nat
    requires table < SLOTS && f + RESERVED <= |frames|
  {
    frames[f + TABLES + table / 512]
  }

  function Link(frame: nat): Entry {
    Entry(true, true, false, false, frame, 0)
  }

  function Low(v: Version, frame: nat): Entry {
    Entry(true, v.Uefi?, false, true, frame, if v.Uefi? then US else 0)
  }

  /** What each table slot holds, before and after the guard page is taken out: the entry for page f of the image,
      counted from the first page table on, even when that is past the second. */
  function Wanted(frames: seq<nat>, f: nat, v: Version, guarded: bool, k: nat): Entry
    requires |frames| >= 1024 && k < SLOTS && f + RESERVED <= |frames|
  {
    var e := Full(frames, f, v, k);
    if guarded && k == PT1 + f then e.(p := false) else e
  }

  function Full(frames: seq<nat>, f: nat, v: Version, k: nat): Entry
    requires |frames| >= 1024 && k < SLOTS && f + RESERVED <= |frames|
  {
    if k == PML4 then Link(TablePage(frames, f, PDPT))
    else if k == PDPT then Link(TablePage(frames, f, PD))
    else if k == PD then Low(v, 0)
    else if k == PD + 1 then Low(v, 0x200)
    else if k == PD + 2 then Link(TablePage(frames, f, PT1))
    else if k == PD + 3 then Link(TablePage(frames, f, PT2))
    else if PT1 <= k < PML4 then Link(frames[k - PT1])
    else EMPTY
  }

  ghost predicate Built(m: Memory, frames: seq<nat>, f: nat, v: Version)
    requires |frames| >= 1024 && f + RESERVED <= |frames|
  {
    forall k | 0 <= k < SLOTS :: At(m, SlotAt(frames, f, k)) == Wanted(frames, f, v, v.Windows?, k)
  }

  lemma SlotsDiffer(frames: seq<nat>, f: nat, k: nat, j: nat)
    requires |frames| >= 1024 && Image(frames) && k < SLOTS && j < SLOTS && f + RESERVED <= |frames|
    ensures SlotAt(frames, f, k) == SlotAt(frames, f, j) <==> k == j
  {
    var a, b := frames[f + TABLES + k / 512], frames[f + TABLES + j / 512];
    if a * 512 + k % 512 == b * 512 + j % 512 {
      assert a == b;
      assert k / 512 == j / 512;
    }
  }

  // ---- what the tables mean ----

  lemma TableSlot(frames: seq<nat>, f: nat, table: nat, i: nat)
    requires f + RESERVED <= |frames| && table < SLOTS && table % 512 == 0 && i < 512
    ensures table + i < SLOTS && SlotAt(frames, f, table + i) == TablePage(frames, f, table) * 512 + i
  {
    DivModUnique(512, table / 512, i);
  }

  /** Every page below 4 MB maps to itself, every page from 4 MB to 8 MB to the matching page of the image,
      save the guard page of the Windows version, and nothing else is mapped. When the stack begins right behind
      the image, its guard is the first entry of the page map, and nothing is mapped at all. */
  lemma {:induction false} BootTranslation(m: Memory, frames: seq<nat>, f: nat, v: Version, n: nat)
    requires |frames| >= 1024 && Image(frames) && f + RESERVED <= |frames| && Built(m, frames, f, v) && n < PAGES
    ensures Translate(m, TablePage(frames, f, PML4), n) ==
            if v.Windows? && f == 1024 then None
            else if n < 1024 then Some(n)
            else if n < 2048 && (v.Uefi? || n - 1024 != f) then Some(frames[n - 1024])
            else None
  {
    hide SlotAt, Image;
    var root := TablePage(frames, f, PML4);
    TableSlot(frames, f, PML4, n / PML4_SPAN);
    assert E4(m, root, n) == Wanted(frames, f, v, v.Windows?, PML4 + n / PML4_SPAN);
    if n < PML4_SPAN {
      TableSlot(frames, f, PDPT, n / GIANT % 512);
      assert E3(m, root, n) == Wanted(frames, f, v, v.Windows?, PDPT + n / GIANT % 512);
      if n < GIANT {
        TableSlot(frames, f, PD, n / LARGE % 512);
        assert E2(m, root, n) == Wanted(frames, f, v, v.Windows?, PD + n / LARGE % 512);
        if 1024 <= n < 2048 {
          var table := if n < 1536 then PT1 else PT2;
          TableSlot(frames, f, table, n % 512);
          assert E1(m, root, n) == Wanted(frames, f, v, v.Windows?, table + n % 512);
        }
      }
    }
  }

  /** The low mapping cannot be written through in the Windows version; all the rest can. Only the low mapping of the
      UEFI version has the user bit set, in the directory entry; no accessed bit is. */
  lemma {:induction false} BootWritable(m: Memory, frames: seq<nat>, f: nat, v: Version, n: nat)
    requires |frames| >= 1024 && Image(frames) && f + RESERVED <= |frames| && Built(m, frames, f, v) && n < 2048
    ensures var root := TablePage(frames, f, PML4);
      && E4(m, root, n).rw && E3(m, root, n).rw
      && (E2(m, root, n).rw <==> v.Uefi? || n >= 1024)
      && (n >= 1024 ==> E1(m, root, n).rw && E1(m, root, n).other == 0)
      && E4(m, root, n).other == 0 && E3(m, root, n).other == 0
      && E2(m, root, n).other == (if v.Uefi? && n < 1024 then 4 else 0)
      && !E4(m, root, n).a && !E3(m, root, n).a && !E2(m, root, n).a && (n >= 1024 ==> !E1(m, root, n).a)
  {
    hide SlotAt, Image;
    var root := TablePage(frames, f, PML4);
    TableSlot(frames, f, PML4, 0);
    assert E4(m, root, n) == Wanted(frames, f, v, v.Windows?, PML4);
    TableSlot(frames, f, PDPT, 0);
    assert E3(m, root, n) == Wanted(frames, f, v, v.Windows?, PDPT);
    TableSlot(frames, f, PD, n / LARGE);
    assert E2(m, root, n) == Wanted(frames, f, v, v.Windows?, PD + n / LARGE);
    if n >= 1024 {
      var table := if n < 1536 then PT1 else PT2;
      TableSlot(frames, f, table, n % 512);
      assert E1(m, root, n) == Wanted(frames, f, v, v.Windows?, table + n % 512);
    }
  }

  // ---- the free address ----

  /** The first page behind the image, Windows version: the file size is rounded up past a page end, and one
      more page is skipped. */
  function FreeWindows(vmm: nat, fileSize: nat): nat {
    var vmmsize := (fileSize + 4096) / 4096 * 4096;
    (vmm + vmmsize) / 4096 * 4096 + 4096
  }

  /** The UEFI version's mask lacks a digit: it clears the low 8 and the top 4 bits of the sum. */
  function FreeUefi(vmm: nat, size: nat): nat {
    (vmm + size) % 0x1000_0000_0000_0000 / 256 * 256 + 4096
  }

  lemma {:induction false} FreeWindowsPage(vmm: nat, fileSize: nat)
    requires vmm % 4096 == 0
    ensures FreeWindows(vmm, fileSize) == vmm + (fileSize / 4096 + 2) * 4096
  {
    AddMultiple(fileSize, 1, 4096);
    DivModUnique(4096, vmm / 4096 + fileSize / 4096 + 1, 0);
  }

  /** Its tables begin on a page exactly when the image ends less than 256 bytes past one. */
  lemma {:induction false} FreeUefiAligned(vmm: nat, size: nat)
    requires vmm + size < 0x1000_0000_0000_0000
    ensures FreeUefi(vmm, size) % 4096 == 0 <==> (vmm + size) % 4096 < 256
  {
    var x := vmm + size;
    var q := x % 4096 / 256;
    assert x == x / 4096 * 4096 + q * 256 + x % 256;
    assert x / 256 == x / 4096 * 16 + q;
    AddMultiple(q * 256, x / 4096 + 1, 4096);
  }

  lemma {:induction false} FreeUefiPage(vmm: nat, size: nat)
    requires vmm % 4096 == 0 && size % 4096 == 0 && vmm + size < 0x1000_0000_0000_0000
    ensures FreeUefi(vmm, size) == vmm + (size / 4096 + 1) * 4096
  {
    DivModUnique(256, (vmm / 4096 + size / 4096) * 16, 0);
  }

  /** The reserved pages end inside the 4 MB exactly when the file is smaller than 1001 pages; the code itself
      only refuses files of more than 1024. */
  lemma {:induction false} LayoutFits(vmm: nat, fileSize: nat)
    requires vmm % 4096 == 0
    ensures FreeWindows(vmm, fileSize) + RESERVED * 4096 <= vmm + 1024 * 4096 <==> fileSize < 1001 * 4096
  {
    FreeWindowsPage(vmm, fileSize);
  }

  /** The same for the UEFI version, whose caller passes up to 1024 whole pages. */
  lemma {:induction false} LayoutFitsUefi(vmm: nat, size: nat)
    requires vmm % 4096 == 0 && size % 4096 == 0 && vmm + size < 0x1000_0000_0000_0000
    ensures FreeUefi(vmm, size) + RESERVED * 4096 <= vmm + 1024 * 4096 <==> size <= 1001 * 4096
  {
    FreeUefiPage(vmm, size);
  }

  // ---- the code ----

  /** The slots filled once the directory is complete and i page-table entries are written. */
  function DoneTo(i: nat): (done: set<nat>)
    ensures forall k :: k in done <==> k == PML4 || k == PDPT || PD <= k < PD + 4 || PT1 <= k < PT1 + i
  {
    if i == 0 then {PML4, PDPT, PD, PD + 1, PD + 2, PD + 3} else DoneTo(i - 1) + {PT1 + i - 1}
  }

  /** The slots in `done` hold what they should, the others of the tables are still zero. */
  ghost predicate Partly(m: Memory, frames: seq<nat>, f: nat, v: Version, done: set<nat>)
    requires |frames| >= 1024 && f + RESERVED <= |frames|
  {
    forall k | 0 <= k < SLOTS ::
      At(m, SlotAt(frames, f, k)) == if k in done then Wanted(frames, f, v, false, k) else EMPTY
  }

  ghost predicate Outside(frames: seq<nat>, f: nat, slot: nat)
    requires f + RESERVED <= |frames|
  {
    forall k | 0 <= k < SLOTS :: SlotAt(frames, f, k) != slot
  }

  /** Two memories agree but for the tables. */
  ghost predicate SameOutside(m: Memory, m': Memory, frames: seq<nat>, f: nat)
    requires f + RESERVED <= |frames|
  {
    forall slot | Outside(frames, f, slot) :: At(m', slot) == At(m, slot)
  }

  /** Writing table slot k changes that slot only. */
  lemma OneSlot(m: Memory, frames: seq<nat>, f: nat, k: nat, e: Entry)
    requires |frames| >= 1024 && Image(frames) && f + RESERVED <= |frames| && k < SLOTS
    ensures var m' := m[SlotAt(frames, f, k) := e];
      && SameOutside(m, m', frames, f)
      && (forall j | 0 <= j < SLOTS ::
            At(m', SlotAt(frames, f, j)) == if j == k then e else At(m, SlotAt(frames, f, j)))
  {
    hide SlotAt;
    forall j | 0 <= j < SLOTS
      ensures SlotAt(frames, f, k) == SlotAt(frames, f, j) <==> k == j
    {
      SlotsDiffer(frames, f, k, j);
    }
  }

  lemma OneMore(m: Memory, frames: seq<nat>, f: nat, v: Version, done: set<nat>, k: nat, e: Entry)
    requires |frames| >= 1024 && Image(frames) && f + RESERVED <= |frames| && k < SLOTS
    requires Partly(m, frames, f, v, done) && e == Wanted(frames, f, v, false, k)
    ensures Partly(m[SlotAt(frames, f, k) := e], frames, f, v, done + {k})
  {
    hide SlotAt, Image, Wanted;
    OneSlot(m, frames, f, k, e);
  }

  /** The last write of the Windows version. */
  lemma Guarded(m: Memory, frames: seq<nat>, f: nat, e: Entry)
    requires |frames| >= 1024 && Image(frames) && f + RESERVED <= |frames|
    requires f < 1536 && Partly(m, frames, f, Windows, DoneTo(1024))
    requires e == At(m, SlotAt(frames, f, PT1 + f)).(p := false)
    ensures Built(m[SlotAt(frames, f, PT1 + f) := e], frames, f, Windows)
  {
    hide SlotAt, Image;
    OneSlot(m, frames, f, PT1 + f, e);
  }

  lemma AllDone(m: Memory, frames: seq<nat>, f: nat)
    requires |frames| >= 1024 && f + RESERVED <= |frames| && Partly(m, frames, f, Uefi, DoneTo(1024))
    ensures Built(m, frames, f, Uefi)
  {
    hide SlotAt;
  }

  class Loader {
    var memory: Memory
    var pagedirlvl4: nat
    var nextstack: nat
    var gdtBase: nat
    var pml4PA: nat

    /** The physical address behind an address of the mapped image. */
    static function PhysicalAddress(vmm: nat, frames: seq<nat>, va: nat): nat
      requires vmm <= va && (va - vmm) / 4096 < |frames|
    {
      frames[(va - vmm) / 4096] * 4096 + (va - vmm) % 4096
    }

    /** Stores an entry through the mapped image. */
    method Put(vmm: nat, frames: seq<nat>, va: nat, e: Entry, ghost f: nat, ghost k: nat)
      requires vmm <= va && (va - vmm) / 4096 < |frames| && |frames| >= 1024 && Image(frames)
      requires f + RESERVED <= |frames| && k < SLOTS && va == vmm + (f + TABLES) * 4096 + k * 8
      modifies `memory
      ensures memory == old(memory)[SlotAt(frames, f, k) := e]
      ensures SameOutside(old(memory), memory, frames, f)
    {
      SlotAddress(vmm, frames, va, f, k);
      var address := PhysicalAddress(vmm, frames, va);
      OneSlot(memory, frames, f, k, e);
      memory := memory[address / 8 := e];
    }

    /** Fills table slot k. */
    method Write(vmm: nat, frames: seq<nat>, va: nat, e: Entry, ghost f: nat, ghost v: Version, ghost k: nat,
                 ghost done: set<nat>) returns (ghost more: set<nat>)
      requires vmm <= va && (va - vmm) / 4096 < |frames| && |frames| >= 1024 && Image(frames)
      requires f + RESERVED <= |frames| && k < SLOTS && va == vmm + (f + TABLES) * 4096 + k * 8
      requires Partly(memory, frames, f, v, done) && e == Wanted(frames, f, v, false, k)
      modifies `memory
      ensures more == done + {k} && Partly(memory, frames, f, v, more)
      ensures SameOutside(old(memory), memory, frames, f)
    {
      hide SlotAt, Image, Partly, Wanted;
      OneMore(memory, frames, f, v, done, k, e);
      Put(vmm, frames, va, e, f, k);
      more := done + {k};
    }

    /** The entries above the page tables. */
    method FillDirectory(vmm: nat, frames: seq<nat>, v: Version, pageMapLevel4: nat, pageDirPtr: nat, pageDir: nat,
                         pageTable1: nat, pageTable2: nat, ghost f: nat)
      requires |frames| >= 1024 && Image(frames) && f + RESERVED <= |frames|
      requires var free := vmm + f * 4096;
        && pageDirPtr == free + 17 * 4096 && pageDir == free + 18 * 4096 && pageTable1 == free + 19 * 4096
        && pageTable2 == free + 20 * 4096 && pageMapLevel4 == free + 21 * 4096
      requires Partly(memory, frames, f, v, {})
      modifies `memory
      ensures Partly(memory, frames, f, v, DoneTo(0))
      ensures SameOutside(old(memory), memory, frames, f)
    {
      hide SlotAt, Image, Partly, Link, Low, PhysicalAddress, DoneTo;
      PageFrames(vmm, frames, f);
      ghost var done: set<nat> := {};
      done := Write(vmm, frames, pageMapLevel4, Link(PhysicalAddress(vmm, frames, pageDirPtr) / 4096),
                    f, v, PML4, done);
      done := Write(vmm, frames, pageDirPtr, Link(PhysicalAddress(vmm, frames, pageDir) / 4096), f, v, PDPT, done);
      done := Write(vmm, frames, pageDir, Low(v, 0), f, v, PD, done);
      done := Write(vmm, frames, pageDir + 8, Low(v, 0x0020_0000 / 4096), f, v, PD + 1, done);
      done := Write(vmm, frames, pageDir + 16, Link(PhysicalAddress(vmm, frames, pageTable1) / 4096),
                    f, v, PD + 2, done);
      done := Write(vmm, frames, pageDir + 24, Link(PhysicalAddress(vmm, frames, pageTable2) / 4096),
                    f, v, PD + 3, done);
      assert done == DoneTo(0);
    }

    /** Entries from `from` to `to` of the two page tables, which lie behind each other. */
    method FillPageTables(vmm: nat, frames: seq<nat>, v: Version, pageTable: nat, from: nat, to: nat, ghost f: nat)
      requires |frames| >= 1024 && Image(frames) && f + RESERVED <= |frames| && from <= to <= 1024
      requires pageTable == vmm + (f + 19) * 4096 + from * 8
      requires Partly(memory, frames, f, v, DoneTo(from))
      modifies `memory
      ensures Partly(memory, frames, f, v, DoneTo(to))
      ensures SameOutside(old(memory), memory, frames, f)
    {
      hide SlotAt, Image, Partly, DoneTo;
      for i := 0 to to - from
        invariant Partly(memory, frames, f, v, DoneTo(from + i))
        invariant SameOutside(old(memory), memory, frames, f)
      {
        DivModUnique(4096, from + i, 0);
        var frame := PhysicalAddress(vmm, frames, vmm + 4096 * (from + i)) / 4096;
        DivModUnique(4096, frames[from + i], 0);
        ghost var done := Write(vmm, frames, pageTable + 8 * i, Link(frame), f, v, PT1 + from + i, DoneTo(from + i));
        assert done == DoneTo(from + i + 1);
      }
    }

    /** The first page of the stack becomes unreadable, if it lies in the image. */
    method TakeOutGuard(vmm: nat, frames: seq<nat>, mainstack: nat, pageTable1: nat, ghost f: nat)
      requires |frames| >= 1024 && Image(frames) && f + RESERVED <= |frames| && f < 1536
      requires mainstack == vmm + f * 4096 && pageTable1 == vmm + (f + 19) * 4096
      requires Partly(memory, frames, f, Windows, DoneTo(1024))
      modifies `memory
      ensures Built(memory, frames, f, Windows) && SameOutside(old(memory), memory, frames, f)
    {
      hide SlotAt, Image, Partly, Built, DoneTo, PhysicalAddress;
      var i := (mainstack - vmm) / 4096;
      DivModUnique(4096, f, 0);
      SlotAddress(vmm, frames, pageTable1 + 8 * i, f, PT1 + f);
      var guard := At(memory, PhysicalAddress(vmm, frames, pageTable1 + 8 * i) / 8).(p := false);
      Guarded(memory, frames, f, guard);
      Put(vmm, frames, pageTable1 + 8 * i, guard, f, PT1 + f);
    }

    /** initializeDBVM of vmxoffload.c, from the free address to the start variables. */
    method InitializeDBVM(vmm: nat, frames: seq<nat>, fileSize: nat)
      requires vmm % 4096 == 0 && |frames| >= 1024 && Image(frames) && fileSize <= 1024 * 4096
      requires fileSize / 4096 + 2 + RESERVED <= |frames| && Partly(memory, frames, fileSize / 4096 + 2, Windows, {})
      modifies this
      ensures var f := fileSize / 4096 + 2;
        && Built(memory, frames, f, Windows) && SameOutside(old(memory), memory, frames, f)
        && (Named(memory, frames, f, pml4PA, pagedirlvl4, nextstack, gdtBase) <==> fileSize < 1001 * 4096)
    {
      hide SlotAt, Image, Partly, Built, Named, DoneTo, FreeWindows, PhysicalAddress, TablePage;
      ghost var f := fileSize / 4096 + 2;
      var freeVA := FreeWindows(vmm, fileSize);
      FreeWindowsPage(vmm, fileSize);
      var mainstack := freeVA;
      freeVA := freeVA + 16 * 4096;
      var gdt := freeVA;
      freeVA := freeVA + 4096;
      var pageDirPtr := freeVA;
      freeVA := freeVA + 4096;
      var pageDir := freeVA;
      freeVA := freeVA + 4096;
      var pageTable1 := freeVA;
      freeVA := freeVA + 4096;
      var pageTable2 := freeVA;
      freeVA := freeVA + 4096;
      var pageMapLevel4 := freeVA;
      freeVA := freeVA + 4096;

      FillDirectory(vmm, frames, Windows, pageMapLevel4, pageDirPtr, pageDir, pageTable1, pageTable2, f);
      FillPageTables(vmm, frames, Windows, pageTable1, 0, 1024, f);
      TakeOutGuard(vmm, frames, mainstack, pageTable1, f);

      PageFrames(vmm, frames, f);
      pml4PA := PhysicalAddress(vmm, frames, pageMapLevel4);
      gdtBase := 0x0040_0000 + (gdt - vmm);
      pagedirlvl4 := 0x0040_0000 + (pageMapLevel4 - vmm);
      nextstack := 0x0040_0000 + (mainstack - vmm) + 16 * 4096 - 0x40;
      StartValues(memory, vmm, frames, f, Windows, pml4PA, pagedirlvl4, nextstack, gdtBase);
    }

    /** Clears the physical memory from one page address to another. */
    method ZeroMem(from: nat, to: nat, ghost vmm: nat, ghost f: nat)
      requires f + RESERVED <= CONTIGUOUS && vmm % 4096 == 0
      requires from == vmm + f * 4096 && to == from + RESERVED * 4096
      modifies `memory
      ensures Partly(memory, Contiguous(vmm), f, Uefi, {}) && OnlyReserved(old(memory), memory, vmm, f)
    {
      memory := map slot | slot in memory && !(from / 8 <= slot < to / 8) :: memory[slot];
      TableSlots(vmm, f);
    }

    /** InitializeDBVM of dbvmoffload.c; vmm is a physical address there. */
    method InitializeUefi(vmm: nat, vmmsize: nat)
      requires vmm % 4096 == 0 && vmmsize % 4096 == 0 && vmm + vmmsize < 0x1000_0000_0000_0000
      requires vmmsize <= 1024 * 4096
      modifies this
      ensures var f := vmmsize / 4096 + 1;
        && Built(memory, Contiguous(vmm), f, Uefi) && OnlyReserved(old(memory), memory, vmm, f)
        && (Named(memory, Contiguous(vmm), f, pml4PA, pagedirlvl4, nextstack, gdtBase) <==> vmmsize <= 1001 * 4096)
    {
      hide SlotAt, Image, Contiguous, Partly, Built, Named, DoneTo;
      ghost var f := vmmsize / 4096 + 1;
      var frames := Contiguous(vmm);
      ContiguousImage(vmm);
      var freePA := FreeUefi(vmm, vmmsize);
      FreeUefiPage(vmm, vmmsize);
      var mainstack := freePA;
      freePA := freePA + 16 * 4096;
      var gdt := freePA;
      freePA := freePA + 4096;
      var pageDirPtr := freePA;
      freePA := freePA + 4096;
      var pageDir := freePA;
      freePA := freePA + 4096;
      var pageTable1 := freePA;
      freePA := freePA + 4096;
      var pageTable2 := freePA;
      freePA := freePA + 4096;
      var pageMapLevel4 := freePA;
      freePA := freePA + 4096;
      ghost var before := memory;
      ZeroMem(mainstack, freePA, vmm, f);
      ghost var cleared := memory;

      FillDirectory(vmm, frames, Uefi, pageMapLevel4, pageDirPtr, pageDir, pageTable1, pageTable2, f);
      FillPageTables(vmm, frames, Uefi, pageTable1, 0, 512, f);
      FillPageTables(vmm, frames, Uefi, pageTable2, 512, 1024, f);
      AllDone(memory, frames, f);
      TablesReserved(before, cleared, memory, vmm, f);

      pml4PA := pageMapLevel4;
      gdtBase := 0x0040_0000 + gdt - vmm;
      pagedirlvl4 := 0x0040_0000 + (pageMapLevel4 - vmm);
      nextstack := 0x0040_0000 + (mainstack - vmm) + 16 * 4096 - 0x40;
      ContiguousAddress(vmm, f + 21);
      StartValues(memory, vmm, frames, f, Uefi, pml4PA, pagedirlvl4, nextstack, gdtBase);
    }
  }

  /** Enough pages for the largest image and what is reserved behind it. */
  const CONTIGUOUS: nat := 1024 + 2 + RESERVED

  function Contiguous(vmm: nat): (frames: seq<nat>)
    ensures |frames| == CONTIGUOUS
  {
    seq(CONTIGUOUS, i requires 0 <= i < CONTIGUOUS => vmm / 4096 + i)
  }

  lemma ContiguousImage(vmm: nat)
    ensures Image(Contiguous(vmm))
  {
  }

  lemma ContiguousAddress(vmm: nat, i: nat)
    requires vmm % 4096 == 0 && i < CONTIGUOUS
    ensures Contiguous(vmm)[i] * 4096 == vmm + i * 4096
  {
  }

  /** No slot but those of the reserved pages has changed. */
  ghost predicate OnlyReserved(m: Memory, m': Memory, vmm: nat, f: nat) {
    forall slot: nat | !InReserved(vmm, f, slot) :: At(m', slot) == At(m, slot)
  }

  predicate InReserved(vmm: nat, f: nat, slot: nat) {
    (vmm / 4096 + f) * 512 <= slot < (vmm / 4096 + f + RESERVED) * 512
  }

  lemma TableSlots(vmm: nat, f: nat)
    requires f + RESERVED <= CONTIGUOUS
    ensures forall k | 0 <= k < SLOTS :: InReserved(vmm, f, SlotAt(Contiguous(vmm), f, k))
  {
  }

  /** The reserved pages were cleared, then the tables in them filled. */
  lemma TablesReserved(m: Memory, cleared: Memory, m': Memory, vmm: nat, f: nat)
    requires f + RESERVED <= CONTIGUOUS && OnlyReserved(m, cleared, vmm, f)
    requires SameOutside(cleared, m', Contiguous(vmm), f)
    ensures OnlyReserved(m, m', vmm, f)
  {
    hide SlotAt, InReserved, Contiguous;
    TableSlots(vmm, f);
    forall slot: nat | !InReserved(vmm, f, slot)
      ensures At(m', slot) == At(m, slot)
    {
      assert Outside(Contiguous(vmm), f, slot);
    }
  }

  /** The physical slot behind the address of table slot k. */
  lemma SlotAddress(vmm: nat, frames: seq<nat>, va: nat, f: nat, k: nat)
    requires f + RESERVED <= |frames| && k < SLOTS && va == vmm + (f + TABLES) * 4096 + k * 8
    ensures (va - vmm) / 4096 < |frames|
    ensures Loader.PhysicalAddress(vmm, frames, va) / 8 == SlotAt(frames, f, k)
  {
    DivModUnique(4096, f + TABLES + k / 512, k % 512 * 8);
    DivModUnique(8, frames[f + TABLES + k / 512] * 512 + k % 512, 0);
  }

  /** The frames behind the reserved pages. */
  lemma PageFrames(vmm: nat, frames: seq<nat>, f: nat)
    requires |frames| >= 1024 && f + RESERVED <= |frames|
    ensures forall j: nat | j < RESERVED ::
      Loader.PhysicalAddress(vmm, frames, vmm + f * 4096 + j * 4096) / 4096 == frames[f + j]
    ensures Loader.PhysicalAddress(vmm, frames, vmm + f * 4096 + 21 * 4096) == frames[f + 21] * 4096
  {
  }

  /** The start variables name what they should, seen through the new tables: the page map under the physical
      address handed to the processor, a stack pointer 64 bytes below the end of the last stack page, and the GDT. */
  ghost predicate Named(m: Memory, frames: seq<nat>, f: nat, pml4PA: nat, pagedirlvl4: nat, nextstack: nat,
                        gdtBase: nat)
    requires |frames| >= 1024 && f + RESERVED <= |frames|
  {
    && pml4PA == TablePage(frames, f, PML4) * 4096
    && Translate(m, pml4PA / 4096, PageOf(pagedirlvl4)) == Some(pml4PA / 4096) && pagedirlvl4 % 4096 == 0
    && Translate(m, pml4PA / 4096, PageOf(nextstack)) == Some(frames[f + STACK_PAGES - 1])
    && nextstack % 4096 == 4096 - 64
    && Translate(m, pml4PA / 4096, PageOf(gdtBase)) == Some(frames[f + GDT]) && gdtBase % 4096 == 0
  }

  /** And they do so exactly when the reserved pages lie in the image. */
  lemma {:induction false} StartValues(m: Memory, vmm: nat, frames: seq<nat>, f: nat, v: Version,
                    pml4PA: nat, pagedirlvl4: nat, nextstack: nat, gdtBase: nat)
    requires |frames| >= 1024 && Image(frames) && f + RESERVED <= |frames| && Built(m, frames, f, v)
    requires f < 1536 && pml4PA == frames[f + 21] * 4096
    requires pagedirlvl4 == 0x0040_0000 + (f + 21) * 4096
    requires nextstack == 0x0040_0000 + (f + 16) * 4096 - 64
    requires gdtBase == 0x0040_0000 + (f + 16) * 4096
    ensures Named(m, frames, f, pml4PA, pagedirlvl4, nextstack, gdtBase) <==> f + RESERVED <= 1024
  {
    hide Translate, Built, Image;
    DivModUnique(4096, 1024 + f + 21, 0);
    DivModUnique(4096, 1024 + f + 15, 4096 - 64);
    DivModUnique(4096, 1024 + f + 16, 0);
    DivModUnique(4096, frames[f + 21], 0);
    BootTranslation(m, frames, f, v, 1024 + f + 21);
    BootTranslation(m, frames, f, v, 1024 + f + 15);
    BootTranslation(m, frames, f, v, 1024 + f + 16);
  }
}
