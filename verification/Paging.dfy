/** Four-level x86-64 translation over a physical memory of 8-byte entries
    (section 4.5 of the Intel SDM, Volume 3A), and the address arithmetic with which
    DBKKernel/memscan.c reaches the entries of a page through the recursive self-map.

    A virtual page is named by its number 0 <= n < PAGES (the low 48 address bits divided by 4096);
    an entry is named by its slot, that is its physical address divided by 8. */
module Paging {
  import opened Arithmetic
  import opened Options

  /** The bits of an entry the driver looks at; `other` stands for the remaining ones.
      `ps` is bit 7: the page-size bit of a PDPTE or PDE, reserved in a PML4E, PAT in a PTE. */
  datatype Entry = Entry(p: bool, rw: bool, a: bool, ps: bool, frame: nat, other: nat)

  type Memory = map<nat, Entry>

  const EMPTY := Entry(false, false, false, false, 0, 0)
  const PAGES: nat := 0x10_0000_0000
  const PML4_SPAN: nat := 0x800_0000
  const GIANT: nat := 0x4_0000
  const LARGE: nat := 0x200
  const TWO48: nat := 0x1_0000_0000_0000
  const TWO64: nat := 0x1_0000_0000_0000_0000
  const SIGN: nat := 0xFFFF_0000_0000_0000

  /** Memory that was never written reads as an all-zero entry. */
  function At(m: Memory, slot: nat): Entry {
    if slot in m then m[slot] else EMPTY
  }

  // ---- the walk the processor makes ----

  function Slot4(root: nat, n: nat): nat {
    root * 512 + n / PML4_SPAN
  }

  function E4(m: Memory, root: nat, n: nat): Entry {
    At(m, Slot4(root, n))
  }

  function Slot3(m: Memory, root: nat, n: nat): nat {
    E4(m, root, n).frame * 512 + n / GIANT % 512
  }

  function E3(m: Memory, root: nat, n: nat): Entry {
    At(m, Slot3(m, root, n))
  }

  function Slot2(m: Memory, root: nat, n: nat): nat {
    E3(m, root, n).frame * 512 + n / LARGE % 512
  }

  function E2(m: Memory, root: nat, n: nat): Entry {
    At(m, Slot2(m, root, n))
  }

  function Slot1(m: Memory, root: nat, n: nat): nat {
    E2(m, root, n).frame * 512 + n % 512
  }

  function E1(m: Memory, root: nat, n: nat): Entry {
    At(m, Slot1(m, root, n))
  }

  /** A leaf maps `count` pages from page `first` on to consecutive frames from `frame` on;
      `slot` is where its entry lies. */
  datatype Leaf = Leaf(first: nat, count: nat, slot: nat, frame: nat)

  function LeafAt(m: Memory, root: nat, n: nat): Option<Leaf> {
    var e4 := E4(m, root, n);
    if !e4.p || e4.ps then None
    else
      var e3 := E3(m, root, n);
      if !e3.p then None
      else if e3.ps then
        Some(Leaf(n / GIANT * GIANT, GIANT, Slot3(m, root, n), e3.frame / GIANT * GIANT))
      else
        var e2 := E2(m, root, n);
        if !e2.p then None
        else if e2.ps then
          Some(Leaf(n / LARGE * LARGE, LARGE, Slot2(m, root, n), e2.frame / LARGE * LARGE))
        else
          var e1 := E1(m, root, n);
          if !e1.p then None else Some(Leaf(n, 1, Slot1(m, root, n), e1.frame))
  }

  /** The frame that page n maps to, or None when an access faults. */
  function Translate(m: Memory, root: nat, n: nat): Option<nat> {
    match LeafAt(m, root, n)
    case None => None
    case Some(l) => Some(l.frame + (n - LeafFirst(m, root, n)))
  }

  function LeafFirst(m: Memory, root: nat, n: nat): (first: nat)
    requires LeafAt(m, root, n).Some?
    ensures first == LeafAt(m, root, n).value.first <= n
  {
    LeafAt(m, root, n).value.first
  }

  // ---- virtual addresses ----

  function PageOf(va: nat): (n: nat)
    ensures n < PAGES
  {
    va % TWO48 / 4096
  }

  /** The canonical address of a page: bit 47 is copied to bits 48-63. */
  function Address(n: nat): nat {
    n * 4096 + if n >= PAGES / 2 then SIGN else 0
  }

  predicate Canonical(va: nat) {
    va == Address(PageOf(va)) + va % 4096
  }

  /** The slot that an 8-byte read at va hits, or None when it faults. */
  function LoadSlot(m: Memory, root: nat, va: nat): Option<nat> {
    if !Canonical(va) then None
    else
      match Translate(m, root, PageOf(va))
      case None => None
      case Some(frame) => Some(frame * 512 + va % 4096 / 8)
  }

  // ---- memscan.c ----

  datatype Indexes = Indexes(pml4: nat, pagedirptr: nat, pagedir: nat, pagetable: nat)

  function VirtualAddressToIndexes(address: nat): Indexes {
    Indexes(address / 0x80_0000_0000 % 512, address / 0x4000_0000 % 512,
            address / 0x20_0000 % 512, address / 4096 % 512)
  }

  /** The C function ORs disjoint bit fields, which is addition. */
  function IndexesToVirtualAddress(x: Indexes, offset: nat): nat {
    x.pml4 % 512 * 0x80_0000_0000
    + (if x.pml4 >= 256 then SIGN else 0)
    + x.pagedirptr % 512 * 0x4000_0000
    + x.pagedir % 512 * 0x20_0000
    + x.pagetable % 512 * 4096
    + offset % 4096
  }

  function PageOfIndexes(x: Indexes): nat {
    x.pml4 * PML4_SPAN + x.pagedirptr * GIANT + x.pagedir * LARGE + x.pagetable
  }

  predicate InRange(x: Indexes) {
    x.pml4 < 512 && x.pagedirptr < 512 && x.pagedir < 512 && x.pagetable < 512
  }

  /** One step `((a & 0xffffffffffff) >> 12) * 8 + PTB` of VirtualAddressToPageEntries64, in 64 bits. */
  function EntryPointer(base: nat, va: nat): nat {
    (va % TWO48 / 4096 * 8 + base) % TWO64
  }

  datatype Pointers = Pointers(pml4e: nat, pdpte: nat, pde: nat, pte: nat)

  function VirtualAddressToPageEntries64(base: nat, address: nat): Pointers {
    var pte := EntryPointer(base, address);
    var pde := EntryPointer(base, pte);
    var pdpte := EntryPointer(base, pde);
    Pointers(EntryPointer(base, pdpte), pdpte, pde, pte)
  }

  /** PML4 slot s of the table at frame root points back at that table. */
  predicate SelfMapped(m: Memory, root: nat, s: nat) {
    && s < 512
    && var e := At(m, root * 512 + s); e.p && !e.ps && e.frame == root
  }

  /** The page-table base that belongs to self-map slot s. */
  function TableBase(s: nat): nat {
    Address(s * PML4_SPAN)
  }

  /** The page whose contents are the table entries of the pages around n, one level down. */
  function Up(s: nat, n: nat): nat {
    s * PML4_SPAN + n / 512
  }

  lemma UpIndexes(s: nat, n: nat)
    requires s < 512 && n < PAGES
    ensures Up(s, n) < PAGES
    ensures Up(s, n) / PML4_SPAN == s
    ensures Up(s, n) / GIANT % 512 == n / PML4_SPAN
    ensures Up(s, n) / LARGE % 512 == n / GIANT % 512
    ensures Up(s, n) % 512 == n / LARGE % 512
  {
    var k := n / 512;
    DivDiv(n, 512, GIANT);
    DivDiv(n, 512, LARGE);
    AddMultiple(k, s, PML4_SPAN);
    AddMultiple(k, s * 512, GIANT);
    AddMultiple(k / GIANT, s, 512);
    AddMultiple(k, s * GIANT, LARGE);
    AddMultiple(k / LARGE, s * 512, 512);
    AddMultiple(k, s * GIANT, 512);
  }

  /** Going through the self-map shifts the walk by one level. */
  lemma UpShift(m: Memory, root: nat, s: nat, n: nat)
    requires SelfMapped(m, root, s) && n < PAGES
    ensures E4(m, root, Up(s, n)) == At(m, root * 512 + s)
    ensures Slot3(m, root, Up(s, n)) == Slot4(root, n)
    ensures Slot2(m, root, Up(s, n)) == Slot3(m, root, n)
    ensures Slot1(m, root, Up(s, n)) == Slot2(m, root, n)
  {
    UpIndexes(s, n);
  }

  lemma LowBits(k: nat, x: nat)
    requires x < TWO48
    ensures (k * TWO48 + x) % TWO48 == x
  {
  }

  lemma AddressFacts(n: nat, offset: nat)
    requires n < PAGES && offset < 4096
    ensures PageOf(Address(n) + offset) == n
    ensures (Address(n) + offset) % 4096 == offset
    ensures Canonical(Address(n) + offset)
    ensures Address(n) + offset < TWO64
  {
    var k := if n >= PAGES / 2 then 0xFFFF else 0;
    var va := Address(n) + offset;
    assert va == k * TWO48 + (n * 4096 + offset);
    LowBits(k, n * 4096 + offset);
    assert va % TWO48 == n * 4096 + offset;
    assert PageOf(va) == n;
    assert va == (k * 0x10_0000_0000 + n) * 4096 + offset;
    assert va % 4096 == offset;
  }

  lemma EntryPointerFacts(s: nat, va: nat)
    requires s < 512
    ensures EntryPointer(TableBase(s), va) == Address(Up(s, PageOf(va))) + PageOf(va) % 512 * 8
    ensures PageOf(EntryPointer(TableBase(s), va)) == Up(s, PageOf(va)) < PAGES
    ensures EntryPointer(TableBase(s), va) == TableBase(s) + 8 * PageOf(va)
  {
    var n := PageOf(va);
    UpIndexes(s, n);
    AddressFacts(Up(s, n), n % 512 * 8);
    assert Up(s, n) >= PAGES / 2 <==> s * PML4_SPAN >= PAGES / 2;
    assert n * 8 == n / 512 * 4096 + n % 512 * 8;
  }

  /** Reading one of the pointers is a translation of a page inside the self-map. */
  lemma LoadThroughSelfMap(m: Memory, root: nat, s: nat, va: nat)
    requires SelfMapped(m, root, s)
    ensures LoadSlot(m, root, EntryPointer(TableBase(s), va))
         == match Translate(m, root, Up(s, PageOf(va)))
            case None => None
            case Some(f) => Some(f * 512 + PageOf(va) % 512)
  {
    var n := PageOf(va);
    EntryPointerFacts(s, va);
    AddressFacts(Up(s, n), n % 512 * 8);
  }

  /** What a page of the self-map one to four levels up translates to. */
  lemma TranslateUp1(m: Memory, root: nat, s: nat, n: nat)
    requires SelfMapped(m, root, s) && n < PAGES
    requires !E4(m, root, n).ps && !E3(m, root, n).ps
    ensures Translate(m, root, Up(s, n)) ==
      if E4(m, root, n).p && E3(m, root, n).p && E2(m, root, n).p then Some(E2(m, root, n).frame) else None
  {
    UpShift(m, root, s, n);
  }

  lemma TranslateUp2(m: Memory, root: nat, s: nat, n: nat)
    requires SelfMapped(m, root, s) && n < PAGES && Up(s, n) < PAGES
    requires !E4(m, root, n).ps
    ensures Translate(m, root, Up(s, Up(s, n))) ==
      if E4(m, root, n).p && E3(m, root, n).p then Some(E3(m, root, n).frame) else None
  {
    UpShift(m, root, s, n);
    TranslateUp1(m, root, s, Up(s, n));
  }

  lemma TranslateUp3(m: Memory, root: nat, s: nat, n: nat)
    requires SelfMapped(m, root, s) && n < PAGES && Up(s, n) < PAGES && Up(s, Up(s, n)) < PAGES
    ensures Translate(m, root, Up(s, Up(s, Up(s, n)))) ==
      if E4(m, root, n).p then Some(E4(m, root, n).frame) else None
  {
    UpShift(m, root, s, n);
    TranslateUp2(m, root, s, Up(s, n));
  }

  lemma TranslateUp4(m: Memory, root: nat, s: nat, n: nat)
    requires SelfMapped(m, root, s) && n < PAGES && Up(s, n) < PAGES && Up(s, Up(s, n)) < PAGES
    requires Up(s, Up(s, Up(s, n))) < PAGES
    ensures Translate(m, root, Up(s, Up(s, Up(s, Up(s, n))))) == Some(root)
  {
    UpShift(m, root, s, n);
    TranslateUp3(m, root, s, Up(s, n));
  }

  /** Page number and page offset of the four pointers. */
  lemma PointerPages(s: nat, va: nat)
    requires s < 512
    ensures var n, q := PageOf(va), VirtualAddressToPageEntries64(TableBase(s), va);
      var u1 := Up(s, n); var u2 := Up(s, u1); var u3 := Up(s, u2);
      && PageOf(q.pte) == u1 < PAGES && PageOf(q.pde) == u2 < PAGES && PageOf(q.pdpte) == u3 < PAGES
      && u1 % 512 == n / LARGE % 512 && u2 % 512 == n / GIANT % 512 && u3 % 512 == n / PML4_SPAN
  {
    var n, q := PageOf(va), VirtualAddressToPageEntries64(TableBase(s), va);
    EntryPointerFacts(s, va);
    EntryPointerFacts(s, q.pte);
    EntryPointerFacts(s, q.pde);
    UpIndexes(s, n);
    UpIndexes(s, Up(s, n));
    UpIndexes(s, Up(s, Up(s, n)));
  }

  /** Load of the pointer made from va, when the page it lies in is known to translate to f. */
  lemma LoadPointer(m: Memory, root: nat, s: nat, va: nat, f: Option<nat>, slot: nat)
    requires SelfMapped(m, root, s)
    requires Translate(m, root, Up(s, PageOf(va))) == f
    requires f.Some? ==> slot == f.value * 512 + PageOf(va) % 512
    ensures LoadSlot(m, root, EntryPointer(TableBase(s), va)) == if f.Some? then Some(slot) else None
  {
    LoadThroughSelfMap(m, root, s, va);
  }

  function Present(p: bool, frame: nat): Option<nat> {
    if p then Some(frame) else None
  }

  lemma LoadPml4e(m: Memory, root: nat, s: nat, va: nat)
    requires SelfMapped(m, root, s)
    ensures LoadSlot(m, root, VirtualAddressToPageEntries64(TableBase(s), va).pml4e)
         == Some(Slot4(root, PageOf(va)))
  {
    var q := VirtualAddressToPageEntries64(TableBase(s), va);
    PointerPages(s, va);
    TranslateUp4(m, root, s, PageOf(va));
    LoadPointer(m, root, s, q.pdpte, Some(root), Slot4(root, PageOf(va)));
  }

  lemma LoadPdpte(m: Memory, root: nat, s: nat, va: nat)
    requires SelfMapped(m, root, s)
    ensures LoadSlot(m, root, VirtualAddressToPageEntries64(TableBase(s), va).pdpte)
         == Present(E4(m, root, PageOf(va)).p, Slot3(m, root, PageOf(va)))
  {
    var n, q := PageOf(va), VirtualAddressToPageEntries64(TableBase(s), va);
    PointerPages(s, va);
    TranslateUp3(m, root, s, n);
    LoadPointer(m, root, s, q.pde, Present(E4(m, root, n).p, E4(m, root, n).frame), Slot3(m, root, n));
  }

  lemma LoadPde(m: Memory, root: nat, s: nat, va: nat)
    requires SelfMapped(m, root, s)
    requires !E4(m, root, PageOf(va)).ps
    ensures LoadSlot(m, root, VirtualAddressToPageEntries64(TableBase(s), va).pde)
         == Present(E4(m, root, PageOf(va)).p && E3(m, root, PageOf(va)).p, Slot2(m, root, PageOf(va)))
  {
    var n, q := PageOf(va), VirtualAddressToPageEntries64(TableBase(s), va);
    PointerPages(s, va);
    TranslateUp2(m, root, s, n);
    LoadPointer(m, root, s, q.pte,
                Present(E4(m, root, n).p && E3(m, root, n).p, E3(m, root, n).frame), Slot2(m, root, n));
  }

  lemma LoadPte(m: Memory, root: nat, s: nat, va: nat)
    requires SelfMapped(m, root, s)
    requires !E4(m, root, PageOf(va)).ps && !E3(m, root, PageOf(va)).ps
    ensures LoadSlot(m, root, VirtualAddressToPageEntries64(TableBase(s), va).pte)
         == Present(E4(m, root, PageOf(va)).p && E3(m, root, PageOf(va)).p && E2(m, root, PageOf(va)).p,
                    Slot1(m, root, PageOf(va)))
  {
    var n := PageOf(va);
    TranslateUp1(m, root, s, n);
    LoadPointer(m, root, s, va,
                Present(E4(m, root, n).p && E3(m, root, n).p && E2(m, root, n).p, E2(m, root, n).frame),
                Slot1(m, root, n));
  }

  /** Through a 1 GB page the last pointer leads into the memory that the page maps. */
  lemma LoadPteOfGiant(m: Memory, root: nat, s: nat, va: nat)
    requires SelfMapped(m, root, s)
    requires var n := PageOf(va); E4(m, root, n).p && !E4(m, root, n).ps && E3(m, root, n).p && E3(m, root, n).ps
    ensures LoadSlot(m, root, VirtualAddressToPageEntries64(TableBase(s), va).pte)
         == Some(GiantSlot1(m, root, PageOf(va)))
  {
    var n := PageOf(va);
    UpShift(m, root, s, n);
    UpIndexes(s, n);
    LoadThroughSelfMap(m, root, s, va);
    DivModUnique(LARGE, Up(s, n) / LARGE, n / LARGE % 512);
  }

  function GiantSlot1(m: Memory, root: nat, n: nat): nat {
    (E3(m, root, n).frame / LARGE * LARGE + n / LARGE % 512) * 512 + n % 512
  }

  /** Self-map correctness. For every 64-bit address the four pointers hit exactly the entries the walk
      of that address reads, and reading one of them faults exactly when a table above it is absent. */
  lemma {:induction false} SelfMapCorrect(m: Memory, root: nat, s: nat, va: nat)
    requires SelfMapped(m, root, s)
    ensures var n, q := PageOf(va), VirtualAddressToPageEntries64(TableBase(s), va);
      var e4, e3, e2 := E4(m, root, n), E3(m, root, n), E2(m, root, n);
      && LoadSlot(m, root, q.pml4e) == Some(Slot4(root, n))
      && LoadSlot(m, root, q.pdpte) == Present(e4.p, Slot3(m, root, n))
      && (!e4.ps ==> LoadSlot(m, root, q.pde) == Present(e4.p && e3.p, Slot2(m, root, n)))
      && (!e4.ps && !e3.ps ==>
            LoadSlot(m, root, q.pte) == Present(e4.p && e3.p && e2.p, Slot1(m, root, n)))
  {
    LoadPml4e(m, root, s, va);
    LoadPdpte(m, root, s, va);
    if !E4(m, root, PageOf(va)).ps {
      LoadPde(m, root, s, va);
      if !E3(m, root, PageOf(va)).ps {
        LoadPte(m, root, s, va);
      }
    }
  }

  lemma IndexesOfAddress(address: nat)
    requires address < TWO64
    ensures var x, n := VirtualAddressToIndexes(address), PageOf(address);
      && x.pml4 == n / PML4_SPAN < 512
      && x.pagedirptr == n / GIANT % 512
      && x.pagedir == n / LARGE % 512
      && x.pagetable == n % 512
  {
    var hi, low := address / TWO48, address % TWO48;
    assert address == hi * TWO48 + low;
    DropHigh1(hi, low);
    DropHigh2(hi, low);
    DropHigh3(hi, low);
    DropHigh4(hi, low);
  }

  lemma DropHigh1(hi: nat, low: nat)
    requires low < TWO48
    ensures (hi * TWO48 + low) / 4096 % 512 == low / 4096 % 512
  {
    AddMultiple(low, hi * PAGES, 4096);
    AddMultiple(low / 4096, hi * PML4_SPAN, 512);
  }

  lemma DropHigh2(hi: nat, low: nat)
    requires low < TWO48
    ensures (hi * TWO48 + low) / 0x20_0000 % 512 == low / 4096 / LARGE % 512
  {
    AddMultiple(low, hi * PML4_SPAN, 0x20_0000);
    DivDiv(low, 4096, LARGE);
    AddMultiple(low / 0x20_0000, hi * (PML4_SPAN / 512), 512);
  }

  lemma DropHigh3(hi: nat, low: nat)
    requires low < TWO48
    ensures (hi * TWO48 + low) / 0x4000_0000 % 512 == low / 4096 / GIANT % 512
  {
    AddMultiple(low, hi * GIANT, 0x4000_0000);
    DivDiv(low, 4096, GIANT);
    AddMultiple(low / 0x4000_0000, hi * (GIANT / 512), 512);
  }

  lemma DropHigh4(hi: nat, low: nat)
    requires low < TWO48
    ensures (hi * TWO48 + low) / 0x80_0000_0000 % 512 == low / 4096 / PML4_SPAN < 512
  {
    AddMultiple(low, hi * 512, 0x80_0000_0000);
    DivDiv(low, 4096, PML4_SPAN);
    AddMultiple(low / 0x80_0000_0000, hi, 512);
  }

  /** The two index functions are inverse to each other, exactly on the canonical addresses. */
  lemma {:induction false} IndexRoundTrip(address: nat)
    requires address < TWO64
    ensures var x := VirtualAddressToIndexes(address);
      && InRange(x)
      && PageOfIndexes(x) == PageOf(address)
      && (Canonical(address) <==> IndexesToVirtualAddress(x, address) == address)
  {
    var x := VirtualAddressToIndexes(address);
    var n := PageOf(address);
    IndexesOfAddress(address);
    IndexSum(n);
    AddressOfIndexes(x, address);
  }

  /** An address is canonical when its upper 17 bits are equal. */
  lemma {:induction false} CanonicalBits(va: nat)
    requires va < TWO64
    ensures Canonical(va) <==> va / 0x8000_0000_0000 == 0 || va / 0x8000_0000_0000 == 0x1_FFFF
  {
    var k, low := va / TWO48, va % TWO48;
    var h := if low >= 0x8000_0000_0000 then 1 else 0;
    assert va == k * TWO48 + low;
    DivModUnique(0x8000_0000_0000, 2 * k + h, low - h * 0x8000_0000_0000);
    HalfOf(va, k, low);
    assert Canonical(va) <==> k == (if h == 1 then 0xFFFF else 0);
  }

  lemma HalfOf(va: nat, k: nat, low: nat)
    requires va == k * TWO48 + low && low < TWO48
    ensures Address(PageOf(va)) + va % 4096 == low + if low >= 0x8000_0000_0000 then SIGN else 0
  {
    LowBits(k, low);
    assert va == (k * 0x10_0000_0000 + low / 4096) * 4096 + low % 4096;
    DivModUnique(4096, k * 0x10_0000_0000 + low / 4096, low % 4096);
    assert low == low / 4096 * 4096 + low % 4096;
  }

  lemma {:induction false} AddressOfIndexes(x: Indexes, offset: nat)
    requires InRange(x)
    ensures PageOfIndexes(x) < PAGES
    ensures IndexesToVirtualAddress(x, offset) == Address(PageOfIndexes(x)) + offset % 4096
    ensures IndexesToVirtualAddress(x, offset) / 0x8000_0000_0000 == if x.pml4 < 256 then 0 else 0x1_FFFF
  {
    assert x.pml4 % 512 == x.pml4 && x.pagedirptr % 512 == x.pagedirptr;
    assert x.pagedir % 512 == x.pagedir && x.pagetable % 512 == x.pagetable;
    assert PageOfIndexes(x) >= PAGES / 2 <==> x.pml4 >= 256;
  }

  lemma IndexSum(n: nat)
    requires n < PAGES
    ensures n == n / PML4_SPAN * PML4_SPAN + n / GIANT % 512 * GIANT + n / LARGE % 512 * LARGE + n % 512
    ensures n / PML4_SPAN < 512
  {
    assert n / LARGE / 512 == n / GIANT;
    assert n / GIANT / 512 == n / PML4_SPAN;
  }

  lemma IndexesOfPage(x: Indexes)
    requires InRange(x)
    ensures VirtualAddressToIndexes(Address(PageOfIndexes(x))) == x
    ensures PageOf(Address(PageOfIndexes(x))) == PageOfIndexes(x)
  {
    var n := PageOfIndexes(x);
    AddressOfIndexes(x, 0);
    AddressFacts(n, 0);
    IndexesOfAddress(Address(n));
    IndexDigits(x);
  }

  lemma IndexDigits(x: Indexes)
    requires InRange(x)
    ensures var n := PageOfIndexes(x);
      && n / PML4_SPAN == x.pml4 && n / GIANT % 512 == x.pagedirptr
      && n / LARGE % 512 == x.pagedir && n % 512 == x.pagetable
  {
    var d3 := x.pml4 * 512 + x.pagedirptr;
    var d2 := d3 * 512 + x.pagedir;
    assert PageOfIndexes(x) == d2 * 512 + x.pagetable;
    DivModUnique(512, d2, x.pagetable);
    DivModUnique(GIANT, d3, x.pagedir * 512 + x.pagetable);
    DivModUnique(PML4_SPAN, x.pml4, x.pagedirptr * GIANT + x.pagedir * 512 + x.pagetable);
    DivModUnique(512, d3, x.pagedir);
    DivModUnique(512, x.pml4, x.pagedirptr);
  }

  // ---- leaves ----

  /** A present PML4E has its reserved bit 7 clear, otherwise the processor faults on it. */
  ghost predicate ReservedClear(m: Memory, root: nat) {
    forall n: nat {:trigger E4(m, root, n)} | n < PAGES :: E4(m, root, n).p ==> !E4(m, root, n).ps
  }

  predicate InLeaf(l: Leaf, n: nat) {
    l.first <= n < l.first + l.count
  }

  lemma SameTables(m: Memory, root: nat, n: nat, k: nat)
    ensures n / PML4_SPAN == k / PML4_SPAN ==> Slot4(root, n) == Slot4(root, k)
    ensures n / GIANT == k / GIANT ==>
      Slot4(root, n) == Slot4(root, k) && Slot3(m, root, n) == Slot3(m, root, k)
    ensures n / LARGE == k / LARGE ==>
      Slot4(root, n) == Slot4(root, k) && Slot3(m, root, n) == Slot3(m, root, k)
      && Slot2(m, root, n) == Slot2(m, root, k)
  {
    DivDiv(n, GIANT, 512);
    DivDiv(k, GIANT, 512);
    DivDiv(n, LARGE, 512);
    DivDiv(k, LARGE, 512);
  }

  lemma Block(n: nat, k: nat, d: nat)
    requires d > 0
    ensures n / d * d <= n < n / d * d + d
    ensures n / d * d <= k < n / d * d + d ==> k / d == n / d
    ensures n / d * d % d == 0
  {
    DivModUnique(d, n / d, 0);
    if n / d * d <= k < n / d * d + d {
      DivModUnique(d, n / d, k - n / d * d);
    }
  }

  /** Every page of a leaf sees the same leaf, and a leaf starts at a multiple of its size. */
  lemma LeafConst(m: Memory, root: nat, n: nat, k: nat)
    requires LeafAt(m, root, n).Some?
    requires InLeaf(LeafAt(m, root, n).value, k)
    ensures LeafAt(m, root, k) == LeafAt(m, root, n)
  {
    SameTables(m, root, n, k);
    Block(n, k, GIANT);
    Block(n, k, LARGE);
  }

  lemma LeafShape(m: Memory, root: nat, n: nat)
    requires LeafAt(m, root, n).Some?
    ensures var l := LeafAt(m, root, n).value;
      && InLeaf(l, n) && l.count in {1, LARGE, GIANT} && l.first % l.count == 0
      && l.first / PML4_SPAN == n / PML4_SPAN
  {
    Block(n, n, GIANT);
    Block(n, n, LARGE);
    DivModUnique(GIANT, n / GIANT, 0);
    DivModUnique(LARGE, n / LARGE, 0);
    var l := LeafAt(m, root, n).value;
    if l.count == GIANT {
      DivDiv(l.first, GIANT, 512);
      DivDiv(n, GIANT, 512);
    } else if l.count == LARGE {
      DivDiv(l.first, LARGE, GIANT);
      DivDiv(n, LARGE, GIANT);
    }
  }

  /** Two memories that differ in accessed bits only. */
  ghost predicate SameShape(m: Memory, m': Memory) {
    forall slot: nat :: At(m', slot).(a := false) == At(m, slot).(a := false)
  }

  lemma SameShapeSameLeaf(m: Memory, m': Memory, root: nat, n: nat)
    requires SameShape(m, m')
    ensures LeafAt(m', root, n) == LeafAt(m, root, n)
    ensures Translate(m', root, n) == Translate(m, root, n)
  {
    SameEntry(m, m', Slot4(root, n));
    SameEntry(m, m', Slot3(m, root, n));
    SameEntry(m, m', Slot2(m, root, n));
    SameEntry(m, m', Slot1(m, root, n));
  }

  lemma SameEntry(m: Memory, m': Memory, slot: nat)
    requires SameShape(m, m')
    ensures var e, e' := At(m, slot), At(m', slot);
      e'.p == e.p && e'.rw == e.rw && e'.ps == e.ps && e'.frame == e.frame
  {
    assert At(m', slot).(a := false) == At(m, slot).(a := false);
  }
}
