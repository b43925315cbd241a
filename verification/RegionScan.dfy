/** FindFirstDifferentAddress (DBKKernel/memscan.c) on four-level tables. */
module RegionScan {
  import opened Arithmetic
  import opened Options
  import opened Paging
  import opened RegionSearch

  /** What one section of the loop body decides. */
  datatype Outcome = Return(result: nat) | Continue(next: nat) | Proceed(address: nat)

  /** The position `a` stands for: either it was built from indexes, or it is the start, which never stops. */
  ghost predicate Here(m: Memory, root: nat, protection: nat, a: nat) {
    && a < TWO64
    && (a == Address(PageOf(a)) || !Stop(m, root, protection, PageOf(a)))
  }

  /** The section keeps the answer, and moves on strictly when it continues the loop. */
  ghost predicate Agrees(m: Memory, root: nat, protection: nat, a: nat, o: Outcome) {
    var answer := Resume(m, root, protection, PageOf(a));
    match o
    case Return(r) => r == answer
    case Continue(b) => IsAddress(b) && PageOf(a) < PageOf(b) && Resume(m, root, protection, PageOf(b)) == answer
    case Proceed(b) =>
      && (b == a || (IsAddress(b) && PageOf(a) < PageOf(b)))
      && Resume(m, root, protection, PageOf(b)) == answer
  }

  predicate IsAddress(b: nat) {
    b < TWO64 && b == Address(PageOf(b))
  }

  // ---- stretches of absent entries ----

  /** The slot of entry 0 of the table that holds page n's entry covering `span` pages. */
  function TableSlot(m: Memory, root: nat, n: nat, span: nat): nat {
    if span == PML4_SPAN then root * 512
    else if span == GIANT then E4(m, root, n).frame * 512
    else if span == LARGE then E3(m, root, n).frame * 512
    else E2(m, root, n).frame * 512
  }

  function EntryOf(m: Memory, table: nat, j: nat): Entry {
    At(m, table + j)
  }

  /** The first page of entry i of that table. */
  function EntryPage(n: nat, span: nat, i: nat): (b: int)
    requires span > 0
  {
    (n / span - n / span % 512 + i) * span
  }

  lemma DivBetween(n: nat, k: nat, span: nat, q: nat)
    requires span > 0 && n <= k < q * span
    ensures n / span <= k / span < q
  {
    Block(n, n, span);
    Block(k, k, span);
    if k / span < n / span {
      MulMono(n / span, k / span + 1, span);
      assert false;
    }
    if k / span >= q {
      MulMono(k / span, q, span);
      assert false;
    }
  }

  lemma DigitInRun(n: nat, span: nat, i: nat, k: nat)
    requires span > 0 && n / span % 512 < i <= 512
    requires n <= k < EntryPage(n, span, i)
    ensures n / span % 512 <= k / span % 512 < i
    ensures k / span / 512 == n / span / 512
  {
    var t := n / span / 512;
    DivBetween(n, k, span, n / span - n / span % 512 + i);
    DivModUnique(512, t, k / span - 512 * t);
  }

  lemma EntryPageBeyond(n: nat, span: nat, i: nat)
    requires span > 0 && n / span % 512 < i
    ensures n < EntryPage(n, span, i)
  {
    Block(n, n, span);
    MulMono(n / span - n / span % 512 + i, n / span + 1, span);
  }

  /** Entries digit(n) .. i-1 of one table are absent: no page below them is mapped. */
  lemma AbsentRun(m: Memory, root: nat, n: nat, span: nat, i: nat)
    requires n < PAGES && span in {PML4_SPAN, GIANT, LARGE, 1}
    requires n / span % 512 < i <= 512
    requires span < GIANT ==> !E3(m, root, n).ps
    requires span < LARGE ==> !E2(m, root, n).ps
    requires forall j | n / span % 512 <= j < i :: !EntryOf(m, TableSlot(m, root, n, span), j).p
    ensures n < EntryPage(n, span, i)
    ensures forall k | n <= k < EntryPage(n, span, i) && k < PAGES :: LeafAt(m, root, k).None?
  {
    hide EntryPage;
    EntryPageBeyond(n, span, i);
    forall k | n <= k < EntryPage(n, span, i) && k < PAGES
      ensures LeafAt(m, root, k).None?
    {
      DigitInRun(n, span, i, k);
      assert !EntryOf(m, TableSlot(m, root, n, span), k / span % 512).p;
      if span == PML4_SPAN {
      } else if span == GIANT {
        DivDiv(n, GIANT, 512);
        DivDiv(k, GIANT, 512);
        SameTables(m, root, n, k);
      } else if span == LARGE {
        DivDiv(n, LARGE, 512);
        DivDiv(k, LARGE, 512);
        SameTables(m, root, n, k);
      } else {
        SameTables(m, root, n, k);
      }
    }
  }

  /** Absent pages do not end a search that started at an absent page. */
  lemma ResumeAbsent(m: Memory, root: nat, n: nat, b: nat)
    requires ReservedClear(m, root)
    requires n < b && n < PAGES
    requires forall k | n <= k < b && k < PAGES :: LeafAt(m, root, k).None?
    requires b % 512 == 0 || b >= PAGES || !Large(m, root, b)
    ensures Resume(m, root, PAGE_NOACCESS, n) == Resume(m, root, PAGE_NOACCESS, b)
  {
    assert LeafAt(m, root, n).None?;
    assert E4(m, root, n).p ==> !E4(m, root, n).ps;
    ScanSkip(m, root, PAGE_NOACCESS, n, b);
    if b % 512 == 0 {
      ResumeAligned(m, root, PAGE_NOACCESS, b);
    }
  }

  // ---- positions ----

  /** One directory further on, carrying into the levels above; None past the end of the list. The
      page-table index stays. */
  function NextDirectory(x: Indexes): Option<Indexes> {
    if x.pagedir + 1 < 512 then Some(x.(pagedir := x.pagedir + 1))
    else if x.pagedirptr + 1 < 512 then Some(x.(pagedir := 0, pagedirptr := x.pagedirptr + 1))
    else if x.pml4 + 1 < 512 then Some(x.(pagedir := 0, pagedirptr := 0, pml4 := x.pml4 + 1))
    else None
  }

  lemma NextDirectoryPage(x: Indexes)
    requires InRange(x)
    ensures match NextDirectory(x)
      case None => PageOfIndexes(x) + LARGE >= PAGES
      case Some(y) => InRange(y) && PageOfIndexes(y) == PageOfIndexes(x) + LARGE
  {
  }

  lemma AtIndexes(x: Indexes)
    requires InRange(x)
    ensures var a := IndexesToVirtualAddress(x, 0);
      IsAddress(a) && PageOf(a) == PageOfIndexes(x) && PageOfIndexes(x) < PAGES
  {
    AddressOfIndexes(x, 0);
    IndexesOfPage(x);
    AddressFacts(PageOfIndexes(x), 0);
  }

  lemma DigitsOf(a: nat)
    requires a < TWO64
    ensures var x, n := VirtualAddressToIndexes(a), PageOf(a);
      && InRange(x) && n == PageOfIndexes(x)
      && n / PML4_SPAN == x.pml4 && n / PML4_SPAN % 512 == x.pml4
      && n / GIANT % 512 == x.pagedirptr && n / LARGE % 512 == x.pagedir && n / 1 % 512 == x.pagetable
    ensures var x, n := VirtualAddressToIndexes(a), PageOf(a);
      && (forall i: nat :: EntryPage(n, PML4_SPAN, i) == i * PML4_SPAN)
      && (forall i: nat :: EntryPage(n, GIANT, i) == x.pml4 * PML4_SPAN + i * GIANT)
      && (forall i: nat :: EntryPage(n, LARGE, i) == x.pml4 * PML4_SPAN + x.pagedirptr * GIANT + i * LARGE)
      && (forall i: nat :: EntryPage(n, 1, i) == n - x.pagetable + i)
  {
    IndexRoundTrip(a);
    IndexesOfAddress(a);
    var n := PageOf(a);
    DivDiv(n, GIANT, 512);
    DivDiv(n, LARGE, 512);
  }

  /** The pointer is that of entry `index` of the table at slot `table`. */
  ghost predicate EntryAt(m: Memory, root: nat, pointer: nat, table: nat, index: nat) {
    && Canonical(pointer) && pointer % 4096 == index * 8
    && LoadSlot(m, root, pointer) == Some(table + index)
  }

  /** Array indexing on such a pointer stays in the table. */
  lemma LoadNext(m: Memory, root: nat, pointer: nat, table: nat, index: nat, ri: nat)
    requires index + ri < 512 && EntryAt(m, root, pointer, table, index)
    ensures LoadSlot(m, root, pointer + 8 * ri) == Some(table + index + ri)
  {
    var n := PageOf(pointer);
    AddressFacts(n, pointer % 4096);
    AddressFacts(n, pointer % 4096 + 8 * ri);
  }

  lemma PointerShape(s: nat, va: nat)
    requires s < 512
    ensures var p := EntryPointer(TableBase(s), va);
      Canonical(p) && p % 4096 == PageOf(va) % 512 * 8
  {
    EntryPointerFacts(s, va);
    AddressFacts(Up(s, PageOf(va)), PageOf(va) % 512 * 8);
  }

  lemma PointerShapes(s: nat, a: nat)
    requires s < 512 && a < TWO64
    ensures var x, q := VirtualAddressToIndexes(a), VirtualAddressToPageEntries64(TableBase(s), a);
      && Canonical(q.pml4e) && q.pml4e % 4096 == x.pml4 * 8
      && Canonical(q.pdpte) && q.pdpte % 4096 == x.pagedirptr * 8
      && Canonical(q.pde) && q.pde % 4096 == x.pagedir * 8
      && Canonical(q.pte) && q.pte % 4096 == x.pagetable * 8
  {
    hide PageOf, Canonical, EntryPointer, VirtualAddressToIndexes;
    var q := VirtualAddressToPageEntries64(TableBase(s), a);
    IndexesOfAddress(a);
    PointerPages(s, a);
    PointerShape(s, a);
    PointerShape(s, q.pte);
    PointerShape(s, q.pde);
    PointerShape(s, q.pdpte);
  }

  lemma SlotsOf(m: Memory, root: nat, a: nat)
    requires a < TWO64
    ensures var x, n := VirtualAddressToIndexes(a), PageOf(a);
      && InRange(x) && n < PAGES
      && Slot4(root, n) == TableSlot(m, root, n, PML4_SPAN) + x.pml4
      && Slot3(m, root, n) == TableSlot(m, root, n, GIANT) + x.pagedirptr
      && Slot2(m, root, n) == TableSlot(m, root, n, LARGE) + x.pagedir
      && Slot1(m, root, n) == TableSlot(m, root, n, 1) + x.pagetable
  {
    hide PageOf, VirtualAddressToIndexes;
    IndexesOfAddress(a);
  }

  lemma NotGiant(m: Memory, root: nat, n: nat)
    requires NoGiants(m, root) && n < PAGES
    ensures E4(m, root, n).p ==> !E4(m, root, n).ps
    ensures E4(m, root, n).p && E3(m, root, n).p ==> !E3(m, root, n).ps
  {
  }

  /** The pointers of an address, as entries of their tables. */
  lemma PointerEntries(m: Memory, root: nat, s: nat, a: nat)
    requires SelfMapped(m, root, s) && a < TWO64 && NoGiants(m, root)
    ensures var x, n, q := VirtualAddressToIndexes(a), PageOf(a), VirtualAddressToPageEntries64(TableBase(s), a);
      && InRange(x)
      && EntryAt(m, root, q.pml4e, TableSlot(m, root, n, PML4_SPAN), x.pml4)
      && (E4(m, root, n).p ==> EntryAt(m, root, q.pdpte, TableSlot(m, root, n, GIANT), x.pagedirptr))
      && (E4(m, root, n).p && E3(m, root, n).p ==>
            EntryAt(m, root, q.pde, TableSlot(m, root, n, LARGE), x.pagedir))
      && (E4(m, root, n).p && E3(m, root, n).p && E2(m, root, n).p ==>
            EntryAt(m, root, q.pte, TableSlot(m, root, n, 1), x.pagetable))
  {
    hide PageOf, Canonical, EntryPointer, VirtualAddressToIndexes, LoadSlot, VirtualAddressToPageEntries64, NoGiants,
      ReservedClear, Slot4, Slot3, Slot2, Slot1, TableSlot, E4, E3, E2, InRange, TableBase;
    NotGiant(m, root, PageOf(a));
    SelfMapCorrect(m, root, s, a);
    SlotsOf(m, root, a);
    PointerShapes(s, a);
  }

  /** The entries of an address in terms of tables. */
  lemma EntriesOf(m: Memory, root: nat, a: nat)
    requires a < TWO64
    ensures var x, n := VirtualAddressToIndexes(a), PageOf(a);
      && InRange(x) && n < PAGES
      && E4(m, root, n) == EntryOf(m, TableSlot(m, root, n, PML4_SPAN), x.pml4)
      && E3(m, root, n) == EntryOf(m, TableSlot(m, root, n, GIANT), x.pagedirptr)
      && E2(m, root, n) == EntryOf(m, TableSlot(m, root, n, LARGE), x.pagedir)
      && E1(m, root, n) == EntryOf(m, TableSlot(m, root, n, 1), x.pagetable)
  {
    hide PageOf, VirtualAddressToIndexes, Slot4, Slot3, Slot2, Slot1, TableSlot;
    SlotsOf(m, root, a);
  }

  // ---- what the sections decide ----

  /** Reporting the current address is right at a stop. */
  lemma ReturnHere(m: Memory, root: nat, protection: nat, a: nat)
    requires Here(m, root, protection, a) && Stop(m, root, protection, PageOf(a))
    ensures Agrees(m, root, protection, a, Return(a))
  {
  }

  lemma AbsentHere(m: Memory, root: nat, protection: nat, a: nat)
    requires NoGiants(m, root) && Here(m, root, protection, a) && protection != PAGE_NOACCESS
    requires var n := PageOf(a);
      !E4(m, root, n).p || !E3(m, root, n).p || !E2(m, root, n).p || (!E2(m, root, n).ps && !E1(m, root, n).p)
    ensures Agrees(m, root, protection, a, Return(a))
  {
    hide PageOf, Slot4, Slot3, Slot2, Slot1;
    NotGiant(m, root, PageOf(a));
    ReturnHere(m, root, protection, a);
  }

  lemma Stay(m: Memory, root: nat, protection: nat, a: nat)
    ensures Agrees(m, root, protection, a, Proceed(a))
  {
  }

  /** Entries from `index` on are absent up to i: the search goes on at entry i. */
  ghost predicate Gap(m: Memory, table: nat, index: nat, i: nat) {
    && index < i <= 512
    && (forall j | index <= j < i :: !EntryOf(m, table, j).p)
    && (i < 512 ==> EntryOf(m, table, i).p)
  }

  /** The levels above the one whose entries cover `span` pages are present. */
  predicate Above(m: Memory, root: nat, n: nat, span: nat) {
    && (span < PML4_SPAN ==> E4(m, root, n).p)
    && (span < GIANT ==> E3(m, root, n).p)
    && (span < LARGE ==> E2(m, root, n).p && !E2(m, root, n).ps)
  }

  lemma Jump(m: Memory, root: nat, n: nat, span: nat, i: nat)
    requires NoGiants(m, root) && n < PAGES
    requires span in {PML4_SPAN, GIANT, LARGE, 1} && Above(m, root, n, span)
    requires Gap(m, TableSlot(m, root, n, span), n / span % 512, i)
    ensures n < EntryPage(n, span, i)
    ensures Resume(m, root, PAGE_NOACCESS, n) == Resume(m, root, PAGE_NOACCESS, EntryPage(n, span, i))
  {
    hide Resume, LeafAt, EntryPage, TableSlot;
    var b := EntryPage(n, span, i);
    NotGiant(m, root, n);
    AbsentRun(m, root, n, span, i);
    EntryPageTable(m, root, n, span, i);
    ResumeAbsent(m, root, n, b);
  }

  lemma EntryPageTable(m: Memory, root: nat, n: nat, span: nat, i: nat)
    requires span in {PML4_SPAN, GIANT, LARGE, 1} && i <= 512
    ensures var b := EntryPage(n, span, i);
      b >= 0 && (b % 512 == 0 || (span == 1 && Slot2(m, root, b) == Slot2(m, root, n)))
  {
    var q := n / span - n / span % 512 + i;
    if span == 1 {
      if i < 512 {
        DivModUnique(512, n / 512, i);
        SameTables(m, root, n, q);
      }
    } else if span == LARGE {
      DivModUnique(512, q, 0);
    } else if span == GIANT {
      DivModUnique(512, q * 512, 0);
    } else {
      DivModUnique(512, q * GIANT, 0);
    }
  }

  lemma SameUpper(m: Memory, root: nat, n: nat, b: nat)
    requires n < PAGES && b < PAGES
    requires n / PML4_SPAN == b / PML4_SPAN
    ensures Slot4(root, n) == Slot4(root, b)
    ensures n / GIANT % 512 == b / GIANT % 512 ==> Slot3(m, root, n) == Slot3(m, root, b)
    ensures n / GIANT % 512 == b / GIANT % 512 && n / LARGE % 512 == b / LARGE % 512 ==>
      Slot2(m, root, n) == Slot2(m, root, b)
  {
    DivDiv(n, GIANT, 512);
    DivDiv(b, GIANT, 512);
    DivDiv(n, LARGE, 512);
    DivDiv(b, LARGE, 512);
    SameTables(m, root, n, b);
  }

  lemma PastTheEnd(m: Memory, root: nat, protection: nat, n: nat)
    requires n >= PAGES
    ensures Resume(m, root, protection, n) == 0
  {
  }

  /** A position that the indexes y denote. */
  lemma Land(m: Memory, root: nat, protection: nat, a: nat, y: Indexes)
    requires InRange(y) && a < TWO64 && PageOf(a) < PageOfIndexes(y)
    requires Resume(m, root, protection, PageOf(a)) == Resume(m, root, protection, PageOfIndexes(y))
    ensures var b := IndexesToVirtualAddress(y, 0);
      && Agrees(m, root, protection, a, Proceed(b)) && Agrees(m, root, protection, a, Continue(b))
      && IsAddress(b) && Here(m, root, protection, b)
      && PageOf(b) == PageOfIndexes(y) && VirtualAddressToIndexes(b) == y
  {
    hide PageOf, VirtualAddressToIndexes, IndexesToVirtualAddress, Resume, PageOfIndexes, Address;
    AtIndexes(y);
    IndexesOfPage(y);
    AddressOfIndexes(y, 0);
  }

  lemma Pml4Jump(m: Memory, root: nat, a: nat, i: nat)
    requires NoGiants(m, root) && a < TWO64
    requires Gap(m, TableSlot(m, root, PageOf(a), PML4_SPAN), VirtualAddressToIndexes(a).pml4, i)
    ensures i == 512 ==> Agrees(m, root, PAGE_NOACCESS, a, Return(0))
    ensures i < 512 ==>
      var b := IndexesToVirtualAddress(Indexes(i, 0, 0, 0), 0);
      && Agrees(m, root, PAGE_NOACCESS, a, Proceed(b)) && Here(m, root, PAGE_NOACCESS, b)
      && E4(m, root, PageOf(b)).p
  {
    hide PageOf, VirtualAddressToIndexes, IndexesToVirtualAddress, Resume, EntryPage, NoGiants;
    DigitsOf(a);
    Jump(m, root, PageOf(a), PML4_SPAN, i);
    if i < 512 {
      var y := Indexes(i, 0, 0, 0);
      Land(m, root, PAGE_NOACCESS, a, y);
      EntriesOf(m, root, IndexesToVirtualAddress(y, 0));
    } else {
      PastTheEnd(m, root, PAGE_NOACCESS, i * PML4_SPAN);
    }
  }

  lemma PageDirPtrJump(m: Memory, root: nat, a: nat, i: nat)
    requires NoGiants(m, root) && a < TWO64 && E4(m, root, PageOf(a)).p
    requires Gap(m, TableSlot(m, root, PageOf(a), GIANT), VirtualAddressToIndexes(a).pagedirptr, i)
    ensures var x := VirtualAddressToIndexes(a);
      if i < 512 then
        var b := IndexesToVirtualAddress(Indexes(x.pml4, i, 0, 0), 0);
        && Agrees(m, root, PAGE_NOACCESS, a, Proceed(b)) && Here(m, root, PAGE_NOACCESS, b)
        && E4(m, root, PageOf(b)).p && E3(m, root, PageOf(b)).p
      else if x.pml4 + 1 >= 512 then Agrees(m, root, PAGE_NOACCESS, a, Return(0))
      else Agrees(m, root, PAGE_NOACCESS, a, Continue(IndexesToVirtualAddress(Indexes(x.pml4 + 1, 0, 0, 0), 0)))
  {
    hide PageOf, VirtualAddressToIndexes, IndexesToVirtualAddress, Resume, EntryPage, NoGiants, Slot4, Slot3, Slot2;
    var x, n := VirtualAddressToIndexes(a), PageOf(a);
    DigitsOf(a);
    Jump(m, root, n, GIANT, i);
    if i < 512 {
      var y := Indexes(x.pml4, i, 0, 0);
      Land(m, root, PAGE_NOACCESS, a, y);
      var b := IndexesToVirtualAddress(y, 0);
      DigitsOf(b);
      SameUpper(m, root, n, PageOf(b));
      EntriesOf(m, root, b);
    } else if x.pml4 + 1 >= 512 {
      PastTheEnd(m, root, PAGE_NOACCESS, x.pml4 * PML4_SPAN + i * GIANT);
    } else {
      Land(m, root, PAGE_NOACCESS, a, Indexes(x.pml4 + 1, 0, 0, 0));
    }
  }

  /** The first directory of the next page-directory-pointer entry. */
  function NextPointer(x: Indexes): Option<Indexes> {
    if x.pagedirptr + 1 < 512 then Some(Indexes(x.pml4, x.pagedirptr + 1, 0, 0))
    else if x.pml4 + 1 < 512 then Some(Indexes(x.pml4 + 1, 0, 0, 0))
    else None
  }

  lemma PageDirJump(m: Memory, root: nat, a: nat, i: nat)
    requires NoGiants(m, root) && a < TWO64 && E4(m, root, PageOf(a)).p && E3(m, root, PageOf(a)).p
    requires Gap(m, TableSlot(m, root, PageOf(a), LARGE), VirtualAddressToIndexes(a).pagedir, i)
    ensures var x := VirtualAddressToIndexes(a);
      if i < 512 then
        var b := IndexesToVirtualAddress(Indexes(x.pml4, x.pagedirptr, i, 0), 0);
        && Agrees(m, root, PAGE_NOACCESS, a, Proceed(b)) && Here(m, root, PAGE_NOACCESS, b)
        && E4(m, root, PageOf(b)).p && E3(m, root, PageOf(b)).p && E2(m, root, PageOf(b)).p
      else
        match NextPointer(x)
        case None => Agrees(m, root, PAGE_NOACCESS, a, Return(0))
        case Some(y) => Agrees(m, root, PAGE_NOACCESS, a, Continue(IndexesToVirtualAddress(y, 0)))
  {
    hide PageOf, VirtualAddressToIndexes, IndexesToVirtualAddress, Resume, EntryPage, NoGiants, Slot4, Slot3, Slot2;
    var x, n := VirtualAddressToIndexes(a), PageOf(a);
    DigitsOf(a);
    Jump(m, root, n, LARGE, i);
    if i < 512 {
      var y := Indexes(x.pml4, x.pagedirptr, i, 0);
      Land(m, root, PAGE_NOACCESS, a, y);
      var b := IndexesToVirtualAddress(y, 0);
      DigitsOf(b);
      SameUpper(m, root, n, PageOf(b));
      EntriesOf(m, root, b);
    } else if NextPointer(x).None? {
      PastTheEnd(m, root, PAGE_NOACCESS, EntryPage(n, LARGE, i));
    } else {
      Land(m, root, PAGE_NOACCESS, a, NextPointer(x).value);
    }
  }

  lemma PageTableJump(m: Memory, root: nat, a: nat, i: nat)
    requires NoGiants(m, root) && a < TWO64
    requires Above(m, root, PageOf(a), 1)
    requires Gap(m, TableSlot(m, root, PageOf(a), 1), VirtualAddressToIndexes(a).pagetable, i)
    ensures var x := VirtualAddressToIndexes(a);
      if i < 512 then
        var b := IndexesToVirtualAddress(x.(pagetable := i), 0);
        && Agrees(m, root, PAGE_NOACCESS, a, Proceed(b)) && Here(m, root, PAGE_NOACCESS, b)
        && Above(m, root, PageOf(b), 1) && E1(m, root, PageOf(b)).p
      else
        match NextDirectory(x.(pagetable := 0))
        case None => Agrees(m, root, PAGE_NOACCESS, a, Return(0))
        case Some(y) => Agrees(m, root, PAGE_NOACCESS, a, Continue(IndexesToVirtualAddress(y, 0)))
  {
    hide PageOf, VirtualAddressToIndexes, IndexesToVirtualAddress, Resume, EntryPage, NoGiants, Slot4, Slot3, Slot2;
    var x, n := VirtualAddressToIndexes(a), PageOf(a);
    DigitsOf(a);
    Jump(m, root, n, 1, i);
    if i < 512 {
      var y := x.(pagetable := i);
      Land(m, root, PAGE_NOACCESS, a, y);
      var b := IndexesToVirtualAddress(y, 0);
      DigitsOf(b);
      SameUpper(m, root, n, PageOf(b));
      EntriesOf(m, root, b);
    } else {
      NextDirectoryPage(x.(pagetable := 0));
      if NextDirectory(x.(pagetable := 0)).None? {
        PastTheEnd(m, root, PAGE_NOACCESS, EntryPage(n, 1, i));
      } else {
        Land(m, root, PAGE_NOACCESS, a, NextDirectory(x.(pagetable := 0)).value);
      }
    }
  }

  /** Inside a 2 MB page. */
  lemma LargeHere(m: Memory, root: nat, protection: nat, a: nat)
    requires NoGiants(m, root) && Here(m, root, protection, a)
    requires var n := PageOf(a); E4(m, root, n).p && E3(m, root, n).p && E2(m, root, n).p && E2(m, root, n).ps
    ensures if protection == PAGE_NOACCESS || (E2(m, root, PageOf(a)).rw && protection != PAGE_EXECUTE_READWRITE) then
        Agrees(m, root, protection, a, Return(a))
      else
        match NextDirectory(VirtualAddressToIndexes(a))
        case None => Agrees(m, root, protection, a, Return(0))
        case Some(y) => Agrees(m, root, protection, a, Continue(IndexesToVirtualAddress(y, 0)))
  {
    hide PageOf, VirtualAddressToIndexes, IndexesToVirtualAddress, NoGiants, Slot4, Slot3, Slot2;
    var x, n := VirtualAddressToIndexes(a), PageOf(a);
    DigitsOf(a);
    NotGiant(m, root, n);
    if Stop(m, root, protection, n) {
      ReturnHere(m, root, protection, a);
    } else {
      assert Resume(m, root, protection, n) == Resume(m, root, protection, n + LARGE);
      NextDirectoryPage(x);
      if NextDirectory(x).None? {
        PastTheEnd(m, root, protection, n + LARGE);
      } else {
        Land(m, root, protection, a, NextDirectory(x).value);
      }
    }
  }

  /** At a present 4 KB page. */
  lemma SmallHere(m: Memory, root: nat, protection: nat, a: nat)
    requires NoGiants(m, root) && Here(m, root, protection, a)
    requires Above(m, root, PageOf(a), 1) && E1(m, root, PageOf(a)).p
    ensures var x := VirtualAddressToIndexes(a);
      if protection == PAGE_NOACCESS || (E1(m, root, PageOf(a)).rw && protection != PAGE_EXECUTE_READWRITE) then
        Agrees(m, root, protection, a, Return(a))
      else if x.pagetable + 1 < 512 then
        Agrees(m, root, protection, a, Continue(IndexesToVirtualAddress(x.(pagetable := x.pagetable + 1), 0)))
      else
        match NextDirectory(x.(pagetable := 0))
        case None => Agrees(m, root, protection, a, Return(0))
        case Some(y) => Agrees(m, root, protection, a, Continue(IndexesToVirtualAddress(y, 0)))
  {
    hide PageOf, VirtualAddressToIndexes, IndexesToVirtualAddress, NoGiants, Slot4, Slot3, Slot2, Resume;
    var x, n := VirtualAddressToIndexes(a), PageOf(a);
    DigitsOf(a);
    NotGiant(m, root, n);
    if Stop(m, root, protection, n) {
      ReturnHere(m, root, protection, a);
    } else {
      NextSmall(m, root, protection, n, x.pagetable);
      if x.pagetable + 1 < 512 {
        Land(m, root, protection, a, x.(pagetable := x.pagetable + 1));
      } else {
        NextDirectoryPage(x.(pagetable := 0));
        if NextDirectory(x.(pagetable := 0)).None? {
          PastTheEnd(m, root, protection, n + 1);
        } else {
          Land(m, root, protection, a, NextDirectory(x.(pagetable := 0)).value);
        }
      }
    }
  }

  lemma NextSmall(m: Memory, root: nat, protection: nat, n: nat, digit: nat)
    requires NoGiants(m, root) && n < PAGES && digit == n % 512
    requires Above(m, root, n, 1) && !Stop(m, root, protection, n)
    ensures Resume(m, root, protection, n) == Resume(m, root, protection, n + 1)
  {
    ScanSkip(m, root, protection, n, n + 1);
    if digit + 1 < 512 {
      DivModUnique(512, n / 512, digit + 1);
      SameTables(m, root, n, n + 1);
    } else {
      DivModUnique(512, n / 512 + 1, 0);
      ResumeAligned(m, root, protection, n + 1);
    }
  }

  // ---- the routine ----

  class AddressSpace {
    const root: nat
    const self: nat
    var mem: Memory

    ghost predicate Valid()
      reads this
    {
      SelfMapped(mem, root, self) && NoGiants(mem, root)
    }

    constructor (root: nat, self: nat, mem: Memory)
      requires SelfMapped(mem, root, self) && NoGiants(mem, root)
      ensures Valid() && this.root == root && this.self == self && this.mem == mem
    {
      this.root, this.self, this.mem := root, self, mem;
    }

    /** An 8-byte read of kernel memory; it must not fault. */
    method Read(va: nat) returns (e: Entry)
      requires LoadSlot(mem, root, va).Some?
      ensures e == At(mem, LoadSlot(mem, root, va).value)
    {
      e := At(mem, LoadSlot(mem, root, va).value);
    }

    /** The four loops over the rest of a table: the next present entry after `index`, 512 when there is none. */
    method NextPresent(pointer: nat, index: nat, ghost table: nat) returns (i: nat)
      requires index < 512 && EntryAt(mem, root, pointer, table, index)
      ensures index < i <= 512
      ensures forall j | index < j < i :: !EntryOf(mem, table, j).p
      ensures i < 512 ==> EntryOf(mem, table, i).p
    {
      var ri := 1;
      i := index + 1;
      while i < 512
        invariant ri == i - index && index < i <= 512
        invariant forall j | index < j < i :: !EntryOf(mem, table, j).p
      {
        LoadNext(mem, root, pointer, table, index, ri);
        var e := Read(pointer + 8 * ri);
        if e.p {
          return;
        }
        i, ri := i + 1, ri + 1;
      }
    }

    method Pml4Section(address: nat, protection: nat) returns (o: Outcome)
      requires Valid() && Here(mem, root, protection, address)
      ensures Agrees(mem, root, protection, address, o) && !o.Continue?
      ensures o.Proceed? ==> Here(mem, root, protection, o.address) && E4(mem, root, PageOf(o.address)).p
    {
      hide PageOf, VirtualAddressToIndexes, VirtualAddressToPageEntries64, IndexesToVirtualAddress, NoGiants,
        Resume, LoadSlot, Address, TableSlot, LeafAt, E4, E3, E2, E1, Agrees;
      var x, q := VirtualAddressToIndexes(address), VirtualAddressToPageEntries64(TableBase(self), address);
      ghost var n := PageOf(address);
      PointerEntries(mem, root, self, address);
      EntriesOf(mem, root, address);
      var pml4e := Read(q.pml4e);
      if pml4e.p {
        Stay(mem, root, protection, address);
        return Proceed(address);
      }
      if protection != PAGE_NOACCESS {
        AbsentHere(mem, root, protection, address);
        return Return(address);
      }
      var i := NextPresent(q.pml4e, x.pml4, TableSlot(mem, root, n, PML4_SPAN));
      Pml4Jump(mem, root, address, i);
      if i < 512 {
        return Proceed(IndexesToVirtualAddress(Indexes(i, 0, 0, 0), 0));
      }
      return Return(0);
    }

    method PageDirPtrSection(address: nat, protection: nat) returns (o: Outcome)
      requires Valid() && Here(mem, root, protection, address) && E4(mem, root, PageOf(address)).p
      ensures Agrees(mem, root, protection, address, o)
      ensures o.Proceed? ==>
        && Here(mem, root, protection, o.address)
        && E4(mem, root, PageOf(o.address)).p && E3(mem, root, PageOf(o.address)).p
    {
      hide PageOf, VirtualAddressToIndexes, VirtualAddressToPageEntries64, IndexesToVirtualAddress, NoGiants,
        Resume, LoadSlot, Address, TableSlot, LeafAt, E4, E3, E2, E1, Agrees;
      var x, q := VirtualAddressToIndexes(address), VirtualAddressToPageEntries64(TableBase(self), address);
      ghost var n := PageOf(address);
      PointerEntries(mem, root, self, address);
      EntriesOf(mem, root, address);
      var pdpte := Read(q.pdpte);
      if pdpte.p {
        Stay(mem, root, protection, address);
        return Proceed(address);
      }
      if protection != PAGE_NOACCESS {
        AbsentHere(mem, root, protection, address);
        return Return(address);
      }
      var i := NextPresent(q.pdpte, x.pagedirptr, TableSlot(mem, root, n, GIANT));
      PageDirPtrJump(mem, root, address, i);
      if i < 512 {
        return Proceed(IndexesToVirtualAddress(Indexes(x.pml4, i, 0, 0), 0));
      }
      if x.pml4 + 1 >= 512 {
        return Return(0);
      }
      return Continue(IndexesToVirtualAddress(Indexes(x.pml4 + 1, 0, 0, 0), 0));
    }

    method PageDirSection(address: nat, protection: nat) returns (o: Outcome)
      requires Valid() && Here(mem, root, protection, address)
      requires E4(mem, root, PageOf(address)).p && E3(mem, root, PageOf(address)).p
      ensures Agrees(mem, root, protection, address, o)
      ensures o.Proceed? ==>
        && Here(mem, root, protection, o.address)
        && E4(mem, root, PageOf(o.address)).p && E3(mem, root, PageOf(o.address)).p
        && E2(mem, root, PageOf(o.address)).p
    {
      hide PageOf, VirtualAddressToIndexes, VirtualAddressToPageEntries64, IndexesToVirtualAddress, NoGiants,
        Resume, LoadSlot, Address, TableSlot, LeafAt, E4, E3, E2, E1, Agrees;
      var x, q := VirtualAddressToIndexes(address), VirtualAddressToPageEntries64(TableBase(self), address);
      ghost var n := PageOf(address);
      PointerEntries(mem, root, self, address);
      EntriesOf(mem, root, address);
      var pde := Read(q.pde);
      if pde.p {
        Stay(mem, root, protection, address);
        return Proceed(address);
      }
      if protection != PAGE_NOACCESS {
        AbsentHere(mem, root, protection, address);
        return Return(address);
      }
      var i := NextPresent(q.pde, x.pagedir, TableSlot(mem, root, n, LARGE));
      PageDirJump(mem, root, address, i);
      if i < 512 {
        return Proceed(IndexesToVirtualAddress(Indexes(x.pml4, x.pagedirptr, i, 0), 0));
      }
      match NextPointer(x)
      case None => return Return(0);
      case Some(y) => return Continue(IndexesToVirtualAddress(y, 0));
    }

    method LargePageSection(address: nat, protection: nat) returns (o: Outcome)
      requires Valid() && Here(mem, root, protection, address)
      requires E4(mem, root, PageOf(address)).p && E3(mem, root, PageOf(address)).p && E2(mem, root, PageOf(address)).p
      ensures Agrees(mem, root, protection, address, o)
      ensures o.Proceed? ==> o.address == address && Above(mem, root, PageOf(address), 1)
    {
      hide PageOf, VirtualAddressToIndexes, VirtualAddressToPageEntries64, IndexesToVirtualAddress, NoGiants,
        Resume, LoadSlot, Address, TableSlot, LeafAt, E4, E3, E2, E1, Agrees;
      var x, q := VirtualAddressToIndexes(address), VirtualAddressToPageEntries64(TableBase(self), address);
      ghost var n := PageOf(address);
      PointerEntries(mem, root, self, address);
      EntriesOf(mem, root, address);
      var pde := Read(q.pde);
      if !pde.ps {
        Stay(mem, root, protection, address);
        return Proceed(address);
      }
      LargeHere(mem, root, protection, address);
      if protection == PAGE_NOACCESS {
        return Return(address);
      }
      if pde.rw && protection != PAGE_EXECUTE_READWRITE {
        return Return(address);
      }
      // the page-table index is not reset
      match NextDirectory(x)
      case None => return Return(0);
      case Some(y) => return Continue(IndexesToVirtualAddress(y, 0));
    }

    method PageTableSection(address: nat, protection: nat) returns (o: Outcome)
      requires Valid() && Here(mem, root, protection, address) && Above(mem, root, PageOf(address), 1)
      ensures Agrees(mem, root, protection, address, o)
      ensures o.Proceed? ==>
        && Here(mem, root, protection, o.address)
        && Above(mem, root, PageOf(o.address), 1) && E1(mem, root, PageOf(o.address)).p
    {
      hide PageOf, VirtualAddressToIndexes, VirtualAddressToPageEntries64, IndexesToVirtualAddress, NoGiants,
        Resume, LoadSlot, Address, TableSlot, LeafAt, E4, E3, E2, E1, Agrees;
      var x, q := VirtualAddressToIndexes(address), VirtualAddressToPageEntries64(TableBase(self), address);
      ghost var n := PageOf(address);
      PointerEntries(mem, root, self, address);
      EntriesOf(mem, root, address);
      var pte := Read(q.pte);
      if pte.p {
        Stay(mem, root, protection, address);
        return Proceed(address);
      }
      if protection != PAGE_NOACCESS {
        AbsentHere(mem, root, protection, address);
        return Return(address);
      }
      var i := NextPresent(q.pte, x.pagetable, TableSlot(mem, root, n, 1));
      PageTableJump(mem, root, address, i);
      if i < 512 {
        return Proceed(IndexesToVirtualAddress(x.(pagetable := i), 0));
      }
      match NextDirectory(x.(pagetable := 0))
      case None => return Return(0);
      case Some(y) => return Continue(IndexesToVirtualAddress(y, 0));
    }

    method PresentPageSection(address: nat, protection: nat) returns (o: Outcome)
      requires Valid() && Here(mem, root, protection, address)
      requires Above(mem, root, PageOf(address), 1) && E1(mem, root, PageOf(address)).p
      ensures Agrees(mem, root, protection, address, o) && !o.Proceed?
    {
      hide PageOf, VirtualAddressToIndexes, VirtualAddressToPageEntries64, IndexesToVirtualAddress, NoGiants,
        Resume, LoadSlot, Address, TableSlot, LeafAt, E4, E3, E2, E1, Agrees;
      var x, q := VirtualAddressToIndexes(address), VirtualAddressToPageEntries64(TableBase(self), address);
      ghost var n := PageOf(address);
      PointerEntries(mem, root, self, address);
      EntriesOf(mem, root, address);
      var pte := Read(q.pte);
      SmallHere(mem, root, protection, address);
      if protection == PAGE_NOACCESS {
        return Return(address);
      }
      if pte.rw && protection != PAGE_EXECUTE_READWRITE {
        return Return(address);
      }
      if x.pagetable + 1 < 512 {
        return Continue(IndexesToVirtualAddress(x.(pagetable := x.pagetable + 1), 0));
      }
      match NextDirectory(x.(pagetable := 0))
      case None => return Return(0);
      case Some(y) => return Continue(IndexesToVirtualAddress(y, 0));
    }

    /** The protection of the start, read on the first round. */
    method ReadProtection(address: nat) returns (protection: nat)
      requires SelfMapped(mem, root, self) && ReservedClear(mem, root)
      ensures protection == ReadInitially(mem, root, PageOf(address))
    {
      hide PageOf, VirtualAddressToPageEntries64, LoadSlot, Slot4, Slot3, Slot2, Slot1, GiantSlot1;
      var q := VirtualAddressToPageEntries64(TableBase(self), address);
      ghost var n := PageOf(address);
      InSpace(address);
      SelfMapCorrect(mem, root, self, address);
      assert E4(mem, root, n).p ==> !E4(mem, root, n).ps;
      if Giant(mem, root, n) {
        LoadPteOfGiant(mem, root, self, address);
      }
      var pml4e := Read(q.pml4e);
      if !pml4e.p {
        return PAGE_NOACCESS;
      }
      var pdpte := Read(q.pdpte);
      if !pdpte.p {
        return PAGE_NOACCESS;
      }
      var pde := Read(q.pde);
      if !pde.p {
        return PAGE_NOACCESS;
      }
      if pde.ps {
        return if pde.rw then PAGE_EXECUTE_READWRITE else PAGE_EXECUTE_READ;
      }
      var pte := Read(q.pte);
      if !pte.p {
        return PAGE_NOACCESS;
      }
      return if pte.rw then PAGE_EXECUTE_READWRITE else PAGE_EXECUTE_READ;
    }

    /** From any start it reports the protection of the start page and where that region ends, as far as
        the routine looks; it reads mapped entries only and terminates. */
    method FindFirstDifferentAddress(start: nat) returns (result: nat, protection: nat)
      requires Valid() && start < TWO64
      ensures protection == InitialProtection(mem, root, PageOf(start))
      ensures result == Resume(mem, root, protection, PageOf(start))
      ensures result == Scan(mem, root, protection, PageOf(start) + 1)
         <==> Interior(mem, root, PageOf(start)) ==>
                HeadClear(mem, root, protection, Landing(mem, root, protection, PageOf(start)))
    {
      hide PageOf, NoGiants, Resume, InitialProtection, ReadInitially, ReservedClear, Address, E4, E3, E2, E1;
      hide LeafAt, Interior, HeadClear, Above;
      StartRead(mem, root, start);
      protection := ReadProtection(start);
      StartHere(mem, root, start);
      var address := start;
      while true
        invariant Here(mem, root, protection, address)
        invariant Resume(mem, root, protection, PageOf(address)) == Resume(mem, root, protection, PageOf(start))
        decreases PAGES - PageOf(address)
      {
        InSpace(address);
        var o := Pml4Section(address, protection);
        if o.Proceed? {
          InSpace(o.address);
          o := PageDirPtrSection(o.address, protection);
          if o.Proceed? {
            InSpace(o.address);
            o := PageDirSection(o.address, protection);
            if o.Proceed? {
              InSpace(o.address);
              o := LargePageSection(o.address, protection);
              if o.Proceed? {
                o := PageTableSection(o.address, protection);
                if o.Proceed? {
                  InSpace(o.address);
                  o := PresentPageSection(o.address, protection);
                }
              }
            }
          }
        }
        if o.Return? {
          result := o.result;
          return;
        }
        InSpace(o.next);
        address := o.next;
      }
    }
  }

  lemma InSpace(a: nat)
    ensures PageOf(a) < PAGES
  {
  }

  lemma StartRead(m: Memory, root: nat, start: nat)
    requires NoGiants(m, root)
    ensures ReservedClear(m, root)
    ensures ReadInitially(m, root, PageOf(start)) == InitialProtection(m, root, PageOf(start))
  {
    hide PageOf, Decisive, InitialProtection, ReadInitially;
    InSpace(start);
    NotGiant(m, root, PageOf(start));
    ReadInitiallyExact(m, root, PageOf(start));
  }

  /** The start page never stops the search it begins, whose answer ResumeExact compares with the
      page-by-page one. */
  lemma StartHere(m: Memory, root: nat, start: nat)
    requires NoGiants(m, root) && start < TWO64
    ensures var n := PageOf(start);
      var protection := InitialProtection(m, root, n);
      && Here(m, root, protection, start)
      && (Resume(m, root, protection, n) == Scan(m, root, protection, n + 1)
          <==> Interior(m, root, n) ==> HeadClear(m, root, protection, Landing(m, root, protection, n)))
  {
    hide PageOf, HeadClear, Interior, Resume;
    InSpace(start);
    ResumeExact(m, root, InitialProtection(m, root, PageOf(start)), PageOf(start));
  }
}
