/** The page-by-page search for the end of a region of equal protection, which
    FindFirstDifferentAddress (DBKKernel/memscan.c) speeds up by skipping whole tables. */
module RegionSearch {
  import opened Arithmetic
  import opened Options
  import opened Paging

  const PAGE_NOACCESS: nat := 1
  const PAGE_EXECUTE_READ: nat := 0x20
  const PAGE_EXECUTE_READWRITE: nat := 0x40

  /** The routine knows 4 KB and 2 MB pages only. */
  ghost predicate NoGiants(m: Memory, root: nat) {
    && ReservedClear(m, root)
    && forall n: nat {:trigger E3(m, root, n)} | n < PAGES ::
         E4(m, root, n).p && E3(m, root, n).p ==> !E3(m, root, n).ps
  }

  predicate Present(m: Memory, root: nat, n: nat) {
    LeafAt(m, root, n).Some?
  }

  /** The RW bit of the leaf entry, the only one the routine looks at. */
  predicate Writable(m: Memory, root: nat, n: nat) {
    Present(m, root, n) && At(m, LeafAt(m, root, n).value.slot).rw
  }

  function InitialProtection(m: Memory, root: nat, n: nat): nat {
    if !Present(m, root, n) then PAGE_NOACCESS
    else if Writable(m, root, n) then PAGE_EXECUTE_READWRITE
    else PAGE_EXECUTE_READ
  }

  /** Page n is mapped by a 1 GB page. */
  predicate Giant(m: Memory, root: nat, n: nat) {
    E4(m, root, n).p && E3(m, root, n).p && E3(m, root, n).ps
  }

  /** The entry that decides the protection when page n's PDPT entry is taken for a table: words of the mapped
      memory itself in a 1 GB page. */
  function Decisive(m: Memory, root: nat, n: nat): Entry {
    var e2 := E2(m, root, n);
    if !e2.p || e2.ps then e2
    else At(m, if Giant(m, root, n) then GiantSlot1(m, root, n) else Slot1(m, root, n))
  }

  /** The protection the routine reads for its start. */
  function ReadInitially(m: Memory, root: nat, n: nat): nat {
    if !E4(m, root, n).p || !E3(m, root, n).p then PAGE_NOACCESS
    else
      var e := Decisive(m, root, n);
      if !e.p then PAGE_NOACCESS else if e.rw then PAGE_EXECUTE_READWRITE else PAGE_EXECUTE_READ
  }

  /** It is the right one but in a 1 GB page whose contents, read as entries, do not happen to be present with
      the RW bit of the page. */
  lemma {:induction false} ReadInitiallyExact(m: Memory, root: nat, n: nat)
    requires ReservedClear(m, root) && n < PAGES
    ensures ReadInitially(m, root, n) == InitialProtection(m, root, n)
       <==> (Giant(m, root, n) ==> Decisive(m, root, n).p && Decisive(m, root, n).rw == E3(m, root, n).rw)
  {
    assert E4(m, root, n).p ==> !E4(m, root, n).ps;
  }

  /** Where the region ends: at the first present page after an absent start; at the first absent page
      after a present start, or at the first writable one when the start was read-only. */
  predicate Stop(m: Memory, root: nat, protection: nat, n: nat) {
    if protection == PAGE_NOACCESS then Present(m, root, n)
    else !Present(m, root, n) || (Writable(m, root, n) && protection != PAGE_EXECUTE_READWRITE)
  }

  /** Looks at every page in turn: the lowest stop at or after n, or PAGES when there is none. */
  function StopPage(m: Memory, root: nat, protection: nat, n: nat): (e: nat)
    ensures n <= PAGES ==> n <= e <= PAGES
    ensures e < PAGES ==> Stop(m, root, protection, e)
    ensures forall k | n <= k < e :: !Stop(m, root, protection, k)
    decreases PAGES - n
  {
    if n >= PAGES then PAGES
    else if Stop(m, root, protection, n) then n
    else StopPage(m, root, protection, n + 1)
  }

  /** The address of that page, or 0. */
  function Scan(m: Memory, root: nat, protection: nat, n: nat): nat {
    var e := StopPage(m, root, protection, n);
    if e < PAGES then Address(e) else 0
  }

  /** The entry that maps page k has its RW bit set. */
  predicate MappedWritable(m: Memory, root: nat, k: nat) {
    LeafAt(m, root, k).Some? && At(m, LeafAt(m, root, k).value.slot).rw
  }

  /** What the page-by-page search finds, in terms of the translation alone: the protection says whether the start is
      mapped and writable; up to the result all pages are unmapped, or all mapped read-only, or all mapped; and the
      result is the first that is not. */
  lemma {:induction false} RegionMeaning(m: Memory, root: nat, n: nat) returns (e: nat)
    requires n < PAGES
    ensures var protection := InitialProtection(m, root, n);
      && n < e <= PAGES && Scan(m, root, protection, n + 1) == (if e < PAGES then Address(e) else 0)
      && (protection == 1 || protection == 0x20 || protection == 0x40)
      && (protection == 1 <==> Translate(m, root, n).None?)
      && (protection == 0x40 <==> MappedWritable(m, root, n))
      && (protection == 1 ==> forall k | n <= k < e :: Translate(m, root, k).None?)
      && (protection == 1 && e < PAGES ==> Translate(m, root, e).Some?)
      && (protection != 1 ==> forall k | n <= k < e :: Translate(m, root, k).Some?)
      && (protection == 0x20 ==> forall k | n <= k < e :: !MappedWritable(m, root, k))
      && (protection == 0x20 && e < PAGES ==> Translate(m, root, e).None? || MappedWritable(m, root, e))
      && (protection == 0x40 && e < PAGES ==> Translate(m, root, e).None?)
  {
    hide LeafAt;
    var protection := InitialProtection(m, root, n);
    e := StopPage(m, root, protection, n + 1);
    forall k | n <= k < e
      ensures protection == 1 ==> Translate(m, root, k).None?
      ensures protection != 1 ==> Translate(m, root, k).Some?
      ensures protection == 0x20 ==> !MappedWritable(m, root, k)
    {
      assert k > n ==> !Stop(m, root, protection, k);
    }
  }

  /** Page n is mapped by a 2 MB page. */
  predicate Large(m: Memory, root: nat, n: nat) {
    && E4(m, root, n).p && E3(m, root, n).p && !E3(m, root, n).ps
    && E2(m, root, n).p && E2(m, root, n).ps
  }

  /** From inside a 2 MB page the routine moves on by 2 MB and keeps its page-table index, until it is in a
      block that is not a 2 MB page of the same protection. */
  function Landing(m: Memory, root: nat, protection: nat, n: nat): (b: nat)
    ensures b >= n && b % 512 == n % 512
    decreases PAGES - n
  {
    if n < PAGES && Large(m, root, n) && !Stop(m, root, protection, n) then
      AddMultiple(n, 1, 512);
      Landing(m, root, protection, n + LARGE)
    else n
  }

  /** What the routine answers when it stands at page n. */
  function Resume(m: Memory, root: nat, protection: nat, n: nat): nat {
    Scan(m, root, protection, Landing(m, root, protection, n))
  }

  lemma ScanSkip(m: Memory, root: nat, protection: nat, a: nat, b: nat)
    requires a <= b
    requires forall k | a <= k < b && k < PAGES :: !Stop(m, root, protection, k)
    ensures Scan(m, root, protection, a) == Scan(m, root, protection, b)
  {
  }

  /** All pages of a 2 MB page stop or none does. */
  lemma LargeUniform(m: Memory, root: nat, protection: nat, n: nat, k: nat)
    requires ReservedClear(m, root) && n < PAGES
    requires Large(m, root, n) && n / LARGE * LARGE <= k < n / LARGE * LARGE + LARGE
    ensures Large(m, root, k)
    ensures Stop(m, root, protection, k) == Stop(m, root, protection, n)
  {
    Block(n, k, LARGE);
    SameTables(m, root, n, k);
    assert E4(m, root, n).p ==> !E4(m, root, n).ps;
  }

  /** At the start of a 2 MB block the jumps skip nothing. */
  lemma {:induction false} ResumeAligned(m: Memory, root: nat, protection: nat, n: nat)
    requires ReservedClear(m, root) && n % 512 == 0
    ensures Resume(m, root, protection, n) == Scan(m, root, protection, n)
    decreases PAGES - n
  {
    if n < PAGES && Large(m, root, n) && !Stop(m, root, protection, n) {
      AddMultiple(n, 1, 512);
      ResumeAligned(m, root, protection, n + LARGE);
      Block(n, n, LARGE);
      forall k | n <= k < n + LARGE
        ensures !Stop(m, root, protection, k)
      {
        LargeUniform(m, root, protection, n, k);
      }
      ScanSkip(m, root, protection, n, n + LARGE);
    }
  }

  /** The start lies inside a 2 MB page, past its first 4 KB. */
  predicate Interior(m: Memory, root: nat, n: nat) {
    Large(m, root, n) && n % 512 != 0
  }

  /** The part of the landing block that the routine never looks at. */
  predicate HeadClear(m: Memory, root: nat, protection: nat, b: nat) {
    b < PAGES ==> forall k | b - b % 512 <= k < b :: !Stop(m, root, protection, k)
  }

  lemma {:induction false} BeforeLanding(m: Memory, root: nat, protection: nat, n: nat, k: nat)
    requires ReservedClear(m, root)
    requires var b := Landing(m, root, protection, n); n <= k < b - b % 512 && k < PAGES
    ensures !Stop(m, root, protection, k)
    decreases PAGES - n
  {
    Block(n, n, LARGE);
    if k < n / LARGE * LARGE + LARGE {
      LargeUniform(m, root, protection, n, k);
    } else if k < n + LARGE {
      // in the block after n's, which is itself skipped because the landing lies beyond it
      AddMultiple(n, 1, 512);
      Block(n + LARGE, k, LARGE);
      LargeUniform(m, root, protection, n + LARGE, k);
    } else {
      BeforeLanding(m, root, protection, n + LARGE, k);
    }
  }

  /** The answer is that of the page-by-page search if and only if the first block after the same-protection
      2 MB pages has no stop in front of the index carried into it. */
  lemma {:induction false} ResumeExact(m: Memory, root: nat, protection: nat, n: nat)
    requires ReservedClear(m, root) && n < PAGES
    requires !Stop(m, root, protection, n)
    ensures Resume(m, root, protection, n) == Scan(m, root, protection, n + 1)
       <==> Interior(m, root, n) ==> HeadClear(m, root, protection, Landing(m, root, protection, n))
  {
    ScanSkip(m, root, protection, n, n + 1);
    if !Interior(m, root, n) {
      if n % 512 == 0 {
        ResumeAligned(m, root, protection, n);
      }
    } else {
      InteriorExact(m, root, protection, n);
    }
  }

  lemma ScanAgree(m: Memory, root: nat, protection: nat, c: nat, b: nat)
    requires 0 < c <= b < PAGES
    ensures Scan(m, root, protection, c) == Scan(m, root, protection, b)
       <==> forall k | c <= k < b :: !Stop(m, root, protection, k)
  {
    var ec, eb := StopPage(m, root, protection, c), StopPage(m, root, protection, b);
    if forall k | c <= k < b :: !Stop(m, root, protection, k) {
      ScanSkip(m, root, protection, c, b);
    } else {
      var k :| c <= k < b && Stop(m, root, protection, k);
      assert 0 < ec <= k < eb;
    }
  }

  lemma {:induction false} InteriorExact(m: Memory, root: nat, protection: nat, n: nat)
    requires ReservedClear(m, root) && n < PAGES && Interior(m, root, n)
    requires !Stop(m, root, protection, n)
    ensures Resume(m, root, protection, n) == Scan(m, root, protection, n)
       <==> HeadClear(m, root, protection, Landing(m, root, protection, n))
  {
    var b := Landing(m, root, protection, n);
    var c := b - b % 512;
    forall k | n <= k < c && k < PAGES
      ensures !Stop(m, root, protection, k)
    {
      BeforeLanding(m, root, protection, n, k);
    }
    LandingBlock(m, root, protection, n);
    ScanSkip(m, root, protection, n, c);
    if b < PAGES {
      ScanAgree(m, root, protection, c, b);
    }
  }

  lemma LandingBlock(m: Memory, root: nat, protection: nat, n: nat)
    requires n < PAGES && Large(m, root, n) && !Stop(m, root, protection, n)
    ensures var b := Landing(m, root, protection, n);
      n <= b - b % 512 && (b >= PAGES ==> b - b % 512 >= PAGES)
  {
    hide Large, Stop;
    assert Landing(m, root, protection, n) == Landing(m, root, protection, n + LARGE);
    BlockStart(n, Landing(m, root, protection, n));
  }

  lemma BlockStart(n: nat, b: nat)
    requires n + 512 <= b
    ensures n <= b - b % 512 && (b >= PAGES ==> b - b % 512 >= PAGES)
  {
  }

  /** A table with one read-only 2 MB page at address 0 and nothing behind it, self-mapped in slot 511. */
  const ONE_LARGE_PAGE: Memory := map[
    0 := Entry(true, true, false, false, 1, 0),
    511 := Entry(true, true, false, false, 0, 0),
    512 := Entry(true, true, false, false, 2, 0),
    1024 := Entry(true, false, false, true, 0, 0)]

  lemma OneLargePageLeaf(k: nat)
    requires k <= 513
    ensures LeafAt(ONE_LARGE_PAGE, 0, k) == if k < 512 then Some(Leaf(0, LARGE, 1024, 0)) else None
    ensures Large(ONE_LARGE_PAGE, 0, k) <==> k < 512
    ensures Stop(ONE_LARGE_PAGE, 0, PAGE_EXECUTE_READ, k) <==> k >= 512
    ensures k < 512 ==> InitialProtection(ONE_LARGE_PAGE, 0, k) == PAGE_EXECUTE_READ
  {
    DivModUnique(PML4_SPAN, 0, k);
    DivModUnique(GIANT, 0, k);
    DivModUnique(LARGE, k / LARGE, k % LARGE);
  }

  /** The routine may be called on it. */
  lemma OneLargePageNoGiants()
    ensures NoGiants(ONE_LARGE_PAGE, 0)
  {
    forall n: nat | n < PAGES && E4(ONE_LARGE_PAGE, 0, n).p && E3(ONE_LARGE_PAGE, 0, n).p
      ensures !E3(ONE_LARGE_PAGE, 0, n).ps
    {
      assert n / PML4_SPAN < 512;
    }
  }

  lemma SecondPage(m: Memory, root: nat, protection: nat)
    requires Large(m, root, 1) && !Large(m, root, 513)
    requires forall k | 1 <= k <= 513 :: Stop(m, root, protection, k) <==> k >= 512
    ensures Resume(m, root, protection, 1) == Address(513)
    ensures Scan(m, root, protection, 2) == Address(512)
  {
    assert Landing(m, root, protection, 513) == 513;
    ScanSkip(m, root, protection, 2, 512);
  }

  /** From the second page of that 2 MB page the routine reports 0x201000; the region ends at 0x200000. */
  lemma {:induction false} InteriorStartFails()
    ensures SelfMapped(ONE_LARGE_PAGE, 0, 511) && NoGiants(ONE_LARGE_PAGE, 0)
    ensures InitialProtection(ONE_LARGE_PAGE, 0, 1) == PAGE_EXECUTE_READ
    ensures Resume(ONE_LARGE_PAGE, 0, PAGE_EXECUTE_READ, 1) == 0x20_1000
    ensures Scan(ONE_LARGE_PAGE, 0, PAGE_EXECUTE_READ, 2) == 0x20_0000
  {
    hide Resume, Scan, Stop, Large, LeafAt, Present, Writable;
    var m, prot := ONE_LARGE_PAGE, PAGE_EXECUTE_READ;
    forall k | 1 <= k <= 513
      ensures Stop(m, 0, prot, k) <==> k >= 512
      ensures Large(m, 0, k) <==> k < 512
    {
      OneLargePageLeaf(k);
    }
    OneLargePageLeaf(1);
    SecondPage(m, 0, prot);
    OneLargePageNoGiants();
  }

  /** A table with one writable 1 GB page at address 0, whose memory is zero, self-mapped in slot 511. */
  const ONE_GIANT_PAGE: Memory := map[
    0 := Entry(true, true, false, false, 1, 0),
    511 := Entry(true, true, false, false, 0, 0),
    512 := Entry(true, true, false, true, 0x4_0000, 0)]

  /** The routine takes address 0 for not present, and the processor maps it. */
  lemma {:induction false} GiantStartFails()
    ensures SelfMapped(ONE_GIANT_PAGE, 0, 511) && ReservedClear(ONE_GIANT_PAGE, 0)
    ensures InitialProtection(ONE_GIANT_PAGE, 0, 0) == PAGE_EXECUTE_READWRITE
    ensures ReadInitially(ONE_GIANT_PAGE, 0, 0) == PAGE_NOACCESS
  {
  }
}
