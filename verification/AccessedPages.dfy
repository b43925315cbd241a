/** walkPagingLayout and the accessed-page list built on it (DBKKernel/memscan.c). */
module AccessedPages {
  import Arithmetic
  import opened Options
  import opened Paging
  import opened Leaves
  import opened AccessedRanges

  /** Pages of 4096 bytes below a byte limit. */
  function PagesBelow(limit: nat): nat {
    (limit + 4095) / 4096
  }

  /** The part of memscan.c's state that the walk and its callbacks work on. Entries are read through
      the self-map in PML4 slot `self`. */
  class PageMonitor {
    const root: nat
    const self: nat
    var mem: Memory
    var accessedList: seq<Range>
    var accessedListSize: int

    ghost predicate Valid()
      reads this
    {
      SelfMapped(mem, root, self) && ReservedClear(mem, root)
    }

    ghost function State(): Tracker
      reads this
    {
      Tracker(mem, accessedList, accessedListSize)
    }

    constructor (root: nat, self: nat, mem: Memory)
      requires SelfMapped(mem, root, self) && ReservedClear(mem, root)
      ensures Valid() && State() == Tracker(mem, [], 0) && this.root == root && this.self == self
    {
      this.root, this.self, this.mem := root, self, mem;
      accessedList, accessedListSize := [], 0;
    }

    /** An 8-byte read of kernel memory; it must not fault. */
    method Read(va: nat) returns (slot: nat)
      requires LoadSlot(mem, root, va).Some?
      ensures LoadSlot(mem, root, va) == Some(slot)
    {
      slot := LoadSlot(mem, root, va).value;
    }

    method OnPresentPage(cb: Callback, startAddress: nat, endAddress: nat, slot: nat, ghost l: Leaf)
      requires startAddress == l.first * 4096 && endAddress == LastByte(l) && slot == l.slot
      modifies this
      ensures State() == Apply(cb, old(State()), l)
    {
      match cb
      case StoreAccessedRanges =>
        if At(mem, slot).a {
          if accessedList != [] && accessedList[0].end == (startAddress - 1) % TWO64 {
            accessedList := [accessedList[0].(end := endAddress)] + accessedList[1..];
          } else {
            accessedList := [Range(startAddress, endAddress)] + accessedList;
            accessedListSize := accessedListSize + 1;
          }
        }
      case MarkPageAsNotAccessed =>
        mem := mem[slot := At(mem, slot).(a := false)];
    }

    /** One round of the walk: calls back when the page is a leaf, and returns where to look next. */
    method Visit(currentAddress: nat, cb: Callback, ghost n: nat) returns (next: nat)
      requires Valid()
      requires currentAddress == n * 4096 && n < PAGES
      requires AtBoundary(mem, root, n)
      modifies this
      ensures next == NextPage(old(mem), root, n) * 4096
      ensures State() == match LeafAt(old(mem), root, n)
                         case None => old(State())
                         case Some(l) => Apply(cb, old(State()), l)
    {
      var pagebase := TableBase(self);
      PageFacts(n);
      SelfMapCorrect(mem, root, self, currentAddress);
      var ppte := EntryPointer(pagebase, currentAddress);
      var ppde := EntryPointer(pagebase, ppte);
      var ppdpe := EntryPointer(pagebase, ppde);
      var ppml4e := EntryPointer(pagebase, ppdpe);

      var s4 := Read(ppml4e);
      assert At(mem, s4) == E4(mem, root, n);
      if !At(mem, s4).p {
        BlockBytes(n, PML4_SPAN);
        return currentAddress / 0x80_0000_0000 * 0x80_0000_0000 + 0x80_0000_0000;
      }
      var s3 := Read(ppdpe);
      if !At(mem, s3).p {
        BlockBytes(n, GIANT);
        return currentAddress / 0x4000_0000 * 0x4000_0000 + 0x4000_0000;
      }
      ghost var l := LeafAt(mem, root, n);
      if At(mem, s3).ps {
        OnPresentPage(cb, currentAddress, currentAddress + 0x4000_0000 - 1, s3, l.value);
        return currentAddress + 0x4000_0000;
      }
      var s2 := Read(ppde);
      if !At(mem, s2).p {
        BlockBytes(n, LARGE);
        return currentAddress / 0x20_0000 * 0x20_0000 + 0x20_0000;
      }
      if At(mem, s2).ps {
        OnPresentPage(cb, currentAddress, currentAddress + 0x20_0000 - 1, s2, l.value);
        return currentAddress + 0x20_0000;
      }
      var s1 := Read(ppte);
      if !At(mem, s1).p {
        BlockBytes(n, 1);
        return currentAddress / 4096 * 4096 + 0x1000;
      }
      OnPresentPage(cb, currentAddress, currentAddress + 0xfff, s1, l.value);
      next := currentAddress + 0x1000;
    }

    /** Calls back once for every leaf that starts below the limit, in ascending order and for nothing
        else; every entry it reads is mapped. It fails only without a page-table base. */
    method WalkPagingLayout(maxAddress: nat, cb: Callback) returns (ok: bool)
      requires Valid() && maxAddress <= TWO48
      modifies this
      ensures Valid() && SameShape(old(mem), mem)
      ensures ok == (TableBase(self) != 0)
      ensures State() == if ok then ApplyAll(cb, old(State()), LeavesFrom(old(mem), root, 0, PagesBelow(maxAddress)))
                         else old(State())
    {
      if TableBase(self) == 0 {
        return false;
      }
      var currentAddress, lastAddress := 0, 0;
      ghost var n, limit, t0 := 0, PagesBelow(maxAddress), State();
      ghost var done: seq<Leaf> := [];
      while currentAddress < maxAddress && lastAddress <= currentAddress
        invariant lastAddress <= currentAddress == n * 4096
        invariant WalkedTo(root, self, cb, t0, done, State(), n, limit)
        decreases maxAddress - currentAddress
      {
        lastAddress := currentAddress;
        ghost var t := State();
        BelowLimit(n, maxAddress);
        currentAddress := Visit(currentAddress, cb, n);
        done := Round(root, self, cb, t0, done, t, State(), n, limit);
        n := NextPage(t.mem, root, n);
      }
      BelowLimit(n, maxAddress);
      WalkedAll(root, self, cb, t0, done, State(), n, limit);
      return true;
    }

    method CleanAccessedList()
      modifies this`accessedList, this`accessedListSize
      ensures State() == Tracker(old(mem), [], 0)
    {
      accessedList := [];
      accessedListSize := 0;
    }

    /** Afterwards the list holds exactly the maximal runs of accessed memory below 8 TB, highest first,
        and the counter is its length. */
    method EnumAllAccessedPages() returns (bytes: int)
      requires Valid()
      modifies this
      ensures Valid() && mem == old(mem)
      ensures TableBase(self) == 0 ==> accessedList == [] && bytes == 0
      ensures TableBase(self) != 0 ==>
        && Separated(accessedList)
        && (forall x: nat :: InSome(accessedList, x) <==> AccessedByte(mem, root, 0x8000_0000, x))
        && bytes == AsInt32(accessedListSize * 16)
      ensures accessedListSize == |accessedList|
    {
      CleanAccessedList();
      var ok := WalkPagingLayout(MAX_ADDRESS, StoreAccessedRanges);
      AccessedRuns(old(mem), root, PagesBelow(MAX_ADDRESS));
      if ok {
        bytes := AsInt32(accessedListSize * 16);
      } else {
        bytes := 0;
      }
    }

    /** Hands out the longest prefix of the list that fits and empties the list. */
    method GetAccessedPageList(list: array<Range>, listSizeInBytes: int) returns (bytes: int)
      requires Fitting(listSizeInBytes) <= list.Length
      requires -0x8000_0000 <= listSizeInBytes < 0x8000_0000
      modifies this`accessedList, this`accessedListSize, list
      ensures State() == Tracker(old(mem), [], 0)
      ensures var k := if |old(accessedList)| <= Fitting(listSizeInBytes) then |old(accessedList)|
                       else Fitting(listSizeInBytes);
        && list[..] == old(accessedList)[..k] + old(list[..])[k..]
        && bytes == k * 16
        && (k > 0 ==> 16 * k <= listSizeInBytes) && (k < |old(accessedList)| ==> listSizeInBytes < 16 * (k + 1))
    {
      // the division is between an int and a size_t, hence unsigned in 64 bits, then cut to an int
      var maxcount := AsInt32(listSizeInBytes % TWO64 / 16);
      NegativeSize(listSizeInBytes);
      var i, e := 0, accessedList;
      ghost var before := list[..];
      while e != [] && i < maxcount
        invariant State() == old(State())
        invariant 0 <= i <= |accessedList| && i <= Fitting(listSizeInBytes) && e == accessedList[i..]
        invariant forall k | 0 <= k < i :: list[k] == accessedList[k]
        invariant forall k | i <= k < list.Length :: list[k] == before[k]
      {
        list[i] := e[0];
        e := e[1..];
        i := i + 1;
      }
      assert list[..] == accessedList[..i] + before[i..];
      CleanAccessedList();
      bytes := i * 16;
    }

    /** Clears the accessed bit of exactly the leaf entries below 8 TB; nothing else in memory changes,
        so every page translates as before. */
    method MarkAllPagesAsNeverAccessed() returns (ok: bool)
      requires Valid()
      modifies this
      ensures Valid() && ok == (TableBase(self) != 0)
      ensures accessedList == old(accessedList) && accessedListSize == old(accessedListSize)
      ensures !ok ==> mem == old(mem)
      ensures ok ==> forall slot: nat :: At(mem, slot) == Cleared(old(mem), root, 0x8000_0000, slot)
      ensures forall n: nat :: Translate(mem, root, n) == Translate(old(mem), root, n)
      ensures ok ==> forall x: nat :: !AccessedByte(mem, root, 0x8000_0000, x)
    {
      ok := WalkPagingLayout(MAX_ADDRESS, MarkPageAsNotAccessed);
      if ok {
        MarkedMemory(old(mem), mem, root, PagesBelow(MAX_ADDRESS), old(State()));
      }
      forall n: nat
        ensures Translate(mem, root, n) == Translate(old(mem), root, n)
      {
        SameShapeSameLeaf(old(mem), mem, root, n);
      }
    }

    /** Clearing and listing with nothing in between finds no accessed range. */
    method MarkThenEnumerate() returns (bytes: int)
      requires Valid()
      modifies this
      ensures TableBase(self) != 0 ==> accessedList == [] && bytes == 0
    {
      var ok := MarkAllPagesAsNeverAccessed();
      bytes := EnumAllAccessedPages();
      if TableBase(self) != 0 && accessedList != [] {
        assert Holds(accessedList[0], accessedList[0].start);
        assert InSome(accessedList, accessedList[0].start);
        assert false;
      }
    }
  }

  /** Upper end of the enumerated address range, 8 TB. */
  const MAX_ADDRESS: nat := 0x800_0000_0000

  /** How many ranges of 16 bytes fit; none in a negative size. */
  function Fitting(sizeInBytes: int): nat {
    if sizeInBytes < 0 then 0 else sizeInBytes / 16
  }

  function AsInt32(x: int): (r: int)
    ensures -0x8000_0000 <= r < 0x8000_0000 && (r - x) % 0x1_0000_0000 == 0
  {
    (x + 0x8000_0000) % 0x1_0000_0000 - 0x8000_0000
  }

  lemma {:induction false} NegativeSize(size: int)
    requires -0x8000_0000 <= size < 0x8000_0000
    ensures size >= 0 ==> AsInt32(size % TWO64 / 16) == size / 16
    ensures size < 0 ==> AsInt32(size % TWO64 / 16) <= 0
  {
    if size < 0 {
      var q := (size + TWO64) / 16;
      var r := q - 0x1000_0000_0000_0000;
      assert -0x800_0000 <= r <= 0;
      Arithmetic.DivModUnique(0x1_0000_0000, 0x1000_0000, r + 0x8000_0000);
    }
  }

  /** The walk has dealt with exactly the leaves in `done`, which are those that start below page n. */
  ghost predicate WalkedTo(root: nat, self: nat, cb: Callback, t0: Tracker, done: seq<Leaf>, t: Tracker,
                           n: nat, limit: nat) {
    && SelfMapped(t.mem, root, self) && ReservedClear(t.mem, root)
    && SameShape(t0.mem, t.mem)
    && AtBoundary(t.mem, root, n)
    && done + LeavesFrom(t0.mem, root, n, limit) == LeavesFrom(t0.mem, root, 0, limit)
    && t == ApplyAll(cb, t0, done)
  }

  lemma Round(root: nat, self: nat, cb: Callback, t0: Tracker, done: seq<Leaf>, t: Tracker, t': Tracker,
              n: nat, limit: nat) returns (done': seq<Leaf>)
    requires WalkedTo(root, self, cb, t0, done, t, n, limit)
    requires n < limit && n < PAGES
    requires t' == match LeafAt(t.mem, root, n) case None => t case Some(l) => Apply(cb, t, l)
    ensures n < NextPage(t.mem, root, n)
    ensures WalkedTo(root, self, cb, t0, done', t', NextPage(t.mem, root, n), limit)
  {
    var b := NextPage(t.mem, root, n);
    RoundLeaves(t0.mem, t.mem, root, n, limit);
    if LeafAt(t.mem, root, n).None? {
      done' := done;
    } else {
      var l := LeafAt(t.mem, root, n).value;
      RoundShape(root, self, cb, t0, t, l, b);
      Advance(cb, t0, done, l, LeavesFrom(t0.mem, root, b, limit));
      done' := done + [l];
    }
  }

  lemma RoundLeaves(m0: Memory, m: Memory, root: nat, n: nat, limit: nat)
    requires SameShape(m0, m) && ReservedClear(m, root)
    requires n < limit && n < PAGES && AtBoundary(m, root, n)
    ensures var b := NextPage(m, root, n);
      && n < b && AtBoundary(m, root, b)
      && match LeafAt(m, root, n)
         case None => LeavesFrom(m0, root, n, limit) == LeavesFrom(m0, root, b, limit)
         case Some(l) => LeavesFrom(m0, root, n, limit) == [l] + LeavesFrom(m0, root, b, limit)
  {
    NextPageCorrect(m, root, n, limit);
    SameShapeSameLeaves(m0, m, root, n, limit);
    SameShapeSameLeaves(m0, m, root, NextPage(m, root, n), limit);
  }

  lemma RoundShape(root: nat, self: nat, cb: Callback, t0: Tracker, t: Tracker, l: Leaf, b: nat)
    requires SelfMapped(t.mem, root, self) && ReservedClear(t.mem, root) && SameShape(t0.mem, t.mem)
    requires AtBoundary(t.mem, root, b)
    ensures var m := Apply(cb, t, l).mem;
      && SelfMapped(m, root, self) && ReservedClear(m, root) && SameShape(t0.mem, m)
      && AtBoundary(m, root, b)
  {
    var m := Apply(cb, t, l).mem;
    ApplyKeepsShape(cb, t, l);
    ShapeTransitive(t0.mem, t.mem, m, root);
    SameShapeSameLeaf(t.mem, m, root, b);
  }

  /** Where the walk continues: past the absent block or past the leaf. */
  function NextPage(m: Memory, root: nat, n: nat): nat {
    if !E4(m, root, n).p then n / PML4_SPAN * PML4_SPAN + PML4_SPAN
    else if !E3(m, root, n).p then n / GIANT * GIANT + GIANT
    else if E3(m, root, n).ps then n + GIANT
    else if !E2(m, root, n).p then n / LARGE * LARGE + LARGE
    else if E2(m, root, n).ps then n + LARGE
    else n + 1
  }

  lemma PageFacts(n: nat)
    requires n < PAGES
    ensures PageOf(n * 4096) == n
  {
  }

  lemma BelowLimit(n: nat, limit: nat)
    requires limit <= TWO48
    ensures n * 4096 < limit <==> n < PagesBelow(limit)
    ensures n < PagesBelow(limit) ==> n < PAGES
  {
  }

  lemma WalkedAll(root: nat, self: nat, cb: Callback, t0: Tracker, done: seq<Leaf>, t: Tracker,
                  n: nat, limit: nat)
    requires WalkedTo(root, self, cb, t0, done, t, n, limit) && n >= limit
    ensures t == ApplyAll(cb, t0, LeavesFrom(t0.mem, root, 0, limit))
  {
    assert LeavesFrom(t0.mem, root, n, limit) == [];
    assert done == LeavesFrom(t0.mem, root, 0, limit);
  }

  /** Rounding a page's byte address up to the next block of `span` pages. */
  lemma BlockBytes(n: nat, span: nat)
    requires span > 0
    ensures n * 4096 / (span * 4096) * (span * 4096) + span * 4096 == (n / span * span + span) * 4096
  {
    Arithmetic.DivDiv(n * 4096, 4096, span);
  }

  /** An absent PML4E, PDPTE or PDE leaves its whole block unmapped. */
  lemma SkipBlock(m: Memory, root: nat, n: nat, span: nat, limit: nat)
    requires || (span == PML4_SPAN && !E4(m, root, n).p)
             || (span == GIANT && !E3(m, root, n).p)
             || (span == LARGE && !E2(m, root, n).p && !E3(m, root, n).ps)
    ensures var b := n / span * span + span;
      && n < b
      && LeavesFrom(m, root, n, limit) == LeavesFrom(m, root, b, limit)
      && AtBoundary(m, root, b)
  {
    var b := n / span * span + span;
    Block(n, n, span);
    forall k | n <= k < b
      ensures LeafAt(m, root, k).None?
    {
      Block(n, k, span);
      SameTables(m, root, n, k);
    }
    StepSkip(m, root, n, b, limit);
  }

  /** The walk's own step agrees with looking at every page in turn. */
  lemma {:induction false} NextPageCorrect(m: Memory, root: nat, n: nat, limit: nat)
    requires ReservedClear(m, root)
    requires n < limit && n < PAGES && AtBoundary(m, root, n)
    ensures var b := NextPage(m, root, n);
      && n < b
      && AtBoundary(m, root, b)
      && match LeafAt(m, root, n)
         case None => LeavesFrom(m, root, n, limit) == LeavesFrom(m, root, b, limit)
         case Some(l) => LeavesFrom(m, root, n, limit) == [l] + LeavesFrom(m, root, b, limit)
  {
    assert E4(m, root, n).p ==> !E4(m, root, n).ps;
    if LeafAt(m, root, n).Some? {
      StepLeaf(m, root, n, limit);
    } else if !E4(m, root, n).p {
      SkipBlock(m, root, n, PML4_SPAN, limit);
    } else if !E3(m, root, n).p {
      SkipBlock(m, root, n, GIANT, limit);
    } else if !E2(m, root, n).p {
      SkipBlock(m, root, n, LARGE, limit);
    } else {
      StepSkip(m, root, n, n + 1, limit);
    }
  }

  /** Bookkeeping of one callback. */
  lemma Advance(cb: Callback, t0: Tracker, done: seq<Leaf>, l: Leaf, rest: seq<Leaf>)
    ensures (done + [l]) + rest == done + ([l] + rest)
    ensures ApplyAll(cb, t0, done + [l]) == Apply(cb, ApplyAll(cb, t0, done), l)
  {
    ApplyAllSnoc(cb, t0, done, l);
  }

  lemma ShapeTransitive(m0: Memory, m1: Memory, m2: Memory, root: nat)
    requires SameShape(m0, m1) && SameShape(m1, m2)
    ensures SameShape(m0, m2)
    ensures forall s | SelfMapped(m1, root, s) :: SelfMapped(m2, root, s)
    ensures ReservedClear(m1, root) ==> ReservedClear(m2, root)
  {
    forall slot: nat
      ensures At(m2, slot).(a := false) == At(m0, slot).(a := false)
    {
      assert At(m1, slot).(a := false) == At(m0, slot).(a := false);
    }
    forall s | SelfMapped(m1, root, s)
      ensures SelfMapped(m2, root, s)
    {
      SameEntry(m1, m2, root * 512 + s);
    }
    forall n: nat
      ensures E4(m2, root, n).p == E4(m1, root, n).p && E4(m2, root, n).ps == E4(m1, root, n).ps
    {
      SameEntry(m1, m2, Slot4(root, n));
    }
  }
}
