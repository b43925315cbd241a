/** Listing the present pages of a memory block: the paged mode of VirtualQueryExFull and AddToRegionList in
    Cheat Engine/ceserver/api.c. Addresses and sizes are counted in pages. */
module RegionList {
  import opened Arithmetic

  /** Pages whose page-map entries are read at once. */
  const WINDOW: nat := 512

  datatype Region = Region(first: nat, count: nat, kind: nat, protection: nat)

  // ---- what the list should hold ----

  predicate In(r: Region, n: nat) {
    r.first <= n < r.first + r.count
  }

  /** A run of present pages that cannot be extended within its window of the block. */
  ghost predicate MaximalRun(r: Region, present: nat -> bool, start: nat, stop: nat) {
    && start <= r.first && 0 < r.count && r.first + r.count <= stop
    && (forall n | In(r, n) :: present(n))
    && (r.first - start) / WINDOW == (r.first + r.count - 1 - start) / WINDOW
    && (var left := r.first - start; left % WINDOW == 0 || !present(r.first - 1))
    && (var right := r.first + r.count; (right - start) % WINDOW == 0 || right == stop || !present(right))
  }

  ghost predicate Ascending(rs: seq<Region>) {
    forall i, j | 0 <= i < j < |rs| :: rs[i].first + rs[i].count <= rs[j].first
  }

  /** The regions are runs of the block, and up to page n they hold exactly its present pages. */
  ghost predicate Listed(rs: seq<Region>, present: nat -> bool, start: nat, stop: nat, n: nat,
                         kind: nat, protection: nat) {
    && Ascending(rs)
    && (forall i | 0 <= i < |rs| ::
          MaximalRun(rs[i], present, start, stop) && rs[i].kind == kind && rs[i].protection == protection
          && rs[i].first + rs[i].count <= n)
    && (forall p | start <= p < n :: present(p) <==> Held(rs, p))
  }

  ghost predicate Held(rs: seq<Region>, p: nat) {
    exists i :: 0 <= i < |rs| && In(rs[i], p)
  }

  /** Runs that share a page are one, so the page map alone decides what is listed. */
  lemma {:induction false} SharedPage(r: Region, q: Region, present: nat -> bool, start: nat, stop: nat, p: nat)
    requires MaximalRun(r, present, start, stop) && MaximalRun(q, present, start, stop)
    requires In(r, p) && In(q, p)
    ensures r.first == q.first && r.count == q.count
  {
    NotLater(r, q, present, start, stop, p);
    NotLater(q, r, present, start, stop, p);
    NotLonger(r, q, present, start, stop);
    NotLonger(q, r, present, start, stop);
  }

  lemma NotLater(r: Region, q: Region, present: nat -> bool, start: nat, stop: nat, p: nat)
    requires MaximalRun(r, present, start, stop) && MaximalRun(q, present, start, stop)
    requires In(r, p) && In(q, p)
    ensures q.first <= r.first
  {
    Crosses(r.first - start, q.first - start, r.first + r.count - 1 - start);
  }

  lemma NotLonger(r: Region, q: Region, present: nat -> bool, start: nat, stop: nat)
    requires MaximalRun(r, present, start, stop) && MaximalRun(q, present, start, stop) && r.first == q.first
    ensures r.count <= q.count
  {
    var right := q.first + q.count;
    Crosses(r.first - start, right - start, r.first + r.count - 1 - start);
  }

  /** A window boundary after x and not after z keeps them in different windows. */
  lemma Crosses(x: int, y: int, z: int)
    ensures 0 <= x < y <= z && y % WINDOW == 0 ==> x / WINDOW != z / WINDOW
  {
  }

  /** An absent page needs no region. */
  lemma SkipAbsent(rs: seq<Region>, present: nat -> bool, start: nat, stop: nat, n: nat, kind: nat, protection: nat)
    requires Listed(rs, present, start, stop, n, kind, protection) && !present(n)
    ensures Listed(rs, present, start, stop, n + 1, kind, protection)
  {
    hide MaximalRun;
    assert !Held(rs, n);
  }

  lemma AddRun(rs: seq<Region>, present: nat -> bool, start: nat, stop: nat, r: Region)
    requires Listed(rs, present, start, stop, r.first, r.kind, r.protection) && MaximalRun(r, present, start, stop)
    ensures Listed(rs + [r], present, start, stop, r.first + r.count, r.kind, r.protection)
  {
    var all := rs + [r];
    forall p | start <= p < r.first + r.count
      ensures present(p) <==> Held(all, p)
    {
      if In(r, p) {
        assert In(all[|rs|], p);
      } else {
        assert Held(rs, p) ==> Held(all, p) by {
          if Held(rs, p) {
            var i :| 0 <= i < |rs| && In(rs[i], p);
            assert In(all[i], p);
          }
        }
        if Held(all, p) {
          var i :| 0 <= i < |all| && In(all[i], p);
          assert i < |rs|;
          assert In(rs[i], p);
        }
      }
    }
  }

  class List {
    var list: array<Region>
    var pos: nat

    ghost predicate Valid()
      reads this
    {
      pos < list.Length
    }

    ghost function Contents(): seq<Region>
      reads this, list
      requires Valid()
    {
      list[..pos]
    }

    constructor (max: nat)
      requires max > 0
      ensures Valid() && Contents() == [] && list.Length == max && fresh(list)
    {
      list := new Region[max](i => Region(0, 0, 0, 0));
      pos := 0;
    }

    /** Appends a region; a full list is doubled at once, so that there is always room for one more. */
    method AddToRegionList(r: Region)
      requires Valid()
      modifies this, list
      ensures Valid() && Contents() == old(Contents()) + [r]
      ensures list == old(list) || fresh(list)
      ensures list.Length == if old(pos) + 1 >= old(list.Length) then old(list.Length) * 2 else old(list.Length)
    {
      list[pos] := r;
      pos := pos + 1;
      if pos >= list.Length {
        var bigger := new Region[list.Length * 2](i => Region(0, 0, 0, 0));
        for i := 0 to list.Length
          modifies bigger
          invariant bigger[..i] == list[..i]
        {
          bigger[i] := list[i];
        }
        list := bigger;
      }
    }

    /** One window: the runs among `count` page-map entries from page `current` on. */
    method ListWindow(present: nat -> bool, start: nat, stop: nat, current: nat, count: nat, kind: nat, protection: nat,
                      ghost base: seq<Region>, ghost found: seq<Region>) returns (ghost more: seq<Region>)
      requires Valid() && Contents() == base + found
      requires start <= current && current + count <= stop && (current - start) % WINDOW == 0 && 0 < count <= WINDOW
      requires count == WINDOW || current + count == stop
      requires Listed(found, present, start, stop, current, kind, protection)
      modifies this, list
      ensures Valid() && Contents() == base + more && (list == old(list) || fresh(list))
      ensures Listed(more, present, start, stop, current + count, kind, protection)
    {
      hide Listed, MaximalRun;
      more := found;
      var currentStart := -1;
      for i := 0 to count
        invariant Valid() && Contents() == base + more && (list == old(list) || fresh(list))
        invariant -1 <= currentStart < i
        invariant currentStart == -1 ==> Listed(more, present, start, stop, current + i, kind, protection)
        invariant currentStart == -1 && i > 0 ==> !present(current + i - 1)
        invariant currentStart >= 0 ==>
          Listed(more, present, start, stop, current + currentStart, kind, protection)
          && OpenRun(present, current, currentStart, i)
      {
        if present(current + i) {
          if currentStart == -1 {
            currentStart := i;
          }
        } else {
          if currentStart != -1 {
            var r := Region(current + currentStart, i - currentStart, kind, protection);
            RunEnds(present, start, stop, current, count, currentStart, i, r);
            AddRun(more, present, start, stop, r);
            AddToRegionList(r);
            more := more + [r];
          }
          SkipAbsent(more, present, start, stop, current + i, kind, protection);
          currentStart := -1;
        }
      }
      if currentStart != -1 {
        var r := Region(current + currentStart, count - currentStart, kind, protection);
        RunEnds(present, start, stop, current, count, currentStart, count, r);
        AddRun(more, present, start, stop, r);
        AddToRegionList(r);
        more := more + [r];
      }
    }

    /** The loop over the windows of one block: whatever was listed stays, and the block's runs follow. */
    method ListPresentPages(present: nat -> bool, start: nat, stop: nat, kind: nat, protection: nat)
        returns (ghost found: seq<Region>)
      requires Valid() && start <= stop
      modifies this, list
      ensures Valid() && Contents() == old(Contents()) + found && (list == old(list) || fresh(list))
      ensures Listed(found, present, start, stop, stop, kind, protection)
    {
      ghost var base := Contents();
      found := [];
      var current := start;
      assert base + found == base;
      while current < stop
        invariant start <= current <= stop && ((current - start) % WINDOW == 0 || current == stop)
        invariant Valid() && Contents() == base + found && (list == old(list) || fresh(list))
        invariant Listed(found, present, start, stop, current, kind, protection)
        decreases stop - current
      {
        hide Listed;
        var pageCount := stop - current;
        if pageCount > 512 {
          pageCount := 512;
        }
        found := ListWindow(present, start, stop, current, pageCount, kind, protection, base, found);
        current := current + pageCount;
      }
    }
  }

  /** Pages currentStart to i-1 of the window are present, and the one before them is not. */
  ghost predicate OpenRun(present: nat -> bool, current: nat, currentStart: nat, i: nat) {
    && (forall n | current + currentStart <= n < current + i :: present(n))
    && (currentStart > 0 ==> !present(current + currentStart - 1))
  }

  lemma RunEnds(present: nat -> bool, start: nat, stop: nat, current: nat, count: nat, s: nat, i: nat, r: Region)
    requires start <= current && current + count <= stop && (current - start) % WINDOW == 0 && count <= WINDOW
    requires count == WINDOW || current + count == stop
    requires s < i <= count && OpenRun(present, current, s, i)
    requires i == count || !present(current + i)
    requires r.first == current + s && r.count == i - s
    ensures MaximalRun(r, present, start, stop)
  {
    var q := (current - start) / WINDOW;
    DivModUnique(WINDOW, q, s);
    DivModUnique(WINDOW, q, i - 1);
    if i == WINDOW {
      DivModUnique(WINDOW, q + 1, 0);
    }
  }
}
