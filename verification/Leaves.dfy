/** The page-by-page account of what is mapped below a limit, which the table walk refines. */
module Leaves {
  import opened Arithmetic
  import opened Options
  import opened Paging

  /** Looks at every page from `from` up to `limit` and lists the leaves that start there. */
  function LeavesFrom(m: Memory, root: nat, from: nat, limit: nat): seq<Leaf>
    decreases limit - from
  {
    if from >= limit then []
    else
      match LeafAt(m, root, from)
      case Some(l) =>
        if l.first == from then [l] + LeavesFrom(m, root, from + 1, limit)
        else LeavesFrom(m, root, from + 1, limit)
      case None => LeavesFrom(m, root, from + 1, limit)
  }

  /** Page n is not in the interior of a leaf. */
  predicate AtBoundary(m: Memory, root: nat, n: nat) {
    LeafAt(m, root, n).Some? ==> LeafFirst(m, root, n) == n
  }

  lemma {:induction false} NothingStarts(m: Memory, root: nat, a: nat, b: nat, limit: nat)
    requires a <= b
    requires forall k | a <= k < b :: LeafAt(m, root, k).Some? ==> LeafFirst(m, root, k) < k
    ensures LeavesFrom(m, root, a, limit) == LeavesFrom(m, root, b, limit)
    decreases b - a
  {
    if a < b && a < limit {
      NothingStarts(m, root, a + 1, b, limit);
    }
  }

  /** An absent stretch can be skipped. */
  lemma StepSkip(m: Memory, root: nat, a: nat, b: nat, limit: nat)
    requires a < b
    requires forall k | a <= k < b :: LeafAt(m, root, k).None?
    ensures LeavesFrom(m, root, a, limit) == LeavesFrom(m, root, b, limit)
    ensures AtBoundary(m, root, b)
  {
    NothingStarts(m, root, a, b, limit);
    if LeafAt(m, root, b).Some? && LeafFirst(m, root, b) < b {
      LeafShape(m, root, b);
      LeafConst(m, root, b, b - 1);
      assert false;
    }
  }

  /** A leaf is taken in one step, wherever it ends. */
  lemma StepLeaf(m: Memory, root: nat, n: nat, limit: nat)
    requires n < limit && LeafAt(m, root, n).Some? && LeafFirst(m, root, n) == n
    ensures var l := LeafAt(m, root, n).value;
      && LeavesFrom(m, root, n, limit) == [l] + LeavesFrom(m, root, n + l.count, limit)
      && AtBoundary(m, root, n + l.count)
  {
    var l := LeafAt(m, root, n).value;
    LeafShape(m, root, n);
    forall k | n + 1 <= k < n + l.count
      ensures LeafAt(m, root, k).Some? ==> LeafFirst(m, root, k) < k
    {
      LeafConst(m, root, n, k);
    }
    NothingStarts(m, root, n + 1, n + l.count, limit);
    var b := n + l.count;
    if LeafAt(m, root, b).Some? && LeafFirst(m, root, b) < b {
      LeafShape(m, root, b);
      LeafConst(m, root, b, b - 1);
      LeafConst(m, root, n, b - 1);
      assert false;
    }
  }

  /** Ascending and disjoint. */
  predicate Ascending(ls: seq<Leaf>) {
    forall i, j | 0 <= i < j < |ls| :: ls[i].first + ls[i].count <= ls[j].first
  }

  lemma {:induction false} LeavesSound(m: Memory, root: nat, from: nat, limit: nat)
    ensures var ls := LeavesFrom(m, root, from, limit);
      forall l | l in ls :: from <= l.first < limit && LeafAt(m, root, l.first) == Some(l)
    decreases limit - from
  {
    if from < limit {
      LeavesSound(m, root, from + 1, limit);
    }
  }

  lemma {:induction false} LeavesComplete(m: Memory, root: nat, from: nat, limit: nat, n: nat)
    requires from <= n < limit && LeafAt(m, root, n).Some? && LeafFirst(m, root, n) == n
    ensures LeafAt(m, root, n).value in LeavesFrom(m, root, from, limit)
    decreases limit - from
  {
    if from < n {
      LeavesComplete(m, root, from + 1, limit, n);
    }
  }

  lemma {:induction false} LeavesAscending(m: Memory, root: nat, from: nat, limit: nat)
    ensures Ascending(LeavesFrom(m, root, from, limit))
    decreases limit - from
  {
    if from < limit {
      LeavesAscending(m, root, from + 1, limit);
      LeavesSound(m, root, from + 1, limit);
      var l := LeafAt(m, root, from);
      if l.Some? && l.value.first == from {
        var tail := LeavesFrom(m, root, from + 1, limit);
        forall j | 0 <= j < |tail|
          ensures from + l.value.count <= tail[j].first
        {
          assert tail[j] in tail;
          if tail[j].first < from + l.value.count {
            LeafConst(m, root, from, tail[j].first);
            assert false;
          }
        }
      }
    }
  }

  /** The walk's callbacks: ascending, disjoint, each aligned to its size, and together exactly the pages
      that translate and whose leaf starts below the limit. */
  lemma {:induction false} LeavesPartition(m: Memory, root: nat, limit: nat)
    ensures var ls := LeavesFrom(m, root, 0, limit);
      && Ascending(ls)
      && (forall l | l in ls :: l.count in {1, LARGE, GIANT} && l.first % l.count == 0)
      && (forall n: nat ::
            (exists l | l in ls :: InLeaf(l, n))
            <==> Translate(m, root, n).Some? && LeafFirst(m, root, n) < limit)
  {
    var ls := LeavesFrom(m, root, 0, limit);
    LeavesAscending(m, root, 0, limit);
    LeavesSound(m, root, 0, limit);
    forall l | l in ls
      ensures l.count in {1, LARGE, GIANT} && l.first % l.count == 0
    {
      LeafShape(m, root, l.first);
    }
    forall n: nat
      ensures (exists l | l in ls :: InLeaf(l, n))
         <==> Translate(m, root, n).Some? && LeafFirst(m, root, n) < limit
    {
      LeafOf(m, root, limit, n);
    }
  }

  lemma LeafOf(m: Memory, root: nat, limit: nat, n: nat)
    ensures var ls := LeavesFrom(m, root, 0, limit);
      && (forall l | l in ls && InLeaf(l, n) :: LeafAt(m, root, n) == Some(l) && l.first < limit)
      && (LeafAt(m, root, n).Some? && LeafFirst(m, root, n) < limit ==>
            LeafAt(m, root, n).value in ls && InLeaf(LeafAt(m, root, n).value, n))
  {
    var ls := LeavesFrom(m, root, 0, limit);
    LeavesSound(m, root, 0, limit);
    forall l | l in ls && InLeaf(l, n)
      ensures LeafAt(m, root, n) == Some(l)
    {
      LeafConst(m, root, l.first, n);
    }
    if LeafAt(m, root, n).Some? && LeafFirst(m, root, n) < limit {
      LeafShape(m, root, n);
      var l := LeafAt(m, root, n).value;
      LeafConst(m, root, n, l.first);
      LeavesComplete(m, root, 0, limit, l.first);
    }
  }

  /** For a limit that is a multiple of 512 GB the covered pages are exactly the translating ones below it. */
  lemma {:induction false} CoverBelowLimit(m: Memory, root: nat, limit: nat, n: nat)
    requires limit % PML4_SPAN == 0
    ensures (exists l | l in LeavesFrom(m, root, 0, limit) :: InLeaf(l, n))
       <==> n < limit && Translate(m, root, n).Some?
  {
    hide LeafAt, LeavesFrom;
    LeavesPartition(m, root, limit);
    assert (exists l | l in LeavesFrom(m, root, 0, limit) :: InLeaf(l, n))
      <==> Translate(m, root, n).Some? && LeafFirst(m, root, n) < limit;
    if LeafAt(m, root, n).Some? {
      LeafShape(m, root, n);
      BelowMultiple(n, limit, PML4_SPAN);
      BelowMultiple(LeafFirst(m, root, n), limit, PML4_SPAN);
    }
  }

  lemma BelowMultiple(n: nat, limit: nat, d: nat)
    requires d > 0 && limit % d == 0
    ensures n < limit <==> n / d < limit / d
  {
    Block(n, n, d);
    var e := limit / d - n / d;
    assert limit == limit / d * d;
    assert e * d == limit - n / d * d;
    if e != 0 {
      NonzeroMultiple(e, d);
    }
  }

  lemma {:induction false} SameShapeSameLeaves(m: Memory, m': Memory, root: nat, from: nat, limit: nat)
    requires SameShape(m, m')
    ensures LeavesFrom(m', root, from, limit) == LeavesFrom(m, root, from, limit)
    decreases limit - from
  {
    if from < limit {
      SameShapeSameLeaf(m, m', root, from);
      SameShapeSameLeaves(m, m', root, from + 1, limit);
    }
  }
}
