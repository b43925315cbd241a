/** The two page callbacks of memscan.c as functions on the state they change, and what a whole
    enumeration leaves behind. */
module AccessedRanges {
  import opened Options
  import opened Paging
  import opened Leaves

  /** PRANGE: both bounds are byte addresses and inclusive. */
  datatype Range = Range(start: nat, end: nat)

  datatype Callback = StoreAccessedRanges | MarkPageAsNotAccessed

  /** What the callbacks change: the tables, and the global list with its counter (head first). */
  datatype Tracker = Tracker(mem: Memory, list: seq<Range>, size: int)

  function Store(t: Tracker, start: nat, end: nat, slot: nat): Tracker {
    if !At(t.mem, slot).a then t
    else if t.list != [] && t.list[0].end == (start - 1) % TWO64 then
      t.(list := [t.list[0].(end := end)] + t.list[1..])
    else
      t.(list := [Range(start, end)] + t.list, size := t.size + 1)
  }

  function Mark(t: Tracker, slot: nat): Tracker {
    t.(mem := t.mem[slot := At(t.mem, slot).(a := false)])
  }

  function Apply(cb: Callback, t: Tracker, l: Leaf): Tracker {
    match cb
    case StoreAccessedRanges => Store(t, l.first * 4096, LastByte(l), l.slot)
    case MarkPageAsNotAccessed => Mark(t, l.slot)
  }

  function LastByte(l: Leaf): nat {
    if l.count == 0 then 0 else (l.first + l.count) * 4096 - 1
  }

  function ApplyAll(cb: Callback, t: Tracker, ls: seq<Leaf>): Tracker
    decreases |ls|
  {
    if ls == [] then t else ApplyAll(cb, Apply(cb, t, ls[0]), ls[1..])
  }

  lemma {:induction false} ApplyAllSnoc(cb: Callback, t: Tracker, ls: seq<Leaf>, l: Leaf)
    ensures ApplyAll(cb, t, ls + [l]) == Apply(cb, ApplyAll(cb, t, ls), l)
    decreases |ls|
  {
    if ls == [] {
      assert ls + [l] == [l];
    } else {
      assert (ls + [l])[1..] == ls[1..] + [l];
      ApplyAllSnoc(cb, Apply(cb, t, ls[0]), ls[1..], l);
    }
  }

  /** No callback changes anything in the tables but accessed bits. */
  lemma ApplyKeepsShape(cb: Callback, t: Tracker, l: Leaf)
    ensures SameShape(t.mem, Apply(cb, t, l).mem)
  {
  }

  // ---- what the list means ----

  predicate Holds(r: Range, x: nat) {
    r.start <= x <= r.end
  }

  predicate InSome(rs: seq<Range>, x: nat) {
    exists r | r in rs :: Holds(r, x)
  }

  /** Non-empty ranges in descending order with at least one byte between neighbours. */
  predicate Separated(rs: seq<Range>) {
    && (forall i | 0 <= i < |rs| :: rs[i].start <= rs[i].end)
    && (forall i, j | 0 <= i < j < |rs| :: rs[j].end + 1 < rs[i].start)
  }

  predicate HoldsByte(l: Leaf, x: nat) {
    l.first * 4096 <= x < (l.first + l.count) * 4096
  }

  /** Byte x lies in a mapped leaf that starts below the limit and whose entry has A set. */
  predicate AccessedByte(m: Memory, root: nat, limit: nat, x: nat) {
    var l := LeafAt(m, root, x / 4096);
    l.Some? && l.value.first < limit && At(m, l.value.slot).a
  }

  /** The next leaf to be stored lies above everything in the list. */
  predicate Above(l: Leaf, rs: seq<Range>) {
    forall r | r in rs :: r.end < l.first * 4096
  }

  lemma StoreOne(t: Tracker, l: Leaf)
    requires Separated(t.list) && Above(l, t.list) && l.count > 0
    requires (l.first + l.count) * 4096 <= TWO64
    ensures var t' := Apply(StoreAccessedRanges, t, l);
      && t'.mem == t.mem && t'.size - |t'.list| == t.size - |t.list|
      && Separated(t'.list)
      && (forall r | r in t'.list :: r.end < (l.first + l.count) * 4096)
      && (forall x: nat :: InSome(t'.list, x) <==> InSome(t.list, x) || (At(t.mem, l.slot).a && HoldsByte(l, x)))
  {
    hide Separated, InSome;
    var start, end := l.first * 4096, LastByte(l);
    assert forall x: nat :: HoldsByte(l, x) <==> start <= x <= end;
    if t.list == [] {
      if At(t.mem, l.slot).a {
        Insert(t.list, start, end);
      }
    } else {
      assert t.list[0] in t.list && start > 0;
      if At(t.mem, l.slot).a {
        if t.list[0].end == start - 1 {
          Merge(t.list, start, end);
        } else {
          Insert(t.list, start, end);
        }
      }
    }
  }

  lemma Insert(rs: seq<Range>, start: nat, end: nat)
    requires Separated(rs) && start <= end
    requires rs != [] ==> rs[0].end + 1 < start
    ensures Separated([Range(start, end)] + rs)
    ensures forall x: nat :: InSome([Range(start, end)] + rs, x) <==> InSome(rs, x) || start <= x <= end
  {
    forall x: nat
      ensures InSome([Range(start, end)] + rs, x) <==> InSome(rs, x) || start <= x <= end
    {
      InSomeCons(Range(start, end), rs, x);
    }
  }

  lemma Merge(rs: seq<Range>, start: nat, end: nat)
    requires Separated(rs) && start <= end && rs != [] && rs[0].end + 1 == start
    ensures var rs' := [rs[0].(end := end)] + rs[1..];
      && Separated(rs')
      && forall x: nat :: InSome(rs', x) <==> InSome(rs, x) || start <= x <= end
  {
    var rs' := [rs[0].(end := end)] + rs[1..];
    assert rs == [rs[0]] + rs[1..];
    forall x: nat
      ensures InSome(rs', x) <==> InSome(rs, x) || start <= x <= end
    {
      InSomeCons(rs[0], rs[1..], x);
      InSomeCons(rs[0].(end := end), rs[1..], x);
    }
  }

  lemma InSomeCons(r: Range, rs: seq<Range>, x: nat)
    ensures InSome([r] + rs, x) <==> Holds(r, x) || InSome(rs, x)
  {
    if Holds(r, x) {
      assert r in [r] + rs;
    }
    if InSome(rs, x) {
      var q :| q in rs && Holds(q, x);
      assert q in [r] + rs;
    }
  }

  lemma {:induction false} StoreRuns(t: Tracker, ls: seq<Leaf>)
    requires Separated(t.list) && Ascending(ls)
    requires forall l | l in ls :: l.count > 0 && (l.first + l.count) * 4096 <= TWO64
    requires forall l | l in ls :: Above(l, t.list)
    ensures var t' := ApplyAll(StoreAccessedRanges, t, ls);
      && t'.mem == t.mem && t'.size - |t'.list| == t.size - |t.list|
      && Separated(t'.list)
      && (forall x: nat :: InSome(t'.list, x) <==>
            InSome(t.list, x) || exists l | l in ls :: At(t.mem, l.slot).a && HoldsByte(l, x))
    decreases |ls|
  {
    if ls != [] {
      var l, rest := ls[0], ls[1..];
      var t1 := Apply(StoreAccessedRanges, t, l);
      StoreOne(t, l);
      forall k | k in rest
        ensures Above(k, t1.list)
      {
        var j :| 0 <= j < |rest| && rest[j] == k;
        assert ls[j + 1] == k;
      }
      StoreRuns(t1, rest);
      assert forall k :: k in ls <==> k == l || k in rest;
    }
  }

  /** After an enumeration the list is made of exactly the maximal runs of accessed memory. */
  lemma {:induction false} AccessedRuns(m: Memory, root: nat, limit: nat)
    requires limit <= PAGES
    ensures var t := ApplyAll(StoreAccessedRanges, Tracker(m, [], 0), LeavesFrom(m, root, 0, limit));
      && t.mem == m && t.size == |t.list|
      && Separated(t.list)
      && (forall x: nat :: InSome(t.list, x) <==> AccessedByte(m, root, limit, x))
  {
    var ls := LeavesFrom(m, root, 0, limit);
    LeavesPartition(m, root, limit);
    LeavesSound(m, root, 0, limit);
    forall l | l in ls
      ensures l.count > 0 && (l.first + l.count) * 4096 <= TWO64
    {
      LeafShape(m, root, l.first);
    }
    StoreRuns(Tracker(m, [], 0), ls);
    forall x: nat
      ensures (exists l | l in ls :: At(m, l.slot).a && HoldsByte(l, x)) <==> AccessedByte(m, root, limit, x)
    {
      assert forall l | l in ls :: HoldsByte(l, x) <==> InLeaf(l, x / 4096);
      LeafOf(m, root, limit, x / 4096);
    }
  }

  /** The list is determined by the bytes it covers. */
  lemma {:induction false} RunsUnique(a: seq<Range>, b: seq<Range>)
    requires Separated(a) && Separated(b)
    requires forall x: nat :: InSome(a, x) <==> InSome(b, x)
    ensures a == b
    decreases |a|
  {
    if a == [] || b == [] {
      if a != [] {
        assert Holds(a[0], a[0].start);
        assert InSome(a, a[0].start);
        assert false;
      }
      if b != [] {
        assert Holds(b[0], b[0].start);
        assert InSome(b, b[0].start);
        assert false;
      }
    } else {
      TopRun(a, b);
      TopRun(b, a);
      assert a == [a[0]] + a[1..] && b == [b[0]] + b[1..];
      forall x: nat
        ensures InSome(a[1..], x) <==> InSome(b[1..], x)
      {
        InSomeCons(a[0], a[1..], x);
        InSomeCons(b[0], b[1..], x);
        BelowHead(a, x);
        BelowHead(b, x);
      }
      RunsUnique(a[1..], b[1..]);
    }
  }

  lemma BelowHead(a: seq<Range>, x: nat)
    requires a != [] && Separated(a)
    ensures InSome(a, x) ==> x <= a[0].end
    ensures InSome(a[1..], x) ==> x + 1 < a[0].start
  {
  }

  lemma TopRun(a: seq<Range>, b: seq<Range>)
    requires Separated(a) && Separated(b) && a != [] && b != []
    requires forall x: nat :: InSome(a, x) <==> InSome(b, x)
    ensures b[0].end <= a[0].end
    ensures b[0].end == a[0].end ==> a[0].start <= b[0].start
  {
    assert Holds(b[0], b[0].end);
    assert InSome(b, b[0].end);
    BelowHead(a, b[0].end);
    if a[0].start > 0 {
      var x := a[0].start - 1;
      assert a == [a[0]] + a[1..];
      InSomeCons(a[0], a[1..], x);
      BelowHead(a, x);
      assert !InSome(b, x);
      assert !Holds(b[0], x);
    }
  }

  // ---- clearing ----

  predicate IsLeafSlot(m: Memory, root: nat, limit: nat, slot: nat) {
    exists l | l in LeavesFrom(m, root, 0, limit) :: l.slot == slot
  }

  function Cleared(m: Memory, root: nat, limit: nat, slot: nat): Entry {
    if IsLeafSlot(m, root, limit, slot) then At(m, slot).(a := false) else At(m, slot)
  }

  lemma {:induction false} MarkAll(t: Tracker, ls: seq<Leaf>)
    ensures var t' := ApplyAll(MarkPageAsNotAccessed, t, ls);
      && t'.list == t.list && t'.size == t.size
      && (forall slot: nat :: At(t'.mem, slot) ==
            if exists l | l in ls :: l.slot == slot then At(t.mem, slot).(a := false) else At(t.mem, slot))
    decreases |ls|
  {
    if ls != [] {
      MarkAll(Apply(MarkPageAsNotAccessed, t, ls[0]), ls[1..]);
      assert forall k :: k in ls <==> k == ls[0] || k in ls[1..];
    }
  }

  lemma {:induction false} MarkedMemory(m: Memory, m': Memory, root: nat, limit: nat, t: Tracker)
    requires t.mem == m
    requires m' == ApplyAll(MarkPageAsNotAccessed, t, LeavesFrom(m, root, 0, limit)).mem
    requires SameShape(m, m')
    ensures var t' := ApplyAll(MarkPageAsNotAccessed, t, LeavesFrom(m, root, 0, limit));
      t'.list == t.list && t'.size == t.size
    ensures forall slot: nat :: At(m', slot) == Cleared(m, root, limit, slot)
    ensures forall x: nat :: !AccessedByte(m', root, limit, x)
  {
    var ls := LeavesFrom(m, root, 0, limit);
    MarkAll(t, ls);
    forall x: nat
      ensures !AccessedByte(m', root, limit, x)
    {
      SameShapeSameLeaf(m, m', root, x / 4096);
      LeafOf(m, root, limit, x / 4096);
    }
  }
}
