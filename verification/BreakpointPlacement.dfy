/** The epilogue of the debug interrupt (DBKKernel/debugger.c): the guest's own debug registers stay, and the
    debugger's breakpoints go into the registers the guest has not enabled. Bit numbers are those of DR7 in
    section 17.2.4 of the Intel SDM, Volume 3B. */
module BreakpointPlacement {

  /** A 64-bit register as its bits, bit 0 first. */
  type Word = w: seq<bool> | |w| == 64 witness seq(64, i => false)

  /** One slot of DebuggerState.breakpoint; kind and length go into two-bit fields. */
  datatype Breakpoint = Breakpoint(active: bool, address: Word, kind: nat, length: nat)

  /** DR0-DR3 and DR7. */
  datatype Registers = Registers(dr: seq<Word>, dr7: Word) {
    predicate Valid() { |dr| == 4 }
  }

  const GD := 13

  // ---- the fields of DR7 ----

  /** The local and global enable bits of register i are both clear. */
  predicate IsFree(dr7: Word, i: nat)
    requires i < 4
  {
    !dr7[2 * i] && !dr7[2 * i + 1]
  }

  /** The number in bits `low` and `low` + 1. */
  function TwoBits(w: Word, low: nat): nat
    requires low < 63
  {
    (if w[low] then 1 else 0) + (if w[low + 1] then 2 else 0)
  }

  predicate LowBit(n: nat) { n % 2 == 1 }

  predicate HighBit(n: nat) { n / 2 % 2 == 1 }

  /** The bit-field assignments of one case: L, LEN and RW. */
  function SetControl(dr7: Word, i: nat, kind: nat, length: nat): Word
    requires i < 4
  {
    dr7[2 * i := true]
       [18 + 4 * i := LowBit(length)][19 + 4 * i := HighBit(length)]
       [16 + 4 * i := LowBit(kind)][17 + 4 * i := HighBit(kind)]
  }

  /** The bits of DR7 that belong to register i. */
  predicate BitOf(i: nat, b: nat) {
    b == 2 * i || b == 2 * i + 1 || 16 + 4 * i <= b < 20 + 4 * i
  }

  // ---- which breakpoint goes where ----

  /** The registers from `from` on with neither enable bit set, in order. */
  function Free(dr7: Word, from: nat): (rs: seq<nat>)
    requires from <= 4
    ensures forall k | 0 <= k < |rs| :: from <= rs[k] < 4 && IsFree(dr7, rs[k])
    ensures forall k, m | 0 <= k < m < |rs| :: rs[k] < rs[m]
    ensures forall j | from <= j < 4 && IsFree(dr7, j) :: j in rs
    decreases 4 - from
  {
    if from == 4 then [] else if IsFree(dr7, from) then [from] + Free(dr7, from + 1) else Free(dr7, from + 1)
  }

  /** The numbers of the active slots from `from` on, in order. */
  function ActiveAt(slots: seq<Breakpoint>, from: nat): (ks: seq<nat>)
    requires from <= |slots|
    ensures forall k | 0 <= k < |ks| :: ks[k] < |slots|
    decreases |slots| - from
  {
    if from == |slots| then []
    else if slots[from].active then [from] + ActiveAt(slots, from + 1)
    else ActiveAt(slots, from + 1)
  }

  /** Those slots. */
  function Active(slots: seq<Breakpoint>, from: nat): seq<Breakpoint>
    requires from <= |slots|
    decreases |slots| - from
  {
    if from == |slots| then []
    else if slots[from].active then [slots[from]] + Active(slots, from + 1)
    else Active(slots, from + 1)
  }

  function Place(r: Registers, i: nat, b: Breakpoint): (p: Registers)
    requires r.Valid() && i < 4
    ensures p.Valid()
  {
    Registers(r.dr[i := b.address], SetControl(r.dr7, i, b.kind, b.length))
  }

  function PlaceAll(r: Registers, free: seq<nat>, active: seq<Breakpoint>): (p: Registers)
    requires r.Valid() && forall k | 0 <= k < |free| :: free[k] < 4
    ensures p.Valid()
    decreases |free|
  {
    if free == [] || active == [] then r else PlaceAll(Place(r, free[0], active[0]), free[1..], active[1..])
  }

  /** Register i watches for breakpoint b: locally enabled, its address, type and length. */
  predicate Watches(r: Registers, i: nat, b: Breakpoint)
    requires r.Valid() && i < 4
  {
    && r.dr[i] == b.address && r.dr7[2 * i] && !r.dr7[2 * i + 1]
    && TwoBits(r.dr7, 16 + 4 * i) == b.kind % 4 && TwoBits(r.dr7, 18 + 4 * i) == b.length % 4
  }

  function Min(a: nat, b: nat): nat { if a < b then a else b }

  /** The k-th active breakpoint is in the k-th register the guest left free, as long as there are both; every
      other register and every other bit of DR7, save GD, is the guest's. */
  ghost predicate Placed(guest: Registers, slots: seq<Breakpoint>, actual: Registers) {
    && guest.Valid() && actual.Valid()
    && var free, active := Free(guest.dr7, 0), ActiveAt(slots, 0);
    var n := Min(|free|, |active|);
    && (forall k | 0 <= k < n :: Watches(actual, free[k], slots[active[k]]))
    && (forall j | 0 <= j < 4 && j !in free[..n] :: actual.dr[j] == guest.dr[j])
    && (forall b | 0 <= b < 64 && b != GD && NotPlaced(free[..n], b) :: actual.dr7[b] == guest.dr7[b])
  }

  ghost predicate NotPlaced(placed: seq<nat>, b: nat) {
    forall i | i in placed :: !BitOf(i, b)
  }

  predicate Ascending(free: seq<nat>, dr7: Word) {
    && (forall k | 0 <= k < |free| :: free[k] < 4 && IsFree(dr7, free[k]))
    && (forall k, m | 0 <= k < m < |free| :: free[k] < free[m])
  }

  lemma PlaceOne(r: Registers, i: nat, b: Breakpoint, free: seq<nat>)
    requires r.Valid() && Ascending(free, r.dr7) && free != [] && free[0] == i
    ensures var p := Place(r, i, b);
      && Watches(p, i, b) && Ascending(free[1..], p.dr7)
      && (forall j | 0 <= j < 4 && j != i :: p.dr[j] == r.dr[j])
  {
    hide LowBit, HighBit, TwoBits;
    Stored(b.kind);
    Stored(b.length);
    Fields(r.dr7, i, b.kind, b.length);
  }

  lemma Stored(n: nat)
    ensures (if LowBit(n) then 1 else 0) + (if HighBit(n) then 2 else 0) == n % 4
  {
    assert n == 4 * (n / 4) + n % 4;
    assert n / 2 == 2 * (n / 4) + n % 4 / 2;
  }

  lemma Fields(dr7: Word, i: nat, kind: nat, length: nat)
    requires i < 4
    ensures var w := SetControl(dr7, i, kind, length);
      && TwoBits(w, 16 + 4 * i) == (if LowBit(kind) then 1 else 0) + (if HighBit(kind) then 2 else 0)
      && TwoBits(w, 18 + 4 * i) == (if LowBit(length) then 1 else 0) + (if HighBit(length) then 2 else 0)
  {
    hide LowBit, HighBit;
  }

  lemma PlaceOneBits(r: Registers, i: nat, b: Breakpoint, bit: nat)
    requires r.Valid() && i < 4 && bit < 64 && !BitOf(i, bit)
    ensures Place(r, i, b).dr7[bit] == r.dr7[bit]
  {
    hide LowBit, HighBit;
  }

  lemma StillWatches(p: Registers, q: Registers, i: nat, b: Breakpoint)
    requires p.Valid() && q.Valid() && i < 4 && Watches(p, i, b) && q.dr[i] == p.dr[i]
    requires forall bit: nat | bit < 64 && BitOf(i, bit) :: q.dr7[bit] == p.dr7[bit]
    ensures Watches(q, i, b)
  {
    hide LowBit, HighBit;
    assert BitOf(i, 2 * i) && BitOf(i, 2 * i + 1) && BitOf(i, 16 + 4 * i) && BitOf(i, 17 + 4 * i);
    assert BitOf(i, 18 + 4 * i) && BitOf(i, 19 + 4 * i);
  }

  lemma BitOfOne(i: nat, j: nat, b: nat)
    requires i < 4 && j < 4 && BitOf(i, b) && BitOf(j, b)
    ensures i == j
  {
  }

  lemma {:induction false} PlaceAllWatches(r: Registers, free: seq<nat>, active: seq<Breakpoint>, k: nat)
    requires r.Valid() && Ascending(free, r.dr7) && k < |free| && k < |active|
    ensures Watches(PlaceAll(r, free, active), free[k], active[k])
    decreases |free|
  {
    hide Place, Watches, IsFree, BitOf;
    var i, p := free[0], Place(r, free[0], active[0]);
    PlaceOne(r, i, active[0], free);
    if k == 0 {
      var q := PlaceAll(p, free[1..], active[1..]);
      PlaceAllOthers(p, free[1..], active[1..], i);
      forall bit: nat | bit < 64 && BitOf(i, bit)
        ensures q.dr7[bit] == p.dr7[bit]
      {
        forall j | j in free[1..]
          ensures !BitOf(j, bit)
        {
          if BitOf(j, bit) {
            BitOfOne(i, j, bit);
          }
        }
        PlaceAllBits(p, free[1..], active[1..], bit);
      }
      StillWatches(p, q, i, active[0]);
    } else {
      PlaceAllWatches(p, free[1..], active[1..], k - 1);
    }
  }

  lemma {:induction false} PlaceAllOthers(r: Registers, free: seq<nat>, active: seq<Breakpoint>, j: nat)
    requires r.Valid() && Ascending(free, r.dr7) && j < 4 && j !in free[..Min(|free|, |active|)]
    ensures PlaceAll(r, free, active).dr[j] == r.dr[j]
    decreases |free|
  {
    hide Place, IsFree;
    if free != [] && active != [] {
      PlaceOne(r, free[0], active[0], free);
      var n := Min(|free|, |active|);
      assert free[..n][0] == free[0];
      assert free[1..][..n - 1] == free[..n][1..];
      PlaceAllOthers(Place(r, free[0], active[0]), free[1..], active[1..], j);
    }
  }

  lemma {:induction false} PlaceAllBits(r: Registers, free: seq<nat>, active: seq<Breakpoint>, b: nat)
    requires r.Valid() && Ascending(free, r.dr7) && b < 64 && NotPlaced(free[..Min(|free|, |active|)], b)
    ensures PlaceAll(r, free, active).dr7[b] == r.dr7[b]
    decreases |free|
  {
    hide Place, IsFree, BitOf;
    if free != [] && active != [] {
      PlaceOne(r, free[0], active[0], free);
      var n := Min(|free|, |active|);
      assert free[..n][0] == free[0];
      assert free[1..][..n - 1] == free[..n][1..];
      PlaceOneBits(r, free[0], active[0], b);
      PlaceAllBits(Place(r, free[0], active[0]), free[1..], active[1..], b);
    }
  }

  lemma {:induction false} ActiveMember(slots: seq<Breakpoint>, from: nat, i: nat)
    requires from <= |slots|
    ensures i in ActiveAt(slots, from) <==> from <= i < |slots| && slots[i].active
    decreases |slots| - from
  {
    if from < |slots| {
      ActiveMember(slots, from + 1, i);
    }
  }

  /** They are the active ones, all of them, in ascending order. */
  lemma {:induction false} ActiveSlots(slots: seq<Breakpoint>, from: nat)
    requires from <= |slots|
    ensures forall i: nat :: i in ActiveAt(slots, from) <==> from <= i < |slots| && slots[i].active
    ensures forall k, m | 0 <= k < m < |ActiveAt(slots, from)| :: ActiveAt(slots, from)[k] < ActiveAt(slots, from)[m]
    decreases |slots| - from
  {
    forall i: nat
      ensures i in ActiveAt(slots, from) <==> from <= i < |slots| && slots[i].active
    {
      ActiveMember(slots, from, i);
    }
    if from < |slots| {
      ActiveSlots(slots, from + 1);
      var rest := ActiveAt(slots, from + 1);
      forall m | 0 <= m < |rest|
        ensures from < rest[m]
      {
        assert rest[m] in rest;
      }
    }
  }

  lemma {:induction false} ActiveExact(slots: seq<Breakpoint>, from: nat)
    requires from <= |slots|
    ensures |Active(slots, from)| == |ActiveAt(slots, from)|
    ensures forall k | 0 <= k < |Active(slots, from)| :: Active(slots, from)[k] == slots[ActiveAt(slots, from)[k]]
    decreases |slots| - from
  {
    if from < |slots| {
      ActiveExact(slots, from + 1);
    }
  }

  lemma {:induction false} PlacementCorrect(guest: Registers, slots: seq<Breakpoint>, gd: bool)
    requires guest.Valid()
    ensures var p := PlaceAll(guest, Free(guest.dr7, 0), Active(slots, 0));
      Placed(guest, slots, p.(dr7 := p.dr7[GD := gd]))
  {
    hide Watches, PlaceAll, IsFree, BitOf, NotPlaced, Free, Active, ActiveAt;
    ActiveExact(slots, 0);
    var free, active := Free(guest.dr7, 0), Active(slots, 0);
    var n := Min(|free|, |active|);
    forall k | 0 <= k < n
      ensures Watches(WithGd(PlaceAll(guest, free, active), gd), free[k], slots[ActiveAt(slots, 0)[k]])
    {
      WatchedWithGd(guest, free, active, gd, k);
    }
    RestWithGd(guest, free, active, gd);
  }

  function WithGd(p: Registers, gd: bool): Registers {
    p.(dr7 := p.dr7[GD := gd])
  }

  lemma WatchedWithGd(guest: Registers, free: seq<nat>, active: seq<Breakpoint>, gd: bool, k: nat)
    requires guest.Valid() && Ascending(free, guest.dr7) && k < |free| && k < |active|
    ensures Watches(WithGd(PlaceAll(guest, free, active), gd), free[k], active[k])
  {
    hide Watches, PlaceAll, IsFree, BitOf;
    var p := PlaceAll(guest, free, active);
    PlaceAllWatches(guest, free, active, k);
    GdIsNoField(free[k]);
    StillWatches(p, WithGd(p, gd), free[k], active[k]);
  }

  lemma RestWithGd(guest: Registers, free: seq<nat>, active: seq<Breakpoint>, gd: bool)
    requires guest.Valid() && Ascending(free, guest.dr7)
    ensures var actual, n := WithGd(PlaceAll(guest, free, active), gd), Min(|free|, |active|);
      && (forall j | 0 <= j < 4 && j !in free[..n] :: actual.dr[j] == guest.dr[j])
      && (forall b | 0 <= b < 64 && b != GD && NotPlaced(free[..n], b) :: actual.dr7[b] == guest.dr7[b])
  {
    hide PlaceAll, IsFree, NotPlaced;
    var n := Min(|free|, |active|);
    forall j | 0 <= j < 4 && j !in free[..n]
      ensures PlaceAll(guest, free, active).dr[j] == guest.dr[j]
    {
      PlaceAllOthers(guest, free, active, j);
    }
    forall b | 0 <= b < 64 && b != GD && NotPlaced(free[..n], b)
      ensures PlaceAll(guest, free, active).dr7[b] == guest.dr7[b]
    {
      PlaceAllBits(guest, free, active, b);
    }
  }

  /** What the guest enabled for itself is left to it: address, enable bits, type and length. */
  lemma {:induction false} GuestKept(guest: Registers, slots: seq<Breakpoint>, actual: Registers, j: nat)
    requires Placed(guest, slots, actual) && j < 4 && (guest.dr7[2 * j] || guest.dr7[2 * j + 1])
    ensures actual.dr[j] == guest.dr[j]
    ensures forall b: nat | b < 64 && BitOf(j, b) :: actual.dr7[b] == guest.dr7[b]
  {
    hide Placed;
    TakenKept(guest, slots, actual, j);
  }

  lemma TakenKept(guest: Registers, slots: seq<Breakpoint>, actual: Registers, j: nat)
    requires Placed(guest, slots, actual) && j < 4 && !IsFree(guest.dr7, j)
    ensures actual.dr[j] == guest.dr[j]
    ensures forall b: nat | b < 64 && BitOf(j, b) :: actual.dr7[b] == guest.dr7[b]
  {
    hide IsFree, BitOf, Watches, ActiveAt;
    var free, active := Free(guest.dr7, 0), ActiveAt(slots, 0);
    forall b: nat | b < 64 && BitOf(j, b)
      ensures actual.dr7[b] == guest.dr7[b]
    {
      GdIsNoField(j);
      forall i | i in free[..Min(|free|, |active|)]
        ensures !BitOf(i, b)
      {
        if BitOf(i, b) {
          BitOfOne(i, j, b);
        }
      }
      assert NotPlaced(free[..Min(|free|, |active|)], b);
    }
  }

  lemma GdIsNoField(i: nat)
    requires i < 4
    ensures !BitOf(i, GD)
  {
  }

  /** The breakpoint loop of interrupt1_centry. */
  method PlaceBreakpoints(guest: Registers, slots: seq<Breakpoint>) returns (actual: Registers)
    requires guest.Valid() && |slots| == 4
    ensures actual == PlaceAll(guest, Free(guest.dr7, 0), Active(slots, 0))
  {
    hide Place, IsFree;
    actual := guest;
    var debugRegister := 0;
    ghost var goal := PlaceAll(guest, Free(guest.dr7, 0), Active(slots, 0));
    for breakpoint := 0 to 4
      invariant debugRegister <= 4 && actual.Valid()
      invariant PlaceAll(actual, Free(guest.dr7, debugRegister), Active(slots, breakpoint)) == goal
    {
      if slots[breakpoint].active {
        var foundOne := false;
        while debugRegister < 4 && !foundOne
          invariant debugRegister <= 4 && actual.Valid()
          invariant PlaceAll(actual, Free(guest.dr7, debugRegister),
                             Active(slots, if foundOne then breakpoint + 1 else breakpoint)) == goal
        {
          if IsFree(guest.dr7, debugRegister) {
            foundOne := true;
            actual := Place(actual, debugRegister, slots[breakpoint]);
          }
          debugRegister := debugRegister + 1;
        }
      }
    }
  }
}
