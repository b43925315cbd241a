/** The temporary paging set-up of DBKKernel/vmxoffload.c: four tables through which every address reaches the
    one page that holds the entry code. */
module TemporaryTables {
  import opened Options
  import opened Paging

  /** A present, read-only entry. */
  function Points(frame: nat): Entry {
    Entry(true, false, false, false, frame, 0)
  }

  /** Four different pages. */
  predicate Four(tables: seq<nat>) {
    |tables| == 4 && forall i, j | 0 <= i < j < 4 :: tables[i] != tables[j]
  }

  /** What entry i of table j points to: the next table, from the last one the entry page. */
  function Next(tables: seq<nat>, enter: nat, j: nat): nat
    requires |tables| == 4 && j < 4
  {
    if j < 3 then tables[j + 1] else enter
  }

  /** The slot of entry i of table j. */
  function EntrySlot(tables: seq<nat>, j: nat, i: nat): nat
    requires j < |tables|
  {
    tables[j] * 512 + i
  }

  ghost predicate BuiltTo(m: Memory, tables: seq<nat>, enter: nat, n: nat)
    requires |tables| == 4
  {
    forall j, i | 0 <= j < 4 && 0 <= i < n :: At(m, EntrySlot(tables, j, i)) == Points(Next(tables, enter, j))
  }

  /** One turn of the loop, which writes entry n of each table. */
  lemma OneTurn(m: Memory, m': Memory, tables: seq<nat>, enter: nat, n: nat)
    requires Four(tables) && n < 512 && BuiltTo(m, tables, enter, n)
    requires m' == m[tables[0] * 512 + n := Points(tables[1])][tables[1] * 512 + n := Points(tables[2])]
                    [tables[2] * 512 + n := Points(tables[3])][tables[3] * 512 + n := Points(enter)]
    ensures BuiltTo(m', tables, enter, n + 1)
  {
    forall j, i | 0 <= j < 4 && 0 <= i < n + 1
      ensures At(m', EntrySlot(tables, j, i)) == Points(Next(tables, enter, j))
    {
      hide Points;
      assert i < n ==> At(m, EntrySlot(tables, j, i)) == Points(Next(tables, enter, j));
    }
  }

  class TemporaryPagingSetup {
    var memory: Memory

    method Build(tables: seq<nat>, enterVMM2: nat)
      requires Four(tables)
      modifies this
      ensures BuiltTo(memory, tables, enterVMM2, 512)
      ensures forall slot: nat | slot / 512 !in tables :: At(memory, slot) == At(old(memory), slot)
    {
      hide BuiltTo, Points;
      NothingYet(memory, tables, enterVMM2);
      for i := 0 to 512
        invariant BuiltTo(memory, tables, enterVMM2, i)
        invariant forall slot: nat | slot / 512 !in tables :: At(memory, slot) == At(old(memory), slot)
      {
        ghost var before := memory;
        memory := memory[tables[0] * 512 + i := Points(tables[1])];
        memory := memory[tables[1] * 512 + i := Points(tables[2])];
        memory := memory[tables[2] * 512 + i := Points(tables[3])];
        memory := memory[tables[3] * 512 + i := Points(enterVMM2)];
        OneTurn(before, memory, tables, enterVMM2, i);
      }
    }
  }

  lemma NothingYet(m: Memory, tables: seq<nat>, enter: nat)
    requires |tables| == 4
    ensures BuiltTo(m, tables, enter, 0)
  {
  }

  /** Every page maps to the entry page, so an address keeps its offset, and no level lets it be written. */
  lemma {:induction false} EveryPageEnters(m: Memory, tables: seq<nat>, enter: nat, n: nat)
    requires Four(tables) && BuiltTo(m, tables, enter, 512) && n < PAGES
    ensures Translate(m, tables[0], n) == Some(enter)
    ensures !E4(m, tables[0], n).rw && !E3(m, tables[0], n).rw && !E2(m, tables[0], n).rw && !E1(m, tables[0], n).rw
    ensures !E4(m, tables[0], n).a && !E3(m, tables[0], n).a && !E2(m, tables[0], n).a && !E1(m, tables[0], n).a
    ensures E4(m, tables[0], n).other == E3(m, tables[0], n).other == E2(m, tables[0], n).other == 0
    ensures E1(m, tables[0], n).other == 0 && !E1(m, tables[0], n).ps
  {
    assert At(m, EntrySlot(tables, 0, n / PML4_SPAN)) == Points(Next(tables, enter, 0));
    assert At(m, EntrySlot(tables, 1, n / GIANT % 512)) == Points(Next(tables, enter, 1));
    assert At(m, EntrySlot(tables, 2, n / LARGE % 512)) == Points(Next(tables, enter, 2));
    assert At(m, EntrySlot(tables, 3, n % 512)) == Points(Next(tables, enter, 3));
  }
}
