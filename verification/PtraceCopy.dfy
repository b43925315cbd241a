/** Copying memory of another process word by word with PTRACE_PEEKDATA and PTRACE_POKEDATA: the ptrace paths of
    ReadProcessMemory, WriteProcessMemory and WriteProcessMemoryDebug in Cheat Engine/ceserver/api.c. */
module PtraceCopy {
  import opened Arithmetic
  import opened Options

  type Byte = nat

  /** The mapped bytes of the target. */
  type Memory = map<nat, Byte>

  /** sizeof(long int). */
  const WORD: nat := 8

  predicate WordMapped(m: Memory, a: nat) {
    forall i | a <= i < a + WORD :: i in m
  }

  function Peek(m: Memory, a: nat): (r: Option<seq<Byte>>)
    ensures r.Some? <==> WordMapped(m, a)
    ensures r.Some? ==> |r.value| == WORD && HoldsBytes(m, a, r.value)
  {
    if WordMapped(m, a) then Some(seq(WORD, i requires 0 <= i < WORD && a + i in m => m[a + i])) else None
  }

  /** A word is stored as a whole or not at all. */
  function Poke(m: Memory, a: nat, word: seq<Byte>): (r: Memory)
    requires |word| == WORD
    ensures r.Keys == m.Keys
    ensures forall x | x in m ::
      r[x] == if WordMapped(m, a) && a <= x < a + WORD then word[x - a] else m[x]
  {
    if WordMapped(m, a) then map x | x in m :: if a <= x < a + WORD then word[x - a] else m[x] else m
  }

  // ---- what the copies do, byte by byte ----

  /** The word of a copy to `a` that holds its byte i is mapped. */
  predicate ByteReached(m: Memory, a: nat, i: nat) {
    WordMapped(m, a + i / WORD * WORD)
  }

  predicate AllReached(m: Memory, a: nat, size: nat) {
    forall i | 0 <= i < size :: ByteReached(m, a, i)
  }

  /** The requested bytes in mapped words are replaced, all other bytes stay. */
  ghost predicate Written(m: Memory, m': Memory, a: nat, data: seq<Byte>) {
    m'.Keys == m.Keys && forall x | x in m :: NewByte(m, m', a, data, x)
  }

  predicate NewByte(m: Memory, m': Memory, a: nat, data: seq<Byte>, x: nat)
    requires x in m && x in m'
  {
    m'[x] == if a <= x < a + |data| && ByteReached(m, a, x - a) then data[x - a] else m[x]
  }

  /** How many of the first n bytes of a copy to `a` are in mapped words. */
  function Reached(m: Memory, a: nat, n: nat): (k: nat)
    ensures k <= n
  {
    if n == 0 then 0 else Reached(m, a, n - 1) + if ByteReached(m, a, n - 1) then 1 else 0
  }

  /** What WriteProcessMemory returns: everything, unless the last word is not mapped. */
  function WrittenCount(m: Memory, a: nat, size: nat): nat {
    if size == 0 || ByteReached(m, a, size - 1) then size else LoopBytes(size)
  }

  /** Bytes that the loop of full words covers; the last one to eight are left to the tail. */
  function LoopBytes(size: nat): nat {
    if size == 0 then 0 else (size - 1) / WORD * WORD
  }

  /** The longest prefix of whole words, or all of it, that can be read. */
  ghost predicate ReadUpTo(m: Memory, a: nat, size: nat, n: nat) {
    && n <= size && AllReached(m, a, n)
    && (n < size ==> n % WORD == 0 && !ByteReached(m, a, n))
  }

  predicate ByteAt(m: Memory, x: nat, b: Byte) {
    x in m && m[x] == b
  }

  /** These are the bytes at address a. */
  predicate HoldsBytes(m: Memory, a: nat, bytes: seq<Byte>) {
    forall i | 0 <= i < |bytes| :: ByteAt(m, a + i, bytes[i])
  }

  // ---- lemmas ----

  lemma HoldsMore(m: Memory, a: nat, front: seq<Byte>, more: seq<Byte>)
    requires HoldsBytes(m, a, front) && HoldsBytes(m, a + |front|, more)
    ensures HoldsBytes(m, a, front + more)
  {
    forall i | 0 <= i < |front + more|
      ensures ByteAt(m, a + i, (front + more)[i])
    {
      if i < |front| {
        assert ByteAt(m, a + i, front[i]);
      } else {
        assert ByteAt(m, a + |front| + (i - |front|), more[i - |front|]);
      }
    }
  }

  lemma SameReach(m: Memory, m': Memory, a: nat)
    requires m'.Keys == m.Keys
    ensures WordMapped(m', a) <==> WordMapped(m, a)
  {
  }

  lemma PeekFacts(m: Memory, a: nat)
    ensures Peek(m, a).Some? <==> WordMapped(m, a)
    ensures Peek(m, a).Some? ==> |Peek(m, a).value| == WORD
    ensures Peek(m, a).Some? ==> forall i | 0 <= i < WORD :: a + i in m && Peek(m, a).value[i] == m[a + i]
  {
  }

  lemma WordOf(offset: nat, i: nat)
    requires offset % WORD == 0 && offset <= i < offset + WORD
    ensures i / WORD * WORD == offset
  {
    DivModUnique(WORD, offset / WORD, i - offset);
  }

  lemma LoopEnds(size: nat, offset: nat)
    requires offset % WORD == 0 && offset < size && offset + WORD >= size
    ensures LoopBytes(size) == offset
  {
    WordOf(offset, size - 1);
  }

  class Target {
    var memory: Memory

    method PtracePoke(a: nat, word: seq<Byte>) returns (ok: bool)
      requires |word| == WORD
      modifies this
      ensures memory == Poke(old(memory), a, word) && ok == WordMapped(old(memory), a)
    {
      ok := Peek(memory, a).Some?;
      memory := Poke(memory, a, word);
    }

    /** The ptrace path of WriteProcessMemory. A failed poke of the loop is counted as written. */
    method WriteProcessMemory(lpAddress: nat, buffer: seq<Byte>) returns (written: nat)
      modifies this
      ensures Written(old(memory), memory, lpAddress, buffer)
      ensures written == WrittenCount(old(memory), lpAddress, |buffer|)
      ensures |buffer| > 0 && !WordMapped(old(memory), lpAddress + (|buffer| - 1) / 8 * 8) ==>
        written == (|buffer| - 1) / 8 * 8
      ensures |buffer| == 0 || WordMapped(old(memory), lpAddress + (|buffer| - 1) / 8 * 8) ==> written == |buffer|
    {
      hide NewByte, WordMapped, Peek, Poke;
      var size := |buffer|;
      var offset := 0;
      var max := size - WORD;
      written := 0;
      ghost var m := memory;
      NothingWritten(m, lpAddress, buffer);
      while offset < max
        invariant 0 <= offset <= size && offset % WORD == 0 && written == offset
        invariant size > 0 ==> offset < size
        invariant Written(m, memory, lpAddress, buffer[..offset])
        decreases max - offset
      {
        ghost var before := memory;
        var ok := PtracePoke(lpAddress + offset, buffer[offset..offset + WORD]);
        OneWord(m, before, memory, lpAddress, buffer, offset, WORD, buffer[offset..offset + WORD]);
        offset := offset + WORD;
        written := written + WORD;
      }
      if offset < size {
        LoopEnds(size, offset);
        WordOf(offset, size - 1);
        var ok := WriteTail(m, lpAddress, buffer, offset);
        if ok {
          written := written + (size - offset);
        }
      }
      assert buffer[..size] == buffer;
    }

    /** The last word: the bytes behind the request are those that were there. */
    method WriteTail(ghost m: Memory, lpAddress: nat, buffer: seq<Byte>, offset: nat) returns (ok: bool)
      requires offset % WORD == 0 && offset < |buffer| <= offset + WORD
      requires Written(m, memory, lpAddress, buffer[..offset])
      modifies this
      ensures Written(m, memory, lpAddress, buffer) && ok == WordMapped(m, lpAddress + offset)
    {
      hide Written, WordMapped, Poke, Peek, HoldsBytes, ByteAt;
      var peeked := Peek(memory, lpAddress + offset);
      var oldValue := if peeked.Some? then peeked.value else seq(WORD, i => 0xff);
      var newValue := MergeBytes(oldValue, buffer[offset..]);
      ok := PtracePoke(lpAddress + offset, newValue);
      TailWritten(m, old(memory), lpAddress, buffer, offset, oldValue, newValue);
    }

    /** The word begins with the new bytes. */
    static method MergeBytes(oldValue: seq<Byte>, newBytes: seq<Byte>) returns (value: seq<Byte>)
      requires |newBytes| <= |oldValue|
      ensures value == newBytes + oldValue[|newBytes|..]
    {
      value := oldValue;
      for i := 0 to |newBytes|
        invariant value == newBytes[..i] + oldValue[i..]
      {
        value := value[i := newBytes[i]];
      }
    }

    /** The ptrace path of ReadProcessMemory. */
    method ReadProcessMemory(lpAddress: nat, buffer: array<Byte>, size: nat) returns (bread: nat)
      requires size <= buffer.Length
      modifies buffer
      ensures lpAddress == 0 ==> bread == 0
      ensures lpAddress != 0 ==> ReadUpTo(memory, lpAddress, size, bread)
      ensures bread <= size && HoldsBytes(memory, lpAddress, buffer[..bread])
      ensures buffer[bread..] == old(buffer[bread..])
    {
      bread := 0;
      if lpAddress == 0 {
        return;
      }
      var offset := 0;
      var max := size - WORD;
      var isReadable := true;
      while offset < max && isReadable
        invariant 0 <= offset <= size && offset % WORD == 0 && bread == offset
        invariant size > 0 ==> offset < size
        invariant AllReached(memory, lpAddress, offset)
        invariant !isReadable ==> !WordMapped(memory, lpAddress + offset)
        invariant HoldsBytes(memory, lpAddress, buffer[..offset])
        invariant forall j | offset <= j < buffer.Length :: buffer[j] == old(buffer[j])
        decreases max - offset, isReadable
      {
        var value := Peek(memory, lpAddress + offset);
        if value.Some? {
          ReachMore(memory, lpAddress, offset, WORD);
          ghost var front := buffer[..offset];
          forall j | offset <= j < offset + WORD {
            buffer[j] := value.value[j - offset];
          }
          assert buffer[..offset + WORD] == front + value.value;
          HoldsMore(memory, lpAddress, front, value.value);
          offset := offset + WORD;
          bread := bread + WORD;
        } else {
          isReadable := false;
        }
      }
      if offset < size {
        WordOf(offset, offset);
        if isReadable {
          var value := Peek(memory, lpAddress + offset);
          if value.Some? {
            ReachMore(memory, lpAddress, offset, size - offset);
            ghost var front := buffer[..offset];
            forall j | offset <= j < size {
              buffer[j] := value.value[j - offset];
            }
            assert buffer[..size] == front + value.value[..size - offset];
            HoldsMore(memory, lpAddress, front, value.value[..size - offset]);
            bread := bread + (size - offset);
          }
        }
      }
    }
  }

  /** One poke extends the written prefix by `count` bytes when the rest of its word is what was there. */
  lemma OneWord(m: Memory, m1: Memory, m2: Memory, a: nat, data: seq<Byte>, offset: nat, count: nat, word: seq<Byte>)
    requires offset % WORD == 0 && count <= WORD == |word| && offset + count <= |data|
    requires Written(m, m1, a, data[..offset]) && m2 == Poke(m1, a + offset, word)
    requires forall i | 0 <= i < count :: word[i] == data[offset + i]
    requires WordMapped(m, a + offset) ==> forall i | count <= i < WORD :: word[i] == m1[a + offset + i]
    ensures Written(m, m2, a, data[..offset + count])
  {
    SameReach(m, m1, a + offset);
    forall x | x in m
      ensures NewByte(m, m2, a, data[..offset + count], x)
    {
      assert NewByte(m, m1, a, data[..offset], x);
      if a + offset <= x < a + offset + WORD {
        WordOf(offset, x - a);
        OneWordInside(m, m1, m2, a, data, offset, count, word, x);
      }
    }
  }

  /** The poke of the last word, made of the rest of the data and the end of the old word. */
  lemma TailWritten(m: Memory, before: Memory, a: nat, data: seq<Byte>, offset: nat, original: seq<Byte>,
                    word: seq<Byte>)
    requires offset % WORD == 0 && offset < |data| <= offset + WORD && |original| == |word| == WORD
    requires Written(m, before, a, data[..offset])
    requires Peek(before, a + offset).Some? ==> original == Peek(before, a + offset).value
    requires word == data[offset..] + original[|data| - offset..]
    ensures Written(m, Poke(before, a + offset, word), a, data)
    ensures WordMapped(m, a + offset) <==> WordMapped(before, a + offset)
  {
    hide NewByte, Poke, Peek, HoldsBytes, ByteAt;
    SameReach(m, before, a + offset);
    PeekFacts(before, a + offset);
    OneWord(m, before, Poke(before, a + offset, word), a, data, offset, |data| - offset, word);
    assert data[..|data|] == data;
  }

  lemma OneWordInside(m: Memory, m1: Memory, m2: Memory, a: nat, data: seq<Byte>, offset: nat, count: nat,
                      word: seq<Byte>, x: nat)
    requires count <= WORD == |word| && offset + count <= |data|
    requires m1.Keys == m.Keys && m2 == Poke(m1, a + offset, word)
    requires x in m && a + offset <= x < a + offset + WORD
    requires ByteReached(m, a, x - a) <==> WordMapped(m, a + offset)
    requires WordMapped(m, a + offset) <==> WordMapped(m1, a + offset)
    requires NewByte(m, m1, a, data[..offset], x)
    requires forall i | 0 <= i < count :: word[i] == data[offset + i]
    requires WordMapped(m, a + offset) ==> forall i | count <= i < WORD :: word[i] == m1[a + offset + i]
    ensures NewByte(m, m2, a, data[..offset + count], x)
  {
    hide WordMapped, ByteReached;
    var i := x - a - offset;
    if WordMapped(m, a + offset) {
      assert m2[x] == word[i];
      if i < count {
        assert word[i] == data[offset + i];
      } else {
        assert word[i] == m1[a + offset + i];
      }
    }
  }

  lemma NothingWritten(m: Memory, a: nat, data: seq<Byte>)
    ensures Written(m, m, a, data[..0])
  {
  }

  lemma ReachMore(m: Memory, a: nat, offset: nat, count: nat)
    requires offset % WORD == 0 && count <= WORD && AllReached(m, a, offset) && WordMapped(m, a + offset)
    ensures AllReached(m, a, offset + count)
  {
    forall i | 0 <= i < offset + count
      ensures ByteReached(m, a, i)
    {
      if offset <= i {
        WordOf(offset, i);
      }
    }
  }

  // ---- the two together ----

  /** When every poke succeeds, exactly the requested bytes change, and a read of the same range gets them all. */
  lemma {:induction false} RoundTrip(m: Memory, m': Memory, a: nat, data: seq<Byte>, bread: nat)
    requires Written(m, m', a, data) && AllReached(m, a, |data|)
    requires ReadUpTo(m', a, |data|, bread)
    ensures bread == |data| && HoldsBytes(m', a, data)
    ensures forall x | x in m && !(a <= x < a + |data|) :: m'[x] == m[x]
  {
    forall i | 0 <= i < |data|
      ensures ByteReached(m', a, i)
    {
      assert ByteReached(m, a, i);
      SameReach(m, m', a + i / WORD * WORD);
    }
    forall i | 0 <= i < |data|
      ensures ByteAt(m', a + i, data[i])
    {
      assert ByteReached(m, a, i);
      assert a + i in m;
    }
  }

  lemma {:induction false} ReachedAll(m: Memory, a: nat, n: nat)
    ensures Reached(m, a, n) == n <==> AllReached(m, a, n)
  {
    if n > 0 {
      hide ByteReached;
      ReachedAll(m, a, n - 1);
    }
  }

  /** A stretch of bytes that are all reached, or of which none is. */
  lemma {:induction false} ReachedStretch(m: Memory, a: nat, lo: nat, hi: nat, all: bool)
    requires lo <= hi && forall i | lo <= i < hi :: ByteReached(m, a, i) == all
    ensures Reached(m, a, hi) == Reached(m, a, lo) + if all then hi - lo else 0
    decreases hi
  {
    if lo < hi {
      hide ByteReached;
      ReachedStretch(m, a, lo, hi - 1, all);
    }
  }

  /** The bytes of the tail share a word. */
  lemma TailTogether(m: Memory, a: nat, size: nat, i: nat)
    requires LoopBytes(size) <= i < size
    ensures ByteReached(m, a, i) <==> ByteReached(m, a, size - 1)
  {
    DivModUnique(WORD, (size - 1) / WORD, i - LoopBytes(size));
  }

  /** The count returned is the number of bytes written exactly when every word of the loop is mapped. */
  lemma {:induction false} CountExact(m: Memory, a: nat, size: nat)
    ensures WrittenCount(m, a, size) == Reached(m, a, size) <==> AllReached(m, a, LoopBytes(size))
  {
    hide ByteReached, AllReached;
    ReachedAll(m, a, LoopBytes(size));
    if size > 0 {
      forall i | LoopBytes(size) <= i < size
        ensures ByteReached(m, a, i) == ByteReached(m, a, size - 1)
      {
        TailTogether(m, a, size, i);
      }
      ReachedStretch(m, a, LoopBytes(size), size, ByteReached(m, a, size - 1));
    }
  }

  /** The memory of a target with `count` mapped bytes from `first` on, all zero. */
  function Zeros(first: nat, count: nat): (m: Memory)
    ensures forall x :: x in m <==> first <= x < first + count
  {
    if count == 0 then map[] else Zeros(first, count - 1)[first + count - 1 := 0]
  }

  /** With page p mapped and the page before it not, 16 bytes from 8 bytes before the page on are all reported
      as written; only the last 8 are. */
  lemma {:induction false} MissedWordIsCounted(p: nat)
    requires p > 0
    ensures var m, a := Zeros(p * 4096, 4096), p * 4096 - 8;
      WrittenCount(m, a, 16) == 16 && Reached(m, a, 16) == 8
  {
    hide Zeros, Reached;
    var m, a := Zeros(p * 4096, 4096), p * 4096 - 8;
    forall i | 0 <= i < 16
      ensures ByteReached(m, a, i) == (i >= 8)
    {
      WordOf(if i < 8 then 0 else 8, i);
      assert i < 8 ==> a !in m;
    }
    NoneReached(m, a);
    ReachedStretch(m, a, 0, 8, false);
    ReachedStretch(m, a, 8, 16, true);
  }

  lemma NoneReached(m: Memory, a: nat)
    ensures Reached(m, a, 0) == 0
  {
  }

  /** With page p mapped and the page behind it not, a read of the last 4 bytes of the page returns none. */
  lemma {:induction false} PageEndUnreadable(p: nat)
    ensures var m, a := Zeros(p * 4096, 4096), p * 4096 + 4092;
      HoldsBytes(m, a, [0, 0, 0, 0]) && forall n: nat :: ReadUpTo(m, a, 4, n) <==> n == 0
  {
    hide Zeros;
    var m, a := Zeros(p * 4096, 4096), p * 4096 + 4092;
    assert a + 4 !in m;
    assert !ByteReached(m, a, 0);
    forall i | 0 <= i < 4
      ensures ByteAt(m, a + i, [0, 0, 0, 0][i])
    {
      ZeroAt(p * 4096, 4096, a + i);
    }
  }

  lemma {:induction false} ZeroAt(first: nat, count: nat, x: nat)
    requires first <= x < first + count
    ensures ByteAt(Zeros(first, count), x, 0)
  {
    if x < first + count - 1 {
      ZeroAt(first, count - 1, x);
    }
  }

  /** A read can stop short of bytes that are all mapped: the last word is fetched whole. */
  lemma {:induction false} ReadNeedsWholeWords(m: Memory, a: nat, size: nat, n: nat)
    requires ReadUpTo(m, a, size, n)
    ensures n == size <==> AllReached(m, a, size)
    ensures n == size <==> forall x | a <= x < a + (size + 7) / 8 * 8 :: x in m
  {
    if AllReached(m, a, size) {
      forall x | a <= x < a + (size + 7) / 8 * 8
        ensures x in m
      {
        var w := (x - a) / 8 * 8;
        assert w < size && ByteReached(m, a, w);
        WordOf(w, w);
      }
    } else {
      var i :| 0 <= i < size && !ByteReached(m, a, i);
      assert i / 8 * 8 + 8 <= (size + 7) / 8 * 8;
    }
  }
}
