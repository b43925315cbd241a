/** Debug exceptions of processes that are not debugged. When DR6.BD says that a debug register was accessed,
    interrupt1_handler of DBKKernel/debugger.c decodes a MOV and carries it out on the guest's copy of the
    registers; the epilogue then loads the real ones. */
module DebugRegisters {
  import opened BreakpointPlacement

  /** Bits of DR6: a debug register access was caught, a single step, a task switch. */
  const BD := 13
  const BS := 14
  const BT := 15

  function Zero(): Word { seq(64, i => false) }

  /** The saved registers of the interrupted code. Index 4 of gp is rsp, which the handler does not use for
      kernel code. */
  datatype Frame = Frame(gp: seq<Word>, stackEsp: Word, rip: nat, rf: bool)

  /** FakedDebugRegisterState of the CPU, its real registers and the stack frame. */
  datatype Cpu = Cpu(fake: Registers, fakeDr6: Word, inEpilogue: bool, actual: Registers, actualDr6: Word, frame: Frame)
  {
    predicate Valid() {
      fake.Valid() && actual.Valid() && |frame.gp| == 16
    }
  }

  // ---- decoding ----

  /** Where the scan for the first 0x0f byte ends. */
  function OpcodeAt(code: seq<nat>): (i: nat)
    requires 0x0f in code
    ensures i < |code| && code[i] == 0x0f && 0x0f !in code[..i]
  {
    if code[0] == 0x0f then 0 else 1 + OpcodeAt(code[1..])
  }

  /** The code's test for REX.B: bits 6 and 0 are set. */
  predicate LooksLikeRexB(b: nat) {
    b / 64 % 2 == 1 && b % 2 == 1
  }

  function CountRexB(prefixes: seq<nat>): nat {
    if prefixes == [] then 0
    else CountRexB(prefixes[..|prefixes| - 1]) + if LooksLikeRexB(prefixes[|prefixes| - 1]) then 1 else 0
  }

  predicate Decodable(code: seq<nat>) {
    0x0f in code && OpcodeAt(code) + 2 < |code|
  }

  function DebugIndex(code: seq<nat>): (n: nat)
    requires Decodable(code)
    ensures n < 8
  {
    code[OpcodeAt(code) + 2] / 8 % 8
  }

  function GpIndex(code: seq<nat>): nat
    requires Decodable(code)
  {
    code[OpcodeAt(code) + 2] % 8 + 8 * CountRexB(code[..OpcodeAt(code)])
  }

  // ---- the handler ----

  /** The processor's part: it stores the cause in DR6 and clears general detect. */
  function Raised(s: Cpu, dr6: Word): Cpu {
    s.(actualDr6 := dr6, actual := s.actual.(dr7 := s.actual.dr7[GD := false]))
  }

  function FakeValue(s: Cpu, n: nat): Word
    requires s.Valid() && n < 8
  {
    if n < 4 then s.fake.dr[n] else if n == 4 || n == 6 then s.fakeDr6 else s.fake.dr7
  }

  function FromFrame(f: Frame, g: nat): Word
    requires |f.gp| == 16
  {
    if g == 4 || g >= 16 then Zero() else f.gp[g]
  }

  function ToFrame(f: Frame, g: nat, v: Word): Frame
    requires |f.gp| == 16
  {
    if g == 4 then f.(stackEsp := v) else if g < 16 then f.(gp := f.gp[g := v]) else f
  }

  /** Bit 10 of DR7 is always set, and the guest cannot set general detect. */
  function Guarded(v: Word): Word {
    v[10 := true][GD := false]
  }

  function WriteDebug(s: Cpu, n: nat, v: Word): Cpu
    requires s.Valid() && n < 8
  {
    if n < 4 then s.(actual := s.actual.(dr := s.actual.dr[n := v]), fake := s.fake.(dr := s.fake.dr[n := v]))
    else if n == 4 || n == 6 then s.(actualDr6 := v, fakeDr6 := v)
    else s.(actual := s.actual.(dr7 := Guarded(v)), fake := s.fake.(dr7 := Guarded(v)))
  }

  /** The branch of interrupt1_handler for a caught access from kernel code. */
  function Emulate(s: Cpu, code: seq<nat>): (r: (Cpu, nat))
    requires s.Valid() && Decodable(code)
    ensures r.0.Valid()
  {
    var s1 := s.(actualDr6 := s.actualDr6[BD := false]);
    if s.inEpilogue then (s1.(frame := s1.frame.(rf := true)), 2)
    else
      var s2 := s1.(fakeDr6 := s1.actualDr6);
      var at, n, g := OpcodeAt(code), DebugIndex(code), GpIndex(code);
      var s3 :=
        if code[at + 1] == 0x21 then s2.(frame := ToFrame(s2.frame, g, FakeValue(s2, n)))
        else if code[at + 1] == 0x23 then WriteDebug(s2, n, FromFrame(s2.frame, g))
        else s2;
      (s3.(frame := s3.frame.(rip := s3.frame.rip + at + 3)), 1)
  }

  /** The epilogue of interrupt1_centry. */
  function Epilogue(s: Cpu, slots: seq<Breakpoint>, handled: nat): (r: Cpu)
    requires s.Valid()
    ensures r.Valid()
  {
    var p := PlaceAll(s.fake, Free(s.fake.dr7, 0), Active(slots, 0));
    s.(actual := if handled == 2 then p else p.(dr7 := p.dr7[GD := true]), actualDr6 := s.fakeDr6,
       inEpilogue := handled == 2)
  }

  /** The end of interrupt1_handler for a process that is not debugged: a hit in a register the guest has not
      enabled is the debugger's and goes no further; the rest, result 0, goes to the system's own handler. */
  function Elsewhere(s: Cpu, byDbvm: bool): (r: (Cpu, nat))
    requires s.Valid()
    ensures r.0.Valid()
  {
    if exists i: nat | i < 4 :: s.actualDr6[i] && IsFree(s.fake.dr7, i) then (s.(frame := s.frame.(rf := true)), 1)
    else if byDbvm then (s, 1)
    else (s, 0)
  }

  /** What an exception comes with: DR6, where the interrupted code runs, its bytes from rip on as far as the scan
      for 0x0f goes, and whether DBVM caused it. */
  datatype Cause = Cause(dr6: Word, kernel: bool, code: seq<nat>, byDbvm: bool)
  {
    predicate Scannable() {
      dr6[BD] && kernel ==> Decodable(code)
    }
  }

  /** interrupt1_handler: BD is tested before anything else, whatever the cause. From kernel code it means a move
      to carry out; from user code it makes the real DR6, without BD, the guest's. */
  function Handle(s: Cpu, kernel: bool, code: seq<nat>, byDbvm: bool): (r: (Cpu, nat))
    requires s.Valid() && (s.actualDr6[BD] && kernel ==> Decodable(code))
    ensures r.0.Valid()
  {
    if !s.actualDr6[BD] then Elsewhere(s, byDbvm)
    else if kernel then Emulate(s, code)
    else
      var dr6 := s.actualDr6[BD := false];
      Elsewhere(s.(actualDr6 := dr6, fakeDr6 := dr6), byDbvm)
  }

  /** A debug exception of such a process from beginning to end. */
  function Exception(s: Cpu, c: Cause, slots: seq<Breakpoint>): (r: Cpu)
    requires s.Valid() && c.Scannable()
    ensures r.Valid()
  {
    var (t, handled) := Handle(Raised(s, c.dr6), c.kernel, c.code, c.byDbvm);
    Epilogue(t, slots, handled)
  }

  /** A caught access: the processor notes it in DR6 and leaves the other causes there. */
  function Interrupt(s: Cpu, code: seq<nat>, slots: seq<Breakpoint>): (r: Cpu)
    requires s.Valid() && Decodable(code)
    ensures r.Valid()
  {
    Exception(s, Cause(s.actualDr6[BD := true], true, code, false), slots)
  }

  // ---- the registers as the guest should see them ----

  /** The debug registers of a processor without a debugger. DR6 is seen without its BD bit. */
  datatype View = View(dr: seq<Word>, dr6: Word, dr7: Word, gp: seq<Word>, rip: nat)

  function ViewOf(s: Cpu): (v: View)
    ensures s.Valid() ==> |v.dr| == 4 && |v.gp| == 16
  {
    View(s.fake.dr, s.fakeDr6[BD := false], s.fake.dr7, s.frame.gp, s.frame.rip)
  }

  /** The legacy prefixes that leave MOV with a debug register a valid instruction. */
  const LEGACY: set<nat> := {0x26, 0x2e, 0x36, 0x3e, 0x64, 0x65, 0x66, 0x67, 0xf2, 0xf3}

  predicate IsRex(b: nat) {
    0x40 <= b < 0x50
  }

  /** The REX prefix that counts is the one right before the opcode; without it all its bits are clear. */
  function Rex(prefixes: seq<nat>): nat {
    if prefixes != [] && IsRex(prefixes[|prefixes| - 1]) then prefixes[|prefixes| - 1] else 0x40
  }

  function Prefixes(instr: seq<nat>): seq<nat>
    requires |instr| >= 3
  {
    instr[..|instr| - 3]
  }

  /** MOV with a debug register: any prefixes, none of them giving REX.R, the opcode, and a ModRM byte. */
  predicate MoveInstr(instr: seq<nat>) {
    && |instr| >= 3
    && (forall i | 0 <= i < |instr| - 3 :: Prefixes(instr)[i] in LEGACY || IsRex(Prefixes(instr)[i]))
    && Rex(Prefixes(instr)) / 4 % 2 == 0
    && instr[|instr| - 3] == 0x0f && (instr[|instr| - 2] == 0x21 || instr[|instr| - 2] == 0x23)
    && instr[|instr| - 1] < 256
  }

  /** REX.B and the r/m field. */
  function MoveGp(instr: seq<nat>): (g: nat)
    requires |instr| >= 3
    ensures g < 16
  {
    instr[|instr| - 1] % 8 + 8 * (Rex(Prefixes(instr)) % 2)
  }

  /** The reg field, with DR4 and DR5 as other names of DR6 and DR7. */
  function MoveDr(instr: seq<nat>): (n: nat)
    requires |instr| >= 3
    ensures n < 4 || n == 6 || n == 7
  {
    var n := instr[|instr| - 1] / 8 % 8;
    if n == 4 then 6 else if n == 5 then 7 else n
  }

  /** The general register the code takes the instruction to name. */
  function CodeGp(instr: seq<nat>): nat
    requires |instr| >= 3
  {
    instr[|instr| - 1] % 8 + 8 * CountRexB(Prefixes(instr))
  }

  /** No gs, address-size or rep prefix, and no REX.B prefix but the one that counts. */
  predicate Clean(prefixes: seq<nat>) {
    && 0x65 !in prefixes && 0x67 !in prefixes && 0xf3 !in prefixes
    && forall i | 0 <= i < |prefixes| - 1 :: !(IsRex(prefixes[i]) && prefixes[i] % 2 == 1)
  }

  /** The instructions the emulation is meant for: clean prefixes and a general register other than rsp. */
  predicate PlainMove(instr: seq<nat>) {
    MoveInstr(instr) && Clean(Prefixes(instr)) && MoveGp(instr) != 4
  }

  function DrOf(v: View, n: nat): Word
    requires |v.dr| == 4 && (n < 4 || n == 6 || n == 7)
  {
    if n < 4 then v.dr[n] else if n == 6 then v.dr6 else v.dr7
  }

  /** The value a debug register holds after v was written to it. */
  function Stored(n: nat, v: Word): Word {
    if n == 6 then v[BD := false] else if n == 7 then Guarded(v) else v
  }

  /** Bit by bit: DR7 reads back with bit 10 set and bit 13 clear, DR6 with bit 13 clear, all else as written. */
  ghost predicate ReadsBack(n: nat, written: Word, read: Word) {
    && (n == 7 ==> read[10])
    && (n == 6 || n == 7 ==> !read[13])
    && forall b | 0 <= b < 64 && !(n == 7 && b == 10) && !(n >= 6 && b == 13) :: read[b] == written[b]
  }

  lemma StoredBits(n: nat, v: Word)
    requires n < 8
    ensures ReadsBack(n, v, Stored(n, v))
  {
  }

  function SetDr(v: View, n: nat, w: Word): View
    requires |v.dr| == 4 && (n < 4 || n == 6 || n == 7)
  {
    if n < 4 then v.(dr := v.dr[n := w]) else if n == 6 then v.(dr6 := w) else v.(dr7 := w)
  }

  predicate Reads(instr: seq<nat>)
    requires |instr| >= 3
  {
    instr[|instr| - 2] == 0x21
  }

  /** What the instruction means. */
  function Move(v: View, instr: seq<nat>): (v': View)
    requires |v.dr| == 4 && |v.gp| == 16 && |instr| >= 3
    ensures |v'.dr| == 4 && |v'.gp| == 16
  {
    var n, g := MoveDr(instr), MoveGp(instr);
    var v1 := if Reads(instr) then v.(gp := v.gp[g := DrOf(v, n)]) else SetDr(v, n, Stored(n, v.gp[g]));
    v1.(rip := v.rip + |instr|)
  }

  /** Between two exceptions: the real DR6 is the guest's, and no epilogue is running. */
  predicate Settled(s: Cpu) {
    s.Valid() && !s.inEpilogue && s.actualDr6 == s.fakeDr6
  }

  /** The move writes DR6 with bit 13 of the source set. */
  predicate SetsBd(v: View, instr: seq<nat>)
    requires |v.gp| == 16 && |instr| >= 3
  {
    !Reads(instr) && MoveDr(instr) == 6 && v.gp[MoveGp(instr)][BD]
  }

  // ---- decoding, the code's and the processor's ----

  lemma {:induction false} SkipPrefixes(prefixes: seq<nat>, code: seq<nat>)
    requires code != [] && code[0] == 0x0f && 0x0f !in prefixes
    ensures 0x0f in prefixes + code && OpcodeAt(prefixes + code) == |prefixes|
  {
    assert (prefixes + code)[|prefixes|] == 0x0f;
    if prefixes == [] {
      assert prefixes + code == code;
    } else {
      SkipPrefixes(prefixes[1..], code);
      assert (prefixes + code)[1..] == prefixes[1..] + code;
      assert (prefixes + code)[0] == prefixes[0];
    }
  }

  lemma Split(code: seq<nat>, k: nat)
    requires k <= |code|
    ensures code[..k] + code[k..] == code
  {
  }

  lemma DecodeMove(instr: seq<nat>, rest: seq<nat>)
    requires MoveInstr(instr)
    ensures var code := instr + rest;
      && Decodable(code) && OpcodeAt(code) == |instr| - 3
      && code[OpcodeAt(code) + 1] == instr[|instr| - 2]
      && GpIndex(code) == CodeGp(instr)
      && MoveDr(instr) == (if DebugIndex(code) == 4 then 6 else if DebugIndex(code) == 5 then 7 else DebugIndex(code))
  {
    hide CountRexB;
    var code := instr + rest;
    var ps := Prefixes(instr);
    assert 0x0f !in ps;
    var k := |instr| - 3;
    SkipPrefixes(ps, code[k..]);
    assert code[..k] == ps;
    Split(code, k);
  }

  lemma {:induction false} CountNone(prefixes: seq<nat>)
    ensures CountRexB(prefixes) == 0 <==> forall i | 0 <= i < |prefixes| :: !LooksLikeRexB(prefixes[i])
  {
    if prefixes != [] {
      hide LooksLikeRexB;
      CountNone(prefixes[..|prefixes| - 1]);
    }
  }

  /** The test for every byte, as the code writes it. */
  lemma {:induction false} TestForRexB(b: bv8)
    ensures LooksLikeRexB(b as nat) <==> b & 0x41 == 0x41
  {
  }

  /** Which prefixes pass the code's test for REX.B. */
  lemma LooksLike(b: nat)
    requires b in LEGACY || IsRex(b)
    ensures LooksLikeRexB(b) <==> b == 0x65 || b == 0x67 || b == 0xf3 || (IsRex(b) && b % 2 == 1)
  {
  }

  /** The handler picks the right general register exactly when the prefixes are clean. */
  lemma {:induction false} DecodedRegister(instr: seq<nat>)
    requires MoveInstr(instr)
    ensures CodeGp(instr) == MoveGp(instr) <==> Clean(Prefixes(instr))
  {
    hide LooksLikeRexB;
    var ps := Prefixes(instr);
    forall i | 0 <= i < |ps|
      ensures LooksLikeRexB(ps[i]) <==>
        ps[i] == 0x65 || ps[i] == 0x67 || ps[i] == 0xf3 || (IsRex(ps[i]) && ps[i] % 2 == 1)
    {
      LooksLike(ps[i]);
    }
    if ps != [] {
      CountNone(ps);
      CountNone(ps[..|ps| - 1]);
    }
  }

  /** A REX prefix before another prefix does not count, but the code counts it: mov dr0, rax is taken from r8. */
  lemma {:induction false} DisplacedRex()
    ensures var instr: seq<nat> := [0x41, 0x66, 0x0f, 0x23, 0xc0];
      MoveInstr(instr) && MoveGp(instr) == 0 && CodeGp(instr) == 8
  {
    var instr: seq<nat> := [0x41, 0x66, 0x0f, 0x23, 0xc0];
    var ps := Prefixes(instr);
    assert ps == [0x41, 0x66];
    assert ps[..1] == [0x41];
    assert CountRexB([0x41][..0]) == 0;
    assert CountRexB([0x41]) == 1 && CountRexB(ps) == 1;
  }

  // ---- a caught move ----

  /** In this state it makes no difference that the code picks another register, or that it passes over rsp. */
  predicate SameAnyway(v: View, instr: seq<nat>)
    requires |v.dr| == 4 && |v.gp| == 16 && |instr| >= 3
  {
    var n, g, h := MoveDr(instr), MoveGp(instr), CodeGp(instr);
    if Reads(instr) then v.gp[g] == DrOf(v, n) && (h == 4 || h >= 16 || v.gp[h] == DrOf(v, n))
    else Stored(n, v.gp[g]) == Stored(n, if h == 4 || h >= 16 then Zero() else v.gp[h])
  }

  /** What the handler does to the guest's view: the move with the register that the code picks, of which rsp
      and those past r15 read as zero and swallow what they are given. */
  function CodeMove(v: View, instr: seq<nat>): View
    requires |v.dr| == 4 && |v.gp| == 16 && |instr| >= 3
  {
    var n, h := MoveDr(instr), CodeGp(instr);
    var none := h == 4 || h >= 16;
    var v1 :=
      if Reads(instr) then (if none then v else v.(gp := v.gp[h := DrOf(v, n)]))
      else SetDr(v, n, Stored(n, if none then Zero() else v.gp[h]));
    v1.(rip := v.rip + |instr|)
  }

  lemma AccessView(s: Cpu, instr: seq<nat>, rest: seq<nat>, slots: seq<Breakpoint>)
    requires Settled(s) && MoveInstr(instr)
    ensures Decodable(instr + rest)
    ensures var s' := Interrupt(s, instr + rest, slots);
      && ViewOf(s') == CodeMove(ViewOf(s), instr) && Settled(s')
      && Placed(s'.fake, slots, s'.actual) && s'.actual.dr7[13]
  {
    hide PlaceAll, Placed, Free, Active, OpcodeAt, GpIndex, CodeGp, DebugIndex, MoveDr, Decodable, MoveInstr, Zero;
    DecodeMove(instr, rest);
    AtLeastThree(instr);
    var c := Raised(s, s.actualDr6[BD := true]);
    var (t, handled) := Emulate(c, instr + rest);
    PlacementCorrect(t.fake, slots, true);
    assert c.actualDr6[BD := false] == s.actualDr6[BD := false];
    assert s.actualDr6[BD := false][BD := false] == s.actualDr6[BD := false];
  }

  lemma AtLeastThree(instr: seq<nat>)
    requires MoveInstr(instr)
    ensures |instr| >= 3 && (instr[|instr| - 2] == 0x21 || instr[|instr| - 2] == 0x23)
  {
  }

  /** For every move, whatever its prefixes and its register: the guest sees what the instruction means exactly
      when the code picks the right register and it is not rsp, or the values involved happen to agree. */
  lemma {:induction false} MoveExact(s: Cpu, instr: seq<nat>, rest: seq<nat>, slots: seq<Breakpoint>)
    requires Settled(s) && MoveInstr(instr)
    ensures Decodable(instr + rest)
    ensures ViewOf(Interrupt(s, instr + rest, slots)) == Move(ViewOf(s), instr)
       <==> (Clean(Prefixes(instr)) && MoveGp(instr) != 4) || SameAnyway(ViewOf(s), instr)
  {
    hide Interrupt, Clean, MoveInstr, Zero, Stored;
    AccessView(s, instr, rest, slots);
    DecodedRegister(instr);
    AtLeastThree(instr);
    MovesAgree(ViewOf(s), instr);
  }

  lemma MovesAgree(v: View, instr: seq<nat>)
    requires |v.dr| == 4 && |v.gp| == 16 && |instr| >= 3
    ensures CodeMove(v, instr) == Move(v, instr)
       <==> (CodeGp(instr) == MoveGp(instr) && MoveGp(instr) != 4) || SameAnyway(v, instr)
  {
    hide CodeGp, MoveGp, MoveDr, Zero, Stored;
    var n, g, h := MoveDr(instr), MoveGp(instr), CodeGp(instr);
    var a, b := CodeMove(v, instr), Move(v, instr);
    if Reads(instr) {
      assert b.gp[g] == DrOf(v, n);
      assert (h != 4 && h < 16) ==> a.gp[h] == DrOf(v, n);
      if SameAnyway(v, instr) {
        assert a.gp == v.gp && b.gp == v.gp;
      }
    } else {
      assert DrOf(a, n) == Stored(n, if h == 4 || h >= 16 then Zero() else v.gp[h]);
      assert DrOf(b, n) == Stored(n, v.gp[g]);
    }
  }

  /** A caught plain MOV does to the guest's view what the instruction means, whatever breakpoints are loaded. */
  lemma {:induction false} MoveEmulated(s: Cpu, instr: seq<nat>, rest: seq<nat>, slots: seq<Breakpoint>)
    requires Settled(s) && PlainMove(instr)
    ensures Decodable(instr + rest)
    ensures var s' := Interrupt(s, instr + rest, slots);
      && ViewOf(s') == Move(ViewOf(s), instr) && Settled(s')
      && Placed(s'.fake, slots, s'.actual) && s'.actual.dr7[13]
  {
    hide Interrupt, Clean, MoveInstr, SameAnyway, Settled, Placed;
    AccessView(s, instr, rest, slots);
    MoveExact(s, instr, rest, slots);
  }

  /** What a caught move writes, bit by bit: into the register the guest sees, and before the epilogue into the
      real one as well. */
  lemma {:induction false} MoveWrites(s: Cpu, instr: seq<nat>, rest: seq<nat>, slots: seq<Breakpoint>)
    requires Settled(s) && PlainMove(instr) && !Reads(instr)
    ensures Decodable(instr + rest)
    ensures var n, v := MoveDr(instr), s.frame.gp[MoveGp(instr)];
      var t := Emulate(Raised(s, s.actualDr6[BD := true]), instr + rest).0;
      && ReadsBack(n, v, DrOf(ViewOf(Interrupt(s, instr + rest, slots)), n))
      && (n < 4 ==> t.actual.dr[n] == v)
      && (n == 6 ==> t.actualDr6 == v)
      && (n == 7 ==> ReadsBack(7, v, t.actual.dr7))
  {
    hide Interrupt, Clean, MoveInstr, Placed, MoveGp, Stored, Move, ReadsBack;
    PlainHasThree(instr);
    MoveEmulated(s, instr, rest, slots);
    WriteSets(ViewOf(s), instr);
    StoredBits(MoveDr(instr), s.frame.gp[MoveGp(instr)]);
    WritesReal(s, instr, rest);
  }

  lemma WritesReal(s: Cpu, instr: seq<nat>, rest: seq<nat>)
    requires Settled(s) && PlainMove(instr) && |instr| >= 3 && !Reads(instr)
    ensures Decodable(instr + rest)
    ensures var n, v := MoveDr(instr), s.frame.gp[MoveGp(instr)];
      var t := Emulate(Raised(s, s.actualDr6[BD := true]), instr + rest).0;
      (n < 4 ==> t.actual.dr[n] == v) && (n == 6 ==> t.actualDr6 == v) && (n == 7 ==> t.actual.dr7 == Stored(7, v))
  {
    hide OpcodeAt, GpIndex, CodeGp, DebugIndex, MoveDr, MoveGp, Decodable, MoveInstr, Clean, Zero;
    DecodeMove(instr, rest);
    DecodedRegister(instr);
    AtLeastThree(instr);
  }

  /** A move from rsp gives any debug register the value for zero; a move to rsp only changes the
      entry stub's note of its own stack pointer, which nothing restores. */
  lemma {:induction false} WriteFromRsp(s: Cpu, instr: seq<nat>, rest: seq<nat>, slots: seq<Breakpoint>)
    requires Settled(s) && MoveInstr(instr) && Clean(Prefixes(instr)) && MoveGp(instr) == 4
    ensures Decodable(instr + rest)
    ensures var v, n := ViewOf(s), MoveDr(instr); var r := Interrupt(s, instr + rest, slots);
      if Reads(instr) then ViewOf(r) == v.(rip := v.rip + |instr|) && r.frame.stackEsp == DrOf(v, n)
      else var w := DrOf(ViewOf(r), n); ReadsBack(n, Zero(), w) && ViewOf(r) == SetDr(v, n, w).(rip := v.rip + |instr|)
  {
    hide Interrupt, Clean, MoveInstr, Zero, Stored, ReadsBack, MoveDr, MoveGp, CodeGp, CodeMove, Reads;
    AccessView(s, instr, rest, slots);
    DecodedRegister(instr);
    AtLeastThree(instr);
    RspMove(ViewOf(s), instr);
    StoredBits(MoveDr(instr), Zero());
    if Reads(instr) {
      RspRead(s, instr, rest, slots);
    }
  }

  lemma RspMove(v: View, instr: seq<nat>)
    requires |v.dr| == 4 && |v.gp| == 16 && |instr| >= 3 && CodeGp(instr) == 4
    ensures var n, v' := MoveDr(instr), CodeMove(v, instr);
      if Reads(instr) then v' == v.(rip := v.rip + |instr|)
      else DrOf(v', n) == Stored(n, Zero()) && v' == SetDr(v, n, DrOf(v', n)).(rip := v.rip + |instr|)
  {
    hide Stored, Zero, MoveDr, CodeGp;
  }

  lemma RspRead(s: Cpu, instr: seq<nat>, rest: seq<nat>, slots: seq<Breakpoint>)
    requires Settled(s) && MoveInstr(instr) && |instr| >= 3 && Reads(instr) && CodeGp(instr) == 4
    ensures Decodable(instr + rest)
    ensures Interrupt(s, instr + rest, slots).frame.stackEsp == DrOf(ViewOf(s), MoveDr(instr))
  {
    hide PlaceAll, Free, Active, OpcodeAt, GpIndex, CodeGp, DebugIndex, MoveDr, Decodable, MoveInstr, Zero;
    DecodeMove(instr, rest);
    var c := Raised(s, s.actualDr6[BD := true]);
    assert c.actualDr6[BD := false] == s.actualDr6[BD := false];
    assert Interrupt(s, instr + rest, slots).frame == Emulate(c, instr + rest).0.frame;
  }

  // ---- debug exceptions that are passed on ----

  /** What the epilogue works out for the system's handler: the hits the guest asked for, and the other causes. */
  function IntendedDr6(fakeDr6: Word, dr6: Word, dr7: Word): Word {
    seq(64, b requires 0 <= b < 64 => IntendedBit(fakeDr6, dr6, dr7, b))
  }

  predicate IntendedBit(fakeDr6: Word, dr6: Word, dr7: Word, b: nat)
    requires b < 64
  {
    if b < 4 then fakeDr6[b] || (dr6[b] && !IsFree(dr7, b))
    else if b == BD then fakeDr6[b] || (dr6[b] && dr7[GD])
    else if b == BS || b == BT then dr6[b]
    else fakeDr6[b]
  }

  /** The guest's DR6 already shows what there is to show. */
  predicate NothingNew(fakeDr6: Word, dr6: Word, dr7: Word) {
    && (forall i | 0 <= i < 4 :: dr6[i] && (dr7[2 * i] || dr7[2 * i + 1]) ==> fakeDr6[i])
    && (dr6[13] && dr7[13] ==> fakeDr6[13])
    && fakeDr6[14] == dr6[14] && fakeDr6[15] == dr6[15]
  }

  /** What the epilogue works out goes nowhere: the DR6 it loads is the intended one exactly when there was
      nothing new to show. */
  lemma {:induction false} LoadedDr6(s: Cpu, slots: seq<Breakpoint>)
    requires s.Valid()
    ensures Epilogue(s, slots, 0).actualDr6 == IntendedDr6(s.fakeDr6, s.actualDr6, s.fake.dr7)
       <==> NothingNew(s.fakeDr6, s.actualDr6, s.fake.dr7)
  {
    hide PlaceAll;
    var f, d, r := s.fakeDr6, s.actualDr6, s.fake.dr7;
    var w := IntendedDr6(f, d, r);
    assert forall b | 0 <= b < 64 :: w[b] == IntendedBit(f, d, r, b);
    if NothingNew(f, d, r) {
      assert w == f;
    } else {
      assert !(w[0] == f[0] && w[1] == f[1] && w[2] == f[2] && w[3] == f[3] && w[BD] == f[BD] && w[BS] == f[BS]
               && w[BT] == f[BT]);
    }
  }

  /** A process that is not debugged steps through its own code, with BD clear. The exception is passed on, but
      neither DR6 nor the guest's read of it shows the step. */
  lemma {:induction false} StepNotShown(s: Cpu, c: Cause, slots: seq<Breakpoint>, read: seq<nat>, rest: seq<nat>,
                     later: seq<Breakpoint>)
    requires Settled(s) && !s.fakeDr6[BS] && c.dr6[BS] && !c.dr6[0] && !c.dr6[1] && !c.dr6[2] && !c.dr6[3]
    requires !c.dr6[BD] && !c.byDbvm && PlainMove(read) && Reads(read) && MoveDr(read) == 6
    ensures Handle(Raised(s, c.dr6), c.kernel, c.code, c.byDbvm).1 == 0
    ensures var t := Exception(s, c, slots);
      && Settled(t) && t.actualDr6 != IntendedDr6(s.fakeDr6, c.dr6, s.fake.dr7) && !t.actualDr6[BS]
      && Decodable(read + rest) && !Interrupt(t, read + rest, later).frame.gp[MoveGp(read)][BS]
  {
    hide PlaceAll, Interrupt, PlainMove, MoveDr, MoveGp, Reads, Exception, Handle, IntendedDr6;
    PassedOn(s, c, slots);
    ReadDr6(Exception(s, c, slots), read, rest, later);
  }

  lemma PassedOn(s: Cpu, c: Cause, slots: seq<Breakpoint>)
    requires Settled(s) && !s.fakeDr6[BS] && c.dr6[BS] && !c.dr6[0] && !c.dr6[1] && !c.dr6[2] && !c.dr6[3]
    requires !c.dr6[BD] && !c.byDbvm
    ensures Handle(Raised(s, c.dr6), c.kernel, c.code, c.byDbvm).1 == 0
    ensures var t := Exception(s, c, slots);
      && Settled(t) && t.fakeDr6 == s.fakeDr6 && t.actualDr6 != IntendedDr6(s.fakeDr6, c.dr6, s.fake.dr7)
  {
    hide PlaceAll, Free, Active, IsFree;
    assert IntendedDr6(s.fakeDr6, c.dr6, s.fake.dr7)[BS];
  }

  lemma ReadDr6(t: Cpu, read: seq<nat>, rest: seq<nat>, later: seq<Breakpoint>)
    requires Settled(t) && PlainMove(read) && Reads(read) && MoveDr(read) == 6
    ensures Decodable(read + rest)
    ensures Interrupt(t, read + rest, later).Valid()
    ensures Interrupt(t, read + rest, later).frame.gp[MoveGp(read)] == t.fakeDr6[BD := false]
  {
    hide Interrupt, PlainMove, MoveDr, MoveGp, Placed;
    PlainHasThree(read);
    MoveEmulated(t, read, rest, later);
  }

  lemma PlainHasThree(instr: seq<nat>)
    requires PlainMove(instr)
    ensures |instr| >= 3 && MoveInstr(instr)
  {
  }

  /** Such a step, on a processor whose registers are all zero: mov rax, dr6 then reads zero. */
  lemma {:induction false} StepNotShownExample()
    ensures var s := AllZero(); var c := Cause(Zero()[BS := true], false, [], false);
      && Settled(s) && Handle(Raised(s, c.dr6), c.kernel, c.code, c.byDbvm).1 == 0
      && PlainMove([0x0f, 0x21, 0xf0]) && Decodable([0x0f, 0x21, 0xf0])
      && Exception(s, c, []).actualDr6 != IntendedDr6(Zero(), c.dr6, Zero())
      && !Interrupt(Exception(s, c, []), [0x0f, 0x21, 0xf0], []).frame.gp[0][BS]
  {
    hide Interrupt, Exception, Handle;
    var read: seq<nat> := [0x0f, 0x21, 0xf0];
    assert Prefixes(read) == [];
    StepNotShown(AllZero(), Cause(Zero()[BS := true], false, [], false), [], read, [], []);
    assert read + [] == read;
  }

  function AllZero(): Cpu {
    var zero := Registers([Zero(), Zero(), Zero(), Zero()], Zero());
    Cpu(zero, Zero(), false, zero, Zero(), Frame(seq(16, i => Zero()), Zero(), 0, false))
  }

  // ---- BD ----

  /** What the guest sees stays as it should if BD is clear, or comes to user code with a DR6 the guest knows. */
  predicate Harmless(c: Cause, guestDr6: Word) {
    !c.dr6[BD] || (!c.kernel && c.dr6[BD := false] == guestDr6)
  }

  /** An exception that is no caught access leaves the registers the guest sees alone exactly when it is harmless;
      in any case the real ones keep the guest's enabled ones and the breakpoints. */
  lemma {:induction false} ExceptionExact(s: Cpu, c: Cause, slots: seq<Breakpoint>)
    requires Settled(s) && c.Scannable()
    ensures ViewOf(Exception(s, c, slots)) == ViewOf(s) <==> Harmless(c, ViewOf(s).dr6)
    ensures var s' := Exception(s, c, slots);
      Settled(s') && Placed(s'.fake, slots, s'.actual) && s'.actual.dr7[13]
  {
    hide PlaceAll, Placed, Free, Active, Handle, Decodable;
    var t := Handle(Raised(s, c.dr6), c.kernel, c.code, c.byDbvm).0;
    PlacementCorrect(t.fake, slots, true);
    Handled(s, c);
  }

  lemma Handled(s: Cpu, c: Cause)
    requires Settled(s) && c.Scannable()
    ensures var (t, handled) := Handle(Raised(s, c.dr6), c.kernel, c.code, c.byDbvm);
      && handled != 2
      && if c.dr6[BD] && c.kernel then handled == 1 && t.frame.rip == s.frame.rip + OpcodeAt(c.code) + 3
         else && t.fake == s.fake && t.frame.(rf := false) == s.frame.(rf := false)
              && t.fakeDr6 == if c.dr6[BD] then c.dr6[BD := false] else s.fakeDr6
  {
    hide IsFree, GpIndex, DebugIndex, Zero, FakeValue;
  }

  /** What the handler decides and what it does to the frame, in terms of the bits of DR6 and of the guest's DR7: a
      hit in a register the guest has enabled neither locally nor globally is the debugger's, sets RF and goes no
      further, and nothing else does but what DBVM caused. */
  lemma {:induction false} HandledExact(s: Cpu, c: Cause)
    requires s.Valid() && c.Scannable() && !(c.dr6[BD] && c.kernel)
    ensures var (t, handled) := Handle(Raised(s, c.dr6), c.kernel, c.code, c.byDbvm);
      var ours := HitsDebugger(c.dr6, s.fake.dr7);
      && handled == (if ours || c.byDbvm then 1 else 0)
      && t.frame == s.frame.(rf := s.frame.rf || ours) && t.fake == s.fake && t.actualDr6 == c.dr6[13 := false]
  {
    var r := Raised(s, c.dr6);
    var f := if c.dr6[BD] then r.(actualDr6 := c.dr6[BD := false], fakeDr6 := c.dr6[BD := false]) else r;
    forall i: nat | i < 4
      ensures f.actualDr6[i] == c.dr6[i]
    {
    }
    if HitsDebugger(c.dr6, s.fake.dr7) {
      var i: nat :| i < 4 && c.dr6[i] && !s.fake.dr7[2 * i] && !s.fake.dr7[2 * i + 1];
      assert f.actualDr6[i] && IsFree(s.fake.dr7, i);
    }
  }

  predicate HitsDebugger(dr6: Word, dr7: Word) {
    exists i: nat | i < 4 :: dr6[i] && !dr7[2 * i] && !dr7[2 * i + 1]
  }

  /** The guest's own breakpoint is passed on: B0 is set and L0 is. */
  lemma {:induction false} OwnBreakpoint(s: Cpu, slots: seq<Breakpoint>)
    requires s.Valid() && s.fake.dr7[0]
    ensures Handle(Raised(s, Zero()[0 := true]), false, [], false).1 == 0
  {
    HandledExact(s, Cause(Zero()[0 := true], false, [], false));
  }

  /** The epilogue's own writes to the debug registers are caught as well. The handler does nothing about them but
      set RF, and the epilogue within the epilogue leaves general detect as the guest has it, so that they can be
      repeated. */
  lemma {:induction false} NestedAccess(s: Cpu, c: Cause, slots: seq<Breakpoint>)
    requires s.Valid() && s.inEpilogue && c.dr6[BD] && c.kernel && c.Scannable()
    ensures Handle(Raised(s, c.dr6), true, c.code, c.byDbvm).1 == 2
    ensures var r := Exception(s, c, slots);
      && r.frame == s.frame.(rf := true) && r.fake == s.fake && r.fakeDr6 == r.actualDr6 == s.fakeDr6
      && r.inEpilogue && Placed(r.fake, slots, r.actual) && r.actual.dr7[GD] == s.fake.dr7[GD]
  {
    hide PlaceAll, Placed, Free, Active, Decodable;
    var p := PlaceAll(s.fake, Free(s.fake.dr7, 0), Active(slots, 0));
    PlacementCorrect(s.fake, slots, p.dr7[GD]);
    assert p.(dr7 := p.dr7[GD := p.dr7[GD]]) == p;
    GdKept(s.fake, Free(s.fake.dr7, 0), Active(slots, 0));
  }

  lemma GdKept(r: Registers, free: seq<nat>, active: seq<Breakpoint>)
    requires r.Valid() && Ascending(free, r.dr7)
    ensures PlaceAll(r, free, active).dr7[GD] == r.dr7[GD]
  {
    hide PlaceAll, BitOf;
    forall i | i in free[..Min(|free|, |active|)]
      ensures !BitOf(i, GD)
    {
      GdIsNoField(i);
    }
    PlaceAllBits(r, free, active, GD);
  }

  /** A move that sets BD leaves it in the real DR6 and in the guest's; every other caught move clears it. */
  lemma {:induction false} BdAfter(s: Cpu, instr: seq<nat>, rest: seq<nat>, slots: seq<Breakpoint>)
    requires Settled(s) && PlainMove(instr)
    ensures Decodable(instr + rest)
    ensures Interrupt(s, instr + rest, slots).fakeDr6[BD] <==> SetsBd(ViewOf(s), instr)
  {
    hide PlaceAll, Free, Active, OpcodeAt, GpIndex, CodeGp, DebugIndex, MoveDr, MoveGp, Decodable, MoveInstr, Clean;
    DecodeMove(instr, rest);
    DecodedRegister(instr);
    AtLeastThree(instr);
    var t := Emulate(Raised(s, s.actualDr6[BD := true]), instr + rest).0;
    assert Interrupt(s, instr + rest, slots).fakeDr6 == t.fakeDr6;
  }

  /** After such a move the next exception in kernel code is taken for a caught access, whatever its cause: it goes
      no further, and rip skips up to the first 0x0f and two bytes more. */
  lemma {:induction false} BdMistaken(s: Cpu, write: seq<nat>, rest: seq<nat>, slots: seq<Breakpoint>, c: Cause,
                   later: seq<Breakpoint>)
    requires Settled(s) && PlainMove(write) && SetsBd(ViewOf(s), write)
    requires c.kernel && Decodable(c.code)
    ensures Decodable(write + rest)
    ensures var t := Interrupt(s, write + rest, slots);
      var next := c.(dr6 := c.dr6[BD := t.actualDr6[BD]]);
      && Settled(t) && Handle(Raised(t, next.dr6), next.kernel, next.code, next.byDbvm).1 == 1
      && Exception(t, next, later).frame.rip == t.frame.rip + OpcodeAt(c.code) + 3
  {
    hide Interrupt, PlainMove, SetsBd, Decodable, Handle, PlaceAll;
    BdAfter(s, write, rest, slots);
    MoveEmulated(s, write, rest, slots);
    var t := Interrupt(s, write + rest, slots);
    Handled(t, c.(dr6 := c.dr6[BD := t.actualDr6[BD]]));
  }

  /** rax has bit 13 set, everything else is zero. */
  function WithBd(): (s: Cpu)
    ensures Settled(s)
  {
    var s := AllZero();
    s.(frame := s.frame.(gp := s.frame.gp[0 := Zero()[BD := true]]))
  }

  /** mov dr6, rax */
  function WriteDr6(): (code: seq<nat>)
    ensures Decodable(code)
  {
    [0x0f, 0x23, 0xf0]
  }

  /** nop; cpuid; nop */
  function NopCpuid(): (code: seq<nat>)
    ensures Decodable(code) && OpcodeAt(code) == 1
  {
    var code: seq<nat> := [0x90, 0x0f, 0xa2, 0x90];
    assert code[1..][0] == 0x0f;
    code
  }

  /** A single step, with BD as it is in DR6. */
  function StepAt(s: Cpu, code: seq<nat>): Cause {
    Cause(Zero()[BS := true][BD := s.actualDr6[BD]], true, code, false)
  }

  /** The guest sets BD and then steps from nop to cpuid: rip goes from 3 to 7. */
  lemma {:induction false} BdMistakenExample()
    ensures var t := Interrupt(WithBd(), WriteDr6(), []);
      var step := StepAt(t, NopCpuid());
      && t.frame.rip == 3 && Exception(t, step, []).frame.rip == 7
      && Handle(Raised(t, step.dr6), step.kernel, step.code, step.byDbvm).1 == 1
  {
    hide Interrupt, Exception, Handle, MoveDr, MoveGp, Settled, PlainMove, Decodable, OpcodeAt, Stored, SetsBd;
    hide WithBd, NopCpuid;
    MoveSetsBd();
    assert WriteDr6() + [] == WriteDr6();
    MoveEmulated(WithBd(), WriteDr6(), [], []);
    BdMistaken(WithBd(), WriteDr6(), [], [], Cause(Zero()[BS := true], true, NopCpuid(), false), []);
  }

  lemma MoveSetsBd()
    ensures PlainMove(WriteDr6()) && SetsBd(ViewOf(WithBd()), WriteDr6()) && WithBd().frame.rip == 0
  {
    assert Prefixes(WriteDr6()) == [];
  }

  // ---- runs ----

  /** One caught instruction and the bytes after it, or a debug exception of a process that is not debugged; and
      the breakpoints the debugger has set by then. */
  datatype Event =
    | Access(instr: seq<nat>, rest: seq<nat>, slots: seq<Breakpoint>)
    | Other(cause: Cause, slots: seq<Breakpoint>)

  predicate Plain(e: Event) {
    match e
    case Access(instr, _, _) => PlainMove(instr)
    case Other(c, _) => c.kernel ==> Decodable(c.code)
  }

  predicate AllPlain(evs: seq<Event>) {
    forall i | 0 <= i < |evs| :: Plain(evs[i])
  }

  /** The processor sets and clears causes in DR6, but BD stays as it was. */
  function Delivered(s: Cpu, c: Cause): Cause {
    c.(dr6 := c.dr6[BD := s.actualDr6[BD]])
  }

  ghost function Happen(s: Cpu, e: Event): (r: Cpu)
    requires Settled(s) && Plain(e)
    ensures Settled(r)
  {
    match e
    case Access(instr, rest, slots) =>
      MoveEmulated(s, instr, rest, slots);
      Interrupt(s, instr + rest, slots)
    case Other(c, slots) =>
      ExceptionExact(s, Delivered(s, c), slots);
      Exception(s, Delivered(s, c), slots)
  }

  ghost function HappenAll(s: Cpu, evs: seq<Event>): (r: Cpu)
    requires Settled(s) && AllPlain(evs)
    ensures Settled(r)
    decreases |evs|
  {
    if evs == [] then s else Happen(HappenAll(s, evs[..|evs| - 1]), evs[|evs| - 1])
  }

  /** The guest's own moves; it takes no notice of the rest. */
  ghost function MoveAll(v: View, evs: seq<Event>): (r: View)
    requires |v.dr| == 4 && |v.gp| == 16 && AllPlain(evs)
    ensures |r.dr| == 4 && |r.gp| == 16
    decreases |evs|
  {
    if evs == [] then v
    else
      var w := MoveAll(v, evs[..|evs| - 1]);
      match evs[|evs| - 1]
      case Access(instr, _, _) =>
        assert Plain(evs[|evs| - 1]);
        Move(w, instr)
      case Other(_, _) => w
  }

  /** BD is set after these events: the last one was a move that sets it, or there was none and it was set before. */
  ghost predicate BdPending(bd: bool, v: View, evs: seq<Event>)
    requires |v.dr| == 4 && |v.gp| == 16 && AllPlain(evs)
  {
    if evs == [] then bd
    else
      assert Plain(evs[|evs| - 1]);
      evs[|evs| - 1].Access? && SetsBd(MoveAll(v, evs[..|evs| - 1]), evs[|evs| - 1].instr)
  }

  /** The event is a move, or an exception that finds BD clear, or one of user code with a DR6 the guest knows. */
  ghost predicate CarefulAt(bd: bool, v: View, evs: seq<Event>, i: nat)
    requires |v.dr| == 4 && |v.gp| == 16 && AllPlain(evs) && i < |evs|
  {
    evs[i].Other? ==>
      var c := evs[i].cause;
      Harmless(c.(dr6 := c.dr6[BD := BdPending(bd, v, evs[..i])]), MoveAll(v, evs[..i]).dr6)
  }

  /** What the guest has to see to, told by its own registers alone: no exception comes right after a move that
      sets BD, or first when it is set at the start, but for harmless ones. */
  ghost predicate Careful(bd: bool, v: View, evs: seq<Event>)
    requires |v.dr| == 4 && |v.gp| == 16 && AllPlain(evs)
  {
    forall i | 0 <= i < |evs| :: CarefulAt(bd, v, evs, i)
  }

  lemma CarefulFirst(bd: bool, v: View, evs: seq<Event>)
    requires |v.dr| == 4 && |v.gp| == 16 && AllPlain(evs) && evs != []
    ensures Careful(bd, v, evs)
       <==> Careful(bd, v, evs[..|evs| - 1]) && CarefulAt(bd, v, evs, |evs| - 1)
  {
    hide BdPending, MoveAll, Harmless, Plain;
    var first := evs[..|evs| - 1];
    forall i | 0 <= i < |first|
      ensures CarefulAt(bd, v, first, i) == CarefulAt(bd, v, evs, i)
    {
      assert first[..i] == evs[..i];
    }
    if Careful(bd, v, first) && CarefulAt(bd, v, evs, |evs| - 1) {
      forall i | 0 <= i < |evs|
        ensures CarefulAt(bd, v, evs, i)
      {
        assert i < |first| ==> CarefulAt(bd, v, first, i);
      }
    }
  }

  /** A guest that never sets BD need not take care of anything else. */
  lemma {:induction false} WithoutBd(v: View, evs: seq<Event>)
    requires |v.dr| == 4 && |v.gp| == 16 && AllPlain(evs)
    requires forall i | 0 <= i < |evs| :: !BdPending(false, v, evs[..i])
    ensures Careful(false, v, evs)
  {
    hide BdPending, MoveAll;
    forall i | 0 <= i < |evs|
      ensures CarefulAt(false, v, evs, i)
    {
      assert !BdPending(false, v, evs[..i]);
    }
  }

  lemma HappenView(s: Cpu, e: Event)
    requires Settled(s) && Plain(e)
    ensures e.Access? ==> |e.instr| >= 3 && ViewOf(Happen(s, e)) == Move(ViewOf(s), e.instr)
    ensures e.Access? ==> (Happen(s, e).fakeDr6[BD] <==> SetsBd(ViewOf(s), e.instr))
    ensures e.Other? ==> (ViewOf(Happen(s, e)) == ViewOf(s) <==> Harmless(Delivered(s, e.cause), ViewOf(s).dr6))
    ensures e.Other? && Harmless(Delivered(s, e.cause), ViewOf(s).dr6) ==> !Happen(s, e).fakeDr6[BD]
    ensures Placed(Happen(s, e).fake, e.slots, Happen(s, e).actual) && Happen(s, e).actual.dr7[13]
  {
    hide Interrupt, Handle, Move, Placed, Clean, SetsBd, PlaceAll, Decodable;
    match e
    case Access(instr, rest, slots) =>
      MoveEmulated(s, instr, rest, slots);
      BdAfter(s, instr, rest, slots);
    case Other(c, slots) =>
      ExceptionExact(s, Delivered(s, c), slots);
      Handled(s, Delivered(s, c));
  }

  /** Any run of caught moves and other debug exceptions of a careful guest: it sees the registers of a processor
      of its own. The real registers hold its enabled ones and the breakpoints in the rest, careful or not. */
  lemma {:induction false} RunEmulated(s: Cpu, evs: seq<Event>)
    requires Settled(s) && AllPlain(evs)
    ensures Careful(s.fakeDr6[BD], ViewOf(s), evs) ==> ViewOf(HappenAll(s, evs)) == MoveAll(ViewOf(s), evs)
    ensures Careful(s.fakeDr6[BD], ViewOf(s), evs) ==>
      (HappenAll(s, evs).fakeDr6[BD] <==> BdPending(s.fakeDr6[BD], ViewOf(s), evs))
    ensures var r := HappenAll(s, evs);
      evs != [] ==> Placed(r.fake, evs[|evs| - 1].slots, r.actual) && r.actual.dr7[13]
    decreases |evs|
  {
    if evs != [] {
      hide Happen, Move, ViewOf, Placed, Plain, Careful, Harmless, SetsBd;
      RunEmulated(s, evs[..|evs| - 1]);
      HappenView(HappenAll(s, evs[..|evs| - 1]), evs[|evs| - 1]);
      CarefulFirst(s.fakeDr6[BD], ViewOf(s), evs);
    }
  }

  /** Being careful is also necessary for the guest to see its own registers all along. */
  lemma {:induction false} RunExact(s: Cpu, evs: seq<Event>)
    requires Settled(s) && AllPlain(evs)
    ensures (forall k | 0 <= k <= |evs| :: ViewOf(HappenAll(s, evs[..k])) == MoveAll(ViewOf(s), evs[..k]))
       <==> Careful(s.fakeDr6[BD], ViewOf(s), evs)
    decreases |evs|
  {
    hide HappenAll, MoveAll, ViewOf, Careful, Delivered, Plain;
    if Careful(s.fakeDr6[BD], ViewOf(s), evs) {
      forall k | 0 <= k <= |evs|
        ensures ViewOf(HappenAll(s, evs[..k])) == MoveAll(ViewOf(s), evs[..k])
      {
        CarefulPrefix(s.fakeDr6[BD], ViewOf(s), evs, k);
        RunEmulated(s, evs[..k]);
      }
    } else {
      AstrayOnce(s, evs);
    }
  }

  lemma {:induction false} CarefulPrefix(bd: bool, v: View, evs: seq<Event>, k: nat)
    requires |v.dr| == 4 && |v.gp| == 16 && AllPlain(evs) && k <= |evs| && Careful(bd, v, evs)
    ensures AllPlain(evs[..k]) && Careful(bd, v, evs[..k])
    decreases |evs|
  {
    hide Careful, CarefulAt, Plain;
    if k < |evs| {
      CarefulFirst(bd, v, evs);
      assert evs[..|evs| - 1][..k] == evs[..k];
      CarefulPrefix(bd, v, evs[..|evs| - 1], k);
    } else {
      assert evs[..k] == evs;
    }
  }

  lemma {:induction false} AstrayOnce(s: Cpu, evs: seq<Event>)
    requires Settled(s) && AllPlain(evs) && !Careful(s.fakeDr6[BD], ViewOf(s), evs)
    ensures exists k :: 0 <= k <= |evs| && ViewOf(HappenAll(s, evs[..k])) != MoveAll(ViewOf(s), evs[..k])
    decreases |evs|
  {
    hide Happen, Move, ViewOf, Placed, Plain, Careful, Harmless, SetsBd;
    var n := |evs| - 1;
    var v, bd := ViewOf(s), s.fakeDr6[BD];
    if evs == [] {
      CarefulNone(bd, v, evs);
    }
    CarefulFirst(bd, v, evs);
    if Careful(bd, v, evs[..n]) {
      RunEmulated(s, evs[..n]);
      HappenView(HappenAll(s, evs[..n]), evs[n]);
      assert !CarefulAt(bd, v, evs, n) && MoveAll(v, evs) == MoveAll(v, evs[..n]);
      assert ViewOf(HappenAll(s, evs)) != MoveAll(v, evs);
      assert evs[..|evs|] == evs;
    } else {
      AstrayOnce(s, evs[..n]);
      var k :| 0 <= k <= n && ViewOf(HappenAll(s, evs[..n][..k])) != MoveAll(v, evs[..n][..k]);
      assert evs[..n][..k] == evs[..k];
    }
  }

  lemma CarefulNone(bd: bool, v: View, evs: seq<Event>)
    requires |v.dr| == 4 && |v.gp| == 16 && evs == []
    ensures AllPlain(evs) && Careful(bd, v, evs)
  {
  }

  /** The event does not write register n. */
  predicate Spares(n: nat, e: Event)
    requires Plain(e)
  {
    e.Access? ==> Reads(e.instr) || MoveDr(e.instr) != n
  }

  lemma {:induction false} Undisturbed(v: View, n: nat, evs: seq<Event>)
    requires |v.dr| == 4 && |v.gp| == 16 && AllPlain(evs) && (n < 4 || n == 6 || n == 7)
    requires forall i | 0 <= i < |evs| :: Spares(n, evs[i])
    ensures DrOf(MoveAll(v, evs), n) == DrOf(v, n)
    decreases |evs|
  {
    if evs != [] {
      hide PlainMove, MoveDr, MoveGp, Stored;
      Undisturbed(v, n, evs[..|evs| - 1]);
      var e := evs[|evs| - 1];
      assert Spares(n, e);
      if e.Access? {
        PlainHasThree(e.instr);
      }
    }
  }

  /** A value written to a debug register is read back later by a careful guest, however often breakpoints were
      loaded between. */
  lemma {:induction false} ReadBack(s: Cpu, write: Event, between: seq<Event>, read: Event)
    requires Settled(s) && write.Access? && Plain(write) && !Reads(write.instr)
    requires read.Access? && Plain(read) && Reads(read.instr) && MoveDr(read.instr) == MoveDr(write.instr)
    requires AllPlain(between) && forall i | 0 <= i < |between| :: Spares(MoveDr(write.instr), between[i])
    requires Careful(SetsBd(ViewOf(s), write.instr), Move(ViewOf(s), write.instr), between)
    ensures HappenAll(Happen(s, write), between).Valid() && AllPlain(between + [read])
    ensures ReadsBack(MoveDr(write.instr), s.frame.gp[MoveGp(write.instr)],
                      HappenAll(Happen(s, write), between + [read]).frame.gp[MoveGp(read.instr)])
  {
    hide ReadsBack, MoveDr, MoveGp, Stored, Happen, HappenAll, Clean, MoveInstr, Move, Reads, Spares, Careful, SetsBd;
    hide Harmless;
    PlainHasThree(write.instr);
    HappenView(s, write);
    WriteSets(ViewOf(s), write.instr);
    ReadLater(Happen(s, write), MoveDr(write.instr), between, read);
    StoredBits(MoveDr(write.instr), s.frame.gp[MoveGp(write.instr)]);
  }

  lemma ReadLater(t: Cpu, n: nat, between: seq<Event>, read: Event)
    requires Settled(t) && (n < 4 || n == 6 || n == 7)
    requires read.Access? && Plain(read) && Reads(read.instr) && MoveDr(read.instr) == n
    requires AllPlain(between) && forall i | 0 <= i < |between| :: Spares(n, between[i])
    requires Careful(t.fakeDr6[BD], ViewOf(t), between)
    ensures AllPlain(between + [read])
    ensures HappenAll(t, between + [read]).frame.gp[MoveGp(read.instr)] == DrOf(ViewOf(t), n)
  {
    hide MoveDr, MoveGp, HappenAll, Clean, MoveInstr, Move, Reads, Spares, Careful;
    PlainHasThree(read.instr);
    var all := between + [read];
    assert all[..|all| - 1] == between;
    CarefulFirst(t.fakeDr6[BD], ViewOf(t), all);
    RunEmulated(t, all);
    Undisturbed(ViewOf(t), n, between);
    ReadGets(MoveAll(ViewOf(t), between), read.instr);
  }

  lemma WriteSets(v: View, instr: seq<nat>)
    requires |v.dr| == 4 && |v.gp| == 16 && |instr| >= 3 && !Reads(instr)
    ensures DrOf(Move(v, instr), MoveDr(instr)) == Stored(MoveDr(instr), v.gp[MoveGp(instr)])
  {
    hide MoveDr, MoveGp, Stored;
  }

  lemma ReadGets(v: View, instr: seq<nat>)
    requires |v.dr| == 4 && |v.gp| == 16 && |instr| >= 3 && Reads(instr)
    ensures Move(v, instr).gp[MoveGp(instr)] == DrOf(v, MoveDr(instr))
  {
    hide MoveDr, MoveGp;
  }

  /** What the entry stub is told: 0 only for what is passed on. */
  lemma ResultOf(s: Cpu, c: Cause)
    requires s.Valid() && c.Scannable()
    ensures var handled := Handle(Raised(s, c.dr6), c.kernel, c.code, c.byDbvm).1;
      (if handled == 2 then 1 else handled)
      == if (c.dr6[BD] && c.kernel) || HitsDebugger(c.dr6, s.fake.dr7) || c.byDbvm then 1 else 0
  {
    hide HitsDebugger, Elsewhere, FromFrame, ToFrame, FakeValue, WriteDebug, Decodable;
    if !(c.dr6[BD] && c.kernel) {
      HandledExact(s, c);
    }
  }

  // ---- the code, updating the state in place ----

  class Int1Handler {
    var fake: Registers
    var fakeDr6: Word
    var inEpilogue: bool
    var actual: Registers
    var actualDr6: Word
    var frame: Frame

    function State(): Cpu
      reads this
    {
      Cpu(fake, fakeDr6, inEpilogue, actual, actualDr6, frame)
    }

    /** The branch of interrupt1_handler that carries out the instruction. */
    method HandleAccess(code: seq<nat>) returns (handled: nat)
      requires State().Valid() && Decodable(code)
      modifies this
      ensures (State(), handled) == Emulate(old(State()), code)
    {
      hide OpcodeAt, LooksLikeRexB, Zero;
      actualDr6 := actualDr6[BD := false];
      if inEpilogue {
        frame := frame.(rf := true);
        return 2;
      }
      fakeDr6 := actualDr6;

      var instructionPointer := FindOpcode(code);
      var debugRegister := code[instructionPointer + 2] / 8 % 8;
      var generalPurposeRegister := DecodeGp(code, instructionPointer);

      if code[instructionPointer + 1] == 0x21 {
        var value := if debugRegister < 4 then fake.dr[debugRegister]
          else if debugRegister == 4 || debugRegister == 6 then fakeDr6
          else fake.dr7;
        frame := ToFrame(frame, generalPurposeRegister, value);
      } else if code[instructionPointer + 1] == 0x23 {
        var value := FromFrame(frame, generalPurposeRegister);
        if debugRegister < 4 {
          actual := actual.(dr := actual.dr[debugRegister := value]);
          fake := fake.(dr := fake.dr[debugRegister := actual.dr[debugRegister]]);
        } else if debugRegister == 4 || debugRegister == 6 {
          actualDr6 := value;
          fakeDr6 := actualDr6;
        } else {
          actual := actual.(dr7 := value[10 := true][13 := false]);
          fake := fake.(dr7 := actual.dr7);
        }
      }
      frame := frame.(rip := frame.rip + instructionPointer + 3);
      handled := 1;
    }

    static method FindOpcode(code: seq<nat>) returns (at: nat)
      requires 0x0f in code
      ensures at == OpcodeAt(code)
    {
      at := 0;
      while code[at] != 0x0f
        invariant at < |code| && 0x0f !in code[..at]
        invariant 0x0f in code[at..] && OpcodeAt(code) == at + OpcodeAt(code[at..])
        decreases |code| - at
      {
        assert code[at..][1..] == code[at + 1..];
        at := at + 1;
      }
    }

    static method DecodeGp(code: seq<nat>, at: nat) returns (g: nat)
      requires Decodable(code) && at == OpcodeAt(code)
      ensures g == GpIndex(code)
    {
      g := code[at + 2] % 8;
      for prefixPointer := 0 to at
        invariant g == code[at + 2] % 8 + 8 * CountRexB(code[..prefixPointer])
      {
        assert code[..prefixPointer + 1][..prefixPointer] == code[..prefixPointer];
        if LooksLikeRexB(code[prefixPointer]) {
          g := g + 8;
        }
      }
    }

    /** The end of interrupt1_handler for a process that is not debugged. */
    method HandleElsewhere(byDbvm: bool) returns (handled: nat)
      requires State().Valid()
      modifies this
      ensures (State(), handled) == Elsewhere(old(State()), byDbvm)
    {
      for i := 0 to 4
        invariant State() == old(State())
        invariant forall j: nat | j < i :: !(actualDr6[j] && IsFree(fake.dr7, j))
      {
        if actualDr6[i] && IsFree(fake.dr7, i) {
          frame := frame.(rf := true);
          return 1;
        }
      }
      handled := if byDbvm then 1 else 0;
    }

    static method CopyDr6(fakeDr6: Word, dr6: Word, dr7: Word, handled: nat) returns (copy: Word)
      ensures copy == if handled == 0 then IntendedDr6(fakeDr6, dr6, dr7) else fakeDr6
    {
      hide IsFree;
      copy := fakeDr6;
      if handled == 0 {
        copy := copy[BD := copy[BD] || (dr6[BD] && dr7[GD])];
        for i := 0 to 4
          invariant forall b | 0 <= b < 64 ::
            copy[b] == if b < i || b == BD then IntendedBit(fakeDr6, dr6, dr7, b) else fakeDr6[b]
        {
          copy := copy[i := copy[i] || (dr6[i] && !IsFree(dr7, i))];
        }
        copy := copy[BS := dr6[BS]];
        copy := copy[BT := dr6[BT]];
        assert copy == IntendedDr6(fakeDr6, dr6, dr7);
      }
    }

    /** The epilogue, with the copy of DR6 that it works out for an exception that is passed on. */
    method RunEpilogue(slots: seq<Breakpoint>, handled: nat) returns (copy: Word)
      requires State().Valid() && |slots| == 4
      modifies this
      ensures State() == Epilogue(old(State()), slots, handled)
      ensures copy == if handled == 0 then IntendedDr6(fakeDr6, old(actualDr6), fake.dr7) else fakeDr6
    {
      hide PlaceAll, IsFree, IntendedDr6;
      inEpilogue := true;
      copy := CopyDr6(fakeDr6, actualDr6, fake.dr7, handled);
      actual := PlaceBreakpoints(fake, slots);
      actualDr6 := fakeDr6;
      if handled != 2 {
        inEpilogue := false;
        actual := actual.(dr7 := actual.dr7[GD := true]);
      }
    }

    /** interrupt1_handler for a process that is not debugged. */
    method HandleInterrupt(kernel: bool, code: seq<nat>, byDbvm: bool) returns (handled: nat)
      requires State().Valid() && (actualDr6[BD] && kernel ==> Decodable(code))
      modifies this
      ensures (State(), handled) == Handle(old(State()), kernel, code, byDbvm)
    {
      hide Emulate, Elsewhere;
      if actualDr6[BD] {
        if kernel {
          handled := HandleAccess(code);
          return;
        }
        actualDr6 := actualDr6[BD := false];
        fakeDr6 := actualDr6;
      }
      handled := HandleElsewhere(byDbvm);
    }

    /** The interrupt for any debug exception of such a process, from entry to return. */
    method Int1(c: Cause, slots: seq<Breakpoint>) returns (handled: nat)
      requires State().Valid() && c.Scannable() && |slots| == 4
      modifies this
      ensures State() == Exception(old(State()), c, slots)
      ensures handled == if (c.dr6[BD] && c.kernel) || HitsDebugger(c.dr6, old(fake).dr7) || c.byDbvm then 1 else 0
    {
      hide Handle, Epilogue, HitsDebugger;
      ResultOf(State(), c);
      actualDr6 := c.dr6;
      actual := actual.(dr7 := actual.dr7[GD := false]);
      handled := HandleInterrupt(c.kernel, c.code, c.byDbvm);
      var copy := RunEpilogue(slots, handled);
      if handled == 2 {
        handled := 1;
      }
    }
  }
}
