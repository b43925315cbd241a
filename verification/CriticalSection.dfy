/** The re-entrant spinlock of DBKKernel/DBKFunc.c: csEnter, csLeave and spinlock, with any number of CPUs
    interleaving single reads and writes. A CPU runs one call at a time. */
module CriticalSection {
  import opened Options

  type CpuId = nat

  /** The last thing a CPU did inside csEnter or csLeave. */
  datatype Place =
    | Outside
    // csEnter
    | FlagsRead
    | LockSeen
    | OwnNumberSeen
    | CountRead
    | Masked
    | Taken
    | CountSet
    | NumberSet
    // csLeave
    | Leaving
    | LeaveLockSeen
    | LeaveOwnNumberSeen
    | LeaveCountRead
    | Counted
    | CountZero
    | Restored
    | NumberCleared

  datatype Lock = Lock(locked: bool, cpunr: int, lockCount: int, oldIf: bool)

  /** `flag` is the interrupt flag, `saved` and `count` the locals of the call; `depth` is the number of
      csEnter calls not yet matched and `before` the interrupt flag when the outermost of them began. `touched`
      tells whether code in the section has set the flag, and `left` how it stood when the section ended. */
  datatype Cpu = Cpu(
    place: Place, flag: bool, saved: bool, count: int, depth: nat, before: bool, touched: bool, left: bool)

  /** `owner` is the CPU whose exchange found the lock free, until it writes the lock free again. */
  datatype State = State(lock: Lock, cpus: map<CpuId, Cpu>, owner: Option<CpuId>)

  /** Between calls, inside a section or not, a CPU may turn its interrupts on or off. */
  datatype Action = Enter(c: CpuId) | Leave(c: CpuId) | Step(c: CpuId) | SetFlag(c: CpuId, flag: bool)

  // ---- single steps ----

  function With(s: State, c: CpuId, u: Cpu): State {
    s.(cpus := s.cpus[c := u])
  }

  function Do(s: State, a: Action): Option<State> {
    if a.c !in s.cpus then None
    else
      var u := s.cpus[a.c];
      match a
      case Enter(c) =>
        if u.place.Outside? then
          Some(With(s, c, u.(place := FlagsRead, saved := u.flag, before := if u.depth == 0 then u.flag else u.before)))
        else None
      case Leave(c) => if u.place.Outside? then Some(With(s, c, u.(place := Leaving))) else None
      case Step(c) => if u.place.Outside? then None else Some(CpuStep(s, c, u))
      case SetFlag(c, flag) =>
        if u.place.Outside? then Some(With(s, c, u.(flag := flag, touched := u.touched || u.depth > 0))) else None
  }

  /** The step's effect on the lock and the CPU, and whether the lock was won or given up. */
  datatype Effect = Effect(lock: Lock, cpu: Cpu, won: bool, gaveUp: bool)

  function Stay(k: Lock, u: Cpu): Effect {
    Effect(k, u, false, false)
  }

  function Effects(k: Lock, c: CpuId, u: Cpu): Effect
    requires !u.place.Outside?
  {
    if InEnter(u.place) then EnterStep(k, c, u) else LeaveStep(k, c, u)
  }

  predicate InEnter(p: Place) {
    p.FlagsRead? || p.LockSeen? || p.OwnNumberSeen? || p.CountRead? || p.Masked? || p.Taken? || p.CountSet?
    || p.NumberSet?
  }

  function EnterStep(k: Lock, c: CpuId, u: Cpu): Effect
    requires InEnter(u.place)
  {
    match u.place
    case FlagsRead => Stay(k, u.(place := if k.locked then LockSeen else Masked, flag := k.locked && u.flag))
    case LockSeen =>
      Stay(k, u.(place := if k.cpunr == c then OwnNumberSeen else Masked, flag := k.cpunr == c && u.flag))
    case OwnNumberSeen => Stay(k, u.(place := CountRead, count := k.lockCount))
    case CountRead => Stay(k.(lockCount := u.count + 1), u.(place := Outside, depth := u.depth + 1))
    case Masked =>
      if k.locked then Stay(k, u)
      else Effect(k.(locked := true), u.(place := Taken, touched := false), true, false)
    case Taken => Stay(k.(lockCount := 1), u.(place := CountSet))
    case CountSet => Stay(k.(cpunr := c), u.(place := NumberSet))
    case NumberSet => Stay(k.(oldIf := u.saved), u.(place := Outside, depth := u.depth + 1))
  }

  function LeaveStep(k: Lock, c: CpuId, u: Cpu): Effect
    requires !u.place.Outside? && !InEnter(u.place)
  {
    match u.place
    case Leaving => Stay(k, if k.locked then u.(place := LeaveLockSeen) else Returned(u))
    case LeaveLockSeen => Stay(k, if k.cpunr == c then u.(place := LeaveOwnNumberSeen) else Returned(u))
    case LeaveOwnNumberSeen => Stay(k, u.(place := LeaveCountRead, count := k.lockCount))
    case LeaveCountRead => Stay(k.(lockCount := u.count - 1), u.(place := Counted))
    case Counted => Stay(k, if k.lockCount == 0 then u.(place := CountZero) else Returned(u))
    case CountZero => Stay(k, u.(place := Restored, flag := k.oldIf || u.flag, left := u.flag))
    case Restored => Stay(k.(cpunr := -1), u.(place := NumberCleared))
    case NumberCleared => Effect(k.(locked := false), Returned(u), false, true)
  }

  function CpuStep(s: State, c: CpuId, u: Cpu): State
    requires !u.place.Outside?
  {
    var e := Effects(s.lock, c, u);
    State(e.lock, s.cpus[c := e.cpu], if e.won then Some(c) else if e.gaveUp then None else s.owner)
  }

  /** csLeave returns. */
  function Returned(u: Cpu): Cpu {
    u.(place := Outside, depth := if u.depth > 0 then u.depth - 1 else 0)
  }

  function Run(s: State, actions: seq<Action>): Option<State> {
    if actions == [] then Some(s)
    else
      match Run(s, actions[..|actions| - 1])
      case None => None
      case Some(t) => Do(t, actions[|actions| - 1])
  }

  /** The lock is free and no CPU is in a call. */
  predicate Init(s: State) {
    && !s.lock.locked && s.owner == None
    && (forall c | c in s.cpus :: s.cpus[c].place.Outside? && s.cpus[c].depth == 0)
  }

  // ---- the property ----

  /** From winning the lock until giving it up, and whenever csEnter has returned more often than csLeave. */
  predicate Inside(u: Cpu) {
    u.depth > 0 || u.place.Taken? || u.place.CountSet? || u.place.NumberSet?
  }

  ghost predicate Exclusive(s: State) {
    forall c, d | c in s.cpus && d in s.cpus && Inside(s.cpus[c]) && Inside(s.cpus[d]) :: c == d
  }

  /** The initial cpunr field names no CPU but the only one there is. */
  predicate GoodNumber(s: State) {
    forall c | c in s.cpus && s.lock.cpunr == c :: s.cpus.Keys == {c}
  }

  // ---- the invariant ----

  /** The cpunr field names the owner between these two writes. */
  predicate Numbered(p: Place) {
    !p.Taken? && !p.CountSet? && !p.NumberCleared?
  }

  /** How many calls lockCount stands for while its owner is at this place. */
  function CountOf(u: Cpu): int {
    match u.place
    case CountSet => 1
    case NumberSet => 1
    case Counted => u.depth - 1
    case CountZero => 0
    case Restored => 0
    case NumberCleared => 0
    case _ => u.depth
  }

  /** What holds of the lock and its owner. */
  predicate Owned(k: Lock, c: CpuId, u: Cpu) {
    && Inside(u)
    && (Numbered(u.place) ==> k.cpunr == c) && (u.place.NumberCleared? ==> k.cpunr == -1)
    && (!u.place.Taken? ==> k.lockCount == CountOf(u))
    && (u.place.Taken? || u.place.CountSet? || u.place.NumberSet? ==> u.depth == 0 && u.saved == u.before)
    && (u.depth > 0 ==> k.oldIf == u.before)
    && (u.place.CountRead? || u.place.LeaveCountRead? ==> u.count == k.lockCount)
    && (u.place.CountZero? || u.place.Restored? || u.place.NumberCleared? ==> u.depth == 1)
    && (u.place.Taken? ==> !u.touched)
    && (if u.place.Restored? || u.place.NumberCleared? then u.flag == (u.before || u.left) && (u.left ==> u.touched)
        else u.flag ==> u.touched)
    && !u.place.Masked?
  }

  /** What holds of a CPU that does not own the lock: it is not inside, and has seen nothing that would let it in. */
  predicate NotOwned(u: Cpu) {
    && u.depth == 0
    && (u.place.Outside? || u.place.FlagsRead? || u.place.LockSeen? || u.place.Masked? || u.place.Leaving?
        || u.place.LeaveLockSeen?)
    && (u.place.FlagsRead? || u.place.LockSeen? ==> u.saved == u.flag == u.before)
    && (u.place.Masked? ==> u.saved == u.before && !u.flag)
  }

  /** The cpunr field names no such CPU, unless there is no other; then it has not found the lock taken. */
  predicate NotNamed(k: Lock, all: set<CpuId>, c: CpuId, u: Cpu) {
    && (k.cpunr == c ==> all == {c})
    && (all == {c} ==> !u.place.LockSeen? && !u.place.LeaveLockSeen?)
  }

  predicate Inv(s: State) {
    && (s.lock.locked <==> s.owner.Some?)
    && (s.owner.Some? ==> s.owner.value in s.cpus && Owned(s.lock, s.owner.value, s.cpus[s.owner.value]))
    && (forall c | c in s.cpus && s.owner != Some(c) ::
          NotOwned(s.cpus[c]) && NotNamed(s.lock, s.cpus.Keys, c, s.cpus[c]))
  }

  lemma InitInv(s: State)
    requires Init(s) && GoodNumber(s)
    ensures Inv(s)
  {
  }

  lemma SameCpus(s: State, c: CpuId, u: Cpu)
    requires c in s.cpus
    ensures With(s, c, u).cpus.Keys == s.cpus.Keys
  {
  }

  /** What a step of csEnter does to the owner. */
  lemma OwnerEnters(k: Lock, c: CpuId, u: Cpu)
    requires k.locked && InEnter(u.place) && Owned(k, c, u)
    ensures var e := Effects(k, c, u);
      && !e.won && !e.gaveUp && e.lock.locked && Owned(e.lock, c, e.cpu)
      && (e.lock.cpunr == k.cpunr || e.lock.cpunr == c)
  {
    hide LeaveStep;
  }

  /** What a step of csLeave does to the owner, up to its test of the count. */
  lemma OwnerCounts(k: Lock, c: CpuId, u: Cpu)
    requires k.locked && !u.place.Outside? && !InEnter(u.place) && !Ending(u.place) && Owned(k, c, u)
    ensures var e := Effects(k, c, u);
      && !e.won && !e.gaveUp && e.lock.locked && Owned(e.lock, c, e.cpu) && e.lock.cpunr == k.cpunr
  {
    hide EnterStep;
  }

  predicate Ending(p: Place) {
    p.CountZero? || p.Restored? || p.NumberCleared?
  }

  /** And after it. */
  lemma OwnerEnds(k: Lock, c: CpuId, u: Cpu)
    requires k.locked && Ending(u.place) && Owned(k, c, u)
    ensures var e := Effects(k, c, u);
      && !e.won && e.lock.locked == !e.gaveUp && (e.lock.cpunr == k.cpunr || e.lock.cpunr == -1)
      && (!e.gaveUp ==> Owned(e.lock, c, e.cpu))
      && (e.gaveUp ==> NotOwned(e.cpu) && e.cpu.place.Outside? && e.lock.cpunr == -1)
  {
    hide EnterStep;
  }

  /** Steps of the owner. */
  lemma OwnerKeeps(s: State, c: CpuId)
    requires Inv(s) && s.owner == Some(c) && !s.cpus[c].place.Outside?
    ensures Inv(CpuStep(s, c, s.cpus[c]))
  {
    hide Effects, NotOwned, Owned, InEnter, Ending;
    if InEnter(s.cpus[c].place) {
      OwnerEnters(s.lock, c, s.cpus[c]);
    } else if Ending(s.cpus[c].place) {
      OwnerEnds(s.lock, c, s.cpus[c]);
    } else {
      OwnerCounts(s.lock, c, s.cpus[c]);
    }
    assert CpuStep(s, c, s.cpus[c]).cpus.Keys == s.cpus.Keys;
  }

  /** What a step does to a CPU that does not own the lock: it may win a free one, and changes nothing else. */
  lemma OtherSteps(k: Lock, all: set<CpuId>, c: CpuId, u: Cpu)
    requires c in all && !u.place.Outside? && NotOwned(u) && NotNamed(k, all, c, u)
    requires k.locked ==> all != {c}
    ensures var e := Effects(k, c, u);
      && !e.gaveUp && (e.won ==> !k.locked) && e.lock == k.(locked := k.locked || e.won)
      && (e.won ==> Owned(e.lock, c, e.cpu))
      && (!e.won ==> NotOwned(e.cpu) && NotNamed(e.lock, all, c, e.cpu))
  {
  }

  /** Steps of any other CPU. */
  lemma OtherKeeps(s: State, c: CpuId)
    requires Inv(s) && c in s.cpus && s.owner != Some(c) && !s.cpus[c].place.Outside?
    ensures Inv(CpuStep(s, c, s.cpus[c]))
  {
    hide Effects, NotOwned, Owned;
    assert s.owner.Some? ==> s.owner.value in s.cpus.Keys;
    OtherSteps(s.lock, s.cpus.Keys, c, s.cpus[c]);
    assert CpuStep(s, c, s.cpus[c]).cpus.Keys == s.cpus.Keys;
    OwnedRelocked(s.lock, s);
  }

  /** The lock bit itself does not matter to its owner. */
  lemma OwnedRelocked(k: Lock, s: State)
    ensures s.owner.Some? && s.owner.value in s.cpus && Owned(k, s.owner.value, s.cpus[s.owner.value]) ==>
      Owned(k.(locked := true), s.owner.value, s.cpus[s.owner.value])
  {
  }

  lemma StepKeeps(s: State, a: Action)
    requires Inv(s) && Do(s, a).Some?
    ensures Inv(Do(s, a).value)
  {
    hide CpuStep;
    match a
    case Enter(c) =>
      SameCpus(s, c, Do(s, a).value.cpus[c]);
    case Leave(c) =>
      SameCpus(s, c, Do(s, a).value.cpus[c]);
    case SetFlag(c, flag) =>
      SameCpus(s, c, Do(s, a).value.cpus[c]);
    case Step(c) =>
      if s.owner == Some(c) {
        OwnerKeeps(s, c);
      } else {
        OtherKeeps(s, c);
      }
  }

  lemma {:induction false} RunKeeps(s: State, actions: seq<Action>)
    requires Inv(s) && Run(s, actions).Some?
    ensures Inv(Run(s, actions).value)
  {
    if actions != [] {
      hide Inv, Do;
      RunKeeps(s, actions[..|actions| - 1]);
      StepKeeps(Run(s, actions[..|actions| - 1]).value, actions[|actions| - 1]);
    }
  }

  // ---- what the lock is for ----

  /** In every reachable state: one CPU at most is inside; between calls lockCount is its nesting depth and its
      interrupts are off unless its own code has turned them on; and the outermost csLeave finishes with them as
      they were before exactly when they were on then, or were still off when the section ended. */
  lemma {:induction false} LockSafe(s0: State, actions: seq<Action>)
    requires Init(s0) && GoodNumber(s0) && Run(s0, actions).Some?
    ensures var s := Run(s0, actions).value;
      && Exclusive(s)
      && (forall c | c in s.cpus && s.cpus[c].depth > 0 && s.cpus[c].place.Outside? ::
            && s.lock.locked && s.lock.cpunr == c && s.lock.lockCount == s.cpus[c].depth
            && (s.cpus[c].flag ==> s.cpus[c].touched))
      && (forall c | c in s.cpus && s.cpus[c].place.NumberCleared? ::
            var s' := CpuStep(s, c, s.cpus[c]);
            && s'.cpus[c].depth == 0 && !s'.lock.locked
            && (s'.cpus[c].flag == s.cpus[c].before <==> s.cpus[c].before || !s.cpus[c].left)
            && (!s.cpus[c].touched ==> s'.cpus[c].flag == s.cpus[c].before))
  {
    InitInv(s0);
    RunKeeps(s0, actions);
  }

  // ---- calls come to an end ----

  /** How many steps of its own the owner needs to return from the call it is in: at most four from csEnter, and
      from csLeave five, or eight if it is the outermost. */
  function StepsLeft(u: Cpu): nat {
    var outermost := if u.depth == 1 then 3 else 0;
    match u.place
    case Outside => 0
    case FlagsRead => 4
    case LockSeen => 3
    case OwnNumberSeen => 2
    case CountRead => 1
    case Masked => 0
    case Taken => 3
    case CountSet => 2
    case NumberSet => 1
    case Leaving => 5 + outermost
    case LeaveLockSeen => 4 + outermost
    case LeaveOwnNumberSeen => 3 + outermost
    case LeaveCountRead => 2 + outermost
    case Counted => 1 + outermost
    case CountZero => 3
    case Restored => 2
    case NumberCleared => 1
  }

  /** The depth that the call leads to. */
  function DepthAfter(u: Cpu): int {
    if u.place.Outside? then u.depth else if InEnter(u.place) then u.depth + 1 else u.depth - 1
  }

  /** How many of the actions are the CPU's own. */
  function OwnSteps(actions: seq<Action>, c: CpuId): (n: nat)
    ensures n <= |actions|
  {
    if actions == [] then 0
    else OwnSteps(actions[..|actions| - 1], c) + if actions[|actions| - 1].c == c then 1 else 0
  }

  lemma OwnerStep(k: Lock, c: CpuId, u: Cpu)
    requires k.locked && !u.place.Outside? && Owned(k, c, u)
    ensures var e := Effects(k, c, u);
      && StepsLeft(u) > 0 && StepsLeft(e.cpu) == StepsLeft(u) - 1
      && (e.cpu.place.Outside? <==> StepsLeft(u) == 1)
      && DepthAfter(e.cpu) == DepthAfter(u)
      && !e.won && (e.gaveUp <==> StepsLeft(u) == 1 && DepthAfter(u) == 0)
  {
    hide Owned, EnterStep, LeaveStep, StepsLeft, DepthAfter;
    OwnedFacts(k, c, u);
    if InEnter(u.place) {
      OwnerEnterStep(k, c, u);
    } else if Ending(u.place) {
      OwnerEndStep(k, c, u);
    } else {
      OwnerCountStep(k, c, u);
      OwnerCountDepth(k, c, u);
    }
  }

  /** What the owner's next test depends on. */
  lemma OwnedFacts(k: Lock, c: CpuId, u: Cpu)
    requires Owned(k, c, u)
    ensures !u.place.Masked? && (u.place.Taken? || u.place.CountSet? || u.place.NumberSet? || u.depth > 0)
    ensures u.place.LockSeen? || u.place.LeaveLockSeen? ==> k.cpunr == c
    ensures u.place.Counted? ==> k.lockCount == u.depth - 1
    ensures u.place.Taken? || u.place.CountSet? || u.place.NumberSet? ==> u.depth == 0
    ensures u.place.CountZero? || u.place.Restored? || u.place.NumberCleared? ==> u.depth == 1
  {
  }

  lemma OwnerEnterStep(k: Lock, c: CpuId, u: Cpu)
    requires k.locked && InEnter(u.place) && !u.place.Masked? && (u.place.LockSeen? ==> k.cpunr == c)
    ensures var e := EnterStep(k, c, u);
      && StepsLeft(u) > 0 && StepsLeft(e.cpu) == StepsLeft(u) - 1 && !e.won && !e.gaveUp
      && (e.cpu.place.Outside? <==> StepsLeft(u) == 1) && DepthAfter(e.cpu) == DepthAfter(u) > 0
  {
    match u.place
    case FlagsRead =>
    case LockSeen =>
    case OwnNumberSeen =>
    case CountRead =>
    case Taken =>
    case CountSet =>
    case NumberSet =>
  }

  lemma OwnerCountStep(k: Lock, c: CpuId, u: Cpu)
    requires k.locked && !u.place.Outside? && !InEnter(u.place) && !Ending(u.place) && u.depth > 0
    requires (u.place.LeaveLockSeen? ==> k.cpunr == c) && (u.place.Counted? ==> k.lockCount == u.depth - 1)
    ensures var e := LeaveStep(k, c, u);
      && StepsLeft(u) > 0 && StepsLeft(e.cpu) == StepsLeft(u) - 1 && !e.won && !e.gaveUp
      && (e.cpu.place.Outside? <==> StepsLeft(u) == 1) && (StepsLeft(u) == 1 ==> u.depth > 1)
  {
    hide StepsLeft;
    LeaveSteps(u);
    LeaveSteps(LeaveStep(k, c, u).cpu);
  }

  lemma LeaveSteps(u: Cpu)
    ensures var more := if u.depth == 1 then 3 else 0;
      && (u.place.Outside? <==> StepsLeft(u) == 0 && !u.place.Masked?)
      && (u.place.Leaving? ==> StepsLeft(u) == 5 + more)
      && (u.place.LeaveLockSeen? ==> StepsLeft(u) == 4 + more)
      && (u.place.LeaveOwnNumberSeen? ==> StepsLeft(u) == 3 + more)
      && (u.place.LeaveCountRead? ==> StepsLeft(u) == 2 + more)
      && (u.place.Counted? ==> StepsLeft(u) == 1 + more)
      && (u.place.CountZero? ==> StepsLeft(u) == 3)
  {
  }

  lemma OwnerCountDepth(k: Lock, c: CpuId, u: Cpu)
    requires k.locked && !u.place.Outside? && !InEnter(u.place) && !Ending(u.place) && u.depth > 0
    requires u.place.LeaveLockSeen? ==> k.cpunr == c
    ensures DepthAfter(LeaveStep(k, c, u).cpu) == DepthAfter(u) == u.depth - 1
  {
    match u.place
    case Leaving =>
    case LeaveLockSeen =>
    case LeaveOwnNumberSeen =>
    case LeaveCountRead =>
    case Counted =>
  }

  lemma OwnerEndStep(k: Lock, c: CpuId, u: Cpu)
    requires Ending(u.place) && u.depth == 1
    ensures var e := LeaveStep(k, c, u);
      && StepsLeft(u) > 0 && StepsLeft(e.cpu) == StepsLeft(u) - 1 && !e.won
      && (e.cpu.place.Outside? <==> StepsLeft(u) == 1) && DepthAfter(e.cpu) == DepthAfter(u)
      && (e.gaveUp <==> StepsLeft(u) == 1 && DepthAfter(u) == 0)
  {
    match u.place
    case CountZero =>
    case Restored =>
    case NumberCleared =>
  }

  /** A step of the system, as the owner sees it. */
  lemma OneMoreStep(s: State, a: Action, c: CpuId)
    requires Inv(s) && c in s.cpus && Do(s, a).Some?
    requires a.c == c ==> s.owner == Some(c) && !s.cpus[c].place.Outside?
    ensures var t := Do(s, a).value; var u := s.cpus[c];
      && c in t.cpus && DepthAfter(t.cpus[c]) == DepthAfter(u)
      && (a.c != c ==> t.cpus[c] == u && (t.owner == Some(c) <==> s.owner == Some(c)))
      && (a.c == c ==>
            && StepsLeft(u) > 0 && StepsLeft(t.cpus[c]) == StepsLeft(u) - 1
            && (t.cpus[c].place.Outside? <==> StepsLeft(u) == 1)
            && (t.owner == Some(c) <==> !(StepsLeft(u) == 1 && DepthAfter(u) == 0)))
  {
    hide Effects, Owned, NotOwned, NotNamed, StepsLeft, DepthAfter;
    if a.c == c {
      OwnerStep(s.lock, c, s.cpus[c]);
    } else if a.Step? && s.owner == Some(c) {
      assert c in s.cpus.Keys && a.c in s.cpus.Keys;
      OtherSteps(s.lock, s.cpus.Keys, a.c, s.cpus[a.c]);
    }
  }

  /** The CPU that owns the lock returns from its call after that many steps of its own, whatever the other CPUs do
      between them; the outermost csLeave gives the lock up with its last step and not before. */
  lemma {:induction false} CallEnds(s0: State, before: seq<Action>, c: CpuId, after: seq<Action>)
    requires Init(s0) && GoodNumber(s0) && Run(s0, before).Some?
    requires var s := Run(s0, before).value;
      && s.owner == Some(c) && c in s.cpus && !s.cpus[c].place.Outside?
      && Run(s, after).Some? && OwnSteps(after, c) <= StepsLeft(s.cpus[c])
    ensures var u := Run(s0, before).value.cpus[c]; var t := Run(Run(s0, before).value, after).value;
      var depth := if InEnter(u.place) then u.depth + 1 else u.depth - 1;
      && c in t.cpus && StepsLeft(u) <= 8 && depth >= 0
      && (t.cpus[c].place.Outside? <==> OwnSteps(after, c) == StepsLeft(u))
      && (t.cpus[c].place.Outside? ==> t.cpus[c].depth == depth)
      && (t.owner == Some(c) <==> !(OwnSteps(after, c) == StepsLeft(u) && depth == 0))
  {
    hide Inv, Do, Run;
    InitInv(s0);
    RunKeeps(s0, before);
    var s := Run(s0, before).value;
    InCall(s, c);
    AnyCallEnds(s, c, after);
  }

  lemma InCall(s: State, c: CpuId)
    requires Inv(s) && s.owner == Some(c) && c in s.cpus && !s.cpus[c].place.Outside?
    ensures 0 < StepsLeft(s.cpus[c]) <= 8 && DepthAfter(s.cpus[c]) >= 0
  {
  }

  lemma {:induction false} AnyCallEnds(s: State, c: CpuId, after: seq<Action>)
    requires Inv(s) && s.owner == Some(c) && c in s.cpus && !s.cpus[c].place.Outside?
    requires Run(s, after).Some? && OwnSteps(after, c) <= StepsLeft(s.cpus[c])
    ensures var u, t := s.cpus[c], Run(s, after).value;
      && c in t.cpus && DepthAfter(t.cpus[c]) == DepthAfter(u)
      && StepsLeft(t.cpus[c]) == StepsLeft(u) - OwnSteps(after, c)
      && (t.cpus[c].place.Outside? <==> OwnSteps(after, c) == StepsLeft(u))
      && (t.owner == Some(c) <==> !(OwnSteps(after, c) == StepsLeft(u) && DepthAfter(u) == 0))
  {
    hide StepsLeft, DepthAfter, Inv, Do;
    InCall(s, c);
    if after != [] {
      var init, a := after[..|after| - 1], after[|after| - 1];
      AnyCallEnds(s, c, init);
      RunKeeps(s, init);
      OneMoreStep(Run(s, init).value, a, c);
    }
  }

  /** A CPU that waits takes the lock with its next step when it is free. */
  lemma FreeLockTaken(s: State, c: CpuId)
    requires c in s.cpus && s.cpus[c].place.Masked? && !s.lock.locked
    ensures Do(s, Step(c)).Some? && Do(s, Step(c)).value.owner == Some(c)
    ensures Do(s, Step(c)).value.lock.locked && Do(s, Step(c)).value.cpus[c].place.Taken?
  {
  }

  // ---- the condition on the initial state is necessary ----

  lemma Extend(s0: State, actions: seq<Action>, t: State, a: Action)
    requires Run(s0, actions) == Some(t)
    ensures Run(s0, actions + [a]) == Do(t, a)
  {
    assert (actions + [a])[..|actions|] == actions;
  }

  /** CPU d takes the free lock and has not yet written its number. */
  lemma TakesLock(s0: State, d: CpuId)
    requires Init(s0) && d in s0.cpus
    ensures var run := [Enter(d), Step(d), Step(d)];
      && Run(s0, run).Some?
      && var t := Run(s0, run).value;
      && t.lock == s0.lock.(locked := true) && t.cpus == s0.cpus[d := t.cpus[d]] && t.cpus[d].place.Taken?
  {
    hide Run;
    var run: seq<Action> := [];
    var t := s0;
    EmptyRun(s0);
    Extend(s0, run, t, Enter(d));
    run, t := run + [Enter(d)], Do(t, Enter(d)).value;
    Extend(s0, run, t, Step(d));
    run, t := run + [Step(d)], Do(t, Step(d)).value;
    Extend(s0, run, t, Step(d));
    run, t := run + [Step(d)], Do(t, Step(d)).value;
    assert run == [Enter(d), Step(d), Step(d)];
  }

  /** CPU c, which the field names, walks past the lock that another CPU holds. */
  lemma WalksPast(s0: State, before: seq<Action>, c: CpuId)
    requires Run(s0, before).Some?
    requires var s := Run(s0, before).value;
      && c in s.cpus && s.cpus[c].place.Outside? && s.lock.locked && s.lock.cpunr == c
    ensures var s := Run(s0, before).value;
      var run := before + [Enter(c), Step(c), Step(c), Step(c), Step(c)];
      && Run(s0, run).Some?
      && var t := Run(s0, run).value;
      && t.cpus == s.cpus[c := t.cpus[c]] && t.cpus[c].depth > 0
  {
    hide Run;
    var run := before;
    var t := Run(s0, before).value;
    Extend(s0, run, t, Enter(c));
    run, t := run + [Enter(c)], Do(t, Enter(c)).value;
    Extend(s0, run, t, Step(c));
    run, t := run + [Step(c)], Do(t, Step(c)).value;
    Extend(s0, run, t, Step(c));
    run, t := run + [Step(c)], Do(t, Step(c)).value;
    Extend(s0, run, t, Step(c));
    run, t := run + [Step(c)], Do(t, Step(c)).value;
    Extend(s0, run, t, Step(c));
    run, t := run + [Step(c)], Do(t, Step(c)).value;
    assert run == before + [Enter(c), Step(c), Step(c), Step(c), Step(c)];
  }

  /** If the field names CPU c from the start, c walks past a lock that CPU d has just taken. */
  lemma {:induction false} TwoInside(s0: State, c: CpuId, d: CpuId)
    requires Init(s0) && c in s0.cpus && d in s0.cpus && c != d && s0.lock.cpunr == c
    ensures var run := [Enter(d), Step(d), Step(d), Enter(c), Step(c), Step(c), Step(c), Step(c)];
      Run(s0, run).Some? && !Exclusive(Run(s0, run).value)
  {
    hide Run, Do;
    var before := [Enter(d), Step(d), Step(d)];
    TakesLock(s0, d);
    WalksPast(s0, before, c);
    var run := [Enter(d), Step(d), Step(d), Enter(c), Step(c), Step(c), Step(c), Step(c)];
    assert run == before + [Enter(c), Step(c), Step(c), Step(c), Step(c)];
    var t := Run(s0, run).value;
    assert Inside(t.cpus[c]) && Inside(t.cpus[d]);
  }

  lemma EmptyRun(s0: State)
    ensures Run(s0, []) == Some(s0)
  {
  }

  /** Mutual exclusion holds over all runs exactly when the initial cpunr field names no CPU, or the only one. A
      section that is zeroed, as StacksCS is, fails on a machine with a CPU 0 and another one. */
  lemma {:induction false} ExclusiveIff(s0: State)
    requires Init(s0)
    ensures (forall actions | Run(s0, actions).Some? :: Exclusive(Run(s0, actions).value)) <==> GoodNumber(s0)
  {
    if GoodNumber(s0) {
      forall actions | Run(s0, actions).Some?
        ensures Exclusive(Run(s0, actions).value)
      {
        LockSafe(s0, actions);
      }
    } else {
      var c :| c in s0.cpus && s0.lock.cpunr == c && s0.cpus.Keys != {c};
      var d :| d in s0.cpus && d != c;
      TwoInside(s0, c, d);
    }
  }
}
