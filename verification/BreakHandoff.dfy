/** How a thread that hits a breakpoint hands its stack frame to the debugger and waits for the answer:
    breakpointHandler_kernel, debugger_waitForDebugEvent and debugger_continueDebugEvent of
    DBKKernel/debugger.c, with any number of threads and single reads and writes in any order. */
module BreakHandoff {
  import opened Options

  type ThreadId = nat

  /** What a thread in breakpointHandler_kernel did last. */
  datatype Place =
    | Running
    | Entered
    | HasTurn
    | StackSet
    | RegistersSet
    | IdSet
    | CauseSet
    | Announced
    | Woken
    | Answered
    | Cleared

  datatype Thread = Thread(place: Place, frame: nat, registers: nat, causedByDbvm: bool, handled: bool)

  /** The synchronization events, each reset by the wait it ends. The one that announces a break records who
      set it last. */
  datatype Events = Events(canBreak: bool, debugEvent: Option<ThreadId>, toContinue: bool)

  /** The fields of DebuggerState that carry a break. */
  datatype Mailbox = Mailbox(
    lastStackPointer: Option<nat>, lastRegisters: nat, lastThread: ThreadId, causedByDbvm: bool, handledLastEvent: bool)

  /** The debugger: between events, in possession of the event that `of` announced, or with the answer stored. */
  datatype Debugger = Between | Has(of: ThreadId) | Stored(of: ThreadId, answer: bool)

  /** In order: who announced an event, what the debugger answered to the events it took, and with what
      answer the threads went on. */
  datatype History = History(announced: seq<ThreadId>, answers: seq<(ThreadId, bool)>, resumed: seq<(ThreadId, bool)>)

  /** `turn` is the thread between its wait for CanBreak and its setting of CanBreak. */
  datatype State = State(
    threads: map<ThreadId, Thread>, events: Events, mailbox: Mailbox, memory: map<nat, seq<int>>, debugger: Debugger,
    turn: Option<ThreadId>, history: History)

  datatype Action =
    | Break(t: ThreadId, frame: nat, registers: nat, cause: bool)
    | Step(t: ThreadId)
    | TakeEvent
    | SetState(context: seq<int>)
    | StoreAnswer(answer: bool)
    | Continue

  // ---- single steps ----

  function At(s: State, t: ThreadId, th: Thread, place: Place): State {
    s.(threads := s.threads[t := th.(place := place)])
  }

  function ThreadStep(s: State, t: ThreadId): Option<State> {
    if t !in s.threads then None
    else
      var th, e, m, h := s.threads[t], s.events, s.mailbox, s.history;
      match th.place
      case Running => None
      case Entered =>
        if e.canBreak then Some(At(s, t, th, HasTurn).(events := e.(canBreak := false), turn := Some(t))) else None
      case HasTurn => Some(At(s, t, th, StackSet).(mailbox := m.(lastStackPointer := Some(th.frame))))
      case StackSet => Some(At(s, t, th, RegistersSet).(mailbox := m.(lastRegisters := th.registers)))
      case RegistersSet => Some(At(s, t, th, IdSet).(mailbox := m.(lastThread := t)))
      case IdSet => Some(At(s, t, th, CauseSet).(mailbox := m.(causedByDbvm := th.causedByDbvm)))
      case CauseSet =>
        Some(At(s, t, th, Announced).(events := e.(debugEvent := Some(t)),
                                      history := h.(announced := h.announced + [t])))
      case Announced => if e.toContinue then Some(At(s, t, th, Woken).(events := e.(toContinue := false))) else None
      case Woken =>
        Some(At(s, t, th.(handled := m.handledLastEvent), Answered)
             .(history := h.(resumed := h.resumed + [(t, m.handledLastEvent)])))
      case Answered => Some(At(s, t, th, Cleared).(mailbox := m.(lastStackPointer := None)))
      case Cleared => Some(At(s, t, th, Running).(events := e.(canBreak := true), turn := None))
  }

  /** The debugger takes an event, may read and change the state, stores its answer and continues once. */
  function DebuggerStep(s: State, a: Action): Option<State> {
    var e, m, h := s.events, s.mailbox, s.history;
    match a
    case TakeEvent =>
      if s.debugger.Between? && e.debugEvent.Some? then
        Some(s.(debugger := Has(e.debugEvent.value), events := e.(debugEvent := None)))
      else None
    case SetState(context) =>
      if s.debugger.Has? && m.lastStackPointer.Some? then
        Some(s.(memory := s.memory[m.lastStackPointer.value := context]))
      else None
    case StoreAnswer(answer) =>
      if s.debugger.Has? then
        Some(s.(debugger := Stored(s.debugger.of, answer), mailbox := m.(handledLastEvent := answer)))
      else None
    case Continue =>
      if s.debugger.Stored? then
        Some(s.(debugger := Between, events := e.(toContinue := true),
                history := h.(answers := h.answers + [(s.debugger.of, s.debugger.answer)])))
      else None
    case _ => None
  }

  function Do(s: State, a: Action): Option<State> {
    match a
    case Break(t, frame, registers, cause) =>
      if t !in s.threads || s.threads[t].place.Running? then
        Some(s.(threads := s.threads[t := Thread(Entered, frame, registers, cause, false)]))
      else None
    case Step(t) => ThreadStep(s, t)
    case _ => DebuggerStep(s, a)
  }

  function Run(s: State, actions: seq<Action>): Option<State> {
    if actions == [] then Some(s)
    else
      match Run(s, actions[..|actions| - 1])
      case None => None
      case Some(t) => Do(t, actions[|actions| - 1])
  }

  /** After debugger_initialize. */
  predicate Init(s: State) {
    && (forall t | t in s.threads :: s.threads[t].place.Running?)
    && s.events == Events(true, None, false) && s.mailbox.lastStackPointer == None
    && s.debugger == Between && s.turn == None && s.history == History([], [], [])
  }

  // ---- the invariant ----

  function Rank(p: Place): nat {
    match p
    case Running => 0
    case Entered => 1
    case HasTurn => 2
    case StackSet => 3
    case RegistersSet => 4
    case IdSet => 5
    case CauseSet => 6
    case Announced => 7
    case Woken => 8
    case Answered => 9
    case Cleared => 10
  }

  /** One thread at most is past its wait for CanBreak. */
  predicate OneTurn(s: State) {
    && (s.events.canBreak <==> s.turn == None)
    && (forall t | t in s.threads :: Rank(s.threads[t].place) >= 2 <==> s.turn == Some(t))
    && (s.turn.Some? ==> s.turn.value in s.threads)
  }

  /** The mailbox holds what the thread whose turn it is has put there so far. */
  predicate Published(m: Mailbox, t: ThreadId, th: Thread) {
    && m.lastStackPointer == (if 3 <= Rank(th.place) <= 9 then Some(th.frame) else None)
    && (Rank(th.place) >= 4 ==> m.lastRegisters == th.registers)
    && (Rank(th.place) >= 5 ==> m.lastThread == t)
    && (Rank(th.place) >= 6 ==> m.causedByDbvm == th.causedByDbvm)
  }

  /** Where an announced break is: on its way to the debugger, with it, or on its way back. */
  predicate Underway(e: Events, d: Debugger, m: Mailbox, t: ThreadId) {
    || (e.debugEvent == Some(t) && d == Between && !e.toContinue)
    || (e.debugEvent == None && d == Has(t) && !e.toContinue)
    || (e.debugEvent == None && d == Stored(t, m.handledLastEvent) && !e.toContinue)
    || (e.debugEvent == None && d == Between && e.toContinue)
  }

  predicate Quiet(e: Events, d: Debugger) {
    e.debugEvent == None && d == Between && !e.toContinue
  }

  /** What the history says about announced breaks: all have been answered and went on with their answer, but
      for the last one while it is `open`; that one is answered when `answered` says so. */
  predicate Recorded(h: History, m: Mailbox, t: ThreadId, open: bool, answered: bool) {
    && |h.answers| == (if open && !answered then |h.announced| - 1 else |h.announced|)
    && |h.resumed| == (if open then |h.announced| - 1 else |h.announced|)
    && (forall i | 0 <= i < |h.resumed| :: h.resumed[i] == h.answers[i])
    && (forall i | 0 <= i < |h.answers| :: h.answers[i].0 == h.announced[i])
    && (open ==> h.announced != [] && h.announced[|h.announced| - 1] == t)
    && (open && answered ==> h.answers[|h.answers| - 1].1 == m.handledLastEvent)
  }

  /** All that holds between the thread whose turn it is, the mailbox, the debugger and the history. */
  predicate Turn(s: State, t: ThreadId, th: Thread) {
    && Published(s.mailbox, t, th)
    && (if th.place.Announced? then Underway(s.events, s.debugger, s.mailbox, t) else Quiet(s.events, s.debugger))
    && Recorded(s.history, s.mailbox, t, th.place.Announced? || th.place.Woken?,
                th.place.Woken? || s.events.toContinue)
  }

  predicate NoTurn(s: State) {
    && s.mailbox.lastStackPointer == None && Quiet(s.events, s.debugger)
    && Recorded(s.history, s.mailbox, 0, false, false)
  }

  predicate Inv(s: State) {
    && OneTurn(s)
    && (match s.turn case None => NoTurn(s) case Some(t) => Turn(s, t, s.threads[t]))
  }

  lemma InitInv(s: State)
    requires Init(s)
    ensures Inv(s)
  {
  }

  // ---- every step keeps the invariant ----

  lemma BreakKeeps(s: State, a: Action)
    requires Inv(s) && a.Break? && Do(s, a).Some?
    ensures Inv(Do(s, a).value)
  {
    hide Turn, NoTurn, Recorded;
    SameTurn(s, Do(s, a).value);
  }

  /** The conditions on a turn are about the turn's own thread. */
  lemma SameTurn(s: State, s': State)
    requires Inv(s) && s' == s.(threads := s'.threads) && OneTurn(s')
    requires s.turn.Some? ==> s'.threads[s.turn.value] == s.threads[s.turn.value]
    ensures Inv(s')
  {
    hide OneTurn, Published, Recorded, Underway, Quiet;
  }

  lemma ThreadStepTurn(s: State, t: ThreadId)
    requires Inv(s) && ThreadStep(s, t).Some?
    ensures OneTurn(ThreadStep(s, t).value)
  {
    hide Turn, NoTurn;
  }

  lemma EnterKeeps(s: State, t: ThreadId)
    requires Inv(s) && ThreadStep(s, t).Some? && s.threads[t].place.Entered?
    ensures Inv(ThreadStep(s, t).value)
  {
    hide OneTurn;
    ThreadStepTurn(s, t);
    CanBreakMeansFree(s);
  }

  lemma CanBreakMeansFree(s: State)
    requires OneTurn(s) && s.events.canBreak
    ensures s.turn == None
  {
  }

  lemma TurnHolder(s: State, t: ThreadId)
    requires OneTurn(s) && t in s.threads && Rank(s.threads[t].place) >= 2
    ensures s.turn == Some(t)
  {
  }

  /** Filling in the mailbox. */
  lemma PublishKeeps(s: State, t: ThreadId)
    requires Inv(s) && ThreadStep(s, t).Some? && 2 <= Rank(s.threads[t].place) <= 5
    ensures Inv(ThreadStep(s, t).value)
  {
    hide OneTurn;
    ThreadStepTurn(s, t);
    TurnHolder(s, t);
  }

  lemma AnnounceKeeps(s: State, t: ThreadId)
    requires Inv(s) && ThreadStep(s, t).Some? && 6 <= Rank(s.threads[t].place) <= 7
    ensures Inv(ThreadStep(s, t).value)
  {
    hide OneTurn;
    ThreadStepTurn(s, t);
    TurnHolder(s, t);
  }

  lemma ResumeKeeps(s: State, t: ThreadId)
    requires Inv(s) && ThreadStep(s, t).Some? && 8 <= Rank(s.threads[t].place)
    ensures Inv(ThreadStep(s, t).value)
  {
    hide OneTurn;
    ThreadStepTurn(s, t);
    TurnHolder(s, t);
  }

  lemma DebuggerKeeps(s: State, a: Action)
    requires Inv(s) && DebuggerStep(s, a).Some?
    ensures Inv(DebuggerStep(s, a).value)
  {
  }

  lemma StepKeeps(s: State, a: Action)
    requires Inv(s) && Do(s, a).Some?
    ensures Inv(Do(s, a).value)
  {
    hide Inv, DebuggerStep;
    match a
    case Break(t, frame, registers, cause) => BreakKeeps(s, a);
    case Step(t) =>
      var r := Rank(s.threads[t].place);
      if r == 1 {
        EnterKeeps(s, t);
      } else if r <= 5 {
        PublishKeeps(s, t);
      } else if r <= 7 {
        AnnounceKeeps(s, t);
      } else {
        ResumeKeeps(s, t);
      }
    case _ => DebuggerKeeps(s, a);
  }

  lemma {:induction false} RunKeeps(s: State, actions: seq<Action>)
    requires Inv(s) && Run(s, actions).Some?
    ensures Inv(Run(s, actions).value)
  {
    if actions != [] {
      hide Inv, Do;
      RunKeeps(s, actions[..|actions| - 1]);
      StepKeeps(Run(s, actions[..|actions| - 1]).value, actions[|actions| - 1]);
    }
  }

  // ---- what the run brought ----

  /** The last break of a thread. */
  function LastBreak(actions: seq<Action>, t: ThreadId): (b: Option<Action>)
    ensures b.Some? ==> b.value.Break? && b.value.t == t
  {
    if actions == [] then None
    else
      var a := actions[|actions| - 1];
      if a.Break? && a.t == t then Some(a) else LastBreak(actions[..|actions| - 1], t)
  }

  /** The answers that the debugger has stored. */
  function AnswersStored(actions: seq<Action>): seq<bool> {
    if actions == [] then []
    else
      var a := actions[|actions| - 1];
      AnswersStored(actions[..|actions| - 1]) + if a.StoreAnswer? then [a.answer] else []
  }

  function AnswersOf(answers: seq<(ThreadId, bool)>): seq<bool> {
    seq(|answers|, i requires 0 <= i < |answers| => answers[i].1)
  }

  /** A thread in the handler has what its last break brought. */
  predicate Brought(s: State, t: ThreadId, b: Option<Action>) {
    t in s.threads && !s.threads[t].place.Running? ==>
      && b.Some? && b.value.Break? && s.threads[t].frame == b.value.frame
      && s.threads[t].registers == b.value.registers && s.threads[t].causedByDbvm == b.value.cause
  }

  lemma {:induction false} AllBrought(s0: State, actions: seq<Action>, t: ThreadId)
    requires Init(s0) && Run(s0, actions).Some?
    ensures Brought(Run(s0, actions).value, t, LastBreak(actions, t))
  {
    if actions != [] {
      hide Do, Brought;
      var init := actions[..|actions| - 1];
      AllBrought(s0, init, t);
      StepBrings(Run(s0, init).value, actions[|actions| - 1], t, LastBreak(init, t));
    } else {
      assert Brought(s0, t, None);
    }
  }

  lemma StepBrings(s: State, a: Action, t: ThreadId, b: Option<Action>)
    requires Do(s, a).Some? && Brought(s, t, b)
    ensures Brought(Do(s, a).value, t, if a.Break? && a.t == t then Some(a) else b)
  {
  }

  /** The answers recorded are those that the debugger stored, in order; one may not have been passed on yet. */
  lemma {:induction false} AllAnswers(s0: State, actions: seq<Action>)
    requires Init(s0) && Run(s0, actions).Some?
    ensures var s := Run(s0, actions).value;
      AnswersStored(actions) == AnswersOf(s.history.answers) + if s.debugger.Stored? then [s.debugger.answer] else []
  {
    if actions != [] {
      hide Do;
      var init := actions[..|actions| - 1];
      AllAnswers(s0, init);
      StepAnswers(Run(s0, init).value, actions[|actions| - 1]);
    }
  }

  lemma StepAnswers(s: State, a: Action)
    requires Do(s, a).Some?
    ensures var d, d' := s.debugger, Do(s, a).value.debugger;
      AnswersOf(Do(s, a).value.history.answers) + (if d'.Stored? then [d'.answer] else [])
      == AnswersOf(s.history.answers) + (if d.Stored? then [d.answer] else [])
         + if a.StoreAnswer? then [a.answer] else []
  {
  }

  /** The state that the debugger sets goes to the frame which the thread that waits for it brought, and no other
      step writes memory. */
  lemma {:induction false} SetStateExact(s0: State, actions: seq<Action>, a: Action)
    requires Init(s0) && Run(s0, actions).Some?
    ensures var s := Run(s0, actions).value;
      && (s.debugger.Has? && a.SetState? ==>
            var b := LastBreak(actions, s.debugger.of);
            b.Some? && Do(s, a) == Some(s.(memory := s.memory[b.value.frame := a.context])))
      && (!a.SetState? && Do(s, a).Some? ==> Do(s, a).value.memory == s.memory)
  {
    InitInv(s0);
    RunKeeps(s0, actions);
    var s := Run(s0, actions).value;
    if s.debugger.Has? {
      AllBrought(s0, actions, s.debugger.of);
    }
  }

  // ---- what holds in every reachable state ----

  /** At most one thread's frame is published, and it is the one the debugger's event came from; every thread
      goes on, in the order of the announcements, with the answer given for it. */
  lemma {:induction false} HandoffSafe(s0: State, actions: seq<Action>)
    requires Init(s0) && Run(s0, actions).Some?
    ensures var s := Run(s0, actions).value;
      && (forall t, u | t in s.threads && u in s.threads && 3 <= Rank(s.threads[t].place) <= 9
            && 3 <= Rank(s.threads[u].place) <= 9 :: t == u)
      && (s.mailbox.lastStackPointer.Some? ==> exists t | t in s.threads ::
            && 3 <= Rank(s.threads[t].place) <= 9 && LastBreak(actions, t).Some?
            && s.mailbox.lastStackPointer == Some(LastBreak(actions, t).value.frame))
      && (!s.debugger.Between? ==> SeesThread(s, s.debugger.of, LastBreak(actions, s.debugger.of)))
      && AnswersStored(actions)
           == AnswersOf(s.history.answers) + (if s.debugger.Stored? then [s.debugger.answer] else [])
      && |s.history.resumed| <= |s.history.answers| <= |s.history.announced| <= |s.history.resumed| + 1
      && (forall i | 0 <= i < |s.history.answers| :: s.history.answers[i].0 == s.history.announced[i])
      && (forall i | 0 <= i < |s.history.resumed| :: s.history.resumed[i] == s.history.answers[i])
  {
    InitInv(s0);
    RunKeeps(s0, actions);
    AllAnswers(s0, actions);
    var s := Run(s0, actions).value;
    if s.turn.Some? {
      AllBrought(s0, actions, s.turn.value);
    }
  }

  /** What the debugger reads while it has an event: the thread waits, and the mailbox holds what it brought. */
  predicate SeesThread(s: State, t: ThreadId, b: Option<Action>) {
    && t in s.threads && s.threads[t].place.Announced? && b.Some? && b.value.Break?
    && s.mailbox.lastStackPointer == Some(b.value.frame)
    && s.mailbox.lastRegisters == b.value.registers
    && s.mailbox.lastThread == t && s.mailbox.causedByDbvm == b.value.cause
  }

  /** The value breakpointHandler_kernel returns is the debugger's answer to this thread's event. */
  lemma {:induction false} ReturnsItsAnswer(s0: State, actions: seq<Action>, t: ThreadId)
    requires Init(s0) && Run(s0, actions).Some?
    requires t in Run(s0, actions).value.threads && Run(s0, actions).value.threads[t].place.Woken?
    ensures var s := Run(s0, actions).value;
      && s.history.answers != [] && s.history.answers[|s.history.answers| - 1].0 == t
      && ThreadStep(s, t).Some?
      && ThreadStep(s, t).value.threads[t].handled == s.history.answers[|s.history.answers| - 1].1
  {
    InitInv(s0);
    RunKeeps(s0, actions);
    TurnHolder(Run(s0, actions).value, t);
  }

  /** As long as a thread is in the handler, a thread can move or the debugger has something to do. */
  lemma {:induction false} NeverStuck(s0: State, actions: seq<Action>, t: ThreadId)
    requires Init(s0) && Run(s0, actions).Some?
    requires t in Run(s0, actions).value.threads && !Run(s0, actions).value.threads[t].place.Running?
    ensures exists a: Action :: !a.Break? && Do(Run(s0, actions).value, a).Some?
  {
    InitInv(s0);
    RunKeeps(s0, actions);
    CanMove(Run(s0, actions).value, t);
  }

  lemma CanMove(s: State, t: ThreadId)
    requires Inv(s) && t in s.threads && !s.threads[t].place.Running?
    ensures exists a: Action :: !a.Break? && Do(s, a).Some?
  {
    hide Recorded, Published;
    var a :=
      if s.turn == None then Step(t)
      else
        var o := s.turn.value;
        if !s.threads[o].place.Announced? || s.events.toContinue then Step(o)
        else if s.events.debugEvent.Some? then TakeEvent
        else if s.debugger.Has? then StoreAnswer(true)
        else Continue;
    assert Do(s, a).Some?;
  }
}
