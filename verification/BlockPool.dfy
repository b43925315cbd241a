/** The pool of trace blocks of DBKKernel/ultimap.c: any number of interrupted CPUs hand their branch data to
    any number of handler threads through MaxDataBlocks blocks, a semaphore and a mutex, in single steps. */
module BlockPool {
  import opened Options

  /** What a call of perfmon_interrupt_centry did last with its copied data. */
  datatype Producer =
    | Away
    | Copied(data: int)
    | HasTicket(data: int)
    | Scanning(data: int, i: nat)
    | Picked(data: int, b: nat)
    | Stored(data: int, b: nat)

  /** What a handler thread did last. */
  datatype Handler = Free | Got(b: nat) | Seen(b: nat) | Marked

  /** Who a block belongs to. */
  datatype Holder = Pool | ByProducer(p: nat) | OnEvent | ByHandler(h: nat)

  /** `ready` is the DataReady event; `holder` records who has the block. */
  datatype Block = Block(available: bool, data: int, ready: bool, holder: Holder)

  /** `accepted` and `delivered` are the data announced to and read by the handlers, `lost` the calls that found
      no block after they had passed the semaphore. */
  datatype State = State(
    blocks: seq<Block>, semaphore: nat, mutex: Option<nat>, producers: map<nat, Producer>, handlers: map<nat, Handler>,
    accepted: multiset<int>, delivered: multiset<int>, lost: nat)

  datatype Action = Interrupt(p: nat, data: int) | ProducerStep(p: nat) | Take(h: nat, b: nat) | HandlerStep(h: nat)

  // ---- single steps ----

  function PutBlock(s: State, b: nat, k: Block): State
    requires b < |s.blocks|
  {
    s.(blocks := s.blocks[b := k])
  }

  function PutProducer(s: State, p: nat, u: Producer): State {
    s.(producers := s.producers[p := u])
  }

  function PutHandler(s: State, h: nat, u: Handler): State {
    s.(handlers := s.handlers[h := u])
  }

  function ProducerMove(s: State, p: nat): Option<State> {
    if p !in s.producers then None
    else
      match s.producers[p]
      case Away => None
      case Copied(d) =>
        if s.semaphore == 0 then None else Some(PutProducer(s, p, HasTicket(d)).(semaphore := s.semaphore - 1))
      case HasTicket(d) => if s.mutex.Some? then None else Some(PutProducer(s, p, Scanning(d, 0)).(mutex := Some(p)))
      case Scanning(d, i) =>
        if i >= |s.blocks| then Some(PutProducer(s, p, Away).(mutex := None, lost := s.lost + 1))
        else if s.blocks[i].available then
          Some(PutBlock(PutProducer(s, p, Picked(d, i)), i, s.blocks[i].(available := false, holder := ByProducer(p))))
        else Some(PutProducer(s, p, Scanning(d, i + 1)))
      case Picked(d, b) =>
        if b >= |s.blocks| then None
        else Some(PutBlock(PutProducer(s, p, Stored(d, b)), b, s.blocks[b].(data := d)))
      case Stored(d, b) =>
        if b >= |s.blocks| then None
        else
          Some(PutBlock(PutProducer(s, p, Away), b, s.blocks[b].(ready := true, holder := OnEvent))
               .(mutex := None, accepted := s.accepted + multiset{d}))
  }

  /** ultimap_waitForData up to its copy of the block, then ultimap_continue. */
  function HandlerMove(s: State, h: nat): Option<State> {
    if h !in s.handlers then None
    else
      match s.handlers[h]
      case Free => None
      case Got(b) =>
        if s.mutex.Some? || b >= |s.blocks| then None
        else Some(PutHandler(s, h, Seen(b)).(delivered := s.delivered + multiset{s.blocks[b].data}))
      case Seen(b) =>
        if b >= |s.blocks| then None
        else Some(PutBlock(PutHandler(s, h, Marked), b, s.blocks[b].(available := true, holder := Pool)))
      case Marked => Some(PutHandler(s, h, Free).(semaphore := s.semaphore + 1))
  }

  function Do(s: State, a: Action): Option<State> {
    match a
    case Interrupt(p, data) =>
      if p !in s.producers || s.producers[p].Away? then Some(PutProducer(s, p, Copied(data))) else None
    case ProducerStep(p) => ProducerMove(s, p)
    case Take(h, b) =>
      if (h !in s.handlers || s.handlers[h].Free?) && b < |s.blocks| && s.blocks[b].ready then
        Some(PutBlock(PutHandler(s, h, Got(b)), b, s.blocks[b].(ready := false, holder := ByHandler(h))))
      else None
    case HandlerStep(h) => HandlerMove(s, h)
  }

  function Run(s: State, actions: seq<Action>): Option<State> {
    if actions == [] then Some(s)
    else
      match Run(s, actions[..|actions| - 1])
      case None => None
      case Some(t) => Do(t, actions[|actions| - 1])
  }

  /** The set-up in ultimap(): every block is available and the semaphore counts them. */
  function SetUp(handlerCount: nat): Option<State> {
    if handlerCount > 64 then None
    else
      Some(State(seq(handlerCount, i => Block(true, 0, false, Pool)), handlerCount, None, map[], map[],
                 multiset{}, multiset{}, 0))
  }

  // ---- counting ----

  ghost function Available(s: State): set<nat> {
    set b: nat | b < |s.blocks| && s.blocks[b].available
  }

  /** Producers between their wait for the semaphore and their pick. */
  ghost function Picking(s: State): set<nat> {
    set p | p in s.producers && (s.producers[p].HasTicket? || s.producers[p].Scanning?)
  }

  /** Handlers between marking a block and releasing the semaphore. */
  ghost function Releasing(s: State): set<nat> {
    set h | h in s.handlers && s.handlers[h].Marked?
  }

  ghost predicate Counted(s: State) {
    |Available(s)| == s.semaphore + |Picking(s)| + |Releasing(s)|
  }

  // ---- ownership ----

  predicate HoldsMutex(u: Producer) {
    u.Scanning? || u.Picked? || u.Stored?
  }

  predicate ProducerHas(u: Producer, b: nat) {
    (u.Picked? || u.Stored?) && u.b == b
  }

  predicate HandlerHas(u: Handler, b: nat) {
    (u.Got? || u.Seen?) && u.b == b
  }

  /** Each block has one holder, and the holder knows. */
  predicate BlockOk(s: State, b: nat)
    requires b < |s.blocks|
  {
    var k := s.blocks[b];
    && (k.available <==> k.holder.Pool?)
    && (k.ready <==> k.holder.OnEvent?)
    && (k.holder.ByProducer? ==> k.holder.p in s.producers && ProducerHas(s.producers[k.holder.p], b))
    && (k.holder.ByHandler? ==> k.holder.h in s.handlers && HandlerHas(s.handlers[k.holder.h], b))
  }

  predicate ProducerOk(s: State, p: nat)
    requires p in s.producers
  {
    var u := s.producers[p];
    && (HoldsMutex(u) <==> s.mutex == Some(p))
    && (u.Picked? || u.Stored? ==> u.b < |s.blocks| && s.blocks[u.b].holder == ByProducer(p))
    && (u.Stored? ==> s.blocks[u.b].data == u.data)
    && (u.Scanning? ==> exists j :: u.i <= j < |s.blocks| && s.blocks[j].available)
  }

  predicate HandlerOk(s: State, h: nat)
    requires h in s.handlers
  {
    var u := s.handlers[h];
    u.Got? || u.Seen? ==> u.b < |s.blocks| && s.blocks[u.b].holder == ByHandler(h)
  }

  predicate Owned(s: State) {
    && (forall b | 0 <= b < |s.blocks| :: BlockOk(s, b))
    && (forall p | p in s.producers :: ProducerOk(s, p))
    && (forall h | h in s.handlers :: HandlerOk(s, h))
    && (s.mutex.Some? ==> s.mutex.value in s.producers)
  }

  // ---- conservation ----

  /** The block's data was announced and has not been read. */
  predicate Unread(s: State, b: nat)
    requires b < |s.blocks|
  {
    var k := s.blocks[b];
    k.holder.OnEvent? || (k.holder.ByHandler? && k.holder.h in s.handlers && s.handlers[k.holder.h].Got?)
  }

  function Pending(s: State, n: nat): multiset<int>
    requires n <= |s.blocks|
  {
    if n == 0 then multiset{}
    else if Unread(s, n - 1) then Pending(s, n - 1) + multiset{s.blocks[n - 1].data}
    else Pending(s, n - 1)
  }

  predicate Conserved(s: State) {
    s.accepted == s.delivered + Pending(s, |s.blocks|)
  }

  predicate Whole(s: State) {
    s.lost == 0
  }

  ghost predicate Inv(s: State) {
    Counted(s) && Owned(s) && Conserved(s) && Whole(s)
  }

  lemma {:induction false} SetUpInv(handlerCount: nat)
    ensures SetUp(handlerCount).Some? <==> handlerCount <= 64
    ensures handlerCount <= 64 ==> Inv(SetUp(handlerCount).value) && |SetUp(handlerCount).value.blocks| == handlerCount
  {
    if handlerCount <= 64 {
      var s := SetUp(handlerCount).value;
      assert Picking(s) == {} && Releasing(s) == {};
      assert Available(s) == FirstN(handlerCount);
      NothingPending(s, handlerCount);
    }
  }

  ghost function FirstN(n: nat): (r: set<nat>)
    ensures |r| == n && forall b: nat :: b in r <==> b < n
  {
    if n == 0 then {} else FirstN(n - 1) + {n - 1}
  }

  lemma {:induction false} NothingPending(s: State, n: nat)
    requires n <= |s.blocks| && forall b | 0 <= b < |s.blocks| :: s.blocks[b].holder.Pool?
    ensures Pending(s, n) == multiset{}
  {
    if n > 0 {
      NothingPending(s, n - 1);
    }
  }

  // ---- every step keeps the count ----

  /** A producer with a ticket has a block to find. */
  lemma SomeAvailable(s: State, p: nat) returns (j: nat)
    requires Counted(s) && p in Picking(s)
    ensures j < |s.blocks| && s.blocks[j].available
  {
    assert |Picking(s)| > 0;
    assert Available(s) != {};
    j :| j in Available(s);
  }

  lemma TicketCounted(s: State, p: nat)
    requires Counted(s) && Owned(s) && ProducerMove(s, p).Some? && s.producers[p].Copied?
    ensures Counted(ProducerMove(s, p).value) && ProducerMove(s, p).value.lost == s.lost
  {
    hide Pending, BlockOk, HandlerOk;
    var s' := ProducerMove(s, p).value;
    assert Picking(s') == Picking(s) + {p};
    assert Available(s') == Available(s) && Releasing(s') == Releasing(s);
  }

  lemma LockCounted(s: State, p: nat)
    requires Counted(s) && Owned(s) && ProducerMove(s, p).Some? && s.producers[p].HasTicket?
    ensures Counted(ProducerMove(s, p).value) && ProducerMove(s, p).value.lost == s.lost
  {
    hide Pending, BlockOk, HandlerOk;
    var s' := ProducerMove(s, p).value;
    assert Available(s') == Available(s) && Picking(s') == Picking(s) && Releasing(s') == Releasing(s);
  }

  lemma ScanCounted(s: State, p: nat)
    requires Counted(s) && Owned(s) && ProducerMove(s, p).Some? && s.producers[p].Scanning?
    ensures Counted(ProducerMove(s, p).value) && ProducerMove(s, p).value.lost == s.lost
  {
    hide Pending, BlockOk, HandlerOk;
    var s' := ProducerMove(s, p).value;
    var i := s.producers[p].i;
    assert ProducerOk(s, p) && Releasing(s') == Releasing(s);
    if s.blocks[i].available {
      assert Available(s') == Available(s) - {i} && Picking(s') == Picking(s) - {p};
    } else {
      assert Available(s') == Available(s) && Picking(s') == Picking(s);
    }
  }

  lemma StoreCounted(s: State, p: nat)
    requires Counted(s) && Owned(s) && ProducerMove(s, p).Some? && s.producers[p].Picked?
    ensures Counted(ProducerMove(s, p).value) && ProducerMove(s, p).value.lost == s.lost
  {
    hide Pending, BlockOk, HandlerOk;
    var s' := ProducerMove(s, p).value;
    assert Available(s') == Available(s) && Picking(s') == Picking(s) && Releasing(s') == Releasing(s);
  }

  lemma AnnounceCounted(s: State, p: nat)
    requires Counted(s) && Owned(s) && ProducerMove(s, p).Some? && s.producers[p].Stored?
    ensures Counted(ProducerMove(s, p).value) && ProducerMove(s, p).value.lost == s.lost
  {
    hide Pending, BlockOk, HandlerOk;
    var s' := ProducerMove(s, p).value;
    assert Available(s') == Available(s) && Picking(s') == Picking(s) && Releasing(s') == Releasing(s);
  }

  lemma InterruptCounted(s: State, p: nat, data: int)
    requires Counted(s) && Do(s, Interrupt(p, data)).Some?
    ensures Counted(Do(s, Interrupt(p, data)).value)
  {
    var s' := Do(s, Interrupt(p, data)).value;
    assert Available(s') == Available(s) && Picking(s') == Picking(s) && Releasing(s') == Releasing(s);
  }

  lemma TakeCounted(s: State, h: nat, b: nat)
    requires Counted(s) && Owned(s) && Do(s, Take(h, b)).Some?
    ensures Counted(Do(s, Take(h, b)).value)
  {
    hide HandlerOk, ProducerOk;
    var s' := Do(s, Take(h, b)).value;
    assert BlockOk(s, b);
    assert Available(s') == Available(s) && Picking(s') == Picking(s) && Releasing(s') == Releasing(s);
  }

  lemma SeeCounted(s: State, h: nat)
    requires Counted(s) && HandlerMove(s, h).Some? && s.handlers[h].Got?
    ensures Counted(HandlerMove(s, h).value)
  {
    var s' := HandlerMove(s, h).value;
    assert Available(s') == Available(s) && Picking(s') == Picking(s) && Releasing(s') == Releasing(s);
  }

  lemma MarkCounted(s: State, h: nat)
    requires Counted(s) && Owned(s) && HandlerMove(s, h).Some? && s.handlers[h].Seen?
    ensures Counted(HandlerMove(s, h).value)
  {
    hide Owned, Counted, Available, Picking, Releasing;
    OwnedHandler(s, h);
    OwnedBlock(s, s.handlers[h].b);
    MarkCountedSets(s, h);
  }

  lemma MarkCountedSets(s: State, h: nat)
    requires Counted(s) && HandlerMove(s, h).Some? && s.handlers[h].Seen? && !s.blocks[s.handlers[h].b].available
    ensures Counted(HandlerMove(s, h).value)
  {
    var s' := HandlerMove(s, h).value;
    var b := s.handlers[h].b;
    assert Available(s') == Available(s) + {b};
    assert Picking(s') == Picking(s);
    assert Releasing(s') == Releasing(s) + {h};
  }

  lemma ReleaseCounted(s: State, h: nat)
    requires Counted(s) && HandlerMove(s, h).Some? && s.handlers[h].Marked?
    ensures Counted(HandlerMove(s, h).value)
  {
    var s' := HandlerMove(s, h).value;
    assert Available(s') == Available(s) && Picking(s') == Picking(s) && Releasing(s') == Releasing(s) - {h};
  }

  // ---- every step keeps the ownership ----

  lemma OwnedProducer(s: State, p: nat)
    requires Owned(s) && p in s.producers
    ensures ProducerOk(s, p)
  {
  }

  lemma OwnedBlock(s: State, b: nat)
    requires Owned(s) && b < |s.blocks|
    ensures BlockOk(s, b)
  {
  }

  lemma OwnedHandler(s: State, h: nat)
    requires Owned(s) && h in s.handlers
    ensures HandlerOk(s, h)
  {
  }

  /** At most producer p, handler h and block b changed; p and h let go of no block but b. */
  ghost predicate Changes(s: State, s': State, p: Option<nat>, h: Option<nat>, b: Option<nat>) {
    && |s'.blocks| == |s.blocks|
    && (forall c | 0 <= c < |s.blocks| && b != Some(c) :: s'.blocks[c] == s.blocks[c])
    && (forall q | p != Some(q) ::
          (q in s'.producers <==> q in s.producers) && (q in s.producers ==> s'.producers[q] == s.producers[q]))
    && (forall g | h != Some(g) ::
          (g in s'.handlers <==> g in s.handlers) && (g in s.handlers ==> s'.handlers[g] == s.handlers[g]))
    && (p.Some? ==> p.value in s'.producers)
    && (h.Some? ==> h.value in s'.handlers)
    && (s'.mutex == s.mutex || (p.Some? && (s.mutex == None || s.mutex == p) && (s'.mutex == None || s'.mutex == p)))
  }

  ghost predicate LetsGo(s: State, s': State, p: Option<nat>, h: Option<nat>, b: Option<nat>)
    requires Changes(s, s', p, h, b)
  {
    && (forall c: nat | p.Some? && p.value in s.producers && ProducerHas(s.producers[p.value], c) ::
          b == Some(c) || ProducerHas(s'.producers[p.value], c))
    && (forall c: nat | h.Some? && h.value in s.handlers && HandlerHas(s.handlers[h.value], c) ::
          b == Some(c) || HandlerHas(s'.handlers[h.value], c))
    && (b.Some? && b.value < |s.blocks| ==>
          var k := s.blocks[b.value].holder;
          && (k.ByProducer? ==> p == Some(k.p)) && (k.ByHandler? ==> h == Some(k.h))
          && (s.blocks[b.value].available && !s'.blocks[b.value].available ==> p.Some? && s.mutex == p))
  }

  lemma OwnedAgain(s: State, s': State, p: Option<nat>, h: Option<nat>, b: Option<nat>)
    requires Owned(s) && Changes(s, s', p, h, b) && LetsGo(s, s', p, h, b)
    requires p.Some? ==> ProducerOk(s', p.value)
    requires h.Some? ==> HandlerOk(s', h.value)
    requires b.Some? && b.value < |s.blocks| ==> BlockOk(s', b.value)
    ensures Owned(s')
  {
    OtherBlocks(s, s', p, h, b);
    OtherProducers(s, s', p, h, b);
    forall g | g in s'.handlers
      ensures HandlerOk(s', g)
    {
      if h != Some(g) {
        assert HandlerOk(s, g);
      }
    }
  }

  lemma OtherBlocks(s: State, s': State, p: Option<nat>, h: Option<nat>, b: Option<nat>)
    requires Owned(s) && Changes(s, s', p, h, b) && LetsGo(s, s', p, h, b)
    ensures forall c | 0 <= c < |s.blocks| && b != Some(c) :: BlockOk(s', c)
  {
    hide ProducerOk, HandlerOk, ProducerHas, HandlerHas;
    forall c | 0 <= c < |s.blocks| && b != Some(c)
      ensures BlockOk(s', c)
    {
      assert BlockOk(s, c);
    }
  }

  lemma OtherProducers(s: State, s': State, p: Option<nat>, h: Option<nat>, b: Option<nat>)
    requires Owned(s) && Changes(s, s', p, h, b) && LetsGo(s, s', p, h, b)
    ensures forall q | q in s'.producers && p != Some(q) :: ProducerOk(s', q)
  {
    hide BlockOk, HandlerOk, ProducerHas, HandlerHas;
    forall q | q in s'.producers && p != Some(q)
      ensures ProducerOk(s', q)
    {
      assert ProducerOk(s, q);
      if s.producers[q].Scanning? {
        var j :| s.producers[q].i <= j < |s.blocks| && s.blocks[j].available;
        assert s'.blocks[j].available;
      }
    }
  }

  lemma TicketOwned(s: State, p: nat)
    requires Counted(s) && Owned(s) && ProducerMove(s, p).Some? && s.producers[p].Copied?
    ensures Owned(ProducerMove(s, p).value)
  {
    hide Counted, Owned;
    OwnedProducer(s, p);
    OwnedAgain(s, ProducerMove(s, p).value, Some(p), None, None);
  }

  lemma LockOwned(s: State, p: nat)
    requires Counted(s) && Owned(s) && ProducerMove(s, p).Some? && s.producers[p].HasTicket?
    ensures Owned(ProducerMove(s, p).value)
  {
    hide Counted, Owned;
    OwnedProducer(s, p);
    var j := SomeAvailable(s, p);
    OwnedAgain(s, ProducerMove(s, p).value, Some(p), None, None);
  }

  lemma ScanOwned(s: State, p: nat)
    requires Counted(s) && Owned(s) && ProducerMove(s, p).Some? && s.producers[p].Scanning?
    ensures Owned(ProducerMove(s, p).value)
  {
    hide Counted, Owned;
    OwnedProducer(s, p);
    var i := s.producers[p].i;
    OwnedBlock(s, i);
    OwnedAgain(s, ProducerMove(s, p).value, Some(p), None, if s.blocks[i].available then Some(i) else None);
  }

  lemma StoreOwned(s: State, p: nat)
    requires Counted(s) && Owned(s) && ProducerMove(s, p).Some? && s.producers[p].Picked?
    ensures Owned(ProducerMove(s, p).value)
  {
    hide Counted, Owned;
    OwnedProducer(s, p);
    var b := s.producers[p].b;
    OwnedBlock(s, b);
    OwnedAgain(s, ProducerMove(s, p).value, Some(p), None, Some(b));
  }

  lemma AnnounceOwned(s: State, p: nat)
    requires Counted(s) && Owned(s) && ProducerMove(s, p).Some? && s.producers[p].Stored?
    ensures Owned(ProducerMove(s, p).value)
  {
    hide Counted, Owned;
    OwnedProducer(s, p);
    var b := s.producers[p].b;
    OwnedBlock(s, b);
    OwnedAgain(s, ProducerMove(s, p).value, Some(p), None, Some(b));
  }

  lemma InterruptOwned(s: State, p: nat, data: int)
    requires Owned(s) && Do(s, Interrupt(p, data)).Some?
    ensures Owned(Do(s, Interrupt(p, data)).value)
  {
    hide Owned;
    if p in s.producers {
      OwnedProducer(s, p);
    }
    if s.mutex == Some(p) {
      MutexHeld(s);
    }
    OwnedAgain(s, Do(s, Interrupt(p, data)).value, Some(p), None, None);
  }

  lemma MutexHeld(s: State)
    requires Owned(s) && s.mutex.Some?
    ensures s.mutex.value in s.producers && HoldsMutex(s.producers[s.mutex.value])
  {
  }

  lemma TakeOwned(s: State, h: nat, b: nat)
    requires Owned(s) && Do(s, Take(h, b)).Some?
    ensures Owned(Do(s, Take(h, b)).value)
  {
    hide Owned;
    OwnedBlock(s, b);
    OwnedAgain(s, Do(s, Take(h, b)).value, None, Some(h), Some(b));
  }

  lemma HandlerOwned(s: State, h: nat)
    requires Owned(s) && HandlerMove(s, h).Some?
    ensures Owned(HandlerMove(s, h).value)
  {
    hide Owned;
    OwnedHandler(s, h);
    if s.handlers[h].Got? || s.handlers[h].Seen? {
      OwnedBlock(s, s.handlers[h].b);
    }
    OwnedAgain(s, HandlerMove(s, h).value, None, Some(h),
               if s.handlers[h].Got? || s.handlers[h].Seen? then Some(s.handlers[h].b) else None);
  }

  // ---- every step conserves the data ----

  /** Changes elsewhere do not count. */
  lemma {:induction false} SamePending(s: State, s': State, n: nat)
    requires n <= |s.blocks| == |s'.blocks|
    requires forall b | 0 <= b < n :: Unread(s, b) == Unread(s', b)
    requires forall b | 0 <= b < n && Unread(s, b) :: s.blocks[b].data == s'.blocks[b].data
    ensures Pending(s', n) == Pending(s, n)
  {
    if n > 0 {
      SamePending(s, s', n - 1);
    }
  }

  /** One block turns unread. */
  lemma {:induction false} MorePending(s: State, s': State, b: nat, n: nat)
    requires b < n <= |s.blocks| == |s'.blocks| && !Unread(s, b) && Unread(s', b)
    requires forall c | 0 <= c < n && c != b :: Unread(s, c) == Unread(s', c)
    requires forall c | 0 <= c < n && c != b && Unread(s, c) :: s.blocks[c].data == s'.blocks[c].data
    ensures Pending(s', n) == Pending(s, n) + multiset{s'.blocks[b].data}
  {
    hide Unread;
    if b < n - 1 {
      MorePending(s, s', b, n - 1);
    } else {
      SamePending(s, s', n - 1);
    }
  }

  lemma AnnounceConserves(s: State, p: nat)
    requires Owned(s) && Conserved(s) && ProducerMove(s, p).Some? && s.producers[p].Stored?
    ensures Conserved(ProducerMove(s, p).value)
  {
    hide Owned, Pending;
    var s' := ProducerMove(s, p).value;
    OwnedProducer(s, p);
    MorePending(s, s', s.producers[p].b, |s.blocks|);
  }

  lemma SeeConserves(s: State, h: nat)
    requires Owned(s) && Conserved(s) && HandlerMove(s, h).Some? && s.handlers[h].Got?
    ensures Conserved(HandlerMove(s, h).value)
  {
    hide Owned, Pending;
    var s' := HandlerMove(s, h).value;
    OwnedHandler(s, h);
    forall c: nat | c < |s.blocks| && c != s.handlers[h].b
      ensures Unread(s, c) == Unread(s', c)
    {
      OwnedBlock(s, c);
    }
    MorePending(s', s, s.handlers[h].b, |s.blocks|);
  }

  lemma OtherProducerConserves(s: State, p: nat)
    requires Owned(s) && Conserved(s) && ProducerMove(s, p).Some? && !s.producers[p].Stored?
    ensures Conserved(ProducerMove(s, p).value)
  {
    hide Owned, Pending;
    OwnedProducer(s, p);
    if s.producers[p].Scanning? && s.producers[p].i < |s.blocks| {
      OwnedBlock(s, s.producers[p].i);
    }
    SamePending(s, ProducerMove(s, p).value, |s.blocks|);
  }

  lemma OtherHandlerConserves(s: State, h: nat)
    requires Owned(s) && Conserved(s) && HandlerMove(s, h).Some? && !s.handlers[h].Got?
    ensures Conserved(HandlerMove(s, h).value)
  {
    hide Owned, Pending;
    var s' := HandlerMove(s, h).value;
    OwnedHandler(s, h);
    forall c: nat | c < |s.blocks|
      ensures Unread(s, c) == Unread(s', c)
    {
      OwnedBlock(s, c);
    }
    SamePending(s, s', |s.blocks|);
  }

  lemma TakeConserves(s: State, h: nat, b: nat)
    requires Owned(s) && Conserved(s) && Do(s, Take(h, b)).Some?
    ensures Conserved(Do(s, Take(h, b)).value)
  {
    hide Owned, Pending;
    var s' := Do(s, Take(h, b)).value;
    forall c: nat | c < |s.blocks|
      ensures Unread(s, c) == Unread(s', c)
    {
      OwnedBlock(s, c);
    }
    SamePending(s, s', |s.blocks|);
  }

  lemma InterruptConserves(s: State, p: nat, data: int)
    requires Conserved(s) && Do(s, Interrupt(p, data)).Some?
    ensures Conserved(Do(s, Interrupt(p, data)).value)
  {
    hide Pending;
    SamePending(s, Do(s, Interrupt(p, data)).value, |s.blocks|);
  }

  // ---- runs ----

  lemma ProducerKeeps(s: State, p: nat)
    requires Inv(s) && ProducerMove(s, p).Some?
    ensures Inv(ProducerMove(s, p).value)
  {
    hide Counted, Owned, Conserved, ProducerMove;
    ProducerMoves(s, p);
    match s.producers[p]
    case Copied(d) => TicketCounted(s, p); TicketOwned(s, p); OtherProducerConserves(s, p);
    case HasTicket(d) => LockCounted(s, p); LockOwned(s, p); OtherProducerConserves(s, p);
    case Scanning(d, i) => ScanCounted(s, p); ScanOwned(s, p); OtherProducerConserves(s, p);
    case Picked(d, b) => StoreCounted(s, p); StoreOwned(s, p); OtherProducerConserves(s, p);
    case Stored(d, b) => AnnounceCounted(s, p); AnnounceOwned(s, p); AnnounceConserves(s, p);
  }

  lemma ProducerMoves(s: State, p: nat)
    requires ProducerMove(s, p).Some?
    ensures p in s.producers && !s.producers[p].Away?
  {
  }

  lemma HandlerKeeps(s: State, h: nat)
    requires Inv(s) && HandlerMove(s, h).Some?
    ensures Inv(HandlerMove(s, h).value)
  {
    hide Counted, Owned, Conserved;
    HandlerOwned(s, h);
    match s.handlers[h]
    case Got(b) => SeeCounted(s, h); SeeConserves(s, h);
    case Seen(b) => MarkCounted(s, h); OtherHandlerConserves(s, h);
    case Marked => ReleaseCounted(s, h); OtherHandlerConserves(s, h);
  }

  lemma StepKeeps(s: State, a: Action)
    requires Inv(s) && Do(s, a).Some?
    ensures Inv(Do(s, a).value)
  {
    hide Counted, Owned, Conserved, ProducerMove, HandlerMove;
    match a
    case Interrupt(p, data) =>
      InterruptCounted(s, p, data);
      InterruptOwned(s, p, data);
      InterruptConserves(s, p, data);
    case ProducerStep(p) => ProducerKeeps(s, p);
    case Take(h, b) =>
      TakeCounted(s, h, b);
      TakeOwned(s, h, b);
      TakeConserves(s, h, b);
    case HandlerStep(h) => HandlerKeeps(s, h);
  }

  lemma {:induction false} RunKeeps(s: State, actions: seq<Action>)
    requires Inv(s) && Run(s, actions).Some?
    ensures Inv(Run(s, actions).value)
  {
    if actions != [] {
      hide Inv, Do;
      RunKeeps(s, actions[..|actions| - 1]);
      StepKeeps(Run(s, actions[..|actions| - 1]).value, actions[|actions| - 1]);
    }
  }

  /** No block is in two hands. */
  ghost predicate OneUser(s: State) {
    && (forall p, q, b | p in s.producers && q in s.producers && ProducerHas(s.producers[p], b)
          && ProducerHas(s.producers[q], b) :: p == q)
    && (forall g, h, b | g in s.handlers && h in s.handlers && HandlerHas(s.handlers[g], b)
          && HandlerHas(s.handlers[h], b) :: g == h)
    && (forall p, h, b | p in s.producers && h in s.handlers && ProducerHas(s.producers[p], b) ::
          !HandlerHas(s.handlers[h], b))
  }

  lemma OwnedOneUser(s: State)
    requires Owned(s)
    ensures OneUser(s)
  {
    hide BlockOk;
    forall p | p in s.producers
      ensures ProducerOk(s, p)
    {
    }
    forall h | h in s.handlers
      ensures HandlerOk(s, h)
    {
    }
  }

  lemma AtMostAll(s: State)
    ensures |Available(s)| <= |s.blocks|
  {
    SubsetSize(Available(s), FirstN(|s.blocks|));
  }

  lemma SubsetSize(a: set<nat>, b: set<nat>)
    requires a <= b
    ensures |a| <= |b|
  {
    assert b == a + (b - a);
  }

  lemma {:induction false} RunLength(s: State, actions: seq<Action>)
    requires Run(s, actions).Some?
    ensures |Run(s, actions).value.blocks| == |s.blocks|
  {
    if actions != [] {
      hide Do;
      RunLength(s, actions[..|actions| - 1]);
      StepLength(Run(s, actions[..|actions| - 1]).value, actions[|actions| - 1]);
    }
  }

  lemma StepLength(s: State, a: Action)
    requires Do(s, a).Some?
    ensures |Do(s, a).value.blocks| == |s.blocks|
  {
  }

  /** Over every run: the available blocks are counted by the semaphore, the producers about to pick and the
      handlers about to release; every producer past the semaphore finds a block; no block is in two hands; a
      release never exceeds the semaphore's limit; and every announced datum is read once. */
  lemma {:induction false} PoolSafe(handlerCount: nat, actions: seq<Action>)
    requires handlerCount <= 64 && Run(SetUp(handlerCount).value, actions).Some?
    ensures var s := Run(SetUp(handlerCount).value, actions).value;
      && |Available(s)| == s.semaphore + |Picking(s)| + |Releasing(s)|
      && s.lost == 0
      && OneUser(s)
      && (Releasing(s) != {} ==> s.semaphore < handlerCount)
      && s.accepted == s.delivered + Pending(s, |s.blocks|)
  {
    hide Owned, OneUser;
    var s := Run(SetUp(handlerCount).value, actions).value;
    SetUpInv(handlerCount);
    RunKeeps(SetUp(handlerCount).value, actions);
    RunLength(SetUp(handlerCount).value, actions);
    OwnedOneUser(s);
    AtMostAll(s);
  }

  // ---- what the interrupts brought ----

  /** The data of the producer's last interrupt. */
  function LastData(actions: seq<Action>, p: nat): Option<int> {
    if actions == [] then None
    else
      var a := actions[|actions| - 1];
      if a.Interrupt? && a.p == p then Some(a.data) else LastData(actions[..|actions| - 1], p)
  }

  predicate Carries(s: State, p: nat, data: Option<int>) {
    p in s.producers && !s.producers[p].Away? ==> Some(s.producers[p].data) == data
  }

  lemma {:induction false} AllCarry(handlerCount: nat, actions: seq<Action>, p: nat)
    requires handlerCount <= 64 && Run(SetUp(handlerCount).value, actions).Some?
    ensures Carries(Run(SetUp(handlerCount).value, actions).value, p, LastData(actions, p))
  {
    if actions != [] {
      hide Do, Carries;
      var init := actions[..|actions| - 1];
      AllCarry(handlerCount, init, p);
      StepCarries(Run(SetUp(handlerCount).value, init).value, actions[|actions| - 1], p, LastData(init, p));
    }
  }

  lemma StepCarries(s: State, a: Action, p: nat, data: Option<int>)
    requires Do(s, a).Some? && Carries(s, p, data)
    ensures Carries(Do(s, a).value, p, if a.Interrupt? && a.p == p then Some(a.data) else data)
  {
  }

  /** What is announced is what the producer's interrupt brought: its last step adds that datum, and no other step
      of anyone adds anything. */
  lemma {:induction false} AnnouncedExact(handlerCount: nat, actions: seq<Action>, a: Action)
    requires handlerCount <= 64 && Run(SetUp(handlerCount).value, actions).Some?
    requires Do(Run(SetUp(handlerCount).value, actions).value, a).Some?
    ensures var s := Run(SetUp(handlerCount).value, actions).value; var t := Do(s, a).value;
      if a.ProducerStep? && s.producers[a.p].Stored? then
        && LastData(actions, a.p).Some?
        && t.accepted == s.accepted + multiset{LastData(actions, a.p).value}
        && t.producers[a.p].Away?
      else t.accepted == s.accepted
  {
    if a.ProducerStep? {
      AllCarry(handlerCount, actions, a.p);
    }
  }

  // ---- nobody waits for ever for nothing ----

  /** While a producer is on its way, or a handler has a block, somebody can move: a producer, a handler, or one that
      comes to fetch a block. */
  lemma {:induction false} NeverStuck(handlerCount: nat, actions: seq<Action>)
    requires 0 < handlerCount <= 64 && Run(SetUp(handlerCount).value, actions).Some?
    requires var s := Run(SetUp(handlerCount).value, actions).value;
      || (exists p | p in s.producers :: !s.producers[p].Away?)
      || (exists h | h in s.handlers :: !s.handlers[h].Free?)
    ensures exists a: Action :: !a.Interrupt? && Do(Run(SetUp(handlerCount).value, actions).value, a).Some?
  {
    hide Inv, Run, Do;
    SetUpInv(handlerCount);
    RunKeeps(SetUp(handlerCount).value, actions);
    RunLength(SetUp(handlerCount).value, actions);
    var s := Run(SetUp(handlerCount).value, actions).value;
    if h :| h in s.handlers && !s.handlers[h].Free? {
      HandlerGoesOn(s, h);
    } else {
      var p :| p in s.producers && !s.producers[p].Away?;
      ProducerGoesOn(s, p);
    }
  }

  ghost predicate CanMove(s: State) {
    exists a: Action :: !a.Interrupt? && Do(s, a).Some?
  }

  lemma Moves(s: State, a: Action)
    requires !a.Interrupt? && Do(s, a).Some?
    ensures CanMove(s)
  {
  }

  /** Who holds the mutex can go on. */
  lemma HolderGoesOn(s: State)
    requires Inv(s) && s.mutex.Some?
    ensures CanMove(s)
  {
    hide CanMove;
    MutexHeld(s);
    OwnedProducer(s, s.mutex.value);
    Moves(s, ProducerStep(s.mutex.value));
  }

  lemma HandlerGoesOn(s: State, h: nat)
    requires Inv(s) && h in s.handlers && !s.handlers[h].Free?
    ensures CanMove(s)
  {
    hide CanMove;
    if s.mutex.Some? {
      HolderGoesOn(s);
    } else {
      OwnedHandler(s, h);
      Moves(s, HandlerStep(h));
    }
  }

  lemma ProducerGoesOn(s: State, p: nat)
    requires Inv(s) && |s.blocks| > 0 && p in s.producers && !s.producers[p].Away?
    ensures CanMove(s)
  {
    hide CanMove;
    if s.mutex.Some? {
      HolderGoesOn(s);
    } else if !s.producers[p].Copied? || s.semaphore > 0 {
      OwnedProducer(s, p);
      Moves(s, ProducerStep(p));
    } else if q :| q in Picking(s) {
      OwnedProducer(s, q);
      Moves(s, ProducerStep(q));
    } else if h :| h in Releasing(s) {
      HandlerGoesOn(s, h);
    } else {
      NoneAvailable(s);
    }
  }

  /** When every block is taken, one of them waits for a handler or has one. */
  lemma NoneAvailable(s: State)
    requires Inv(s) && |s.blocks| > 0 && s.mutex.None? && s.semaphore == 0 && Picking(s) == {} && Releasing(s) == {}
    ensures CanMove(s)
  {
    hide CanMove;
    assert 0 !in Available(s);
    OwnedBlock(s, 0);
    match s.blocks[0].holder
    case Pool =>
    case ByProducer(p) =>
      OwnedProducer(s, p);
      Moves(s, ProducerStep(p));
    case OnEvent =>
      var h := FreshHandler(s);
      Moves(s, Take(h, 0));
    case ByHandler(h) =>
      OwnedHandler(s, h);
      HandlerGoesOn(s, h);
  }

  lemma FreshHandler(s: State) returns (h: nat)
    ensures h !in s.handlers
  {
    var all := FirstN(|s.handlers| + 1);
    if all <= s.handlers.Keys {
      SubsetSize(all, s.handlers.Keys);
    }
    h :| h in all && h !in s.handlers.Keys;
  }
}
