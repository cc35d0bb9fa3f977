/**
  The client's pool of pre-dialled connections, as a step system. One event is one action that the
  Go scheduler cannot split: a critical section under directPoolMu, one channel operation, one
  dial, one Close. Any number of getters, refillers and closers may run; a run is any sequence of
  events, and an event whose thread is not at the matching point changes nothing.
 */
module DirectPool {

  type Conn = nat
  type Thread = nat

  /** Where a goroutine is, and which connection it alone holds. */
  datatype Pc =
    | Get                                  // getDirectConn entered
    | GetSelect                            // saw an open pool, about to select on the channel
    | GetDial                              // falls back to dialling
    | Refill(left: nat)                    // head of refillPool's loop
    | RefillDial(left: nat)                // done not closed, about to dial
    | RefillPut(left: nat, held: Conn)     // about to call putDirectConn
    | RefillClose(held: Conn)              // putDirectConn said no
    | Shut                                 // closeDirectPool entered
    | ShutClose                            // directClosed set, about to close the channel
    | ShutDrain                            // head of the range loop
    | ShutConn(held: Conn)                 // received one, about to close it

  /** What a dialled connection's one owner is. */
  datatype Place = Queued | Held(owner: Thread) | HandedOut | Closed

  datatype State = State(
    poolSize: nat,
    queue: seq<Conn>,                      // contents of the channel
    chanClosed: bool,
    poolNil: bool,                         // c.directPool == nil
    directClosed: bool,
    done: bool,
    threads: map<Thread, Pc>,
    place: seq<Place>,                     // every connection dialled so far, by number
    drained: bool,                         // the closer that emptied the channel has returned
    panicked: bool)                        // send on, or close of, a closed channel

  datatype Event =
    | Spawn(t: Thread, pc: Pc)
    | Stop
    | Go(t: Thread, dialled: bool, child: Thread)

  function Capacity(s: State): nat { 2 * s.poolSize }

  /** Connections are numbered in the order they are dialled. */
  function Fresh(s: State): Conn { |s.place| }

  function Dial(s: State, p: Place): State { s.(place := s.place + [p]) }

  function At(s: State, t: Thread, pc: Pc): State { s.(threads := s.threads[t := pc]) }

  function End(s: State, t: Thread): State { s.(threads := s.threads - {t}) }

  function Move(s: State, c: Conn, p: Place): State
  {
    if c < |s.place| then s.(place := s.place[c := p]) else s
  }

  predicate Entry(pc: Pc) { pc.Get? || pc.Refill? || pc.Shut? }

  function Step(s: State, e: Event): State
  {
    match e
    case Stop => s.(done := true)
    case Spawn(t, pc) => if t !in s.threads && Entry(pc) then At(s, t, pc) else s
    case Go(t, dialled, child) => if t in s.threads then Advance(s, t, s.threads[t], dialled, child) else s
  }

  function Advance(s: State, t: Thread, pc: Pc, dialled: bool, child: Thread): State
  {
    match pc
    case Get => At(s, t, if s.directClosed || s.poolNil then GetDial else GetSelect)
    case GetSelect => Receive(s, t, child)
    case GetDial => HandOut(s, t, dialled)
    case Refill(left) => if left == 0 || s.done then End(s, t) else At(s, t, RefillDial(left))
    case RefillDial(left) => DialToRefill(s, t, left, dialled)
    case RefillPut(left, c) => Put(s, t, left, c)
    case RefillClose(c) => End(CloseConn(s, t, c, Refill(0)), t)
    case Shut => TakeDown(s, t)
    case ShutClose => CloseChannel(s, t)
    case ShutDrain => Drain(s, t)
    case ShutConn(c) => CloseConn(s, t, c, ShutDrain)
  }

  function HandOut(s: State, t: Thread, dialled: bool): State
  {
    if dialled then End(Dial(s, HandedOut), t) else End(s, t)
  }

  function DialToRefill(s: State, t: Thread, left: nat, dialled: bool): State
  {
    if dialled then At(Dial(s, Held(t)), t, RefillPut(left, Fresh(s))) else At(s, t, Refill(Less(left)))
  }

  function CloseConn(s: State, t: Thread, c: Conn, next: Pc): State { At(Move(s, c, Closed), t, next) }

  /** closeDirectPool's critical section; a second closer returns at once. */
  function TakeDown(s: State, t: Thread): State
  {
    if s.directClosed || s.poolNil then End(s, t)
    else At(s.(directClosed := true, poolNil := true), t, ShutClose)
  }

  function CloseChannel(s: State, t: Thread): State
  {
    At(s.(chanClosed := true, panicked := s.panicked || s.chanClosed), t, ShutDrain)
  }

  /** One turn of the range loop over the closed channel. */
  function Drain(s: State, t: Thread): State
  {
    if s.queue == [] then End(s.(drained := true), t)
    else At(Move(s.(queue := s.queue[1..]), s.queue[0], Held(t)), t, ShutConn(s.queue[0]))
  }

  function Less(n: nat): nat { if n == 0 then 0 else n - 1 }

  /** getDirectConn's select: a queued connection, or dial when the channel is empty or closed. */
  function Receive(s: State, t: Thread, child: Thread): State
  {
    if s.queue == [] then At(s, t, GetDial)
    else if child in s.threads then s
    else At(End(Move(s.(queue := s.queue[1..]), s.queue[0], HandedOut), t), child, Refill(1))
  }

  /** putDirectConn: the check and the non-blocking send are one critical section. */
  function Put(s: State, t: Thread, left: nat, c: Conn): State
  {
    if s.directClosed || s.poolNil then At(s, t, RefillClose(c))
    else if s.chanClosed then s.(panicked := true)
    else if |s.queue| < Capacity(s) then
      At(Move(s.(queue := s.queue + [c]), c, Queued), t, Refill(Less(left)))
    else At(s, t, RefillClose(c))
  }

  function Run(s: State, events: seq<Event>): State
    decreases |events|
  {
    if events == [] then s else Run(Step(s, events[0]), events[1..])
  }

  /** initDirectPool: poolSize dials in turn, the successful ones sent to a channel of twice that size. */
  function Init(poolSize: nat, dialled: nat): State
    requires dialled <= poolSize
  {
    State(poolSize, seq(dialled, i => i), false, false, false, false, map[],
          seq(dialled, _ => Queued), false, false)
  }

  function Successes(dials: seq<bool>): (n: nat)
    ensures n <= |dials|
  {
    if dials == [] then 0
    else Successes(dials[..|dials| - 1]) + if dials[|dials| - 1] then 1 else 0
  }

  method InitDirectPool(configured: int, dials: seq<bool>) returns (s: State, ok: bool)
    requires |dials| == if configured <= 0 then 16 else configured
    ensures s == Init(|dials|, Successes(dials))
    ensures |s.queue| == multiset(dials)[true] && forall c :: 0 <= c < |s.queue| ==> s.queue[c] == c
    ensures s.poolSize == |dials| && !s.chanClosed && !s.directClosed && !s.poolNil && !s.done && s.threads == map[]
    ensures ok <==> true in dials
    ensures Inv(s)
  {
    var poolSize := if configured <= 0 then 16 else configured;
    var queue: seq<Conn> := [];
    var connected := 0;
    for i := 0 to poolSize
      invariant connected == |queue| <= i
      invariant queue == seq(connected, k => k)
      invariant connected == Successes(dials[..i]) == multiset(dials[..i])[true]
      invariant connected > 0 <==> true in dials[..i]
    {
      assert dials[..i + 1] == dials[..i] + [dials[i]];
      if dials[i] {
        queue := queue + [connected];
        connected := connected + 1;
      }
    }
    assert dials[..poolSize] == dials;
    s := Init(poolSize, connected);
    ok := connected > 0;
    InitInv(poolSize, connected);
  }

  // ---- The invariant ----

  /** The program points that own a connection. */
  predicate Holding(pc: Pc) { pc.RefillPut? || pc.RefillClose? || pc.ShutConn? }

  predicate Closing(pc: Pc) { pc.ShutClose? || pc.ShutDrain? || pc.ShutConn? }

  /** The channel holds exactly the connections whose place is Queued, each once. */
  ghost predicate QueueOwned(queue: seq<Conn>, place: seq<Place>)
  {
    && (forall i, j :: 0 <= i < j < |queue| ==> queue[i] != queue[j])
    && (forall i :: 0 <= i < |queue| ==> queue[i] < |place| && place[queue[i]] == Queued)
    && (forall c: Conn :: c < |place| && place[c] == Queued ==> c in queue)
  }

  /** A thread holds exactly the connections whose place names it. */
  ghost predicate ThreadsOwn(threads: map<Thread, Pc>, place: seq<Place>)
  {
    && (forall t: Thread :: t in threads && Holding(threads[t]) ==>
          threads[t].held < |place| && place[threads[t].held] == Held(t))
    && (forall c: Conn :: c < |place| && place[c].Held? ==>
          place[c].owner in threads && Holding(threads[place[c].owner]) && threads[place[c].owner].held == c)
  }

  /** Each dialled connection is in exactly one place, and the place is where it really is. */
  ghost predicate Owned(s: State) { QueueOwned(s.queue, s.place) && ThreadsOwn(s.threads, s.place) }

  /** At most one thread is past setting directClosed; it closes the channel first, then drains. */
  ghost predicate OneCloser(threads: map<Thread, Pc>, directClosed: bool, chanClosed: bool, drained: bool)
  {
    && (forall t: Thread, u: Thread ::
          t in threads && u in threads && Closing(threads[t]) && Closing(threads[u]) ==> t == u)
    && (forall t: Thread :: t in threads && Closing(threads[t]) ==>
          directClosed && !drained && (chanClosed <==> !threads[t].ShutClose?))
  }

  /** The channel closes only after the pool is gone, and is empty once drained. */
  ghost predicate Handshake(s: State)
  {
    && OneCloser(s.threads, s.directClosed, s.chanClosed, s.drained)
    && s.directClosed == s.poolNil
    && (s.chanClosed ==> s.directClosed)
    && (s.drained ==> s.chanClosed && s.queue == [])
  }

  ghost predicate Inv(s: State)
  {
    Owned(s) && Handshake(s) && |s.queue| <= Capacity(s) && !s.panicked
  }

  lemma InitInv(poolSize: nat, dialled: nat)
    requires dialled <= poolSize
    ensures Inv(Init(poolSize, dialled))
  {
    var s := Init(poolSize, dialled);
    forall c: nat | c < |s.place| ensures c in s.queue {
      assert s.queue[c] == c;
    }
  }

  // ---- Every step keeps it: who owns what ----

  /** A thread that changes point without gaining or losing a connection. */
  lemma KeepsHolding(s: State, t: Thread, pc: Pc)
    requires Owned(s)
    requires
      if t in s.threads && Holding(s.threads[t]) then Holding(pc) && pc.held == s.threads[t].held else !Holding(pc)
    ensures Owned(At(s, t, pc))
  {
  }

  lemma EndsEmptyHanded(s: State, t: Thread)
    requires Owned(s) && t in s.threads && !Holding(s.threads[t])
    ensures Owned(End(s, t))
  {
  }

  lemma DialsOwned(s: State, t: Thread, left: nat)
    requires Owned(s) && t in s.threads && !Holding(s.threads[t])
    ensures Owned(Dial(s, HandedOut))
    ensures Owned(At(Dial(s, Held(t)), t, RefillPut(left, Fresh(s))))
  {
  }

  lemma ClosesHeld(s: State, t: Thread, c: Conn, pc: Pc)
    requires Owned(s) && t in s.threads && Holding(s.threads[t]) && s.threads[t].held == c && !Holding(pc)
    ensures Owned(At(Move(s, c, Closed), t, pc))
  {
  }

  lemma QueuesHeld(s: State, t: Thread, c: Conn, left: nat)
    requires Owned(s) && t in s.threads && Holding(s.threads[t]) && s.threads[t].held == c
    ensures Owned(At(Move(s.(queue := s.queue + [c]), c, Queued), t, Refill(left)))
  {
    var q, place := s.queue + [c], s.place[c := Queued];
    forall d: Conn | d < |place| && place[d] == Queued ensures d in q {
      assert d == c || d in s.queue;
    }
  }

  lemma TakesHead(s: State, p: Place)
    requires QueueOwned(s.queue, s.place) && s.queue != [] && !p.Queued?
    ensures s.queue[0] < |s.place| && QueueOwned(s.queue[1..], s.place[s.queue[0] := p])
  {
    var q := s.queue;
    forall c: Conn | c in q && c != q[0] ensures c in q[1..] {
      var i :| 0 <= i < |q| && q[i] == c;
      assert q[1..][i - 1] == c;
    }
  }

  lemma DrainsHead(s: State, t: Thread)
    requires Owned(s) && t in s.threads && !Holding(s.threads[t]) && s.queue != []
    ensures Owned(At(Move(s.(queue := s.queue[1..]), s.queue[0], Held(t)), t, ShutConn(s.queue[0])))
  {
    TakesHead(s, Held(t));
  }

  lemma ReceiveOwned(s: State, t: Thread, child: Thread)
    requires Owned(s) && t in s.threads && s.threads[t].GetSelect?
    ensures Owned(Receive(s, t, child))
  {
    KeepsHolding(s, t, GetDial);
    if s.queue != [] && child !in s.threads {
      TakesHead(s, HandedOut);
      var s1 := Move(s.(queue := s.queue[1..]), s.queue[0], HandedOut);
      assert s.place[s.queue[0]] == Queued;
      EndsEmptyHanded(s1, t);
      KeepsHolding(End(s1, t), child, Refill(1));
    }
  }

  // ---- The shutdown handshake ----

  lemma LeavesCloser(s: State, t: Thread, pc: Pc)
    requires OneCloser(s.threads, s.directClosed, s.chanClosed, s.drained) && !Closing(pc)
    ensures OneCloser(s.threads[t := pc], s.directClosed, s.chanClosed, s.drained)
    ensures OneCloser(s.threads - {t}, s.directClosed, s.chanClosed, s.drained)
  {
  }

  lemma CloserMoves(s: State, t: Thread, pc: Pc, chanClosed: bool)
    requires OneCloser(s.threads, s.directClosed, s.chanClosed, s.drained)
    requires t in s.threads && Closing(s.threads[t]) && Closing(pc) && (chanClosed <==> !pc.ShutClose?)
    ensures OneCloser(s.threads[t := pc], s.directClosed, chanClosed, s.drained)
  {
  }

  lemma CloserStarts(s: State, t: Thread)
    requires Handshake(s) && !s.directClosed
    ensures OneCloser(s.threads[t := ShutClose], true, s.chanClosed, s.drained)
  {
  }

  lemma CloserReturns(s: State, t: Thread)
    requires OneCloser(s.threads, s.directClosed, s.chanClosed, s.drained) && t in s.threads && Closing(s.threads[t])
    ensures OneCloser(s.threads - {t}, s.directClosed, s.chanClosed, true)
  {
  }

  lemma CloserAt(s: State, t: Thread)
    requires Handshake(s) && t in s.threads && Closing(s.threads[t])
    ensures s.directClosed && !s.drained && (s.chanClosed <==> !s.threads[t].ShutClose?)
  {
  }

  // ---- What no step ever takes back ----

  /** A connection handed to a caller or closed stays so; a drained channel stays drained. */
  ghost predicate Final(s: State, s': State)
  {
    && (s.drained ==> s'.drained)
    && |s.place| <= |s'.place|
    && (forall c: Conn :: c < |s.place| && (s.place[c].HandedOut? || s.place[c].Closed?) ==> s'.place[c] == s.place[c])
  }

  ghost predicate Next(s: State, s': State) { Inv(s') && Final(s, s') }

  lemma HeadIsQueued(s: State)
    requires QueueOwned(s.queue, s.place) && s.queue != []
    ensures s.queue[0] < |s.place| && s.place[s.queue[0]] == Queued
  {
  }

  lemma HeldIsHeld(s: State, t: Thread)
    requires Owned(s) && t in s.threads && Holding(s.threads[t])
    ensures s.threads[t].held < |s.place| && s.place[s.threads[t].held] == Held(t)
  {
  }

  // ---- Every step keeps the invariant ----

  lemma MovesOn(s: State, t: Thread, pc: Pc)
    requires Inv(s) && t in s.threads && !Closing(s.threads[t]) && !Closing(pc)
    requires if Holding(s.threads[t]) then Holding(pc) && pc.held == s.threads[t].held else !Holding(pc)
    ensures Next(s, At(s, t, pc))
  {
    hide QueueOwned, ThreadsOwn, OneCloser;
    KeepsHolding(s, t, pc);
    LeavesCloser(s, t, pc);
  }

  lemma Ends(s: State, t: Thread)
    requires Inv(s) && t in s.threads && !Holding(s.threads[t])
    ensures Next(s, End(s, t))
  {
    hide QueueOwned, ThreadsOwn, OneCloser;
    EndsEmptyHanded(s, t);
    LeavesCloser(s, t, Get);
  }

  lemma ReceiveInv(s: State, t: Thread, child: Thread)
    requires Inv(s) && t in s.threads && s.threads[t].GetSelect?
    ensures Next(s, Receive(s, t, child))
  {
    hide QueueOwned, ThreadsOwn, OneCloser;
    if s.queue != [] { HeadIsQueued(s); }
    ReceiveOwned(s, t, child);
    LeavesCloser(s, t, GetDial);
    LeavesCloser(End(s, t), child, Refill(1));
  }

  lemma HandOutInv(s: State, t: Thread, dialled: bool)
    requires Inv(s) && t in s.threads && s.threads[t].GetDial?
    ensures Next(s, HandOut(s, t, dialled))
  {
    hide QueueOwned, ThreadsOwn, OneCloser;
    DialsOwned(s, t, 0);
    Ends(Dial(s, HandedOut), t);
    Ends(s, t);
  }

  lemma DialToRefillInv(s: State, t: Thread, left: nat, dialled: bool)
    requires Inv(s) && t in s.threads && s.threads[t].RefillDial?
    ensures Next(s, DialToRefill(s, t, left, dialled))
  {
    hide QueueOwned, ThreadsOwn, OneCloser;
    DialsOwned(s, t, left);
    LeavesCloser(s, t, RefillPut(left, Fresh(s)));
    MovesOn(s, t, Refill(Less(left)));
  }

  /** The send is safe: while the pool is not taken down, the channel is open. */
  lemma PutInv(s: State, t: Thread, left: nat, c: Conn)
    requires Inv(s) && t in s.threads && s.threads[t] == RefillPut(left, c)
    ensures Next(s, Put(s, t, left, c))
  {
    hide QueueOwned, ThreadsOwn, OneCloser;
    HeldIsHeld(s, t);
    MovesOn(s, t, RefillClose(c));
    QueuesHeld(s, t, c, Less(left));
    LeavesCloser(s, t, Refill(Less(left)));
  }

  lemma RefillCloseInv(s: State, t: Thread, c: Conn)
    requires Inv(s) && t in s.threads && s.threads[t] == RefillClose(c)
    ensures Next(s, End(CloseConn(s, t, c, Refill(0)), t))
  {
    hide QueueOwned, ThreadsOwn, OneCloser;
    HeldIsHeld(s, t);
    ClosesHeld(s, t, c, Refill(0));
    LeavesCloser(s, t, Refill(0));
    Ends(CloseConn(s, t, c, Refill(0)), t);
  }

  lemma TakeDownInv(s: State, t: Thread)
    requires Inv(s) && t in s.threads && s.threads[t].Shut?
    ensures Next(s, TakeDown(s, t))
  {
    hide QueueOwned, ThreadsOwn, OneCloser;
    Ends(s, t);
    KeepsHolding(s, t, ShutClose);
    if !s.directClosed {
      CloserStarts(s, t);
    }
  }

  lemma CloseChannelInv(s: State, t: Thread)
    requires Inv(s) && t in s.threads && s.threads[t].ShutClose?
    ensures Next(s, CloseChannel(s, t))
  {
    hide QueueOwned, ThreadsOwn, OneCloser;
    CloserAt(s, t);
    KeepsHolding(s, t, ShutDrain);
    CloserMoves(s, t, ShutDrain, true);
  }

  lemma DrainInv(s: State, t: Thread)
    requires Inv(s) && t in s.threads && s.threads[t].ShutDrain?
    ensures Next(s, Drain(s, t))
  {
    hide QueueOwned, ThreadsOwn, OneCloser;
    if s.queue != [] { HeadIsQueued(s); }
    CloserAt(s, t);
    if s.queue == [] {
      EndsEmptyHanded(s, t);
      CloserReturns(s, t);
    } else {
      DrainsHead(s, t);
      CloserMoves(s, t, ShutConn(s.queue[0]), true);
    }
  }

  lemma ShutConnInv(s: State, t: Thread, c: Conn)
    requires Inv(s) && t in s.threads && s.threads[t] == ShutConn(c)
    ensures Next(s, CloseConn(s, t, c, ShutDrain))
  {
    hide QueueOwned, ThreadsOwn, OneCloser;
    HeldIsHeld(s, t);
    CloserAt(s, t);
    ClosesHeld(s, t, c, ShutDrain);
    CloserMoves(s, t, ShutDrain, true);
  }

  lemma AdvanceInv(s: State, t: Thread, dialled: bool, child: Thread)
    requires Inv(s) && t in s.threads
    ensures Next(s, Advance(s, t, s.threads[t], dialled, child))
  {
    hide Next, Inv, At, End, Receive, HandOut, DialToRefill, Put, CloseConn, TakeDown, CloseChannel, Drain;
    match s.threads[t]
    case Get => MovesOn(s, t, GetDial); MovesOn(s, t, GetSelect);
    case GetSelect => ReceiveInv(s, t, child);
    case GetDial => HandOutInv(s, t, dialled);
    case Refill(left) => Ends(s, t); MovesOn(s, t, RefillDial(left));
    case RefillDial(left) => DialToRefillInv(s, t, left, dialled);
    case RefillPut(left, c) => PutInv(s, t, left, c);
    case RefillClose(c) => RefillCloseInv(s, t, c);
    case Shut => TakeDownInv(s, t);
    case ShutClose => CloseChannelInv(s, t);
    case ShutDrain => DrainInv(s, t);
    case ShutConn(c) => ShutConnInv(s, t, c);
  }

  lemma StepInv(s: State, e: Event)
    requires Inv(s)
    ensures Next(s, Step(s, e))
  {
    hide QueueOwned, ThreadsOwn, OneCloser, Advance;
    match e
    case Stop =>
    case Spawn(t, pc) =>
      if t !in s.threads && Entry(pc) {
        KeepsHolding(s, t, pc);
        LeavesCloser(s, t, pc);
      }
    case Go(t, dialled, child) =>
      if t in s.threads {
        AdvanceInv(s, t, dialled, child);
      }
  }

  lemma {:induction false} RunInv(s: State, events: seq<Event>)
    requires Inv(s)
    ensures Next(s, Run(s, events))
    decreases |events|
  {
    hide QueueOwned, ThreadsOwn, OneCloser, Step;
    if events != [] {
      StepInv(s, events[0]);
      RunInv(Step(s, events[0]), events[1..]);
    }
  }

  // ---- What each operation does, by turns of its own thread ----

  /** n turns of thread t; its dials succeed. */
  function Turns(t: Thread, n: nat): seq<Event> { seq(n, _ => Go(t, true, t)) }

  lemma TurnsFirst(s: State, t: Thread, n: nat)
    requires n > 0
    ensures Run(s, Turns(t, n)) == Run(Step(s, Go(t, true, t)), Turns(t, n - 1))
  {
    hide Step;
    assert Turns(t, n)[1..] == Turns(t, n - 1);
  }

  lemma NoTurns(s: State, t: Thread)
    ensures Run(s, Turns(t, 0)) == s
  {
  }

  lemma RunTwo(s: State, a: Event, b: Event)
    ensures Run(s, [a, b]) == Step(Step(s, a), b)
  {
    hide Step;
    assert [a, b][1..] == [b] && [b][1..] == [];
    assert Run(Step(s, a), [b]) == Run(Step(Step(s, a), b), []);
  }

  /** A getter on an open pool hands out the head of the queue and starts one refill. */
  lemma GetTakesHead(s: State, t: Thread, child: Thread)
    requires Inv(s) && t in s.threads && s.threads[t].Get? && child !in s.threads
    requires !s.directClosed && s.queue != []
    ensures s.queue[0] < |s.place|
    ensures Run(s, [Go(t, true, t), Go(t, true, child)]) == s.(
      queue := s.queue[1..],
      place := s.place[s.queue[0] := HandedOut],
      threads := (s.threads - {t})[child := Refill(1)])
  {
    RunTwo(s, Go(t, true, t), Go(t, true, child));
    HeadIsQueued(s);
    assert s.threads[t := GetSelect] - {t} == s.threads - {t};
  }

  /** A getter that finds the pool taken down or empty dials a connection of its own. */
  lemma GetDials(s: State, t: Thread, dialled: bool)
    requires Inv(s) && t in s.threads && s.threads[t].Get?
    ensures s.directClosed ==> Run(s, [Go(t, true, t), Go(t, dialled, t)]) == s.(
      place := if dialled then s.place + [HandedOut] else s.place, threads := s.threads - {t})
    ensures !s.directClosed && s.queue == [] ==>
      Run(s, [Go(t, true, t), Go(t, true, t)]) == s.(threads := s.threads[t := GetDial])
      && Step(s.(threads := s.threads[t := GetDial]), Go(t, dialled, t)) == s.(
           place := if dialled then s.place + [HandedOut] else s.place, threads := s.threads - {t})
  {
    RunTwo(s, Go(t, true, t), Go(t, dialled, t));
    RunTwo(s, Go(t, true, t), Go(t, true, t));
    assert s.threads[t := GetDial] - {t} == s.threads - {t};
    assert s.threads[t := GetSelect][t := GetDial] == s.threads[t := GetDial];
  }

  /** A put with the pool open and room appends the connection, and the refill goes on. */
  lemma PutAppends(s: State, t: Thread, left: nat, c: Conn, e: Event)
    requires Inv(s) && t in s.threads && s.threads[t] == RefillPut(left, c) && e.Go? && e.t == t
    requires !s.directClosed && |s.queue| < 2 * s.poolSize
    ensures c < |s.place|
    ensures Step(s, e) == s.(
      queue := s.queue + [c],
      place := s.place[c := Queued],
      threads := s.threads[t := Refill(if left == 0 then 0 else left - 1)])
  {
    HeldIsHeld(s, t);
  }

  /** With the pool taken down or full, the refill closes what it dialled and stops. */
  lemma PutRefused(s: State, t: Thread, left: nat, c: Conn)
    requires Inv(s) && t in s.threads && s.threads[t] == RefillPut(left, c)
    requires s.directClosed || |s.queue| == 2 * s.poolSize
    ensures c < |s.place|
    ensures Run(s, Turns(t, 2)) == s.(place := s.place[c := Closed], threads := s.threads - {t})
  {
    HeldIsHeld(s, t);
    assert Turns(t, 2) == [Go(t, true, t), Go(t, true, t)];
    RunTwo(s, Go(t, true, t), Go(t, true, t));
    assert s.threads[t := RefillClose(c)][t := Refill(0)] - {t} == s.threads - {t};
  }

  /** One round of a refill on an open pool with room. */
  lemma RefillRound(s: State, t: Thread, left: nat)
    requires Inv(s) && t in s.threads && s.threads[t] == Refill(left) && left > 0
    requires !s.directClosed && !s.done && |s.queue| < 2 * s.poolSize
    ensures Run(s, Turns(t, 3 * left + 1)) == Run(
      s.(queue := s.queue + [|s.place|], place := s.place + [Queued], threads := s.threads[t := Refill(left - 1)]),
      Turns(t, 3 * (left - 1) + 1))
    ensures Inv(s.(queue := s.queue + [|s.place|], place := s.place + [Queued],
                   threads := s.threads[t := Refill(left - 1)]))
  {
    hide Run, Owned, Handshake;
    var go, n := Go(t, true, t), 3 * left + 1;
    var s1 := Step(s, go);
    var s2 := Step(s1, go);
    StepInv(s, go);
    StepInv(s1, go);
    StepInv(s2, go);
    TurnsFirst(s, t, n);
    TurnsFirst(s1, t, n - 1);
    TurnsFirst(s2, t, n - 2);
    PutAppends(s2, t, left, |s.place|, go);
    assert (s.place + [Held(t)])[|s.place| := Queued] == s.place + [Queued];
    assert s.threads[t := RefillDial(left)][t := RefillPut(left, |s.place|)][t := Refill(left - 1)]
      == s.threads[t := Refill(left - 1)];
  }

  /** A refill of n on an open pool with room for them queues n new connections, and ends. */
  lemma {:induction false} RefillFills(s: State, t: Thread, left: nat)
    requires Inv(s) && t in s.threads && s.threads[t] == Refill(left)
    requires !s.directClosed && !s.done && |s.queue| + left <= 2 * s.poolSize
    ensures Run(s, Turns(t, 3 * left + 1)) == s.(
      queue := s.queue + seq(left, i => |s.place| + i),
      place := s.place + seq(left, _ => Queued),
      threads := s.threads - {t})
    decreases left
  {
    hide Run, Owned, Handshake;
    if left == 0 {
      TurnsFirst(s, t, 1);
      NoTurns(Step(s, Go(t, true, t)), t);
    } else {
      RefillRound(s, t, left);
      var s1 := s.(queue := s.queue + [|s.place|], place := s.place + [Queued],
                   threads := s.threads[t := Refill(left - 1)]);
      RefillFills(s1, t, left - 1);
      assert s.queue + seq(left, i => |s.place| + i)
        == s1.queue + seq(left - 1, i => |s1.place| + i);
      assert s.place + seq(left, _ => Queued) == s1.place + seq(left - 1, _ => Queued);
      assert s1.threads - {t} == s.threads - {t};
    }
  }

  lemma DrainTurn(s: State, t: Thread)
    requires t in s.threads && s.threads[t].ShutDrain? && s.queue != [] && s.queue[0] < |s.place|
    ensures Step(s, Go(t, true, t)) == s.(
      queue := s.queue[1..], place := s.place[s.queue[0] := Held(t)], threads := s.threads[t := ShutConn(s.queue[0])])
  {
  }

  lemma CloseTurn(s: State, t: Thread, c: Conn)
    requires t in s.threads && s.threads[t] == ShutConn(c) && c < |s.place|
    ensures Step(s, Go(t, true, t)) == s.(place := s.place[c := Closed], threads := s.threads[t := ShutDrain])
  {
  }

  /** One round of the range loop. */
  lemma DrainRound(s: State, t: Thread, n: nat)
    requires t in s.threads && s.threads[t].ShutDrain? && s.queue != [] && s.queue[0] < |s.place|
    ensures Run(s, Turns(t, n + 2)) == Run(
      s.(queue := s.queue[1..], place := s.place[s.queue[0] := Closed], threads := s.threads[t := ShutDrain]),
      Turns(t, n))
  {
    hide Run, Step, Turns;
    var c, s1 := s.queue[0], Step(s, Go(t, true, t));
    DrainTurn(s, t);
    CloseTurn(s1, t, c);
    TurnsFirst(s, t, n + 2);
    TurnsFirst(s1, t, n + 1);
    assert s.place[c := Held(t)][c := Closed] == s.place[c := Closed];
    assert s.threads[t := ShutConn(c)][t := ShutDrain] == s.threads[t := ShutDrain];
  }

  /** The range loop alone closes everything queued and returns. */
  lemma {:induction false} DrainAlone(s: State, t: Thread)
    requires t in s.threads && s.threads[t].ShutDrain?
    requires forall i :: 0 <= i < |s.queue| ==> s.queue[i] < |s.place|
    ensures var s' := Run(s, Turns(t, 1 + 2 * |s.queue|));
      && s' == s.(queue := [], drained := true, threads := s.threads - {t}, place := s'.place)
      && |s'.place| == |s.place|
      && forall c: Conn :: c < |s.place| ==> s'.place[c] == if c in s.queue then Closed else s.place[c]
    decreases |s.queue|
  {
    hide Run, Receive, Put, HandOut, DialToRefill, TakeDown, CloseChannel;
    if s.queue == [] {
      TurnsFirst(s, t, 1);
      NoTurns(Step(s, Go(t, true, t)), t);
    } else {
      var c := s.queue[0];
      var s2 := s.(queue := s.queue[1..], place := s.place[c := Closed], threads := s.threads[t := ShutDrain]);
      DrainRound(s, t, 1 + 2 * |s2.queue|);
      DrainAlone(s2, t);
      assert s2.threads - {t} == s.threads - {t};
      assert s.queue == [c] + s2.queue;
    }
  }

  /** closeDirectPool alone: the pool is taken down, the channel closed, every queued connection closed. */
  lemma ShutDownAlone(s: State, t: Thread)
    requires Inv(s) && t in s.threads && s.threads[t].Shut? && !s.directClosed
    ensures var s' := Run(s, Turns(t, 3 + 2 * |s.queue|));
      && s' == s.(directClosed := true, poolNil := true, chanClosed := true, queue := [], drained := true,
                  threads := s.threads - {t}, place := s'.place)
      && |s'.place| == |s.place|
      && forall c: Conn :: c < |s.place| ==> s'.place[c] == if c in s.queue then Closed else s.place[c]
  {
    hide Run;
    var go, n := Go(t, true, t), 3 + 2 * |s.queue|;
    var s1 := Step(s, go);
    var s2 := Step(s1, go);
    TurnsFirst(s, t, n);
    TurnsFirst(s1, t, n - 1);
    DrainAlone(s2, t);
    assert s2.threads - {t} == s.threads - {t};
  }

  /** A closer that finds the pool taken down returns and changes nothing. */
  lemma SecondCloserReturns(s: State, t: Thread)
    requires Inv(s) && t in s.threads && s.threads[t].Shut? && s.directClosed
    ensures Run(s, Turns(t, 1)) == s.(threads := s.threads - {t})
  {
    TurnsFirst(s, t, 1);
    NoTurns(Step(s, Go(t, true, t)), t);
  }

  // ---- Shutdown completes in every interleaving ----

  function Turn(e: Event, t: Thread): nat { if e.Go? && e.t == t then 1 else 0 }

  function TurnsOf(events: seq<Event>, t: Thread): nat
  {
    if events == [] then 0 else Turn(events[0], t) + TurnsOf(events[1..], t)
  }

  lemma {:induction false} TurnsCount(t: Thread, u: Thread, n: nat)
    ensures TurnsOf(Turns(t, n), u) == if t == u then n else 0
  {
    if n > 0 {
      assert Turns(t, n)[1..] == Turns(t, n - 1);
      TurnsCount(t, u, n - 1);
    }
  }

  /** How many turns a closer still needs at most. */
  function Ahead(s: State, t: Thread): nat
  {
    if t !in s.threads || !Closing(s.threads[t]) then 0
    else (if s.threads[t].ShutDrain? then 1 else 2) + 2 * |s.queue|
  }

  /** What a turn of t leaves alone: the other threads, a taken-down pool, and the bound on a closed queue. */
  ghost predicate Frames(s: State, s': State, t: Thread)
  {
    && s'.poolSize == s.poolSize && (s.directClosed ==> s'.directClosed && |s'.queue| <= |s.queue|)
    && forall u: Thread :: u != t && u in s.threads ==> u in s'.threads && s'.threads[u] == s.threads[u]
  }

  lemma MoveKeeps(s: State, c: Conn, p: Place)
    ensures Move(s, c, p) == s.(place := Move(s, c, p).place)
  {
  }

  lemma TakeDownFrames(s: State, t: Thread)
    ensures Frames(s, TakeDown(s, t), t)
  {
  }

  lemma CloseChannelFrames(s: State, t: Thread)
    ensures Frames(s, CloseChannel(s, t), t)
  {
  }

  lemma DrainFrames(s: State, t: Thread)
    ensures Frames(s, Drain(s, t), t)
  {
    hide Move;
    if s.queue != [] {
      MoveKeeps(s.(queue := s.queue[1..]), s.queue[0], Held(t));
    }
  }

  lemma CloseConnFrames(s: State, t: Thread, c: Conn, pc: Pc)
    ensures Frames(s, CloseConn(s, t, c, pc), t) && Frames(s, End(CloseConn(s, t, c, pc), t), t)
  {
  }

  lemma ReceiveFrames(s: State, t: Thread, child: Thread)
    ensures Frames(s, Receive(s, t, child), t)
  {
    hide Move;
    if s.queue != [] && child !in s.threads {
      MoveKeeps(s.(queue := s.queue[1..]), s.queue[0], HandedOut);
    }
  }

  lemma DialFrames(s: State, t: Thread, left: nat, dialled: bool)
    ensures Frames(s, HandOut(s, t, dialled), t) && Frames(s, DialToRefill(s, t, left, dialled), t)
  {
  }

  lemma PutFrames(s: State, t: Thread, left: nat, c: Conn)
    requires s.directClosed == s.poolNil
    ensures Frames(s, Put(s, t, left, c), t)
  {
    hide Move;
    MoveKeeps(s.(queue := s.queue + [c]), c, Queued);
  }

  lemma PcFrames(s: State, t: Thread, pc: Pc)
    ensures Frames(s, At(s, t, pc), t) && Frames(s, End(s, t), t)
  {
  }

  lemma AdvanceFrames(s: State, t: Thread, dialled: bool, child: Thread)
    requires t in s.threads && s.directClosed == s.poolNil
    ensures Frames(s, Advance(s, t, s.threads[t], dialled, child), t)
  {
    hide Frames, At, End, Receive, HandOut, DialToRefill, Put, CloseConn, TakeDown, CloseChannel, Drain;
    match s.threads[t]
    case Get => PcFrames(s, t, GetDial); PcFrames(s, t, GetSelect);
    case GetSelect => ReceiveFrames(s, t, child);
    case GetDial => DialFrames(s, t, 0, dialled);
    case Refill(left) => PcFrames(s, t, RefillDial(left));
    case RefillDial(left) => DialFrames(s, t, left, dialled);
    case RefillPut(left, c) => PutFrames(s, t, left, c);
    case RefillClose(c) => CloseConnFrames(s, t, c, Refill(0));
    case Shut => TakeDownFrames(s, t);
    case ShutClose => CloseChannelFrames(s, t);
    case ShutDrain => DrainFrames(s, t);
    case ShutConn(c) => CloseConnFrames(s, t, c, ShutDrain);
  }

  /** Any event leaves alone every thread it is not a turn of. */
  lemma StepFrames(s: State, e: Event, u: Thread)
    requires u in s.threads && s.directClosed == s.poolNil
    ensures var s' := Step(s, e);
      && s'.poolSize == s.poolSize && (s.directClosed ==> s'.directClosed && |s'.queue| <= |s.queue|)
      && (Turn(e, u) == 0 ==> u in s'.threads && s'.threads[u] == s.threads[u])
  {
    hide Advance;
    if e.Go? && e.t in s.threads {
      AdvanceFrames(s, e.t, e.dialled, e.child);
    }
  }

  lemma CloseChannelAhead(s: State, t: Thread)
    ensures t in CloseChannel(s, t).threads && CloseChannel(s, t).threads[t].ShutDrain?
    ensures CloseChannel(s, t).queue == s.queue
  {
  }

  lemma DrainAhead(s: State, t: Thread)
    ensures var s' := Drain(s, t);
      if s.queue == [] then s'.drained
      else t in s'.threads && s'.threads[t].ShutConn? && |s'.queue| == |s.queue| - 1
  {
  }

  lemma CloseConnAhead(s: State, t: Thread, c: Conn)
    ensures var s' := CloseConn(s, t, c, ShutDrain); t in s'.threads && s'.threads[t].ShutDrain? && s'.queue == s.queue
  {
  }

  /** A turn of the closer itself. */
  lemma CloserTurn(s: State, t: Thread, dialled: bool, child: Thread)
    requires t in s.threads && Closing(s.threads[t])
    ensures var s' := Advance(s, t, s.threads[t], dialled, child);
      s'.drained || (t in s'.threads && Closing(s'.threads[t]) && Ahead(s', t) + 1 <= Ahead(s, t))
  {
    hide Receive, Put, HandOut, DialToRefill, TakeDown, CloseChannel, Drain, CloseConn;
    match s.threads[t]
    case ShutClose => CloseChannelAhead(s, t);
    case ShutDrain => DrainAhead(s, t);
    case ShutConn(c) => CloseConnAhead(s, t, c);
    case _ =>
  }

  /** Whatever happens, a closer at work stays at work until the channel is drained, and its turns count. */
  lemma CloserGoesOn(s: State, t: Thread, e: Event)
    requires Inv(s) && t in s.threads && Closing(s.threads[t])
    ensures var s' := Step(s, e);
      || s'.drained
      || (t in s'.threads && Closing(s'.threads[t])
          && Ahead(s', t) + Turn(e, t) <= Ahead(s, t))
  {
    hide QueueOwned, ThreadsOwn, OneCloser, Advance;
    CloserAt(s, t);
    StepFrames(s, e, t);
    if e.Go? && e.t == t {
      CloserTurn(s, t, e.dialled, e.child);
    }
  }

  lemma {:induction false} CloserFinishes(s: State, t: Thread, events: seq<Event>)
    requires Inv(s) && t in s.threads && Closing(s.threads[t]) && Ahead(s, t) <= TurnsOf(events, t)
    ensures Run(s, events).drained
    decreases |events|
  {
    hide Inv, Step, Closing;
    if events != [] {
      var s' := Step(s, events[0]);
      StepInv(s, events[0]);
      CloserGoesOn(s, t, events[0]);
      if s'.drained {
        RunInv(s', events[1..]);
      } else {
        CloserFinishes(s', t, events[1..]);
      }
    } else {
      StillAhead(s, t);
    }
  }

  lemma StillAhead(s: State, t: Thread)
    requires t in s.threads && Closing(s.threads[t])
    ensures Ahead(s, t) > 0
  {
  }

  /** Once taken down, the pool is drained or somebody is still draining it. */
  ghost predicate Attended(s: State)
  {
    s.directClosed ==> s.drained || exists u: Thread :: u in s.threads && Closing(s.threads[u])
  }

  lemma StepAttended(s: State, e: Event)
    requires Inv(s) && Attended(s)
    ensures Attended(Step(s, e))
  {
    hide QueueOwned, ThreadsOwn, OneCloser;
    StepInv(s, e);
    if s.directClosed && !s.drained {
      var u: Thread :| u in s.threads && Closing(s.threads[u]);
      CloserGoesOn(s, u, e);
    } else if !s.directClosed && e.Go? && e.t in s.threads && s.threads[e.t].Shut? {
      assert Closing(Step(s, e).threads[e.t]);
    }
  }

  lemma {:induction false} RunAttended(s: State, events: seq<Event>)
    requires Inv(s) && Attended(s)
    ensures Attended(Run(s, events))
    decreases |events|
  {
    hide Inv, Attended, Step;
    if events != [] {
      StepInv(s, events[0]);
      StepAttended(s, events[0]);
      RunAttended(Step(s, events[0]), events[1..]);
    }
  }

  lemma EntryTurn(s: State, t: Thread)
    requires s.directClosed == s.poolNil
    ensures TakeDown(s, t).directClosed
  {
  }

  /** The entry of closeDirectPool: only its own turn takes it further, and then the pool is down. */
  lemma EntryWaits(s: State, t: Thread, e: Event)
    requires t in s.threads && s.threads[t].Shut? && s.directClosed == s.poolNil
    ensures var s' := Step(s, e);
      && s'.poolSize == s.poolSize
      && (Turn(e, t) == 0 ==> t in s'.threads && s'.threads[t].Shut?)
      && (Turn(e, t) != 0 ==> s'.directClosed)
  {
    hide TakeDown;
    EntryTurn(s, t);
    StepFrames(s, e, t);
    assert e.Go? && e.t == t ==> Step(s, e) == TakeDown(s, t);
  }

  lemma StepMonotone(s: State, e: Event)
    requires s.directClosed == s.poolNil
    ensures Step(s, e).poolSize == s.poolSize && (s.directClosed ==> Step(s, e).directClosed)
  {
    hide Advance;
    if e.Go? && e.t in s.threads {
      AdvanceFrames(s, e.t, e.dialled, e.child);
    }
  }

  lemma {:induction false} RunMonotone(s: State, events: seq<Event>)
    requires Inv(s)
    ensures Run(s, events).poolSize == s.poolSize && (s.directClosed ==> Run(s, events).directClosed)
    decreases |events|
  {
    hide Step, Owned, OneCloser;
    if events != [] {
      StepInv(s, events[0]);
      StepMonotone(s, events[0]);
      RunMonotone(Step(s, events[0]), events[1..]);
    }
  }

  /**
    closeDirectPool among any other threads: once it has had its turns, the pool is down, and the
    channel is drained or another closer, who came first, is still at it.
   */
  lemma {:induction false} ShutDownCompletes(s: State, t: Thread, events: seq<Event>)
    requires Inv(s) && Attended(s) && t in s.threads && s.threads[t].Shut?
    requires 3 + 4 * s.poolSize <= TurnsOf(events, t)
    ensures var s' := Run(s, events);
      s'.directClosed && (s'.drained || exists u: Thread :: u in s'.threads && Closing(s'.threads[u]))
    ensures !s.directClosed && events[0].Go? && events[0].t == t ==> Run(s, events).drained
    decreases |events|
  {
    hide QueueOwned, ThreadsOwn, OneCloser, Step;
    var e := events[0];
    var s' := Step(s, e);
    StepInv(s, e);
    StepAttended(s, e);
    EntryWaits(s, t, e);
    if Turn(e, t) == 0 {
      ShutDownCompletes(s', t, events[1..]);
    } else {
      RunMonotone(s', events[1..]);
      RunAttended(s', events[1..]);
      if !s.directClosed {
        TakenDown(s, t, e);
        CloserFinishes(s', t, events[1..]);
      }
    }
  }

  lemma TakenDown(s: State, t: Thread, e: Event)
    requires Inv(s) && t in s.threads && s.threads[t].Shut? && !s.directClosed && e.Go? && e.t == t
    ensures var s' := Step(s, e); t in s'.threads && Closing(s'.threads[t]) && Ahead(s', t) == 2 + 2 * |s.queue|
  {
  }

  /** Started by Stop or not, in any run from the start, every closer that gets its turns sees the pool down. */
  lemma ClosersFinish(poolSize: nat, dialled: nat, before: seq<Event>, t: Thread, after: seq<Event>)
    requires dialled <= poolSize
    ensures var s := Run(Init(poolSize, dialled), before);
      t in s.threads && s.threads[t].Shut? && 3 + 4 * poolSize <= TurnsOf(after, t) ==>
        var s' := Run(s, after);
        s'.directClosed && (s'.drained || exists u: Thread :: u in s'.threads && Closing(s'.threads[u]))
  {
    hide Inv, Closing;
    InitInv(poolSize, dialled);
    RunInv(Init(poolSize, dialled), before);
    RunAttended(Init(poolSize, dialled), before);
    RunMonotone(Init(poolSize, dialled), before);
    var s := Run(Init(poolSize, dialled), before);
    if t in s.threads && s.threads[t].Shut? && 3 + 4 * poolSize <= TurnsOf(after, t) {
      ShutDownCompletes(s, t, after);
    }
  }

  // ---- The theorems ----

  /**
    In every interleaving no thread is ever about to send on, or to close, a closed channel; the queue
    stays within capacity, and every dialled connection has exactly one owner: the channel (once), one
    thread, a caller, or nobody because it was closed.
   */
  lemma SafeInEveryRun(poolSize: nat, dialled: nat, events: seq<Event>)
    requires dialled <= poolSize
    ensures var s := Run(Init(poolSize, dialled), events);
      && !s.panicked
      && (s.chanClosed ==> s.directClosed && s.poolNil)
      && (forall t: Thread :: t in s.threads && s.threads[t].ShutClose? ==> !s.chanClosed)
      && |s.queue| <= 2 * s.poolSize
      && (forall i, j :: 0 <= i < j < |s.queue| ==> s.queue[i] != s.queue[j])
      && (forall c: Conn :: c in s.queue <==> c < |s.place| && s.place[c] == Queued)
      && (forall t: Thread, c: Conn :: HeldBy(s, t, c) <==> c < |s.place| && s.place[c] == Held(t))
  {
    InitInv(poolSize, dialled);
    RunInv(Init(poolSize, dialled), events);
    var s := Run(Init(poolSize, dialled), events);
    assert forall c: Conn :: c in s.queue ==> c < |s.place| && s.place[c] == Queued;
  }

  predicate HeldBy(s: State, t: Thread, c: Conn)
  {
    t in s.threads && Holding(s.threads[t]) && s.threads[t].held == c
  }

  /** Whoever got or closed a connection keeps that status for the rest of the run. */
  lemma OwnershipIsFinal(poolSize: nat, dialled: nat, before: seq<Event>, after: seq<Event>, c: Conn)
    requires dialled <= poolSize
    ensures var s := Run(Init(poolSize, dialled), before);
      c < |s.place| && (s.place[c].HandedOut? || s.place[c].Closed?) ==>
        var s' := Run(s, after); c < |s'.place| && s'.place[c] == s.place[c] && c !in s'.queue
  {
    InitInv(poolSize, dialled);
    RunInv(Init(poolSize, dialled), before);
    RunInv(Run(Init(poolSize, dialled), before), after);
  }

  /** Once the draining closer has returned, the channel is empty for ever, whatever still runs. */
  lemma DrainedForEver(poolSize: nat, dialled: nat, before: seq<Event>, after: seq<Event>)
    requires dialled <= poolSize
    ensures var s := Run(Init(poolSize, dialled), before);
      s.drained ==> Run(s, after).queue == [] && Run(s, after).chanClosed
  {
    InitInv(poolSize, dialled);
    RunInv(Init(poolSize, dialled), before);
    RunInv(Run(Init(poolSize, dialled), before), after);
  }

  /** Nothing leaks: when the pool is drained and no goroutine is left, all is handed out or closed. */
  lemma NothingLeaks(poolSize: nat, dialled: nat, events: seq<Event>)
    requires dialled <= poolSize
    ensures var s := Run(Init(poolSize, dialled), events);
      s.drained && s.threads == map[] ==>
        forall c: Conn :: c < |s.place| ==> s.place[c].HandedOut? || s.place[c].Closed?
  {
    InitInv(poolSize, dialled);
    RunInv(Init(poolSize, dialled), events);
  }
}
