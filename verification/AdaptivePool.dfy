/**
  The adaptive pool as a step system: every atomic counter update, channel operation, dial and
  Close is one event, so currentSize and activeConns are really out of step with the channel
  between events. Any number of Get, Close, MarkBad, warm-up, scale-up and scale-down threads run.
 */
module AdaptivePool {

  type Conn = nat
  type Thread = nat

  datatype Pc =
    | GetTry                               // first select of Get
    | GetCheck                             // about to compare currentSize with maxSize
    | GetDial
    | GetCount(held: Conn)                 // dialled, about to count it
    | GetWait                              // second select, with the timeout
    | GotConn(held: Conn)                  // about to count it as active and wrap it
    | PutDec(held: Conn)                   // put: about to take it off activeConns
    | Send(held: Conn)                     // about to offer it to the channel
    | SendClose(held: Conn)                // channel full
    | Uncount(held: Conn)                  // closed, about to take it off currentSize
    | DiscDec(held: Conn)                  // discard, in its three actions
    | DiscUncount(held: Conn)
    | DiscClose(held: Conn)
    | WarmDial                             // warm-up and scale-up goroutine
    | WarmCount(held: Conn)
    | Shrink(left: nat)                    // scale-down loop
    | ShrinkClose(left: nat, held: Conn)
    | ShrinkUncount(left: nat, held: Conn)

  datatype Place = Idle | Out(wrapper: nat) | Transit(owner: Thread) | Gone

  /** A pooledConn: the connection it wraps and its closed flag. */
  datatype Wrapper = Wrapper(conn: Conn, closed: bool)

  datatype State = State(
    maxSize: nat,
    queue: seq<Conn>,
    currentSize: int,
    activeConns: int,
    threads: map<Thread, Pc>,
    wrappers: seq<Wrapper>,
    place: seq<Place>,
    closed: set<Conn>,
    closedTwice: bool)

  datatype Event =
    | Spawn(t: Thread, pc: Pc)
    | CloseConn(t: Thread, w: nat)         // pooledConn.Close
    | MarkBad(t: Thread, w: nat)           // pooledConn.MarkBad
    | Go(t: Thread, yes: bool)             // yes: the dial succeeds, or the wait times out

  function At(s: State, t: Thread, pc: Pc): State { s.(threads := s.threads[t := pc]) }

  function End(s: State, t: Thread): State { s.(threads := s.threads - {t}) }

  function Move(s: State, c: Conn, p: Place): State
  {
    if c < |s.place| then s.(place := s.place[c := p]) else s
  }

  predicate Entry(pc: Pc) { pc.GetTry? || pc.WarmDial? || pc.Shrink? }

  function Step(s: State, e: Event): State
  {
    match e
    case Spawn(t, pc) => if t !in s.threads && Entry(pc) then At(s, t, pc) else s
    case CloseConn(t, w) => Release(s, t, w, false)
    case MarkBad(t, w) => Release(s, t, w, true)
    case Go(t, yes) => if t in s.threads then Advance(s, t, s.threads[t], yes) else s
  }

  /** Close or MarkBad on wrapper `w`: the closed flag makes every later one a no-op. */
  function Release(s: State, t: Thread, w: nat, bad: bool): State
  {
    if t in s.threads || w >= |s.wrappers| || s.wrappers[w].closed then s
    else
      var c := s.wrappers[w].conn;
      At(Move(s.(wrappers := s.wrappers[w := Wrapper(c, true)]), c, Transit(t)), t,
         if bad then DiscDec(c) else PutDec(c))
  }

  function Advance(s: State, t: Thread, pc: Pc, yes: bool): State
  {
    match pc
    case GetTry => if s.queue == [] then At(s, t, GetCheck) else Take(s, t, GotConn(s.queue[0]))
    case GetCheck => At(s, t, if s.currentSize < s.maxSize then GetDial else GetWait)
    case GetDial => if yes then Dial(s, t, GetCount(|s.place|)) else End(s, t)
    case GetCount(c) => Count(s, t, 1, 0, GotConn(c))
    case GetWait =>
      if yes then End(s, t) else if s.queue == [] then s else Take(s, t, GotConn(s.queue[0]))
    case GotConn(c) => Wrap(s, t, c)
    case PutDec(c) => Count(s, t, 0, -1, Send(c))
    case Send(c) => Offer(s, t, c)
    case SendClose(c) => At(CloseOnce(s, c), t, Uncount(c))
    case Uncount(c) => End(Forget(s, t, c, WarmDial), t)
    case DiscDec(c) => Count(s, t, 0, -1, DiscUncount(c))
    case DiscUncount(c) => Count(s, t, -1, 0, DiscClose(c))
    case DiscClose(c) => End(At(Move(CloseOnce(s, c), c, Gone), t, WarmDial), t)
    case WarmDial => if yes then Dial(s, t, WarmCount(|s.place|)) else End(s, t)
    case WarmCount(c) => Count(s, t, 1, 0, Send(c))
    case Shrink(left) =>
      if left == 0 then End(s, t)
      else if s.queue == [] then At(s, t, Shrink(left - 1))
      else Take(s, t, ShrinkClose(left, s.queue[0]))
    case ShrinkClose(left, c) => At(CloseOnce(s, c), t, ShrinkUncount(left, c))
    case ShrinkUncount(left, c) => Forget(s, t, c, Shrink(if left == 0 then 0 else left - 1))
  }

  /** One atomic Add on currentSize or activeConns. */
  function Count(s: State, t: Thread, current: int, active: int, pc: Pc): State
  {
    At(s.(currentSize := s.currentSize + current, activeConns := s.activeConns + active), t, pc)
  }

  /** Receive the head of the channel. */
  function Take(s: State, t: Thread, pc: Pc): State
    requires s.queue != []
  {
    At(Move(s.(queue := s.queue[1..]), s.queue[0], Transit(t)), t, pc)
  }

  function Dial(s: State, t: Thread, pc: Pc): State { At(s.(place := s.place + [Transit(t)]), t, pc) }

  function Wrap(s: State, t: Thread, c: Conn): State
  {
    End(At(Move(s.(activeConns := s.activeConns + 1, wrappers := s.wrappers + [Wrapper(c, false)]),
                c, Out(|s.wrappers|)), t, WarmDial), t)
  }

  /** The non-blocking send. */
  function Offer(s: State, t: Thread, c: Conn): State
  {
    if |s.queue| < s.maxSize then End(At(Move(s.(queue := s.queue + [c]), c, Idle), t, WarmDial), t)
    else At(s, t, SendClose(c))
  }

  function CloseOnce(s: State, c: Conn): State
  {
    s.(closed := s.closed + {c}, closedTwice := s.closedTwice || c in s.closed)
  }

  /** A closed connection leaves the books. */
  function Forget(s: State, t: Thread, c: Conn, pc: Pc): State
  {
    At(Move(s.(currentSize := s.currentSize - 1), c, Gone), t, pc)
  }

  function Run(s: State, events: seq<Event>): State
    decreases |events|
  {
    if events == [] then s else Run(Step(s, events[0]), events[1..])
  }

  function Init(maxSize: nat): State { State(maxSize, [], 0, 0, map[], [], [], {}, false) }

  // ---- What each connection counts as ----

  predicate Holding(pc: Pc)
  {
    !(pc.GetTry? || pc.GetCheck? || pc.GetDial? || pc.GetWait? || pc.WarmDial? || pc.Shrink?)
  }

  /** counted: in currentSize; busy: in activeConns; shut: Close was called on it. */
  datatype Status = Status(counted: bool, busy: bool, shut: bool)

  function PcStatus(pc: Pc): Status
  {
    Status(
      Holding(pc) && !(pc.GetCount? || pc.WarmCount? || pc.DiscClose?),
      pc.PutDec? || pc.DiscDec?,
      pc.Uncount? || pc.ShrinkUncount?)
  }

  function StatusOf(s: State, c: Conn): Status
    requires c < |s.place|
  {
    match s.place[c]
    case Idle => Status(true, false, false)
    case Out(_) => Status(true, true, false)
    case Transit(t) => if t in s.threads then PcStatus(s.threads[t]) else Status(false, false, false)
    case Gone => Status(false, false, true)
  }

  ghost function Counted(s: State): set<Conn> { set c: Conn | c < |s.place| && StatusOf(s, c).counted }

  ghost function Busy(s: State): set<Conn> { set c: Conn | c < |s.place| && StatusOf(s, c).busy }

  ghost function Shut(s: State): set<Conn> { set c: Conn | c < |s.place| && StatusOf(s, c).shut }

  // ---- The invariant ----

  ghost predicate QueueOwned(queue: seq<Conn>, place: seq<Place>)
  {
    && (forall i, j :: 0 <= i < j < |queue| ==> queue[i] != queue[j])
    && (forall i :: 0 <= i < |queue| ==> queue[i] < |place| && place[queue[i]] == Idle)
    && (forall c: Conn :: c < |place| && place[c] == Idle ==> c in queue)
  }

  ghost predicate WrappersOwn(wrappers: seq<Wrapper>, place: seq<Place>)
  {
    && (forall w: nat :: w < |wrappers| && !wrappers[w].closed ==>
          wrappers[w].conn < |place| && place[wrappers[w].conn] == Out(w))
    && (forall c: Conn :: c < |place| && place[c].Out? ==>
          place[c].wrapper < |wrappers| && wrappers[place[c].wrapper] == Wrapper(c, false))
  }

  ghost predicate ThreadsOwn(threads: map<Thread, Pc>, place: seq<Place>)
  {
    && (forall t: Thread :: t in threads && Holding(threads[t]) ==>
          threads[t].held < |place| && place[threads[t].held] == Transit(t))
    && (forall c: Conn :: c < |place| && place[c].Transit? ==>
          place[c].owner in threads && Holding(threads[place[c].owner]) && threads[place[c].owner].held == c)
  }

  ghost predicate Owned(s: State)
  {
    QueueOwned(s.queue, s.place) && WrappersOwn(s.wrappers, s.place) && ThreadsOwn(s.threads, s.place)
  }

  ghost predicate Booked(s: State)
  {
    && s.currentSize == |Counted(s)|
    && s.activeConns == |Busy(s)|
    && s.closed == Shut(s)
  }

  ghost predicate Inv(s: State)
  {
    Owned(s) && Booked(s) && |s.queue| <= s.maxSize && !s.closedTwice
  }

  // ---- A step touches one connection and one thread ----

  /** s and s' differ only in thread t and connection c (which may be new), and t touches only c. */
  ghost predicate Touches(s: State, s': State, t: Thread, c: Conn)
  {
    && c < |s'.place| && |s.place| <= |s'.place| <= |s.place| + 1
    && (|s'.place| > |s.place| ==> c == |s.place|)
    && (forall d: Conn :: d < |s.place| && d != c ==> s'.place[d] == s.place[d])
    && (forall u: Thread :: u != t ==> (u in s.threads <==> u in s'.threads))
    && (forall u: Thread :: u != t && u in s.threads ==> s'.threads[u] == s.threads[u])
    && (t in s.threads && Holding(s.threads[t]) ==> s.threads[t].held == c)
    && (t in s'.threads && Holding(s'.threads[t]) ==> s'.threads[t].held == c)
    && (c < |s.place| && s.place[c].Transit? ==> s.place[c].owner == t)
    && (s'.place[c] == Transit(t) <==> t in s'.threads && Holding(s'.threads[t]))
    && (s'.place[c].Transit? ==> s'.place[c].owner == t)
  }

  lemma TouchedThreads(s: State, s': State, t: Thread, c: Conn)
    requires ThreadsOwn(s.threads, s.place) && Touches(s, s', t, c)
    ensures ThreadsOwn(s'.threads, s'.place) && c < |s'.place|
  {
  }

  lemma OthersKeepStatus(s: State, s': State, t: Thread, c: Conn)
    requires ThreadsOwn(s.threads, s.place) && Touches(s, s', t, c)
    ensures forall d: Conn :: d < |s.place| && d != c ==> StatusOf(s', d) == StatusOf(s, d)
  {
  }

  /** So the books change by that connection alone. */
  lemma TouchedBooks(s: State, s': State, t: Thread, c: Conn)
    requires ThreadsOwn(s.threads, s.place) && Touches(s, s', t, c)
    ensures Counted(s') == if StatusOf(s', c).counted then Counted(s) + {c} else Counted(s) - {c}
    ensures Busy(s') == if StatusOf(s', c).busy then Busy(s) + {c} else Busy(s) - {c}
    ensures Shut(s') == if StatusOf(s', c).shut then Shut(s) + {c} else Shut(s) - {c}
  {
    OthersKeepStatus(s, s', t, c);
  }

  function Before(s: State, c: Conn): Status
  {
    if c < |s.place| then StatusOf(s, c) else Status(false, false, false)
  }

  function One(b: bool): int { if b then 1 else 0 }

  /** The counters moved exactly as the touched connection's status did. */
  ghost predicate Settles(s: State, s': State, c: Conn)
    requires c < |s'.place|
  {
    && s'.currentSize == s.currentSize + One(StatusOf(s', c).counted) - One(Before(s, c).counted)
    && s'.activeConns == s.activeConns + One(StatusOf(s', c).busy) - One(Before(s, c).busy)
    && (Before(s, c).shut ==> StatusOf(s', c).shut)
    && s'.closed == (if StatusOf(s', c).shut then s.closed + {c} else s.closed)
  }

  lemma Grow(a: set<Conn>, a': set<Conn>, c: Conn, before: bool, after: bool)
    requires (c in a <==> before) && a' == if after then a + {c} else a - {c}
    ensures |a'| == |a| + One(after) - One(before)
  {
    if before { assert a + {c} == a; } else { assert a - {c} == a; }
  }

  lemma BookedBefore(s: State, c: Conn)
    ensures c in Counted(s) <==> Before(s, c).counted
    ensures c in Busy(s) <==> Before(s, c).busy
    ensures c in Shut(s) <==> Before(s, c).shut
  {
  }

  lemma Settled(s: State, s': State, t: Thread, c: Conn)
    requires Inv(s) && Touches(s, s', t, c) && Settles(s, s', c)
    requires QueueOwned(s'.queue, s'.place) && WrappersOwn(s'.wrappers, s'.place)
    requires |s'.queue| <= s'.maxSize && !s'.closedTwice
    ensures Inv(s')
  {
    hide QueueOwned, WrappersOwn, ThreadsOwn, Touches, Counted, Busy, Shut, StatusOf, Before;
    TouchedThreads(s, s', t, c);
    TouchedBooks(s, s', t, c);
    BookedBefore(s, c);
    assert s'.closed == Shut(s');
    Grow(Counted(s), Counted(s'), c, Before(s, c).counted, StatusOf(s', c).counted);
    Grow(Busy(s), Busy(s'), c, Before(s, c).busy, StatusOf(s', c).busy);
  }

  /** A thread that starts, moves or ends without a connection. */
  lemma EmptyHanded(s: State, t: Thread, pc: Pc)
    requires Inv(s) && !Holding(pc) && (t in s.threads ==> !Holding(s.threads[t]))
    ensures Inv(At(s, t, pc)) && Inv(End(s, t))
  {
    SameBooks(s, At(s, t, pc), t);
    SameBooks(s, End(s, t), t);
  }

  lemma SameBooks(s: State, s': State, t: Thread)
    requires ThreadsOwn(s.threads, s.place) && s'.place == s.place
    requires forall u: Thread :: u != t && u in s.threads ==> u in s'.threads && s'.threads[u] == s.threads[u]
    requires t in s.threads ==> !Holding(s.threads[t])
    ensures Counted(s') == Counted(s) && Busy(s') == Busy(s) && Shut(s') == Shut(s)
  {
    assert forall c: Conn :: c < |s.place| ==> StatusOf(s', c) == StatusOf(s, c);
  }

  // ---- Every step keeps the invariant ----

  /** The thread's connection stays in its hands; only counters, closes and the point change. */
  lemma InHand(s: State, s': State, t: Thread, c: Conn)
    requires Inv(s) && t in s.threads && Holding(s.threads[t]) && s.threads[t].held == c
    requires t in s'.threads && Holding(s'.threads[t]) && s'.threads[t].held == c
    requires s' == s.(threads := s.threads[t := s'.threads[t]], currentSize := s'.currentSize,
                      activeConns := s'.activeConns, closed := s'.closed, closedTwice := s'.closedTwice)
    requires var a, b := PcStatus(s.threads[t]), PcStatus(s'.threads[t]);
      && s'.currentSize == s.currentSize + One(b.counted) - One(a.counted)
      && s'.activeConns == s.activeConns + One(b.busy) - One(a.busy)
      && (a.shut ==> b.shut) && s'.closed == (if b.shut then s.closed + {c} else s.closed)
      && (s'.closedTwice ==> s.closedTwice || c in s.closed) && (s'.closedTwice ==> !a.shut && b.shut)
    ensures Inv(s')
  {
    assert c < |s.place| && s.place[c] == Transit(t);
    NotShut(s, c);
    Settled(s, s', t, c);
  }

  lemma CountInv(s: State, t: Thread, c: Conn, current: int, active: int, pc: Pc)
    requires Inv(s) && t in s.threads && Holding(s.threads[t]) && s.threads[t].held == c
    requires Holding(pc) && pc.held == c && !PcStatus(s.threads[t]).shut && !PcStatus(pc).shut
    requires current == One(PcStatus(pc).counted) - One(PcStatus(s.threads[t]).counted)
    requires active == One(PcStatus(pc).busy) - One(PcStatus(s.threads[t]).busy)
    ensures Inv(Count(s, t, current, active, pc))
  {
    InHand(s, Count(s, t, current, active, pc), t, c);
  }

  lemma CloseInHand(s: State, t: Thread, c: Conn, pc: Pc)
    requires Inv(s) && t in s.threads && Holding(s.threads[t]) && s.threads[t].held == c
    requires PcStatus(s.threads[t]) == Status(true, false, false)
    requires Holding(pc) && pc.held == c && PcStatus(pc) == Status(true, false, true)
    ensures Inv(At(CloseOnce(s, c), t, pc))
  {
    NotShut(s, c);
    InHand(s, At(CloseOnce(s, c), t, pc), t, c);
  }

  lemma NotShut(s: State, c: Conn)
    requires Inv(s) && c < |s.place|
    ensures c in s.closed <==> StatusOf(s, c).shut
  {
  }

  lemma QueueWithout(queue: seq<Conn>, place: seq<Place>, p: Place)
    requires QueueOwned(queue, place) && queue != [] && !p.Idle?
    ensures queue[0] < |place| && place[queue[0]] == Idle
    ensures QueueOwned(queue[1..], place[queue[0] := p])
  {
    forall c: Conn | c in queue && c != queue[0] ensures c in queue[1..] {
      var i :| 0 <= i < |queue| && queue[i] == c;
      assert queue[1..][i - 1] == c;
    }
  }

  lemma QueueWith(queue: seq<Conn>, place: seq<Place>, c: Conn)
    requires QueueOwned(queue, place) && c < |place| && !place[c].Idle?
    ensures QueueOwned(queue + [c], place[c := Idle])
  {
    var q, p := queue + [c], place[c := Idle];
    forall d: Conn | d < |p| && p[d] == Idle ensures d in q {
      assert d == c || d in queue;
    }
  }

  lemma TakeInv(s: State, t: Thread, pc: Pc)
    requires Inv(s) && s.queue != [] && t in s.threads && !Holding(s.threads[t])
    requires Holding(pc) && pc.held == s.queue[0] && PcStatus(pc) == Status(true, false, false)
    ensures Inv(Take(s, t, pc))
  {
    var c, s' := s.queue[0], Take(s, t, pc);
    QueueWithout(s.queue, s.place, Transit(t));
    Settled(s, s', t, c);
  }

  lemma DialInv(s: State, t: Thread, pc: Pc)
    requires Inv(s) && t in s.threads && !Holding(s.threads[t])
    requires Holding(pc) && pc.held == |s.place| && PcStatus(pc) == Status(false, false, false)
    ensures Inv(Dial(s, t, pc))
  {
    Settled(s, Dial(s, t, pc), t, |s.place|);
  }

  lemma WrapInv(s: State, t: Thread, c: Conn)
    requires Inv(s) && t in s.threads && s.threads[t] == GotConn(c)
    ensures Inv(Wrap(s, t, c))
  {
    Settled(s, Wrap(s, t, c), t, c);
  }

  lemma OfferInv(s: State, t: Thread, c: Conn)
    requires Inv(s) && t in s.threads && s.threads[t] == Send(c)
    ensures Inv(Offer(s, t, c))
  {
    hide Inv;
    if |s.queue| < s.maxSize {
      SentInv(s, t, c);
    } else {
      CountInv(s, t, c, 0, 0, SendClose(c));
      assert Count(s, t, 0, 0, SendClose(c)) == At(s, t, SendClose(c));
    }
  }

  lemma SentInv(s: State, t: Thread, c: Conn)
    requires Inv(s) && t in s.threads && s.threads[t] == Send(c) && |s.queue| < s.maxSize
    ensures Inv(Offer(s, t, c))
  {
    QueueWith(s.queue, s.place, c);
    Settled(s, Offer(s, t, c), t, c);
  }

  lemma ForgetInv(s: State, t: Thread, c: Conn, pc: Pc)
    requires Inv(s) && t in s.threads && Holding(s.threads[t]) && s.threads[t].held == c
    requires PcStatus(s.threads[t]) == Status(true, false, true) && !Holding(pc)
    ensures Inv(Forget(s, t, c, pc))
  {
    NotShut(s, c);
    Settled(s, Forget(s, t, c, pc), t, c);
  }

  lemma UncountInv(s: State, t: Thread, c: Conn)
    requires Inv(s) && t in s.threads && s.threads[t] == Uncount(c)
    ensures Inv(End(Forget(s, t, c, WarmDial), t))
  {
    hide Inv;
    ForgetInv(s, t, c, WarmDial);
    EmptyHanded(Forget(s, t, c, WarmDial), t, WarmDial);
  }

  lemma DiscCloseInv(s: State, t: Thread, c: Conn)
    requires Inv(s) && t in s.threads && s.threads[t] == DiscClose(c)
    ensures Inv(End(At(Move(CloseOnce(s, c), c, Gone), t, WarmDial), t))
  {
    hide Inv;
    ClosedAndGone(s, t, c);
    EmptyHanded(At(Move(CloseOnce(s, c), c, Gone), t, WarmDial), t, WarmDial);
  }

  lemma ClosedAndGone(s: State, t: Thread, c: Conn)
    requires Inv(s) && t in s.threads && s.threads[t] == DiscClose(c)
    ensures Inv(At(Move(CloseOnce(s, c), c, Gone), t, WarmDial))
  {
    NotShut(s, c);
    Settled(s, At(Move(CloseOnce(s, c), c, Gone), t, WarmDial), t, c);
  }

  lemma ReleaseInv(s: State, t: Thread, w: nat, bad: bool)
    requires Inv(s)
    ensures Inv(Release(s, t, w, bad))
  {
    if t !in s.threads && w < |s.wrappers| && !s.wrappers[w].closed {
      var c := s.wrappers[w].conn;
      assert s.place[c] == Out(w);
      Settled(s, Release(s, t, w, bad), t, c);
    }
  }

  lemma AdvanceInv(s: State, t: Thread, yes: bool)
    requires Inv(s) && t in s.threads
    ensures Inv(Advance(s, t, s.threads[t], yes))
  {
    hide Inv, At, End, Move, CloseOnce, Count, Take, Dial, Wrap, Offer, Forget;
    match s.threads[t]
    case GetTry => EmptyHanded(s, t, GetCheck); if s.queue != [] { TakeInv(s, t, GotConn(s.queue[0])); }
    case GetCheck => EmptyHanded(s, t, GetDial); EmptyHanded(s, t, GetWait);
    case GetDial => EmptyHanded(s, t, GetDial); DialInv(s, t, GetCount(|s.place|));
    case GetCount(c) => CountInv(s, t, c, 1, 0, GotConn(c));
    case GetWait => EmptyHanded(s, t, GetWait); if s.queue != [] { TakeInv(s, t, GotConn(s.queue[0])); }
    case GotConn(c) => WrapInv(s, t, c);
    case PutDec(c) => CountInv(s, t, c, 0, -1, Send(c));
    case Send(c) => OfferInv(s, t, c);
    case SendClose(c) => CloseInHand(s, t, c, Uncount(c));
    case Uncount(c) => UncountInv(s, t, c);
    case DiscDec(c) => CountInv(s, t, c, 0, -1, DiscUncount(c));
    case DiscUncount(c) => CountInv(s, t, c, -1, 0, DiscClose(c));
    case DiscClose(c) => DiscCloseInv(s, t, c);
    case WarmDial => EmptyHanded(s, t, WarmDial); DialInv(s, t, WarmCount(|s.place|));
    case WarmCount(c) => CountInv(s, t, c, 1, 0, Send(c));
    case Shrink(left) =>
      EmptyHanded(s, t, Shrink(if left == 0 then 0 else left - 1));
      if s.queue != [] { TakeInv(s, t, ShrinkClose(left, s.queue[0])); }
    case ShrinkClose(left, c) => CloseInHand(s, t, c, ShrinkUncount(left, c));
    case ShrinkUncount(left, c) => ForgetInv(s, t, c, Shrink(if left == 0 then 0 else left - 1));
  }

  lemma StepInv(s: State, e: Event)
    requires Inv(s)
    ensures Inv(Step(s, e))
  {
    hide Inv, Advance, Release, At;
    match e
    case Spawn(t, pc) => if t !in s.threads && Entry(pc) { EmptyHanded(s, t, pc); }
    case CloseConn(t, w) => ReleaseInv(s, t, w, false);
    case MarkBad(t, w) => ReleaseInv(s, t, w, true);
    case Go(t, yes) => if t in s.threads { AdvanceInv(s, t, yes); }
  }

  lemma {:induction false} RunInv(s: State, events: seq<Event>)
    requires Inv(s)
    ensures Inv(Run(s, events))
    decreases |events|
  {
    hide Inv, Step;
    if events != [] {
      StepInv(s, events[0]);
      RunInv(Step(s, events[0]), events[1..]);
    }
  }

  // ---- The theorems ----

  ghost function OutConns(s: State): set<Conn> { set c: Conn | c < |s.place| && s.place[c].Out? }

  /** Counted but neither idle nor with a caller: in the hands of a thread between two actions. */
  ghost function InTransit(s: State): set<Conn>
  {
    set c: Conn | c < |s.place| && s.place[c].Transit? && StatusOf(s, c).counted
  }

  lemma {:induction false} SeqSetSize(q: seq<Conn>)
    requires forall i, j :: 0 <= i < j < |q| ==> q[i] != q[j]
    ensures |set c: Conn | c in q| == |q|
  {
    if q == [] {
      assert (set c: Conn | c in q) == {};
    } else {
      var rest := q[1..];
      SeqSetSize(rest);
      assert (set c: Conn | c in q) == (set c: Conn | c in rest) + {q[0]};
      assert q[0] !in rest;
    }
  }

  lemma InitInv(maxSize: nat)
    ensures Inv(Init(maxSize))
  {
    var s := Init(maxSize);
    assert Counted(s) == {} && Busy(s) == {} && Shut(s) == {};
  }

  /**
    Conservation in every interleaving: currentSize is idle + handed out + in transit, no thread is
    ever about to close a connection that was closed before, and the channel stays within maxSize.
   */
  lemma Conservation(maxSize: nat, events: seq<Event>)
    ensures var s := Run(Init(maxSize), events);
      && s.currentSize == |s.queue| + |OutConns(s)| + |InTransit(s)|
      && !s.closedTwice
      && (forall t: Thread :: t in s.threads && AboutToClose(s.threads[t]) ==> s.threads[t].held !in s.closed)
      && |s.queue| <= s.maxSize
  {
    hide Run;
    InitInv(maxSize);
    RunInv(Init(maxSize), events);
    var s := Run(Init(maxSize), events);
    Books(s);
    forall t: Thread | t in s.threads && AboutToClose(s.threads[t]) ensures s.threads[t].held !in s.closed {
      NotYetClosed(s, t);
    }
  }

  /** The three points in front of a Close of a connection. */
  predicate AboutToClose(pc: Pc) { pc.SendClose? || pc.DiscClose? || pc.ShrinkClose? }

  lemma NotYetClosed(s: State, t: Thread)
    requires Inv(s) && t in s.threads && AboutToClose(s.threads[t])
    ensures s.threads[t].held !in s.closed
  {
    var c := s.threads[t].held;
    assert s.place[c] == Transit(t);
    assert !StatusOf(s, c).shut;
  }

  lemma Books(s: State)
    requires Inv(s)
    ensures s.currentSize == |s.queue| + |OutConns(s)| + |InTransit(s)|
  {
    SeqSetSize(s.queue);
    var idle := set c: Conn | c in s.queue;
    CountedSplits(s, idle);
    Disjoint(idle, OutConns(s), InTransit(s));
  }

  lemma CountedSplits(s: State, idle: set<Conn>)
    requires QueueOwned(s.queue, s.place) && idle == set c: Conn | c in s.queue
    ensures Counted(s) == idle + OutConns(s) + InTransit(s)
    ensures idle !! OutConns(s) && idle !! InTransit(s) && OutConns(s) !! InTransit(s)
  {
    assert forall c: Conn :: c in idle <==> c < |s.place| && s.place[c] == Idle;
  }

  lemma Disjoint(a: set<Conn>, b: set<Conn>, d: set<Conn>)
    requires a !! b && a !! d && b !! d
    ensures |a + b + d| == |a| + |b| + |d|
  {
    assert |(a + b) + d| == |a + b| + |d|;
  }

  /** Each connection has one owner: the channel (once), one live wrapper, one thread, or none. */
  lemma OneOwner(maxSize: nat, events: seq<Event>, c: Conn)
    ensures var s := Run(Init(maxSize), events);
      c < |s.place| ==>
        && (c in s.queue <==> s.place[c] == Idle)
        && (forall w: nat :: w < |s.wrappers| && s.wrappers[w] == Wrapper(c, false) <==> s.place[c] == Out(w))
        && (forall t: Thread :: HeldBy(s, t, c) <==> s.place[c] == Transit(t))
        && (s.place[c] == Gone ==> c in s.closed)
  {
    hide Run;
    InitInv(maxSize);
    RunInv(Init(maxSize), events);
  }

  predicate HeldBy(s: State, t: Thread, c: Conn)
  {
    t in s.threads && Holding(s.threads[t]) && s.threads[t].held == c
  }

  /** With no thread under way the counters are exact. */
  lemma QuiescentBooks(maxSize: nat, events: seq<Event>)
    ensures var s := Run(Init(maxSize), events);
      s.threads == map[] ==> s.currentSize == |s.queue| + s.activeConns && s.activeConns == |OutConns(s)|
  {
    hide Run;
    InitInv(maxSize);
    RunInv(Init(maxSize), events);
    var s := Run(Init(maxSize), events);
    if s.threads == map[] {
      Books(s);
      assert InTransit(s) == {};
      assert Busy(s) == OutConns(s);
    }
  }

  // ---- What each operation does, by turns of its own thread ----

  /** n turns of thread t; its dials succeed. */
  function Turns(t: Thread, n: nat): seq<Event> { seq(n, _ => Go(t, true)) }

  lemma TurnsFirst(s: State, t: Thread, n: nat)
    ensures n > 0 ==> Run(s, Turns(t, n)) == Run(Step(s, Go(t, true)), Turns(t, n - 1))
    ensures n == 0 ==> Run(s, Turns(t, n)) == s
  {
    hide Step;
    if n > 0 {
      assert Turns(t, n)[1..] == Turns(t, n - 1);
    }
  }

  lemma ThreadGone(threads: map<Thread, Pc>, t: Thread, pc: Pc, next: Pc)
    ensures threads[t := pc] - {t} == threads - {t} && threads[t := pc][t := next] == threads[t := next]
    ensures t !in threads ==> threads - {t} == threads && threads[t := pc] - {t} == threads
  {
  }

  /** The single turns the operations are made of. */
  lemma DialTurn(s: State, t: Thread)
    requires t in s.threads && (s.threads[t].GetDial? || s.threads[t].WarmDial?)
    ensures var c := |s.place|;
      Step(s, Go(t, true)) == s.(
        place := s.place + [Transit(t)],
        threads := s.threads[t := if s.threads[t].GetDial? then GetCount(c) else WarmCount(c)])
  {
    hide Take, Offer, Forget, CloseOnce, Count, Wrap;
  }

  lemma CountTurn(s: State, t: Thread)
    requires t in s.threads && (s.threads[t].GetCount? || s.threads[t].WarmCount?)
    ensures var c := s.threads[t].held;
      Step(s, Go(t, true)) == s.(
        currentSize := s.currentSize + 1,
        threads := s.threads[t := if s.threads[t].GetCount? then GotConn(c) else Send(c)])
  {
    hide Take, Offer, Forget, CloseOnce, Dial, Wrap;
  }

  lemma WrapTurn(s: State, t: Thread, c: Conn)
    requires t in s.threads && s.threads[t] == GotConn(c) && c < |s.place|
    ensures Step(s, Go(t, true)) == s.(
      wrappers := s.wrappers + [Wrapper(c, false)],
      place := s.place[c := Out(|s.wrappers|)],
      activeConns := s.activeConns + 1,
      threads := s.threads - {t})
  {
    hide Take, Offer, Forget, CloseOnce, Dial, Count;
    ThreadGone(s.threads, t, WarmDial, WarmDial);
  }

  /** A live wrapper's connection is out, and so neither queued nor closed. */
  lemma LiveWrapper(s: State, w: nat)
    requires Inv(s) && w < |s.wrappers| && !s.wrappers[w].closed
    ensures var c := s.wrappers[w].conn; c < |s.place| && s.place[c] == Out(w) && c !in s.queue && c !in s.closed
  {
    var c := s.wrappers[w].conn;
    assert !StatusOf(s, c).shut;
  }

  lemma HeadIsIdle(s: State)
    requires Inv(s) && s.queue != []
    ensures s.queue[0] < |s.place| && s.place[s.queue[0]] == Idle && s.queue[0] !in s.closed
  {
    assert !StatusOf(s, s.queue[0]).shut;
  }

  lemma ReleaseTurn(s: State, t: Thread, w: nat)
    requires t !in s.threads && w < |s.wrappers| && !s.wrappers[w].closed && s.wrappers[w].conn < |s.place|
    ensures var c := s.wrappers[w].conn;
      var s' := s.(wrappers := s.wrappers[w := Wrapper(c, true)], place := s.place[c := Transit(t)]);
      && Step(s, MarkBad(t, w)) == s'.(threads := s.threads[t := DiscDec(c)])
      && Step(s, CloseConn(t, w)) == s'.(threads := s.threads[t := PutDec(c)])
  {
  }

  lemma DiscardTurn(s: State, t: Thread)
    requires t in s.threads
    ensures s.threads[t].DiscDec? ==>
      Step(s, Go(t, true)) == s.(activeConns := s.activeConns - 1,
                                 threads := s.threads[t := DiscUncount(s.threads[t].held)])
    ensures s.threads[t].DiscUncount? ==>
      Step(s, Go(t, true)) == s.(currentSize := s.currentSize - 1,
                                 threads := s.threads[t := DiscClose(s.threads[t].held)])
  {
    hide Take, Dial, Wrap, Offer, Forget, CloseOnce;
  }

  lemma DiscardCloses(s: State, t: Thread, c: Conn)
    requires t in s.threads && s.threads[t] == DiscClose(c) && c < |s.place| && c !in s.closed && !s.closedTwice
    ensures Run(s, Turns(t, 1))
      == s.(closed := s.closed + {c}, place := s.place[c := Gone], threads := s.threads - {t})
  {
    hide Run, Take, Dial, Wrap, Offer, Forget, Count;
    ThreadGone(s.threads, t, WarmDial, WarmDial);
    TurnsFirst(s, t, 1);
    TurnsFirst(Step(s, Go(t, true)), t, 0);
  }

  lemma PutTurn(s: State, t: Thread)
    requires t in s.threads
    ensures s.threads[t].PutDec? ==>
      Step(s, Go(t, true)) == s.(activeConns := s.activeConns - 1,
                                 threads := s.threads[t := Send(s.threads[t].held)])
    ensures s.threads[t].Send? && |s.queue| >= s.maxSize ==>
      Step(s, Go(t, true)) == s.(threads := s.threads[t := SendClose(s.threads[t].held)])
    ensures s.threads[t].SendClose? && s.threads[t].held !in s.closed && !s.closedTwice ==>
      Step(s, Go(t, true)) == s.(closed := s.closed + {s.threads[t].held},
                                 threads := s.threads[t := Uncount(s.threads[t].held)])
  {
    hide Take, Dial, Wrap, Forget;
  }

  lemma UncountEnds(s: State, t: Thread, c: Conn)
    requires t in s.threads && s.threads[t] == Uncount(c) && c < |s.place|
    ensures Run(s, Turns(t, 1))
      == s.(currentSize := s.currentSize - 1, place := s.place[c := Gone], threads := s.threads - {t})
  {
    hide Run, Take, Dial, Wrap, Offer, Count, CloseOnce;
    ThreadGone(s.threads, t, WarmDial, WarmDial);
    TurnsFirst(s, t, 1);
    TurnsFirst(Step(s, Go(t, true)), t, 0);
  }

  /** MarkBad on a live wrapper: the connection is closed once and leaves the books, never the queue. */
  lemma MarkBadDiscards(s: State, t: Thread, w: nat)
    requires Inv(s) && t !in s.threads && w < |s.wrappers| && !s.wrappers[w].closed
    ensures var c := s.wrappers[w].conn;
      && c < |s.place| && c !in s.queue && c !in s.closed
      && Run(Step(s, MarkBad(t, w)), Turns(t, 3)) == s.(
           wrappers := s.wrappers[w := Wrapper(c, true)],
           place := s.place[c := Gone],
           closed := s.closed + {c},
           currentSize := s.currentSize - 1,
           activeConns := s.activeConns - 1)
  {
    hide Run, Inv, Step;
    LiveWrapper(s, w);
    NotTwice(s);
    ReleaseTurn(s, t, w);
    var c, s1 := s.wrappers[w].conn, Step(s, MarkBad(t, w));
    var s2 := s1.(activeConns := s.activeConns - 1, threads := s.threads[t := DiscUncount(c)]);
    var s3 := s2.(currentSize := s.currentSize - 1, threads := s.threads[t := DiscClose(c)]);
    ThreadGone(s.threads, t, DiscDec(c), DiscUncount(c));
    ThreadGone(s.threads, t, DiscUncount(c), DiscClose(c));
    ThreadGone(s.threads, t, DiscClose(c), WarmDial);
    DiscardTurn(s1, t);
    DiscardTurn(s2, t);
    TurnsFirst(s1, t, 3);
    TurnsFirst(s2, t, 2);
    DiscardCloses(s3, t, c);
    assert s.place[c := Transit(t)][c := Gone] == s.place[c := Gone];
  }

  lemma NotTwice(s: State)
    requires Inv(s)
    ensures !s.closedTwice
  {
  }

  lemma SendTurn(s: State, t: Thread, c: Conn)
    requires t in s.threads && s.threads[t] == Send(c) && c < |s.place| && |s.queue| < s.maxSize
    ensures Run(s, Turns(t, 1))
      == s.(queue := s.queue + [c], place := s.place[c := Idle], threads := s.threads - {t})
  {
    hide Run, Take, Dial, Wrap, Forget, CloseOnce, Count;
    ThreadGone(s.threads, t, WarmDial, WarmDial);
    TurnsFirst(s, t, 1);
    TurnsFirst(Step(s, Go(t, true)), t, 0);
  }

  /** Close on a live wrapper with room in the channel: the connection is idle again, last in the queue. */
  lemma CloseReturns(s: State, t: Thread, w: nat)
    requires Inv(s) && t !in s.threads && w < |s.wrappers| && !s.wrappers[w].closed && |s.queue| < s.maxSize
    ensures var c := s.wrappers[w].conn;
      && c < |s.place|
      && Run(Step(s, CloseConn(t, w)), Turns(t, 2)) == s.(
           wrappers := s.wrappers[w := Wrapper(c, true)],
           place := s.place[c := Idle],
           queue := s.queue + [c],
           activeConns := s.activeConns - 1)
  {
    hide Run, Inv, Step;
    LiveWrapper(s, w);
    ReleaseTurn(s, t, w);
    var c, s1 := s.wrappers[w].conn, Step(s, CloseConn(t, w));
    var s2 := s1.(activeConns := s.activeConns - 1, threads := s.threads[t := Send(c)]);
    ThreadGone(s.threads, t, PutDec(c), Send(c));
    ThreadGone(s.threads, t, Send(c), WarmDial);
    PutTurn(s1, t);
    TurnsFirst(s1, t, 2);
    SendTurn(s2, t, c);
    assert s.place[c := Transit(t)][c := Idle] == s.place[c := Idle];
  }

  /** With the channel full it is closed instead and leaves the books. */
  lemma CloseOverflows(s: State, t: Thread, w: nat)
    requires Inv(s) && t !in s.threads && w < |s.wrappers| && !s.wrappers[w].closed && |s.queue| == s.maxSize
    ensures var c := s.wrappers[w].conn;
      && c < |s.place| && c !in s.closed
      && Run(Step(s, CloseConn(t, w)), Turns(t, 4)) == s.(
           wrappers := s.wrappers[w := Wrapper(c, true)],
           place := s.place[c := Gone],
           closed := s.closed + {c},
           currentSize := s.currentSize - 1,
           activeConns := s.activeConns - 1)
  {
    hide Run, Inv, Step;
    LiveWrapper(s, w);
    NotTwice(s);
    ReleaseTurn(s, t, w);
    var c, s1 := s.wrappers[w].conn, Step(s, CloseConn(t, w));
    var s2 := s1.(activeConns := s.activeConns - 1, threads := s.threads[t := Send(c)]);
    var s3 := s2.(threads := s.threads[t := SendClose(c)]);
    var s4 := s3.(closed := s.closed + {c}, threads := s.threads[t := Uncount(c)]);
    ThreadGone(s.threads, t, PutDec(c), Send(c));
    ThreadGone(s.threads, t, Send(c), SendClose(c));
    ThreadGone(s.threads, t, SendClose(c), Uncount(c));
    ThreadGone(s.threads, t, Uncount(c), WarmDial);
    PutTurn(s1, t);
    PutTurn(s2, t);
    PutTurn(s3, t);
    TurnsFirst(s1, t, 4);
    TurnsFirst(s2, t, 3);
    TurnsFirst(s3, t, 2);
    UncountEnds(s4, t, c);
    assert s.place[c := Transit(t)][c := Gone] == s.place[c := Gone];
  }

  /** Close and MarkBad on a wrapper already closed do nothing. */
  lemma ReleasedOnce(s: State, t: Thread, w: nat)
    requires w < |s.wrappers| && s.wrappers[w].closed
    ensures Step(s, CloseConn(t, w)) == s && Step(s, MarkBad(t, w)) == s
  {
  }

  /** Get with an idle connection: the head of the queue comes back in a live wrapper. */
  lemma GetTakesIdle(s: State, t: Thread)
    requires Inv(s) && t in s.threads && s.threads[t].GetTry? && s.queue != []
    ensures s.queue[0] < |s.place|
    ensures Run(s, Turns(t, 2)) == s.(
      queue := s.queue[1..],
      wrappers := s.wrappers + [Wrapper(s.queue[0], false)],
      place := s.place[s.queue[0] := Out(|s.wrappers|)],
      activeConns := s.activeConns + 1,
      threads := s.threads - {t})
  {
    hide Run, Inv, Dial, Offer, Forget, CloseOnce, Count;
    HeadIsIdle(s);
    var c := s.queue[0];
    var s1 := s.(queue := s.queue[1..], place := s.place[c := Transit(t)], threads := s.threads[t := GotConn(c)]);
    assert Step(s, Go(t, true)) == s1;
    ThreadGone(s.threads, t, GotConn(c), WarmDial);
    ThreadGone(s.threads, t, WarmDial, WarmDial);
    TurnsFirst(s, t, 2);
    TurnsFirst(s1, t, 1);
    TurnsFirst(Step(s1, Go(t, true)), t, 0);
    assert s.place[c := Transit(t)][c := Out(|s.wrappers|)] == s.place[c := Out(|s.wrappers|)];
  }

  lemma GetTurn(s: State, t: Thread)
    requires t in s.threads
    ensures s.threads[t].GetTry? && s.queue == [] ==>
      Step(s, Go(t, true)) == s.(threads := s.threads[t := GetCheck])
    ensures s.threads[t].GetCheck? ==>
      Step(s, Go(t, true)) == s.(threads := s.threads[t := if s.currentSize < s.maxSize then GetDial else GetWait])
  {
    hide Take, Offer, Forget, CloseOnce, Dial, Count, Wrap;
  }

  /** Get on an empty channel below maxSize dials, counts and wraps a new connection. */
  lemma GetDialsNew(s: State, t: Thread)
    requires t in s.threads && s.threads[t].GetTry? && s.queue == [] && s.currentSize < s.maxSize
    ensures Run(s, Turns(t, 5)) == s.(
      wrappers := s.wrappers + [Wrapper(|s.place|, false)],
      place := s.place + [Out(|s.wrappers|)],
      currentSize := s.currentSize + 1,
      activeConns := s.activeConns + 1,
      threads := s.threads - {t})
  {
    hide Run, Step;
    var c := |s.place|;
    var s1 := s.(threads := s.threads[t := GetCheck]);
    var s2 := s.(threads := s.threads[t := GetDial]);
    var s3 := s.(place := s.place + [Transit(t)], threads := s.threads[t := GetCount(c)]);
    var s4 := s3.(currentSize := s.currentSize + 1, threads := s.threads[t := GotConn(c)]);
    ThreadGone(s.threads, t, GetCheck, GetDial);
    ThreadGone(s.threads, t, GetDial, GetCount(c));
    ThreadGone(s.threads, t, GetCount(c), GotConn(c));
    GetTurn(s, t);
    GetTurn(s1, t);
    DialTurn(s2, t);
    CountTurn(s3, t);
    TurnsFirst(s, t, 5);
    TurnsFirst(s1, t, 4);
    TurnsFirst(s2, t, 3);
    TurnsFirst(s3, t, 2);
    WrapEnds(s4, t, c);
    assert (s.place + [Transit(t)])[c := Out(|s.wrappers|)] == s.place + [Out(|s.wrappers|)];
    ThreadGone(s.threads, t, GotConn(c), WarmDial);
  }

  lemma WrapEnds(s: State, t: Thread, c: Conn)
    requires t in s.threads && s.threads[t] == GotConn(c) && c < |s.place|
    ensures Run(s, Turns(t, 1)) == s.(
      wrappers := s.wrappers + [Wrapper(c, false)],
      place := s.place[c := Out(|s.wrappers|)],
      activeConns := s.activeConns + 1,
      threads := s.threads - {t})
  {
    hide Run, Step;
    WrapTurn(s, t, c);
    TurnsFirst(s, t, 1);
    TurnsFirst(Step(s, Go(t, true)), t, 0);
  }

  /** At maxSize it waits: for a connection put back, or until it gives up empty-handed. */
  lemma GetWaits(s: State, t: Thread)
    requires t in s.threads && s.threads[t].GetTry? && s.queue == [] && s.currentSize >= s.maxSize
    ensures Run(s, Turns(t, 2)) == s.(threads := s.threads[t := GetWait])
  {
    hide Run, Step;
    var s1 := s.(threads := s.threads[t := GetCheck]);
    GetTurn(s, t);
    GetTurn(s1, t);
    ThreadGone(s.threads, t, GetCheck, GetWait);
    TurnsFirst(s, t, 2);
    TurnsFirst(s1, t, 1);
    TurnsFirst(Step(s1, Go(t, true)), t, 0);
  }

  lemma WaitEnds(s: State, t: Thread)
    requires t in s.threads && s.threads[t].GetWait?
    ensures Step(s, Go(t, true)) == s.(threads := s.threads - {t})
    ensures s.queue == [] ==> Step(s, Go(t, false)) == s
    ensures s.queue != [] && s.queue[0] < |s.place| ==> Step(s, Go(t, false)) == s.(
      queue := s.queue[1..], place := s.place[s.queue[0] := Transit(t)],
      threads := s.threads[t := GotConn(s.queue[0])])
  {
    hide Offer, Forget, CloseOnce, Dial, Count, Wrap;
  }

  /** A warm-up or scale-up goroutine adds one idle connection when the channel has room. */
  lemma WarmUpAdds(s: State, t: Thread)
    requires t in s.threads && s.threads[t].WarmDial? && |s.queue| < s.maxSize
    ensures Run(s, Turns(t, 3)) == s.(
      queue := s.queue + [|s.place|],
      place := s.place + [Idle],
      currentSize := s.currentSize + 1,
      threads := s.threads - {t})
  {
    hide Run, Step;
    var c := |s.place|;
    var s1 := s.(place := s.place + [Transit(t)], threads := s.threads[t := WarmCount(c)]);
    var s2 := s1.(currentSize := s.currentSize + 1, threads := s.threads[t := Send(c)]);
    ThreadGone(s.threads, t, WarmCount(c), Send(c));
    ThreadGone(s.threads, t, Send(c), WarmDial);
    DialTurn(s, t);
    CountTurn(s1, t);
    TurnsFirst(s, t, 3);
    TurnsFirst(s1, t, 2);
    SendTurn(s2, t, c);
    assert (s.place + [Transit(t)])[c := Idle] == s.place + [Idle];
  }

  lemma ShrinkTurn(s: State, t: Thread, left: nat, c: Conn)
    requires t in s.threads && c < |s.place| && left > 0
    ensures s.threads[t] == Shrink(left) && s.queue != [] && s.queue[0] == c ==>
      Step(s, Go(t, true)) == s.(queue := s.queue[1..], place := s.place[c := Transit(t)],
                                 threads := s.threads[t := ShrinkClose(left, c)])
    ensures s.threads[t] == ShrinkClose(left, c) && c !in s.closed && !s.closedTwice ==>
      Step(s, Go(t, true)) == s.(closed := s.closed + {c}, threads := s.threads[t := ShrinkUncount(left, c)])
    ensures s.threads[t] == ShrinkUncount(left, c) ==>
      Step(s, Go(t, true)) == s.(currentSize := s.currentSize - 1, place := s.place[c := Gone],
                                 threads := s.threads[t := Shrink(left - 1)])
  {
    hide Dial, Wrap, Offer, Count;
  }

  /** One removal of a scale-down. */
  lemma ShrinkRound(s: State, t: Thread, left: nat, n: nat)
    requires Inv(s) && t in s.threads && s.threads[t] == Shrink(left) && left > 0 && s.queue != []
    ensures s.queue[0] < |s.place|
    ensures var s' := s.(queue := s.queue[1..], place := s.place[s.queue[0] := Gone],
                         closed := s.closed + {s.queue[0]}, currentSize := s.currentSize - 1,
                         threads := s.threads[t := Shrink(left - 1)]);
      Inv(s') && Run(s, Turns(t, n + 3)) == Run(s', Turns(t, n))
  {
    hide Run, Inv, Step;
    HeadIsIdle(s);
    NotTwice(s);
    var c, go := s.queue[0], Go(t, true);
    var s1 := s.(queue := s.queue[1..], place := s.place[c := Transit(t)],
                 threads := s.threads[t := ShrinkClose(left, c)]);
    var s2 := s1.(closed := s.closed + {c}, threads := s.threads[t := ShrinkUncount(left, c)]);
    ThreadGone(s.threads, t, ShrinkClose(left, c), ShrinkUncount(left, c));
    ThreadGone(s.threads, t, ShrinkUncount(left, c), Shrink(left - 1));
    ShrinkTurn(s, t, left, c);
    ShrinkTurn(s1, t, left, c);
    ShrinkTurn(s2, t, left, c);
    StepInv(s, go);
    StepInv(s1, go);
    StepInv(s2, go);
    TurnsFirst(s, t, n + 3);
    TurnsFirst(s1, t, n + 2);
    TurnsFirst(s2, t, n + 1);
    assert s.place[c := Transit(t)][c := Gone] == s.place[c := Gone];
  }

  /** A scale-down of k with as many idle closes exactly the k that were idle longest, and ends. */
  lemma {:induction false} ShrinkRemoves(s: State, t: Thread, left: nat)
    requires Inv(s) && t in s.threads && s.threads[t] == Shrink(left) && left <= |s.queue|
    ensures var s' := Run(s, Turns(t, 3 * left + 1));
      && s'.queue == s.queue[left..] && s'.currentSize == s.currentSize - left
      && s'.closed == s.closed + (set i | 0 <= i < left :: s.queue[i])
      && s'.activeConns == s.activeConns && s'.wrappers == s.wrappers && s'.threads == s.threads - {t}
    decreases left
  {
    hide Run, Inv, Take, Dial, Wrap, Offer, Forget, Count, CloseOnce;
    if left == 0 {
      TurnsFirst(s, t, 1);
      TurnsFirst(Step(s, Go(t, true)), t, 0);
    } else {
      ShrinkRound(s, t, left, 3 * (left - 1) + 1);
      var c := s.queue[0];
      var s' := s.(queue := s.queue[1..], place := s.place[c := Gone], closed := s.closed + {c},
                   currentSize := s.currentSize - 1, threads := s.threads[t := Shrink(left - 1)]);
      ShrinkRemoves(s', t, left - 1);
      ThreadGone(s.threads, t, Shrink(left - 1), WarmDial);
      HeadFirst(s.queue, left);
      assert s.closed + {c} + (set i | 0 <= i < left - 1 :: s'.queue[i])
        == s.closed + (set i | 0 <= i < left :: s.queue[i]);
    }
  }

  lemma HeadFirst(queue: seq<Conn>, n: nat)
    requires 0 < n <= |queue|
    ensures (set i | 0 <= i < n :: queue[i]) == {queue[0]} + (set i | 0 <= i < n - 1 :: queue[1..][i])
  {
    forall i | 0 <= i < n ensures queue[i] in {queue[0]} + (set j | 0 <= j < n - 1 :: queue[1..][j]) {
      if i > 0 {
        assert queue[i] == queue[1..][i - 1];
      }
    }
  }

  // ---- Scaling down ----

  /** How many connections adjustSize sets out to remove. */
  function ToRemove(current: int, active: int, minSize: int, downAt: real): (k: nat)
    requires 0 <= minSize
    ensures k > 0 ==> minSize <= current - k
    ensures k > 0 <==> current > minSize && active as real / current as real <= downAt
    ensures k > 0 ==> current - minSize < 2 * k <= current - minSize + 2
  {
    if current <= 0 then 0
    else if active as real / current as real <= downAt && current > minSize then
      Min((current - minSize) / 2 + 1, current - minSize)
    else 0
  }

  function Min(a: int, b: int): int { if a < b then a else b }

  /** What a scale-down thread may still take off currentSize. */
  function StillToGo(s: State, t: Thread): nat
  {
    if t !in s.threads then 0
    else match s.threads[t]
      case Shrink(left) => left
      case ShrinkClose(left, _) => left
      case ShrinkUncount(left, _) => left
      case _ => 0
  }

  predicate Shrinking(s: State, t: Thread)
  {
    t in s.threads ==>
      match s.threads[t]
      case Shrink(_) => true
      case ShrinkClose(left, _) => left > 0
      case ShrinkUncount(left, _) => left > 0
      case _ => false
  }

  lemma ShrinkStep(s: State, t: Thread, yes: bool)
    requires Shrinking(s, t)
    ensures var s' := Step(s, Go(t, yes));
      && Shrinking(s', t)
      && s'.currentSize - StillToGo(s', t) >= s.currentSize - StillToGo(s, t)
  {
  }

  lemma {:induction false} ShrinkRun(s: State, t: Thread, choices: seq<bool>)
    requires Shrinking(s, t)
    ensures var s' := Run(s, seq(|choices|, i requires 0 <= i < |choices| => Go(t, choices[i])));
      s'.currentSize >= s.currentSize - StillToGo(s, t)
    decreases |choices|
  {
    var es := seq(|choices|, i requires 0 <= i < |choices| => Go(t, choices[i]));
    if choices != [] {
      ShrinkStep(s, t, choices[0]);
      var rest := choices[1..];
      assert es[1..] == seq(|rest|, i requires 0 <= i < |rest| => Go(t, rest[i]));
      ShrinkRun(Step(s, es[0]), t, rest);
    }
  }

  /** A scale-down that nothing interrupts never takes the pool below minSize. */
  lemma ScaleDownKeepsMin(s: State, t: Thread, minSize: nat, downAt: real, choices: seq<bool>)
    requires t !in s.threads && minSize <= s.currentSize
    ensures var s0 := Step(s, Spawn(t, Shrink(ToRemove(s.currentSize, s.activeConns, minSize, downAt))));
      Run(s0, seq(|choices|, i requires 0 <= i < |choices| => Go(t, choices[i]))).currentSize >= minSize
  {
    var k := ToRemove(s.currentSize, s.activeConns, minSize, downAt);
    ShrinkRun(Step(s, Spawn(t, Shrink(k))), t, choices);
  }

  // ---- Staying within maxSize ----

  /** A Get under way on its own: past the check, the pool still has room. */
  predicate Getting(s: State, t: Thread)
  {
    t in s.threads ==>
      match s.threads[t]
      case GetTry => true
      case GetCheck => true
      case GetWait => true
      case GotConn(_) => true
      case GetDial => s.currentSize < s.maxSize
      case GetCount(_) => s.currentSize < s.maxSize
      case _ => false
  }

  lemma GetStep(s: State, t: Thread, yes: bool)
    requires Getting(s, t)
    ensures var s' := Step(s, Go(t, yes));
      && Getting(s', t) && s'.maxSize == s.maxSize
      && (s'.currentSize == s.currentSize || s'.currentSize <= s.maxSize)
  {
  }

  /** A Get that nothing interrupts does not take the pool past maxSize. */
  lemma {:induction false} GetKeepsMax(s: State, t: Thread, choices: seq<bool>)
    requires Getting(s, t)
    ensures var s' := Run(s, seq(|choices|, i requires 0 <= i < |choices| => Go(t, choices[i])));
      s'.currentSize <= s.currentSize || s'.currentSize <= s.maxSize
    decreases |choices|
  {
    var es := seq(|choices|, i requires 0 <= i < |choices| => Go(t, choices[i]));
    if choices != [] {
      hide Step, Getting;
      GetStep(s, t, choices[0]);
      var rest := choices[1..];
      assert es[1..] == seq(|rest|, i requires 0 <= i < |rest| => Go(t, rest[i]));
      GetKeepsMax(Step(s, es[0]), t, rest);
    }
  }

  /** On its way to one more counted connection: dialling, or dialled and not yet counted. */
  predicate IsAdding(pc: Pc) { pc.GetDial? || pc.GetCount? || pc.WarmDial? || pc.WarmCount? }

  ghost function Adding(s: State): set<Thread> { set t | t in s.threads && IsAdding(s.threads[t]) }

  /** Everything counted, and everything that may still be counted, fits. */
  ghost predicate Room(s: State) { s.currentSize + |Adding(s)| <= s.maxSize }

  /**
    The event commits the pool to a connection there is no room for: a Get passes its check of
    currentSize alone, or a warm-up or scale-up goroutine starts, which checks nothing.
   */
  ghost predicate Overcommits(s: State, e: Event)
  {
    && s.currentSize + |Adding(s)| >= s.maxSize
    && match e
       case Spawn(t, pc) => t !in s.threads && pc.WarmDial?
       case Go(t, _) => t in s.threads && s.threads[t].GetCheck? && s.currentSize < s.maxSize
       case _ => false
  }

  /** From s to s' only thread t moved; currentSize changed by delta, and t is adding now or not. */
  ghost predicate Moved(s: State, s': State, t: Thread, delta: int, adding: bool)
  {
    && s'.maxSize == s.maxSize && s'.currentSize == s.currentSize + delta
    && (if t in s'.threads then s'.threads == s.threads[t := s'.threads[t]] else s'.threads == s.threads - {t})
    && (adding <==> t in s'.threads && IsAdding(s'.threads[t]))
  }

  /** So the adding threads change by t alone. */
  lemma MovedAdding(s: State, s': State, t: Thread, delta: int, adding: bool)
    requires Moved(s, s', t, delta, adding)
    ensures Adding(s') == if adding then Adding(s) + {t} else Adding(s) - {t}
    ensures |Adding(s')| == |Adding(s)| + One(adding) - One(t in s.threads && IsAdding(s.threads[t]))
  {
    assert Adding(s') == if adding then Adding(s) + {t} else Adding(s) - {t};
    Grow(Adding(s), Adding(s'), t, t in s.threads && IsAdding(s.threads[t]), adding);
  }

  lemma MovedAt(s: State, t: Thread, pc: Pc)
    ensures Moved(s, At(s, t, pc), t, 0, IsAdding(pc)) && Moved(s, End(s, t), t, 0, false)
  {
  }

  lemma MovedTaking(s: State, t: Thread, c: Conn, pc: Pc)
    requires !IsAdding(pc)
    ensures s.queue != [] ==> Moved(s, Take(s, t, pc), t, 0, false)
    ensures Moved(s, Wrap(s, t, c), t, 0, false) && Moved(s, Offer(s, t, c), t, 0, false)
    ensures Moved(s, At(CloseOnce(s, c), t, pc), t, 0, false)
    ensures Moved(s, End(At(Move(CloseOnce(s, c), c, Gone), t, WarmDial), t), t, 0, false)
    ensures Moved(s, Forget(s, t, c, pc), t, -1, false)
    ensures Moved(s, End(Forget(s, t, c, WarmDial), t), t, -1, false)
  {
  }

  lemma MovedCounting(s: State, t: Thread, current: int, active: int, pc: Pc)
    ensures Moved(s, Count(s, t, current, active, pc), t, current, IsAdding(pc))
    ensures Moved(s, Dial(s, t, pc), t, 0, IsAdding(pc))
  {
  }

  /** How one action of thread t moves it. */
  lemma AdvanceMoves(s: State, t: Thread, yes: bool) returns (delta: int, adding: bool)
    requires t in s.threads
    ensures Moved(s, Advance(s, t, s.threads[t], yes), t, delta, adding)
    ensures var pc := s.threads[t];
      && (pc.GetCheck? ==> delta == 0 && (adding <==> s.currentSize < s.maxSize))
      && (pc.GetCount? || pc.WarmCount? ==> delta == 1 && !adding)
      && (pc.GetDial? || pc.WarmDial? ==> delta == 0 && (adding <==> yes))
      && (!pc.GetCheck? && !IsAdding(pc) ==> delta <= 0 && !adding)
  {
    hide At, End, Move, Take, Wrap, Offer, Forget, CloseOnce, Count, Dial, Moved;
    delta, adding := 0, false;
    MovedNothing(s, t);
    match s.threads[t]
    case GetTry =>
      MovedAt(s, t, GetCheck);
      if s.queue != [] { MovedTaking(s, t, 0, GotConn(s.queue[0])); }
    case GetCheck =>
      MovedAt(s, t, GetDial);
      MovedAt(s, t, GetWait);
      adding := s.currentSize < s.maxSize;
    case GetDial =>
      MovedAt(s, t, GetDial);
      MovedCounting(s, t, 0, 0, GetCount(|s.place|));
      adding := yes;
    case GetCount(c) => MovedCounting(s, t, 1, 0, GotConn(c)); delta := 1;
    case GetWait =>
      MovedAt(s, t, GetWait);
      if s.queue != [] { MovedTaking(s, t, 0, GotConn(s.queue[0])); }
    case GotConn(c) => MovedTaking(s, t, c, GetTry);
    case PutDec(c) => MovedCounting(s, t, 0, -1, Send(c));
    case Send(c) => MovedTaking(s, t, c, GetTry);
    case SendClose(c) => MovedTaking(s, t, c, Uncount(c));
    case Uncount(c) => MovedTaking(s, t, c, GetTry); delta := -1;
    case DiscDec(c) => MovedCounting(s, t, 0, -1, DiscUncount(c));
    case DiscUncount(c) => MovedCounting(s, t, -1, 0, DiscClose(c)); delta := -1;
    case DiscClose(c) => MovedTaking(s, t, c, GetTry);
    case WarmDial =>
      MovedAt(s, t, WarmDial);
      MovedCounting(s, t, 0, 0, WarmCount(|s.place|));
      adding := yes;
    case WarmCount(c) => MovedCounting(s, t, 1, 0, Send(c)); delta := 1;
    case Shrink(left) =>
      MovedAt(s, t, Shrink(if left == 0 then 0 else left - 1));
      if s.queue != [] { MovedTaking(s, t, 0, ShrinkClose(left, s.queue[0])); }
    case ShrinkClose(left, c) => MovedTaking(s, t, c, ShrinkUncount(left, c));
    case ShrinkUncount(left, c) =>
      MovedTaking(s, t, c, Shrink(if left == 0 then 0 else left - 1));
      delta := -1;
  }

  lemma MovedNothing(s: State, t: Thread)
    requires t in s.threads
    ensures Moved(s, s, t, 0, IsAdding(s.threads[t]))
  {
  }

  lemma ReleaseMoves(s: State, t: Thread, w: nat, bad: bool)
    ensures Release(s, t, w, bad) == s || (t !in s.threads && Moved(s, Release(s, t, w, bad), t, 0, false))
  {
  }

  /** A step out of a state with room keeps room exactly when it does not overcommit. */
  lemma RoomStep(s: State, e: Event)
    requires Room(s)
    ensures Room(Step(s, e)) <==> !Overcommits(s, e)
    ensures Step(s, e).maxSize == s.maxSize
  {
    hide Advance, Release, At, Adding;
    var s' := Step(s, e);
    match e
    case Spawn(t, pc) =>
      MovedAt(s, t, pc);
      MovedAdding(s, At(s, t, pc), t, 0, IsAdding(pc));
    case CloseConn(t, w) =>
      ReleaseMoves(s, t, w, false);
      if s' != s { MovedAdding(s, s', t, 0, false); }
    case MarkBad(t, w) =>
      ReleaseMoves(s, t, w, true);
      if s' != s { MovedAdding(s, s', t, 0, false); }
    case Go(t, yes) =>
      if t in s.threads {
        var delta, adding := AdvanceMoves(s, t, yes);
        MovedAdding(s, s', t, delta, adding);
      }
  }

  /** No event of the run overcommits. */
  ghost predicate Disciplined(s: State, events: seq<Event>)
    decreases |events|
  {
    events == [] || (!Overcommits(s, events[0]) && Disciplined(Step(s, events[0]), events[1..]))
  }

  /** Every state of the run has room. */
  ghost predicate RoomThroughout(s: State, events: seq<Event>)
    decreases |events|
  {
    Room(s) && (events == [] || RoomThroughout(Step(s, events[0]), events[1..]))
  }

  /** Over every run from a state with room: there is room throughout exactly when no event overcommits. */
  lemma {:induction false} RoomThroughoutIff(s: State, events: seq<Event>)
    requires Room(s)
    ensures RoomThroughout(s, events) <==> Disciplined(s, events)
    decreases |events|
  {
    hide Step, Room, Overcommits;
    if events != [] {
      RoomStep(s, events[0]);
      if Room(Step(s, events[0])) {
        RoomThroughoutIff(Step(s, events[0]), events[1..]);
      }
    }
  }

  lemma {:induction false} RoomIsKept(s: State, events: seq<Event>)
    requires Room(s) && Disciplined(s, events)
    ensures Room(Run(s, events)) && Run(s, events).maxSize == s.maxSize
    decreases |events|
  {
    hide Step, Room, Overcommits;
    if events != [] {
      RoomStep(s, events[0]);
      RoomIsKept(Step(s, events[0]), events[1..]);
    }
  }

  /** Let one adding thread finish: it dials if it still must, then counts. */
  lemma LetOneCount(s: State, t: Thread) returns (events: seq<Event>)
    requires t in Adding(s)
    ensures Disciplined(s, events)
    ensures var s' := Run(s, events);
      && s'.currentSize == s.currentSize + 1 && Adding(s') == Adding(s) - {t} && s'.maxSize == s.maxSize
  {
    var e := Go(t, true);
    var s1 := Step(s, e);
    var delta, adding := AdvanceMoves(s, t, true);
    MovedAdding(s, s1, t, delta, adding);
    if s.threads[t].GetCount? || s.threads[t].WarmCount? {
      events := [e];
      assert events[1..] == [];
    } else {
      assert s1.threads[t].GetCount? || s1.threads[t].WarmCount?;
      var s2 := Step(s1, e);
      delta, adding := AdvanceMoves(s1, t, true);
      MovedAdding(s1, s2, t, delta, adding);
      events := [e, e];
      assert events[1..] == [e] && [e][1..] == [];
      assert !Overcommits(s, e) && !Overcommits(s1, e);
      assert Run(s, events) == Run(s1, [e]) == Run(s2, []) == s2;
      assert Adding(s2) == Adding(s) - {t};
    }
  }

  lemma {:induction false} RunJoins(s: State, a: seq<Event>, b: seq<Event>)
    ensures Run(s, a + b) == Run(Run(s, a), b)
    ensures Disciplined(s, a + b) <==> Disciplined(s, a) && Disciplined(Run(s, a), b)
    decreases |a|
  {
    hide Step, Overcommits;
    if a == [] {
      assert a + b == b;
    } else {
      assert (a + b)[1..] == a[1..] + b;
      RunJoins(Step(s, a[0]), a[1..], b);
    }
  }

  /** Without room, the threads already adding can take the pool past maxSize on their own. */
  lemma {:induction false} NoRoomOverflows(s: State) returns (events: seq<Event>)
    requires !Room(s)
    ensures Disciplined(s, events) && Run(s, events).currentSize > s.maxSize
    decreases |Adding(s)|
  {
    if Adding(s) == {} {
      return [];
    }
    hide Step, Overcommits, Adding;
    var t :| t in Adding(s);
    var first := LetOneCount(s, t);
    var rest := NoRoomOverflows(Run(s, first));
    RunJoins(s, first, rest);
    events := first + rest;
  }

  /**
    MaxSize is safe exactly while there is room: a state has room if and only if no continuation
    without a further overcommitment takes currentSize past maxSize.
   */
  lemma WithinMaxIff(s: State)
    ensures Room(s) <==> forall events :: Disciplined(s, events) ==> Run(s, events).currentSize <= s.maxSize
  {
    hide Disciplined, Run;
    if Room(s) {
      forall events | Disciplined(s, events) ensures Run(s, events).currentSize <= s.maxSize {
        RoomIsKept(s, events);
      }
    } else {
      var events := NoRoomOverflows(s);
      assert Disciplined(s, events);
    }
  }

  /** From an empty pool: currentSize stays within maxSize in every run that never overcommits. */
  lemma DisciplinedRunsFit(maxSize: nat, events: seq<Event>)
    requires Disciplined(Init(maxSize), events)
    ensures Run(Init(maxSize), events).currentSize <= maxSize
  {
    assert Adding(Init(maxSize)) == {};
    RoomIsKept(Init(maxSize), events);
  }

  /** But the check and the count are two actions: two Gets that both pass the check exceed it. */
  lemma RacingGetsExceedMax()
    ensures var a, b := Go(0, true), Go(1, true);
      Run(Init(1), [Spawn(0, GetTry), Spawn(1, GetTry), a, b, a, b, a, b, a, b]).currentSize == 2
  {
    var a, b := Go(0, true), Go(1, true);
    var s1 := Step(Step(Init(1), Spawn(0, GetTry)), Spawn(1, GetTry));
    assert s1.threads == map[0 := GetTry, 1 := GetTry];
    var s2 := Step(Step(s1, a), b);
    assert s2.threads == map[0 := GetCheck, 1 := GetCheck];
    var s3 := Step(Step(s2, a), b);
    assert s3.threads == map[0 := GetDial, 1 := GetDial];
    var s4 := Step(Step(s3, a), b);
    assert s4.threads == map[0 := GetCount(0), 1 := GetCount(1)];
    var s5 := Step(Step(s4, a), b);
    assert s5.currentSize == 2;
    RunPairs(Init(1), Spawn(0, GetTry), Spawn(1, GetTry), [a, b, a, b, a, b, a, b]);
    RunPairs(s1, a, b, [a, b, a, b, a, b]);
    RunPairs(s2, a, b, [a, b, a, b]);
    RunPairs(s3, a, b, [a, b]);
    RunPairs(s4, a, b, []);
  }

  lemma RunPairs(s: State, e: Event, f: Event, rest: seq<Event>)
    ensures Run(s, [e, f] + rest) == Run(Step(Step(s, e), f), rest)
  {
    assert ([e, f] + rest)[1..] == [f] + rest && ([f] + rest)[1..] == rest;
    hide Step;
  }

  /** What a warm-up or scale-up goroutine does up to counting its connection. */
  function WarmUp(t: Thread): seq<Event> { [Spawn(t, WarmDial), Go(t, true)] + [Go(t, true)] }

  lemma WarmUpCounts(s: State, t: Thread)
    requires t !in s.threads
    ensures var s' := Run(s, WarmUp(t));
      s'.currentSize == s.currentSize + 1 && s'.maxSize == s.maxSize && s'.threads == s.threads[t := Send(|s.place|)]
  {
    var s1 := Step(Step(s, Spawn(t, WarmDial)), Go(t, true));
    RunPairs(s, Spawn(t, WarmDial), Go(t, true), [Go(t, true)]);
    assert [Go(t, true)][1..] == [];
    assert Run(s1, [Go(t, true)]) == Run(Step(s1, Go(t, true)), []) == Step(s1, Go(t, true));
    assert s1.threads == s.threads[t := WarmCount(|s.place|)];
  }

  /** Nor is a race needed: warming up a full pool, or one of size 1 twice, exceeds maxSize. */
  lemma WarmUpExceedsMax(s: State, t: Thread)
    requires t !in s.threads && s.currentSize >= s.maxSize
    ensures Run(s, WarmUp(t)).currentSize > s.maxSize
    ensures Run(Init(1), WarmUp(0) + WarmUp(1)).currentSize == 2
  {
    hide Run;
    WarmUpCounts(s, t);
    WarmUpCounts(Init(1), 0);
    RunJoins(Init(1), WarmUp(0), WarmUp(1));
    WarmUpCounts(Run(Init(1), WarmUp(0)), 1);
  }
}
