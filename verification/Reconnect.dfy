/** The reconnector: backoff delays, and the loop that any number of callers may trigger. */
module Reconnect {

  // ---- Delays, in nanoseconds ----

  datatype Config = Config(initialDelay: real, maxDelay: real, factor: real, maxAttempts: int, jitter: real)

  const DEFAULT := Config(100_000_000.0, 30_000_000_000.0, 2.0, 5, 0.2)

  function Pow(b: real, n: nat): real { if n == 0 then 1.0 else b * Pow(b, n - 1) }

  function Cap(x: real, max: real): real { if x > max then max else x }

  function Grown(cfg: Config, n: nat): real { cfg.initialDelay * Pow(cfg.factor, n) }

  /** The backoff before jitter: exponential, capped. */
  function Base(cfg: Config, attempt: nat): real
    requires 1 <= attempt
  {
    Cap(Grown(cfg, attempt - 1), cfg.maxDelay)
  }

  /** calculateDelay; the jitter swings by attempt % 3 - 1. */
  function Delay(cfg: Config, attempt: int): real
  {
    if attempt <= 1 then cfg.initialDelay
    else
      var d := Base(cfg, attempt);
      if cfg.jitter > 0.0 then d + d * cfg.jitter * (attempt % 3 - 1) as real / 2.0 else d
  }

  predicate Sane(cfg: Config)
  {
    0.0 <= cfg.initialDelay && 0.0 <= cfg.maxDelay && 0.0 <= cfg.factor && 0.0 <= cfg.jitter
  }

  lemma MulPos(a: real, b: real)
    requires 0.0 <= a && 0.0 <= b
    ensures 0.0 <= a * b
  {
  }

  lemma {:induction false} PowPos(b: real, n: nat)
    requires 0.0 <= b
    ensures 0.0 <= Pow(b, n) && (1.0 <= b ==> 1.0 <= Pow(b, n))
  {
    if n > 0 {
      PowPos(b, n - 1);
      MulPos(b, Pow(b, n - 1));
      if 1.0 <= b {
        MulPos(b - 1.0, Pow(b, n - 1));
      }
    }
  }

  lemma BaseBounds(cfg: Config, attempt: nat)
    requires Sane(cfg) && 1 <= attempt
    ensures 0.0 <= Base(cfg, attempt) <= cfg.maxDelay
  {
    PowPos(cfg.factor, attempt - 1);
    MulPos(cfg.initialDelay, Pow(cfg.factor, attempt - 1));
  }

  /** A base shortened, or stretched, by half the jitter. */
  function Least(b: real, jitter: real): real { b * (1.0 - jitter / 2.0) }

  function Most(b: real, jitter: real): real { b * (1.0 + jitter / 2.0) }

  /** From the second attempt on the delay is the base plus or minus at most half the jitter. */
  lemma DelayBounds(cfg: Config, attempt: nat)
    requires Sane(cfg) && 2 <= attempt
    ensures var b := Base(cfg, attempt); Least(b, cfg.jitter) <= Delay(cfg, attempt) <= Most(b, cfg.jitter)
  {
    hide Base;
    var b, j, s := Base(cfg, attempt), cfg.jitter, (attempt % 3 - 1) as real;
    BaseBounds(cfg, attempt);
    MulPos(b, j);
    Swing(b * j, s);
  }

  lemma Swing(w: real, s: real)
    requires 0.0 <= w && (s == -1.0 || s == 0.0 || s == 1.0)
    ensures -w / 2.0 <= w * s / 2.0 <= w / 2.0
  {
  }

  /**
    MaxDelay caps the base from the second attempt on, not the delay. It is exceeded exactly by an
    InitialDelay above it on the first attempt, and by upward jitter near the cap afterwards.
   */
  lemma ExceedsMaxIff(cfg: Config, attempt: int)
    requires Sane(cfg)
    ensures Delay(cfg, attempt) > cfg.maxDelay <==>
      if attempt <= 1 then cfg.initialDelay > cfg.maxDelay
      else attempt % 3 == 2 && Most(Base(cfg, attempt), cfg.jitter) > cfg.maxDelay
  {
    if attempt > 1 {
      LaterExceedsMaxIff(cfg, attempt);
    }
  }

  lemma LaterExceedsMaxIff(cfg: Config, attempt: nat)
    requires Sane(cfg) && 2 <= attempt
    ensures Delay(cfg, attempt) > cfg.maxDelay <==>
      attempt % 3 == 2 && Most(Base(cfg, attempt), cfg.jitter) > cfg.maxDelay
  {
    hide Base;
    var b := Base(cfg, attempt);
    BaseBounds(cfg, attempt);
    MulPos(b, cfg.jitter);
    JitterCases(b * cfg.jitter, attempt);
  }

  lemma JitterCases(w: real, attempt: nat)
    requires 0.0 <= w
    ensures attempt % 3 == 0 ==> w * (attempt % 3 - 1) as real / 2.0 == -w / 2.0
    ensures attempt % 3 == 1 ==> w * (attempt % 3 - 1) as real / 2.0 == 0.0
    ensures attempt % 3 == 2 ==> w * (attempt % 3 - 1) as real / 2.0 == w / 2.0
  {
  }

  /** The backoff step by step: each wait is the factor times the one before, capped at maxDelay. */
  function Backoff(cfg: Config, attempt: nat): real
    requires 1 <= attempt
  {
    if attempt == 1 then cfg.initialDelay
    else
      var d := Backoff(cfg, attempt - 1) * cfg.factor;
      if d > cfg.maxDelay then cfg.maxDelay else d
  }

  /** Capping before the factor is applied makes no difference. */
  lemma CapEarly(x: real, f: real, max: real)
    requires 0.0 <= x && 1.0 <= f && 0.0 <= max
    ensures Cap(Cap(x, max) * f, max) == Cap(x * f, max)
  {
    MulPos(x, f - 1.0);
    MulPos(max, f - 1.0);
  }

  lemma GrownNext(cfg: Config, n: nat)
    ensures Grown(cfg, n + 1) == Grown(cfg, n) * cfg.factor && Grown(cfg, 0) == cfg.initialDelay
  {
    PowNext(cfg.factor, n);
    Times3(cfg.initialDelay, cfg.factor, Pow(cfg.factor, n));
  }

  lemma BaseNext(cfg: Config, attempt: nat)
    requires Sane(cfg) && 1.0 <= cfg.factor && 1 <= attempt
    ensures Base(cfg, attempt + 1) == Cap(Base(cfg, attempt) * cfg.factor, cfg.maxDelay)
    ensures Base(cfg, 2) == Cap(cfg.initialDelay * cfg.factor, cfg.maxDelay)
  {
    hide Grown;
    GrownNext(cfg, attempt - 1);
    GrownNext(cfg, 0);
    GrownPos(cfg, attempt - 1);
    var g := Grown(cfg, attempt - 1);
    CapEarly(g, cfg.factor, cfg.maxDelay);
    SameProduct(Grown(cfg, 0), cfg.initialDelay, cfg.factor);
    SameProduct(Base(cfg, attempt), Cap(g, cfg.maxDelay), cfg.factor);
  }

  lemma SameProduct(a: real, b: real, f: real)
    requires a == b
    ensures a * f == b * f
  {
  }

  lemma GrownPos(cfg: Config, n: nat)
    requires Sane(cfg)
    ensures 0.0 <= Grown(cfg, n)
  {
    PowPos(cfg.factor, n);
    MulPos(cfg.initialDelay, Pow(cfg.factor, n));
  }

  lemma {:induction false} BaseIsBackoff(cfg: Config, attempt: nat)
    requires Sane(cfg) && 1.0 <= cfg.factor && 2 <= attempt
    ensures Base(cfg, attempt) == Backoff(cfg, attempt)
  {
    hide Base;
    BaseNext(cfg, attempt - 1);
    if attempt > 2 {
      BaseIsBackoff(cfg, attempt - 1);
    }
  }

  lemma PowNext(b: real, n: nat)
    ensures Pow(b, n + 1) == b * Pow(b, n)
  {
  }

  /**
    The delay of every attempt: InitialDelay first; then the capped backoff, stretched by half the
    jitter on attempts 2, 5, 8, ..., shortened by it on 3, 6, 9, ..., and plain on 4, 7, 10, ...
   */
  lemma DelayIs(cfg: Config, attempt: int)
    requires Sane(cfg) && 1.0 <= cfg.factor
    ensures attempt <= 1 ==> Delay(cfg, attempt) == cfg.initialDelay
    ensures attempt >= 2 ==>
      var d := Backoff(cfg, attempt);
      Delay(cfg, attempt) == match attempt % 3
        case 0 => d - d * cfg.jitter / 2.0
        case 1 => d
        case _ => d + d * cfg.jitter / 2.0
  {
    hide Base, Backoff;
    if attempt >= 2 {
      BaseIsBackoff(cfg, attempt);
      BaseBounds(cfg, attempt);
      MulPos(Base(cfg, attempt), cfg.jitter);
      JitterCases(Base(cfg, attempt) * cfg.jitter, attempt);
    }
  }

  /** The default settings wait 33 s at attempt 11, although MaxDelay is 30 s. */
  lemma DefaultExceedsMax()
    ensures Delay(DEFAULT, 11) == 33_000_000_000.0 > DEFAULT.maxDelay
  {
    assert Pow(2.0, 5) == 32.0;
    assert Pow(2.0, 10) == 1024.0;
  }

  /** While uncapped, delays grow strictly whenever the factor outweighs the jitter. */
  lemma DelaysGrow(cfg: Config, attempt: nat)
    requires Sane(cfg) && 0.0 < cfg.initialDelay && 1 <= attempt
    requires Most(1.0, cfg.jitter) < Least(cfg.factor, cfg.jitter)
    requires cfg.initialDelay * Pow(cfg.factor, attempt) <= cfg.maxDelay
    ensures Delay(cfg, attempt) < Delay(cfg, attempt + 1)
  {
    hide Base, Delay, Pow;
    FactorAboveOne(cfg.factor, cfg.jitter);
    var b := Uncapped(cfg, attempt);
    DelayBounds(cfg, attempt + 1);
    if attempt == 1 {
      FirstBelow(cfg, b);
    } else {
      DelayBounds(cfg, attempt);
    }
    Outweighs(b, cfg.factor, cfg.jitter, Base(cfg, attempt + 1));
  }

  lemma FactorAboveOne(f: real, j: real)
    requires 0.0 <= f && 0.0 <= j && Most(1.0, j) < Least(f, j)
    ensures 1.0 <= f
  {
    MulPos(f, j / 2.0);
    assert Least(f, j) == f - f * (j / 2.0);
  }

  lemma FirstBelow(cfg: Config, b: real)
    requires Sane(cfg) && b == cfg.initialDelay * Pow(cfg.factor, 0)
    ensures Delay(cfg, 1) <= Most(b, cfg.jitter)
  {
    MulPos(b, cfg.jitter);
  }

  lemma Uncapped(cfg: Config, attempt: nat) returns (b: real)
    requires Sane(cfg) && 0.0 < cfg.initialDelay && 1 <= attempt && 1.0 <= cfg.factor
    requires cfg.initialDelay * Pow(cfg.factor, attempt) <= cfg.maxDelay
    ensures b == Base(cfg, attempt) == cfg.initialDelay * Pow(cfg.factor, attempt - 1) > 0.0
    ensures Base(cfg, attempt + 1) == b * cfg.factor
  {
    var p := Pow(cfg.factor, attempt - 1);
    PowPos(cfg.factor, attempt - 1);
    b := cfg.initialDelay * p;
    Times3(cfg.initialDelay, cfg.factor, p);
    assert b > 0.0;
    MulPos(b, cfg.factor - 1.0);
  }

  lemma Times3(a: real, f: real, p: real)
    ensures a * (f * p) == (a * p) * f
  {
  }

  lemma Outweighs(b: real, f: real, j: real, next: real)
    requires 0.0 < b && Most(1.0, j) < Least(f, j) && next == b * f
    ensures Most(b, j) < Least(next, j)
  {
    var x, y := 1.0 + j / 2.0, f * (1.0 - j / 2.0);
    assert b * (y - x) > 0.0;
    assert (b * f) * (1.0 - j / 2.0) == b * y;
  }

  /** In particular under the default factor and jitter. */
  lemma DefaultDelaysGrow(cfg: Config, attempt: nat)
    requires cfg.factor == 2.0 && cfg.jitter == 0.2 && 0.0 < cfg.initialDelay && 1 <= attempt
    requires cfg.initialDelay * Pow(2.0, attempt) <= cfg.maxDelay
    ensures Delay(cfg, attempt) < Delay(cfg, attempt + 1)
  {
    PowPos(2.0, attempt);
    MulPos(cfg.initialDelay, Pow(2.0, attempt));
    DelaysGrow(cfg, attempt);
  }

  // ---- The loop ----

  type Thread = nat

  datatype Pc =
    | Start                                // about to consider resetting the counter
    | Top                                  // head of the loop
    | Switching(attempt: int)              // inside switchFunc
    | Waiting(attempt: int, delay: real)   // sleeping that long
    | Connecting(attempt: int)             // inside connectFunc
    | Leaving                              // deferred store of StateIdle

  /** A running reconnectLoop, and how many connects have failed in it. */
  datatype Loop = Loop(pc: Pc, failed: nat)

  datatype State = State(reconnecting: bool, attempts: int, done: bool, loops: map<Thread, Loop>)

  datatype Setup = Setup(cfg: Config, hasConnect: bool, hasSwitch: bool)

  function WaitFor(u: Setup, n: int): Pc { Waiting(n, Delay(u.cfg, n)) }

  /** Trigger's compare-and-swap, Stop, or one action of a loop with its outcome. */
  datatype Event = Trigger(t: Thread) | Stop | Go(t: Thread, yes: bool)

  function To(s: State, t: Thread, pc: Pc, failed: nat): State { s.(loops := s.loops[t := Loop(pc, failed)]) }

  function Step(u: Setup, s: State, e: Event): State
  {
    match e
    case Stop => s.(done := true)
    case Trigger(t) =>
      if s.reconnecting || t in s.loops then s else To(s.(reconnecting := true), t, Start, 0)
    case Go(t, yes) => if t in s.loops then Advance(u, s, t, s.loops[t], yes) else s
  }

  function Advance(u: Setup, s: State, t: Thread, l: Loop, yes: bool): State
  {
    match l.pc
    case Start => To(if yes then s.(attempts := 0) else s, t, Top, l.failed)
    case Top =>
      if s.done then To(s, t, Leaving, l.failed)
      else
        var n := s.attempts + 1;
        To(s.(attempts := n), t, if n > u.cfg.maxAttempts && u.hasSwitch then Switching(n) else WaitFor(u, n), l.failed)
    case Switching(n) =>
      if yes then To(s.(attempts := 0), t, Leaving, l.failed) else To(s, t, WaitFor(u, n), l.failed)
    case Waiting(n, _) =>
      if yes then To(s, t, Connecting(n), l.failed) else if s.done then To(s, t, Leaving, l.failed) else s
    case Connecting(_) =>
      if u.hasConnect && !yes then To(s, t, Top, l.failed + 1) else To(s.(attempts := 0), t, Leaving, l.failed)
    case Leaving => s.(reconnecting := false, loops := s.loops - {t})
  }

  function Run(u: Setup, s: State, events: seq<Event>): State
    decreases |events|
  {
    if events == [] then s else Run(u, Step(u, s, events[0]), events[1..])
  }

  const INIT := State(false, 0, false, map[])

  /** The counter tells how many connects failed in the current loop, until the reconnector is stopped. */
  predicate LoopOk(u: Setup, s: State, l: Loop)
  {
    match l.pc
    case Start => l.failed == 0 && (s.attempts == 0 || s.done)
    case Top => s.attempts == l.failed || s.done
    case Switching(n) => n == s.attempts == l.failed + 1 && n > u.cfg.maxAttempts && u.hasSwitch
    case Waiting(n, d) => n == s.attempts == l.failed + 1 && d == Delay(u.cfg, n)
    case Connecting(n) => n == s.attempts == l.failed + 1
    case Leaving => s.attempts == 0 || s.done
  }

  ghost predicate Inv(u: Setup, s: State)
  {
    && (forall t: Thread, v: Thread :: t in s.loops && v in s.loops ==> t == v)
    && (s.reconnecting <==> exists t: Thread :: t in s.loops)
    && (forall t: Thread :: t in s.loops ==> LoopOk(u, s, s.loops[t]))
    && (s.reconnecting || s.attempts == 0 || s.done)
  }

  lemma StepInv(u: Setup, s: State, e: Event)
    requires Inv(u, s)
    ensures Inv(u, Step(u, s, e))
  {
    hide Delay;
    var s' := Step(u, s, e);
    if e.Go? && e.t in s.loops {
      var t := e.t;
      assert forall v: Thread :: v in s.loops ==> v == t;
      if s.loops[t].pc.Leaving? {
        assert forall v: Thread :: v !in s'.loops;
      } else {
        assert t in s'.loops;
      }
    } else if e.Trigger? && !s.reconnecting {
      assert e.t in s'.loops;
    }
  }

  lemma {:induction false} RunInv(u: Setup, s: State, events: seq<Event>)
    requires Inv(u, s)
    ensures Inv(u, Run(u, s, events))
    decreases |events|
  {
    hide Inv, Step;
    if events != [] {
      StepInv(u, s, events[0]);
      RunInv(u, Step(u, s, events[0]), events[1..]);
    }
  }

  /** However many callers trigger it, at most one loop runs, and exactly while the state says so. */
  lemma AtMostOneLoop(u: Setup, events: seq<Event>)
    ensures var s := Run(u, INIT, events);
      && (forall t: Thread, v: Thread :: t in s.loops && v in s.loops ==> t == v)
      && (s.reconnecting <==> s.loops != map[])
  {
    RunInv(u, INIT, events);
    var s := Run(u, INIT, events);
    if s.loops != map[] {
      assert s.loops.Keys != {};
      var t :| t in s.loops.Keys;
    }
  }

  /** The transport is switched only after MaxAttempts connects failed in the current loop. */
  lemma SwitchOnlyAfterFailures(u: Setup, events: seq<Event>, t: Thread)
    ensures var s := Run(u, INIT, events);
      t in s.loops && s.loops[t].pc.Switching? ==> s.loops[t].failed >= u.cfg.maxAttempts
  {
    RunInv(u, INIT, events);
  }

  /** The head of the loop goes into switchFunc exactly when MaxAttempts connects have failed, else it waits. */
  lemma SwitchTriedIff(u: Setup, events: seq<Event>, t: Thread, yes: bool)
    ensures var s := Run(u, INIT, events);
      t in s.loops && s.loops[t].pc.Top? && !s.done ==>
        var s' := Step(u, s, Go(t, yes));
        && t in s'.loops && s'.loops[t].failed == s.loops[t].failed
        && (s'.loops[t].pc.Switching? <==> u.hasSwitch && s.loops[t].failed >= u.cfg.maxAttempts)
        && (s'.loops[t].pc.Waiting? <==> !(u.hasSwitch && s.loops[t].failed >= u.cfg.maxAttempts))
  {
    hide Delay, Run;
    RunInv(u, INIT, events);
  }

  /** A switch or a connect that succeeds ends the loop with the counter at 0 and the state idle. */
  lemma SuccessEndsLoop(u: Setup, s: State, t: Thread, yes: bool)
    requires Inv(u, s) && t in s.loops
    requires s.loops[t].pc.Switching? || s.loops[t].pc.Connecting?
    ensures var s' := Step(u, Step(u, s, Go(t, true)), Go(t, yes));
      s' == State(false, 0, s.done, map[])
  {
    hide Delay;
    var s1 := Step(u, s, Go(t, true));
    assert forall v: Thread :: v in s1.loops ==> v == t;
    assert s1.loops - {t} == map[];
  }

  /** A switch that fails goes on to the wait it stands before; a connect that fails goes round again. */
  lemma FailureGoesOn(u: Setup, s: State, t: Thread)
    requires Inv(u, s) && t in s.loops
    ensures s.loops[t].pc.Switching? ==>
      var wait := Waiting(s.attempts, Delay(u.cfg, s.attempts));
      Step(u, s, Go(t, false)) == s.(loops := s.loops[t := Loop(wait, s.loops[t].failed)])
    ensures s.loops[t].pc.Connecting? && u.hasConnect ==>
      Step(u, s, Go(t, false)) == s.(loops := s.loops[t := Loop(Top, s.loops[t].failed + 1)])
  {
    hide Delay;
  }

  /** k rounds of the loop: count, wait, and a connect that fails. */
  function Rounds(t: Thread, k: nat): seq<Event>
  {
    if k == 0 then [] else [Go(t, true), Go(t, true), Go(t, false)] + Rounds(t, k - 1)
  }

  lemma RunThree(u: Setup, s: State, a: Event, b: Event, c: Event, rest: seq<Event>)
    ensures Run(u, s, [a, b, c] + rest) == Run(u, Step(u, Step(u, Step(u, s, a), b), c), rest)
  {
    hide Step;
    assert ([a, b, c] + rest)[1..] == [b, c] + rest;
    assert ([b, c] + rest)[1..] == [c] + rest;
    assert ([c] + rest)[1..] == rest;
    var s1 := Step(u, s, a);
    var s2 := Step(u, s1, b);
    assert Run(u, s1, [b, c] + rest) == Run(u, s2, [c] + rest);
    assert Run(u, s2, [c] + rest) == Run(u, Step(u, s2, c), rest);
  }

  /** Up to MaxAttempts failing rounds leave the loop at its head with all of them counted. */
  lemma {:induction false} RoundsCount(u: Setup, s: State, t: Thread, k: nat)
    requires 0 <= s.attempts && t in s.loops && s.loops[t] == Loop(Top, s.attempts) && !s.done && u.hasConnect
    requires s.attempts + k <= u.cfg.maxAttempts
    ensures Run(u, s, Rounds(t, k))
      == s.(attempts := s.attempts + k, loops := s.loops[t := Loop(Top, s.attempts + k)])
    decreases k
  {
    hide Delay, Run;
    if k == 0 {
      assert s.loops == s.loops[t := Loop(Top, s.attempts)];
      RunNothing(u, s);
    } else {
      var n := s.attempts + 1;
      RunThree(u, s, Go(t, true), Go(t, true), Go(t, false), Rounds(t, k - 1));
      var s1 := s.(attempts := n, loops := s.loops[t := Loop(WaitFor(u, n), s.attempts)]);
      var s2 := s1.(loops := s.loops[t := Loop(Connecting(n), s.attempts)]);
      var s3 := s2.(loops := s.loops[t := Loop(Top, n)]);
      assert Step(u, s, Go(t, true)) == s1;
      assert Step(u, s1, Go(t, true)) == s2;
      assert Step(u, s2, Go(t, false)) == s3;
      RoundsCount(u, s3, t, k - 1);
    }
  }

  lemma RunNothing(u: Setup, s: State)
    ensures Run(u, s, []) == s
  {
  }

  /** So a triggered loop whose connects all fail does try the switch, after exactly MaxAttempts of them. */
  lemma SwitchIsTried(u: Setup, t: Thread, reset: bool, yes: bool)
    requires u.hasConnect && u.hasSwitch && 0 <= u.cfg.maxAttempts
    ensures var s := Step(u, Step(u, INIT, Trigger(t)), Go(t, reset));
      var s' := Step(u, Run(u, s, Rounds(t, u.cfg.maxAttempts)), Go(t, yes));
      t in s'.loops && s'.loops[t] == Loop(Switching(u.cfg.maxAttempts + 1), u.cfg.maxAttempts)
  {
    hide Delay, Run;
    RoundsCount(u, Step(u, Step(u, INIT, Trigger(t)), Go(t, reset)), t, u.cfg.maxAttempts);
  }

  /** After n failed connects in the current loop the wait is exactly the backoff delay n + 1. */
  lemma WaitsBackOffInOrder(u: Setup, events: seq<Event>, t: Thread)
    ensures var s := Run(u, INIT, events);
      t in s.loops && s.loops[t].pc.Waiting? ==> s.loops[t].pc.delay == Delay(u.cfg, s.loops[t].failed + 1)
  {
    hide Delay;
    RunInv(u, INIT, events);
  }

  /** So a wait after one more failed connect is strictly longer, as long as the backoff is uncapped. */
  lemma WaitsGrow(u: Setup, before: seq<Event>, after: seq<Event>, t: Thread)
    requires Sane(u.cfg) && 0.0 < u.cfg.initialDelay && Most(1.0, u.cfg.jitter) < Least(u.cfg.factor, u.cfg.jitter)
    ensures var s, s' := Run(u, INIT, before), Run(u, INIT, after);
      && t in s.loops && s.loops[t].pc.Waiting? && t in s'.loops && s'.loops[t].pc.Waiting?
      && s'.loops[t].failed == s.loops[t].failed + 1
      && u.cfg.initialDelay * Pow(u.cfg.factor, s'.loops[t].failed) <= u.cfg.maxDelay
      ==> s.loops[t].pc.delay < s'.loops[t].pc.delay
  {
    hide Delay, Pow, Run;
    WaitsBackOffInOrder(u, before, t);
    WaitsBackOffInOrder(u, after, t);
    var s, s' := Run(u, INIT, before), Run(u, INIT, after);
    if t in s.loops && t in s'.loops && s'.loops[t].failed == s.loops[t].failed + 1
       && u.cfg.initialDelay * Pow(u.cfg.factor, s'.loops[t].failed) <= u.cfg.maxDelay {
      DelaysGrow(u.cfg, s'.loops[t].failed);
    }
  }
}
