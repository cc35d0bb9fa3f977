/** The failover manager's operations, as code on its table and as transitions of it. */
module FailoverManager {
  import opened Failover

  // ---- Transitions ----

  datatype Op =
    | ReportFailure(w: World)
    | ReportSuccess
    | CheckPaths(now: int)
    | ForceSwitch(name: string)
    | DisablePath(name: string)
    | EnablePath(name: string, now: int)

  /** First path of that name, or -1. */
  function Find(paths: seq<Path>, name: string, n: nat): (i: int)
    requires n <= |paths|
    ensures -1 <= i < n
    ensures i >= 0 ==> paths[i].config.name == name && forall j :: 0 <= j < i ==> paths[j].config.name != name
    ensures i < 0 ==> forall j :: 0 <= j < n ==> paths[j].config.name != name
  {
    if n == 0 then -1
    else
      var i := Find(paths, name, n - 1);
      if i >= 0 then i else if paths[n - 1].config.name == name then n - 1 else -1
  }

  function Failed(p: Path): Path { p.(failCount := p.failCount + 1, successCount := 0) }

  function Succeeded(p: Path): Path { p.(successCount := p.successCount + 1, failCount := 0, state := Healthy) }

  function Probed(p: Path, now: int): Path { p.(state := Degraded, failCount := 0, lastCheck := now) }

  predicate Due(cfg: Settings, p: Path, now: int) { p.state.Unhealthy? && now - p.lastCheck >= cfg.recoverAfter }

  /** The rows after checkPaths has visited the first n. */
  function Recovered(cfg: Settings, paths: seq<Path>, now: int, n: nat): (r: seq<Path>)
    requires n <= |paths|
    ensures |r| == |paths|
    ensures forall i :: 0 <= i < |paths| ==>
      r[i] == if i < n && Due(cfg, paths[i], now) then Probed(paths[i], now) else paths[i]
  {
    seq(|paths|, i requires 0 <= i < |paths| =>
      if i < n && Due(cfg, paths[i], now) then Probed(paths[i], now) else paths[i])
  }

  predicate BetterRecovered(cfg: Settings, t: Table, now: int, i: int)
  {
    && 0 <= i < |t.paths| && 0 <= t.active < |t.paths|
    && Due(cfg, t.paths[i], now) && t.paths[i].config.priority < t.paths[t.active].config.priority
  }

  /** bestRecoveredIdx after the first n rows: each match overwrites the one before. */
  function LastBetter(cfg: Settings, t: Table, now: int, n: nat): (i: int)
    requires n <= |t.paths|
    ensures -1 <= i < n
    ensures i >= 0 ==> BetterRecovered(cfg, t, now, i)
    ensures forall j :: i < j < n ==> !BetterRecovered(cfg, t, now, j)
  {
    if n == 0 then -1 else if BetterRecovered(cfg, t, now, n - 1) then n - 1 else LastBetter(cfg, t, now, n - 1)
  }

  function Apply(cfg: Settings, t: Table, op: Op): Table
  {
    match op
    case ReportFailure(w) =>
      if !InTable(t) then t
      else
        var t1 := t.(paths := t.paths[t.active := Failed(t.paths[t.active])]);
        if t1.paths[t.active].failCount >= cfg.failThreshold
        then DoFailover(cfg.strategy, t1, t.active, w).table else t1
    case ReportSuccess =>
      if !InTable(t) then t else t.(paths := t.paths[t.active := Succeeded(t.paths[t.active])])
    case CheckPaths(now) =>
      var best := LastBetter(cfg, t, now, |t.paths|);
      Table(Recovered(cfg, t.paths, now, |t.paths|), if best >= 0 && cfg.strategy.Priority? then best else t.active)
    case ForceSwitch(name) =>
      var i := Find(t.paths, name, |t.paths|);
      if i < 0 then t else t.(active := i)
    case DisablePath(name) =>
      var i := Find(t.paths, name, |t.paths|);
      if i < 0 then t else t.(paths := t.paths[i := t.paths[i].(state := Disabled)])
    case EnablePath(name, now) =>
      var i := Find(t.paths, name, |t.paths|);
      if i < 0 then t else t.(paths := t.paths[i := Probed(t.paths[i], now)])
  }

  function Run(cfg: Settings, t: Table, ops: seq<Op>): Table
    decreases |ops|
  {
    if ops == [] then t else Run(cfg, Apply(cfg, t, ops[0]), ops[1..])
  }

  // ---- What every run keeps ----

  /** Both tables list the same paths in the same order. */
  predicate SamePaths(a: seq<Path>, b: seq<Path>)
  {
    |a| == |b| && forall i :: 0 <= i < |a| ==> a[i].config == b[i].config
  }

  ghost predicate Inv(cfg: Settings, t: Table)
  {
    && Sorted(t.paths)
    && (t.paths == [] || InTable(t))
    && (forall i :: 0 <= i < |t.paths| && (t.paths[i].state.Healthy? || t.paths[i].state.Degraded?) ==>
          t.paths[i].failCount < cfg.failThreshold)
  }

  lemma ApplyKeeps(cfg: Settings, t: Table, op: Op)
    requires 1 <= cfg.failThreshold && Inv(cfg, t)
    ensures Inv(cfg, Apply(cfg, t, op)) && SamePaths(t.paths, Apply(cfg, t, op).paths)
  {
    if op.ReportFailure? && InTable(t) {
      FailureKeeps(cfg, t, op.w);
    }
  }

  lemma FailureKeeps(cfg: Settings, t: Table, w: World)
    requires 1 <= cfg.failThreshold && Inv(cfg, t) && InTable(t)
    ensures var t' := Apply(cfg, t, ReportFailure(w)); Inv(cfg, t') && SamePaths(t.paths, t'.paths)
  {
    var t1 := t.(paths := t.paths[t.active := Failed(t.paths[t.active])]);
    FailoverFaithful(cfg.strategy, t1, t.active, w);
    var r := DoFailover(cfg.strategy, t1, t.active, w);
    if r.tried != [] {
      assert Candidate(t1.paths, t.active, Last(r.tried));
    }
  }

  /**
    Over every run of operations the table stays the same priority-sorted list of paths, the active
    index stays in range, and a usable path has fewer failures than the threshold.
   */
  lemma {:induction false} RunKeeps(cfg: Settings, t: Table, ops: seq<Op>)
    requires 1 <= cfg.failThreshold && Inv(cfg, t)
    ensures Inv(cfg, Run(cfg, t, ops)) && SamePaths(t.paths, Run(cfg, t, ops).paths)
    decreases |ops|
  {
    hide Inv, Apply;
    if ops != [] {
      ApplyKeeps(cfg, t, ops[0]);
      RunKeeps(cfg, Apply(cfg, t, ops[0]), ops[1..]);
    }
  }

  /** The operation names path i in a way that may bring it back. */
  predicate Names(t: Table, op: Op, i: nat)
  {
    (op.EnablePath? || op.ForceSwitch?) && Find(t.paths, op.name, |t.paths|) == i
  }

  predicate Sidelined(t: Table, i: nat) { i < |t.paths| && t.paths[i].state.Disabled? && t.active != i }

  lemma ApplySidelines(cfg: Settings, t: Table, op: Op, i: nat)
    requires Sidelined(t, i) && !Names(t, op, i)
    ensures Sidelined(Apply(cfg, t, op), i)
  {
    if op.ReportFailure? && InTable(t) {
      var t1 := t.(paths := t.paths[t.active := Failed(t.paths[t.active])]);
      FailoverFaithful(cfg.strategy, t1, t.active, op.w);
      var r := DoFailover(cfg.strategy, t1, t.active, op.w);
      assert !Candidate(t1.paths, t.active, i);
      if r.tried != [] {
        assert Candidate(t1.paths, t.active, Last(r.tried));
      }
    }
  }

  /** Some path other than the active one is usable, seen by the strategy, and answers. */
  ghost predicate OtherAnswers(cfg: Settings, t: Table, w: World)
  {
    exists i: nat :: Choice(cfg.strategy, t.paths, t.active, i) && w.up(i)
  }

  /** Below the threshold a report only counts; at the threshold the manager leaves the path if it can. */
  lemma FailureMeans(cfg: Settings, t: Table, w: World)
    requires InTable(t)
    ensures var t', p := Apply(cfg, t, ReportFailure(w)), t.paths[t.active];
      if p.failCount + 1 < cfg.failThreshold
      then t' == Table(t.paths[t.active := p.(failCount := p.failCount + 1, successCount := 0)], t.active)
      else
        var r := DoFailover(cfg.strategy, Table(t.paths[t.active := Failed(p)], t.active), t.active, w);
        && t' == r.table && (r.ok <==> OtherAnswers(cfg, t, w))
        && (r.ok ==> InTable(t') && t'.active != t.active && Usable(t'.paths[t'.active]) && w.up(t'.active))
  {
    hide Failover.DoFailover, Usable;
    var p := t.paths[t.active];
    if p.failCount + 1 >= cfg.failThreshold {
      var t1 := Table(t.paths[t.active := Failed(p)], t.active);
      FailoverSucceedsIff(cfg.strategy, t1, t.active, w);
      FailoverFaithful(cfg.strategy, t1, t.active, w);
      FailoverExhaustive(cfg.strategy, t1, t.active, w);
      forall i: nat
        ensures Choice(cfg.strategy, t1.paths, t.active, i) <==> Choice(cfg.strategy, t.paths, t.active, i) {
      }
    }
  }

  /** Failures reported in a row, the callback behaving as each world says. */
  function Reports(ws: seq<World>): seq<Op> { seq(|ws|, i requires 0 <= i < |ws| => ReportFailure(ws[i])) }

  lemma ReportsFirst(cfg: Settings, t: Table, ws: seq<World>)
    requires ws != []
    ensures Run(cfg, t, Reports(ws)) == Run(cfg, Apply(cfg, t, ReportFailure(ws[0])), Reports(ws[1..]))
  {
    hide Apply;
    assert Reports(ws)[1..] == Reports(ws[1..]);
  }

  lemma NoReports(cfg: Settings, t: Table, ws: seq<World>)
    requires ws == []
    ensures Run(cfg, t, Reports(ws)) == t
  {
  }

  /** Until the threshold is reached, failures in a row are counted and nothing else changes. */
  lemma {:induction false} ReportsCount(cfg: Settings, t: Table, ws: seq<World>)
    requires InTable(t) && ws != [] && t.paths[t.active].failCount + |ws| < cfg.failThreshold
    ensures var p := t.paths[t.active];
      Run(cfg, t, Reports(ws))
        == Table(t.paths[t.active := p.(failCount := p.failCount + |ws|, successCount := 0)], t.active)
    decreases |ws|
  {
    hide Apply, Run;
    FailureMeans(cfg, t, ws[0]);
    ReportsFirst(cfg, t, ws);
    var t1 := Apply(cfg, t, ReportFailure(ws[0]));
    if |ws| == 1 {
      NoReports(cfg, t1, ws[1..]);
    } else {
      ReportsCount(cfg, t1, ws[1..]);
    }
  }

  /**
    Exactly as many failures in a row as the path is short of the threshold leave another usable path
    active, whenever some path the strategy sees answers the last of them.
   */
  lemma {:induction false} ThresholdSwitches(cfg: Settings, t: Table, ws: seq<World>)
    requires InTable(t) && ws != [] && t.paths[t.active].failCount + |ws| == cfg.failThreshold
    requires exists i ::
      && 0 <= i < |t.paths| && i != t.active && ws[|ws| - 1].up(i)
      && (t.paths[i].state == Healthy || t.paths[i].state == Degraded)
      && (cfg.strategy.RoundRobin? || cfg.strategy.Latency? || t.paths[i].config.priority < MAX_INT)
    ensures var t' := Run(cfg, t, Reports(ws));
      && InTable(t') && t'.active != t.active && ws[|ws| - 1].up(t'.active)
      && (t'.paths[t'.active].state == Healthy || t'.paths[t'.active].state == Degraded)
    decreases |ws|
  {
    hide Apply, Run;
    FailureMeans(cfg, t, ws[0]);
    ReportsFirst(cfg, t, ws);
    var t1 := Apply(cfg, t, ReportFailure(ws[0]));
    var i :|
      && 0 <= i < |t.paths| && i != t.active && ws[|ws| - 1].up(i)
      && (t.paths[i].state == Healthy || t.paths[i].state == Degraded)
      && (cfg.strategy.RoundRobin? || cfg.strategy.Latency? || t.paths[i].config.priority < MAX_INT);
    if |ws| == 1 {
      assert Choice(cfg.strategy, t.paths, t.active, i);
      NoReports(cfg, t1, ws[1..]);
    } else {
      assert t1.paths[i] == t.paths[i];
      ThresholdSwitches(cfg, t1, ws[1..]);
    }
  }

  /** Path i is the first of that name. */
  predicate First(paths: seq<Path>, name: string, i: int)
  {
    0 <= i < |paths| && paths[i].config.name == name && forall j :: 0 <= j < i ==> paths[j].config.name != name
  }

  lemma FindByConfig(a: seq<Path>, b: seq<Path>, name: string, n: nat)
    requires SamePaths(a, b) && n <= |a|
    ensures Find(a, name, n) == Find(b, name, n)
  {
  }

  /** A Disabled path that is not active stays so until EnablePath or ForceSwitch names it. */
  lemma {:induction false} StaysDisabled(cfg: Settings, t: Table, ops: seq<Op>, i: nat)
    requires 1 <= cfg.failThreshold && Inv(cfg, t) && Sidelined(t, i)
    requires forall k :: 0 <= k < |ops| ==> !Names(t, ops[k], i)
    ensures Sidelined(Run(cfg, t, ops), i)
    decreases |ops|
  {
    hide Inv, Apply, Sidelined, Find;
    if ops != [] {
      var t' := Apply(cfg, t, ops[0]);
      ApplyKeeps(cfg, t, ops[0]);
      ApplySidelines(cfg, t, ops[0], i);
      forall k | 0 <= k < |ops[1..]| ensures !Names(t', ops[1..][k], i) {
        assert !Names(t, ops[k + 1], i);
        if ops[k + 1].EnablePath? || ops[k + 1].ForceSwitch? {
          FindByConfig(t.paths, t'.paths, ops[k + 1].name, |t.paths|);
        }
      }
      StaysDisabled(cfg, t', ops[1..], i);
    }
  }

  /** checkPaths only ever moves to a strictly better priority, and only to a path it just revived. */
  lemma CheckNeverWorsens(cfg: Settings, t: Table, now: int)
    requires InTable(t)
    ensures var t' := Apply(cfg, t, CheckPaths(now));
      && InTable(t')
      && (t'.active != t.active ==>
            cfg.strategy.Priority? && t'.paths[t'.active].state.Degraded? && t.paths[t'.active].state.Unhealthy?
            && t'.paths[t'.active].config.priority < t.paths[t.active].config.priority)
      && (t'.active == t.active <==> !cfg.strategy.Priority? || forall i :: !BetterRecovered(cfg, t, now, i))
  {
  }

  /** Path i went down at least recoverAfter ago and is better than the active one, as its row says. */
  predicate DueAndBetter(cfg: Settings, t: Table, now: int, i: int)
  {
    && 0 <= i < |t.paths| && InTable(t)
    && t.paths[i].state == Unhealthy && now - t.paths[i].lastCheck >= cfg.recoverAfter
    && t.paths[i].config.priority < t.paths[t.active].config.priority
  }

  /** Under the priority strategy checkPaths moves to the last such path, under the others nowhere. */
  lemma CheckMovesToLast(cfg: Settings, t: Table, now: int)
    requires InTable(t)
    ensures var t' := Apply(cfg, t, CheckPaths(now));
      if cfg.strategy == Priority && exists i :: DueAndBetter(cfg, t, now, i)
      then DueAndBetter(cfg, t, now, t'.active) && forall j :: DueAndBetter(cfg, t, now, j) ==> j <= t'.active
      else t'.active == t.active
  {
    forall i ensures DueAndBetter(cfg, t, now, i) <==> BetterRecovered(cfg, t, now, i) {
    }
  }

  /** The switch target is the best of the revived better paths. */
  ghost predicate SwitchesToBest(cfg: Settings, t: Table, now: int)
  {
    var t' := Apply(cfg, t, CheckPaths(now));
    forall i :: BetterRecovered(cfg, t, now, i) ==>
      InTable(t') && t.paths[t'.active].config.priority <= t.paths[i].config.priority
  }

  /**
    Only the last match is kept, so in a sorted table the switch reaches the best revived path
    exactly when all revived better paths tie in priority.
   */
  lemma SwitchesToBestIff(cfg: Settings, t: Table, now: int)
    requires InTable(t) && Sorted(t.paths) && cfg.strategy.Priority?
    ensures SwitchesToBest(cfg, t, now) <==>
      forall i, j :: BetterRecovered(cfg, t, now, i) && BetterRecovered(cfg, t, now, j) ==>
        t.paths[i].config.priority == t.paths[j].config.priority
  {
    var best := LastBetter(cfg, t, now, |t.paths|);
    if best >= 0 {
      assert forall i :: BetterRecovered(cfg, t, now, i) ==> i <= best;
      assert forall i :: BetterRecovered(cfg, t, now, i) ==>
        t.paths[i].config.priority <= t.paths[best].config.priority;
    }
  }

  /**
    A run from three healthy paths: two failures move the manager down to the third path; then both
    failed paths are revived together and the worse of the two is taken.
   */
  lemma SwitchSkipsBest()
    ensures var cfg := Settings(Priority, 1, 30);
      var start := Table(FreshPaths([Config("a", 1), Config("b", 2), Config("c", 3)], 0), 0);
      var w := World(_ => true, _ => 0);
      var t := Run(cfg, start, [ReportFailure(w), ReportFailure(w)]);
      && Inv(cfg, start)
      && t.active == 2 && Apply(cfg, t, CheckPaths(30)).active == 1 && !SwitchesToBest(cfg, t, 30)
  {
    var cfg := Settings(Priority, 1, 30);
    var start := Table(FreshPaths([Config("a", 1), Config("b", 2), Config("c", 3)], 0), 0);
    var w := World(_ => true, _ => 0);
    var a, b, c := FreshPath(Config("a", 1), 0), FreshPath(Config("b", 2), 0), FreshPath(Config("c", 3), 0);
    assert start.paths == [a, b, c];
    var down := (p: Path) => p.(state := Unhealthy, failCount := 1);
    var t1 := Table([down(a), b, c], 1);
    var t2 := Table([down(a), down(b), c], 2);
    FirstDown(start.paths, w);
    SecondDown(t1.paths, w);
    assert Apply(cfg, start, ReportFailure(w)) == t1;
    assert Apply(cfg, t1, ReportFailure(w)) == t2;
    RunTwo(cfg, start, ReportFailure(w), ReportFailure(w));
    assert BetterRecovered(cfg, t2, 30, 0) && BetterRecovered(cfg, t2, 30, 1) && !BetterRecovered(cfg, t2, 30, 2);
    assert LastBetter(cfg, t2, 30, 3) == LastBetter(cfg, t2, 30, 2) == 1;
  }

  lemma RunTwo(cfg: Settings, t: Table, a: Op, b: Op)
    ensures Run(cfg, t, [a, b]) == Apply(cfg, Apply(cfg, t, a), b)
  {
    hide Apply;
    assert [a, b][1..] == [b] && [b][1..] == [];
    assert Run(cfg, Apply(cfg, t, a), [b]) == Run(cfg, Apply(cfg, Apply(cfg, t, a), b), []);
  }

  /** The first failure: path 0 of three usable ones goes down and path 1 takes over. */
  lemma FirstDown(paths: seq<Path>, w: World)
    requires |paths| == 3 && Sorted(paths) && w.up(1)
    requires Usable(paths[1]) && Usable(paths[2]) && paths[2].config.priority < MAX_INT
    ensures var t1 := Table(paths[0 := Failed(paths[0])], 0);
      DoFailover(Priority, t1, 0, w) == Outcome(Table(MarkDown(t1.paths, 0, w.at(0)), 1), true, [1])
  {
    var t1 := Table(paths[0 := Failed(paths[0])], 0);
    var marked := MarkDown(t1.paths, 0, w.at(0));
    assert Candidate(marked, 0, 1);
    ByPriorityMeans(marked, 0, 3);
    LowestIndex(marked, 0);
  }

  /** The second: with path 0 already down, path 2 takes over from path 1. */
  lemma SecondDown(paths: seq<Path>, w: World)
    requires |paths| == 3 && Sorted(paths) && w.up(2)
    requires !Usable(paths[0]) && Usable(paths[2]) && paths[2].config.priority < MAX_INT
    ensures var t1 := Table(paths[1 := Failed(paths[1])], 1);
      DoFailover(Priority, t1, 1, w) == Outcome(Table(MarkDown(t1.paths, 1, w.at(1)), 2), true, [2])
  {
    var t1 := Table(paths[1 := Failed(paths[1])], 1);
    var marked := MarkDown(t1.paths, 1, w.at(1));
    assert Candidate(marked, 1, 2) && !Candidate(marked, 1, 0);
    ByPriorityMeans(marked, 1, 3);
  }

  // ---- The code ----

  method Swap(a: array<Path>, i: nat, j: nat)
    requires i < a.Length && j < a.Length
    modifies a
    ensures a[i] == old(a[j]) && a[j] == old(a[i])
    ensures forall k :: 0 <= k < a.Length && k != i && k != j ==> a[k] == old(a[k])
    ensures multiset(a[..]) == old(multiset(a[..]))
  {
    a[i], a[j] := a[j], a[i];
  }

  /** a[..i] is in its final place and everything after it is no better. */
  ghost predicate Settled(a: seq<Path>, i: nat)
  {
    forall x, y :: 0 <= x < i && x < y < |a| ==> a[x].config.priority <= a[y].config.priority
  }

  /** One pass: bring the least of a[i..] to a[i]. */
  method Pass(a: array<Path>, i: nat)
    requires i < a.Length && Settled(a[..], i)
    modifies a
    ensures Settled(a[..], i + 1)
    ensures multiset(a[..]) == old(multiset(a[..]))
  {
    for j := i + 1 to a.Length
      invariant Settled(a[..], i)
      invariant forall y :: i < y < j ==> a[i].config.priority <= a[y].config.priority
      invariant multiset(a[..]) == old(multiset(a[..]))
    {
      if a[j].config.priority < a[i].config.priority {
        Swap(a, i, j);
      }
    }
  }

  /** sortPathsByPriority: exchange sort, in place. */
  method SortPathsByPriority(a: array<Path>)
    modifies a
    ensures Sorted(a[..])
    ensures multiset(a[..]) == old(multiset(a[..]))
  {
    var i := 0;
    while i < a.Length - 1
      invariant 0 <= i && (i <= a.Length - 1 || i == 0)
      invariant Settled(a[..], i)
      invariant multiset(a[..]) == old(multiset(a[..]))
    {
      Pass(a, i);
      i := i + 1;
    }
  }

  function FreshPath(c: Config, now: int): Path { Path(c, Healthy, 0, now, 0, 0) }

  function FreshPaths(configs: seq<Config>, now: int): seq<Path>
  {
    seq(|configs|, i requires 0 <= i < |configs| => FreshPath(configs[i], now))
  }

  class Manager {
    const cfg: Settings
    var paths: seq<Path>
    var active: int

    ghost function State(): Table
      reads this
    {
      Table(paths, active)
    }

    constructor (configs: seq<Config>, cfg: Settings, now: int)
      ensures this.cfg == cfg && active == 0
      ensures Sorted(paths) && multiset(paths) == multiset(FreshPaths(configs, now))
      ensures |paths| == |configs|
      ensures forall i :: 0 <= i < |paths| ==>
        paths[i].config in configs && paths[i] == Path(paths[i].config, Healthy, 0, now, 0, 0)
      ensures 1 <= cfg.failThreshold ==> Inv(cfg, State())
    {
      var a := new Path[|configs|](i requires 0 <= i < |configs| => FreshPath(configs[i], now));
      ghost var start := a[..];
      assert start == FreshPaths(configs, now);
      SortPathsByPriority(a);
      this.cfg, paths, active := cfg, a[..], 0;
      SortedFrom(start, a[..]);
    }

    method SelectByPriority(exclude: int) returns (bestIdx: int)
      ensures bestIdx == ByPriority(paths, exclude, |paths|)
    {
      bestIdx := -1;
      var bestPriority := MAX_INT;
      for i := 0 to |paths|
        invariant bestIdx == ByPriority(paths, exclude, i)
        invariant bestPriority == if bestIdx < 0 then MAX_INT else paths[bestIdx].config.priority
      {
        if i == exclude || paths[i].state.Unhealthy? || paths[i].state.Disabled? { continue; }
        if paths[i].config.priority < bestPriority {
          bestPriority, bestIdx := paths[i].config.priority, i;
        }
      }
    }

    method SelectByLatency(exclude: int) returns (bestIdx: int)
      ensures bestIdx == ByLatency(paths, exclude, |paths|)
    {
      bestIdx := -1;
      var bestLatency := 0;
      for i := 0 to |paths|
        invariant bestIdx == ByLatency(paths, exclude, i)
        invariant bestIdx >= 0 ==> bestLatency == paths[bestIdx].latency
      {
        if i == exclude || paths[i].state.Unhealthy? || paths[i].state.Disabled? { continue; }
        if bestIdx == -1 || paths[i].latency < bestLatency {
          bestLatency, bestIdx := paths[i].latency, i;
        }
      }
    }

    method SelectRoundRobin(exclude: nat) returns (idx: int)
      requires exclude < |paths|
      ensures idx == InTurn(paths, exclude, 1)
    {
      var n, i := |paths|, 1;
      while i < n
        invariant 1 <= i && InTurn(paths, exclude, 1) == InTurn(paths, exclude, i)
      {
        idx := (exclude + i) % n;
        if !paths[idx].state.Unhealthy? && !paths[idx].state.Disabled? { return; }
        i := i + 1;
      }
      return -1;
    }

    method SelectNextPath(exclude: nat) returns (idx: int)
      requires exclude < |paths|
      ensures idx == Select(cfg.strategy, paths, exclude)
    {
      match cfg.strategy
      case RoundRobin => idx := SelectRoundRobin(exclude);
      case Latency => idx := SelectByLatency(exclude);
      case _ => idx := SelectByPriority(exclude);
    }

    /** Terminates for every callback: each recursive call has one candidate fewer. */
    method DoFailover(failed: nat, w: World) returns (ok: bool)
      requires failed < |paths|
      modifies this
      ensures var r := Failover.DoFailover(cfg.strategy, old(State()), failed, w); ok == r.ok && State() == r.table
      decreases |Candidates(paths, failed)|
    {
      ghost var before := paths;
      paths := paths[failed := paths[failed].(state := Unhealthy, lastCheck := w.at(failed))];
      var next := SelectNextPath(failed);
      if next < 0 { return false; }
      active := next;
      if !w.up(next) {
        SelectSound(cfg.strategy, paths, failed);
        assert Candidate(before, failed, next);
        CandidatesShrink(before, failed, w.at(failed), next);
        ok := DoFailover(next, w);
        return;
      }
      return true;
    }

    /** True exactly when the threshold is reached and another usable path the strategy sees answers. */
    method ReportFailure(w: World) returns (switched: bool)
      modifies this
      ensures State() == Apply(cfg, old(State()), Op.ReportFailure(w))
      ensures switched <==>
        && 0 <= old(active) < |old(paths)| && old(paths)[old(active)].failCount + 1 >= cfg.failThreshold
        && exists i :: 0 <= i < |old(paths)| && i != old(active) && w.up(i)
             && (old(paths)[i].state == Healthy || old(paths)[i].state == Degraded)
             && (cfg.strategy.RoundRobin? || cfg.strategy.Latency? || old(paths)[i].config.priority < MAX_INT)
      ensures switched ==> InTable(State()) && active != old(active) && Usable(paths[active]) && w.up(active)
      ensures 0 <= old(active) < |old(paths)| && old(paths)[old(active)].failCount + 1 < cfg.failThreshold ==>
        var p := old(paths)[old(active)];
        active == old(active) && paths == old(paths)[active := p.(failCount := p.failCount + 1, successCount := 0)]
    {
      hide Failover.DoFailover;
      var idx := active;
      if idx < 0 || idx >= |paths| { return false; }
      paths := paths[idx := paths[idx].(failCount := paths[idx].failCount + 1, successCount := 0)];
      FailureMeans(cfg, old(State()), w);
      if paths[idx].failCount >= cfg.failThreshold {
        switched := DoFailover(idx, w);
        return;
      }
      return false;
    }

    method ReportSuccess()
      modifies this
      ensures State() == Apply(cfg, old(State()), Op.ReportSuccess)
      ensures active == old(active) && SamePaths(old(paths), paths)
      ensures InTable(State()) ==> paths[active].state == Healthy && paths[active].failCount == 0
      ensures InTable(State()) ==> paths[active].successCount == old(paths)[active].successCount + 1
      ensures forall i :: 0 <= i < |paths| && i != active ==> paths[i] == old(paths)[i]
    {
      if 0 <= active < |paths| {
        var p := paths[active];
        paths := paths[active := p.(successCount := p.successCount + 1, failCount := 0, state := Healthy)];
      }
    }

    method CheckPaths(now: int)
      requires paths == [] || 0 <= active < |paths|
      modifies this
      ensures State() == Apply(cfg, old(State()), Op.CheckPaths(now))
      ensures |paths| == |old(paths)|
      ensures forall i :: 0 <= i < |paths| ==>
        var p := old(paths)[i];
        var due := p.state == Unhealthy && now - p.lastCheck >= cfg.recoverAfter;
        paths[i] == if due then p.(state := Degraded, failCount := 0, lastCheck := now) else p
    {
      ghost var t := State();
      var activeIdx, bestRecoveredIdx := active, -1;
      for i := 0 to |paths|
        invariant paths == Recovered(cfg, t.paths, now, i)
        invariant active == t.active && bestRecoveredIdx == LastBetter(cfg, t, now, i)
      {
        if paths[i].state.Disabled? { continue; }
        if paths[i].state.Unhealthy? && now - paths[i].lastCheck >= cfg.recoverAfter {
          paths := paths[i := paths[i].(state := Degraded, failCount := 0, lastCheck := now)];
          if paths[i].config.priority < paths[activeIdx].config.priority {
            bestRecoveredIdx := i;
          }
        }
      }
      if bestRecoveredIdx >= 0 && cfg.strategy.Priority? {
        active := bestRecoveredIdx;
      }
    }

    method FindPath(name: string) returns (idx: int)
      ensures idx == Find(paths, name, |paths|)
    {
      for i := 0 to |paths|
        invariant Find(paths, name, i) == -1
      {
        if paths[i].config.name == name {
          FindFirst(paths, name, i, |paths|);
          return i;
        }
      }
      return -1;
    }

    /** The callback's own result is returned, and changes nothing. */
    method ForceSwitch(name: string, w: World) returns (ok: bool)
      modifies this
      ensures State() == Apply(cfg, old(State()), Op.ForceSwitch(name)) && paths == old(paths)
      ensures forall i: nat :: First(paths, name, i) ==> active == i && (ok <==> i == old(active) || w.up(i))
      ensures (forall i :: !First(paths, name, i)) ==> active == old(active) && !ok
    {
      var target := FindPath(name);
      if target < 0 { return false; }
      assert First(paths, name, target);
      if target == active { return true; }
      active := target;
      return w.up(target);
    }

    method DisablePath(name: string)
      modifies this
      ensures State() == Apply(cfg, old(State()), Op.DisablePath(name))
      ensures active == old(active) && |paths| == |old(paths)|
      ensures forall i :: 0 <= i < |paths| ==>
        paths[i] == if First(old(paths), name, i) then old(paths)[i].(state := Disabled) else old(paths)[i]
    {
      var i := FindPath(name);
      if i >= 0 {
        paths := paths[i := paths[i].(state := Disabled)];
      }
    }

    method EnablePath(name: string, now: int)
      modifies this
      ensures State() == Apply(cfg, old(State()), Op.EnablePath(name, now))
      ensures active == old(active) && |paths| == |old(paths)|
      ensures forall i :: 0 <= i < |paths| ==>
        var p := old(paths)[i];
        paths[i] == if First(old(paths), name, i) then p.(state := Degraded, failCount := 0, lastCheck := now) else p
    {
      var i := FindPath(name);
      if i >= 0 {
        paths := paths[i := paths[i].(state := Degraded, failCount := 0, lastCheck := now)];
      }
    }
  }

  lemma {:induction false} FindFirst(paths: seq<Path>, name: string, i: nat, n: nat)
    requires i < n <= |paths| && paths[i].config.name == name && Find(paths, name, i) == -1
    ensures Find(paths, name, n) == i
  {
    if n - 1 > i {
      FindFirst(paths, name, i, n - 1);
    }
  }

  lemma SortedFrom(start: seq<Path>, sorted: seq<Path>)
    requires multiset(start) == multiset(sorted) && Sorted(sorted)
    ensures |sorted| == |start| && forall i :: 0 <= i < |sorted| ==> sorted[i] in start
  {
    assert |multiset(start)| == |start| && |multiset(sorted)| == |sorted|;
    forall i | 0 <= i < |sorted| ensures sorted[i] in start {
      assert sorted[i] in multiset(sorted);
    }
  }
}
