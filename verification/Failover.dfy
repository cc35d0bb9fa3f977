/**
  The failover manager: a priority-sorted path table, three ways of picking the next path, the
  recursive switch, and timed recovery. Each public operation is one atomic transition.
 */
module Failover {

  const MAX_INT := 0x7fff_ffff_ffff_ffff

  datatype Strategy = Priority | RoundRobin | Latency | Unknown

  datatype Health = Healthy | Degraded | Unhealthy | Disabled

  datatype Config = Config(name: string, priority: int)

  datatype Path = Path(config: Config, state: Health, latency: int, lastCheck: int, failCount: int, successCount: int)

  datatype Settings = Settings(strategy: Strategy, failThreshold: int, recoverAfter: int)

  /** The path table and the index of the active path. */
  datatype Table = Table(paths: seq<Path>, active: int)

  /** The outside: whether the switch callback succeeds for path i, and the clock when i is marked. */
  datatype World = World(up: nat -> bool, at: nat -> int)

  // ---- Selection ----

  predicate Usable(p: Path) { !p.state.Unhealthy? && !p.state.Disabled? }

  predicate Candidate(paths: seq<Path>, exclude: int, i: int)
  {
    0 <= i < |paths| && i != exclude && Usable(paths[i])
  }

  /** selectByPriority over the first n paths. */
  function ByPriority(paths: seq<Path>, exclude: int, n: nat): (best: int)
    requires n <= |paths|
    ensures -1 <= best < n
  {
    if n == 0 then -1
    else
      var best := ByPriority(paths, exclude, n - 1);
      var bound := if best < 0 then MAX_INT else paths[best].config.priority;
      if Candidate(paths, exclude, n - 1) && paths[n - 1].config.priority < bound then n - 1 else best
  }

  /** selectByLatency over the first n paths. */
  function ByLatency(paths: seq<Path>, exclude: int, n: nat): (best: int)
    requires n <= |paths|
    ensures -1 <= best < n
  {
    if n == 0 then -1
    else
      var best := ByLatency(paths, exclude, n - 1);
      if Candidate(paths, exclude, n - 1) && (best == -1 || paths[n - 1].latency < paths[best].latency)
      then n - 1 else best
  }

  /** selectRoundRobin from offset i on. */
  function InTurn(paths: seq<Path>, exclude: nat, i: nat): (next: int)
    requires exclude < |paths|
    ensures -1 <= next < |paths|
    decreases |paths| - i
  {
    if i >= |paths| then -1
    else if Usable(paths[(exclude + i) % |paths|]) then (exclude + i) % |paths|
    else InTurn(paths, exclude, i + 1)
  }

  function Select(s: Strategy, paths: seq<Path>, exclude: nat): (next: int)
    requires exclude < |paths|
    ensures -1 <= next < |paths|
  {
    match s
    case RoundRobin => InTurn(paths, exclude, 1)
    case Latency => ByLatency(paths, exclude, |paths|)
    case _ => ByPriority(paths, exclude, |paths|)
  }

  /** The pick is the first candidate of least priority; one at MaxInt is never picked. */
  lemma {:induction false} ByPriorityMeans(paths: seq<Path>, exclude: int, n: nat)
    requires n <= |paths|
    ensures var best := ByPriority(paths, exclude, n);
      if best < 0 then forall i :: 0 <= i < n && Candidate(paths, exclude, i) ==> paths[i].config.priority >= MAX_INT
      else
        && Candidate(paths, exclude, best) && paths[best].config.priority < MAX_INT
        && (forall i :: 0 <= i < n && Candidate(paths, exclude, i) ==>
              paths[best].config.priority <= paths[i].config.priority)
        && (forall i :: 0 <= i < best && Candidate(paths, exclude, i) ==>
              paths[best].config.priority < paths[i].config.priority)
  {
    if n > 0 {
      ByPriorityMeans(paths, exclude, n - 1);
    }
  }

  /** The pick is the first candidate of least latency. */
  lemma {:induction false} ByLatencyMeans(paths: seq<Path>, exclude: int, n: nat)
    requires n <= |paths|
    ensures var best := ByLatency(paths, exclude, n);
      if best < 0 then forall i :: 0 <= i < n ==> !Candidate(paths, exclude, i)
      else
        && Candidate(paths, exclude, best)
        && (forall i :: 0 <= i < n && Candidate(paths, exclude, i) ==> paths[best].latency <= paths[i].latency)
        && (forall i :: 0 <= i < best && Candidate(paths, exclude, i) ==> paths[best].latency < paths[i].latency)
  {
    if n > 0 {
      ByLatencyMeans(paths, exclude, n - 1);
    }
  }

  /** How far round the table, starting after `from`, path i comes. */
  function Turns(n: nat, from: nat, i: nat): nat
    requires from < n && i < n
  {
    if i > from then i - from else n - from + i
  }

  lemma Wraps(n: nat, from: nat, k: nat)
    requires from < n && 1 <= k < n
    ensures var i := (from + k) % n; i != from && Turns(n, from, i) == k
  {
    if from + k < n {
      OnceRound(n, from + k);
    } else {
      OnceRound(n, from + k - n);
    }
  }

  lemma TurnsBack(n: nat, from: nat, i: nat)
    requires from < n && i < n && i != from
    ensures 1 <= Turns(n, from, i) < n && (from + Turns(n, from, i)) % n == i
  {
    var sum := from + Turns(n, from, i);
    assert sum == if i < from then n + i else i;
    OnceRound(n, i);
  }

  lemma OnceRound(n: nat, i: nat)
    requires i < n
    ensures i % n == i && (n + i) % n == i
  {
  }

  /** The pick is the candidate that comes soonest going round from the excluded path. */
  lemma {:induction false} InTurnMeans(paths: seq<Path>, exclude: nat, k: nat)
    requires exclude < |paths| && 1 <= k
    ensures var next, n := InTurn(paths, exclude, k), |paths|;
      if next < 0 then forall i :: Candidate(paths, exclude, i) ==> Turns(n, exclude, i) < k
      else
        && Candidate(paths, exclude, next) && k <= Turns(n, exclude, next)
        && (forall i :: Candidate(paths, exclude, i) && k <= Turns(n, exclude, i) ==>
              Turns(n, exclude, next) <= Turns(n, exclude, i))
    decreases |paths| - k
  {
    var n := |paths|;
    if k >= n {
      forall i | Candidate(paths, exclude, i) ensures Turns(n, exclude, i) < k {
        TurnsBack(n, exclude, i);
      }
    } else {
      Wraps(n, exclude, k);
      InTurnMeans(paths, exclude, k + 1);
      forall i | Candidate(paths, exclude, i) && Turns(n, exclude, i) == k ensures i == (exclude + k) % n {
        TurnsBack(n, exclude, i);
      }
    }
  }

  /** A priority of MaxInt is invisible to the priority strategies. */
  predicate Seen(s: Strategy, p: Path) { s.RoundRobin? || s.Latency? || p.config.priority < MAX_INT }

  /** A candidate the strategy can see. */
  predicate Choice(s: Strategy, paths: seq<Path>, exclude: int, i: int)
  {
    Candidate(paths, exclude, i) && Seen(s, paths[i])
  }

  /** Every strategy returns a candidate it sees, and -1 exactly when there is none. */
  lemma SelectSound(s: Strategy, paths: seq<Path>, exclude: nat)
    requires exclude < |paths|
    ensures var next := Select(s, paths, exclude);
      && (next >= 0 ==> Choice(s, paths, exclude, next))
      && (next < 0 <==> forall i :: !Choice(s, paths, exclude, i))
  {
    hide ByPriority, ByLatency, InTurn, Turns;
    match s
    case RoundRobin => InTurnSound(paths, exclude);
    case Latency => ByLatencyMeans(paths, exclude, |paths|);
    case _ => ByPriorityMeans(paths, exclude, |paths|);
  }

  lemma InTurnSound(paths: seq<Path>, exclude: nat)
    requires exclude < |paths|
    ensures var next := InTurn(paths, exclude, 1);
      && (next >= 0 ==> Candidate(paths, exclude, next))
      && (next < 0 ==> forall i :: !Candidate(paths, exclude, i))
  {
    hide InTurn;
    InTurnMeans(paths, exclude, 1);
    forall i | Candidate(paths, exclude, i) ensures 1 <= Turns(|paths|, exclude, i) {
      TurnsBack(|paths|, exclude, i);
    }
  }

  // ---- The switch ----

  ghost function Candidates(paths: seq<Path>, exclude: int): set<int>
  {
    set i | 0 <= i < |paths| && Candidate(paths, exclude, i)
  }

  function MarkDown(paths: seq<Path>, i: nat, now: int): seq<Path>
    requires i < |paths|
  {
    paths[i := paths[i].(state := Unhealthy, lastCheck := now)]
  }

  lemma CandidatesShrink(paths: seq<Path>, failed: nat, now: int, next: nat)
    requires failed < |paths| && Candidate(paths, failed, next)
    ensures Candidates(MarkDown(paths, failed, now), next) == Candidates(paths, failed) - {next}
    ensures Candidate(MarkDown(paths, failed, now), failed, next)
  {
  }

  datatype Outcome = Outcome(table: Table, ok: bool, tried: seq<nat>)

  /** doFailover: mark the failed path, pick, switch, and on a failed callback go on from there. */
  function DoFailover(s: Strategy, t: Table, failed: nat, w: World): Outcome
    requires failed < |t.paths|
    decreases |Candidates(t.paths, failed)|
  {
    var paths := MarkDown(t.paths, failed, w.at(failed));
    var next := Select(s, paths, failed);
    if next < 0 then Outcome(t.(paths := paths), false, [])
    else if w.up(next) then Outcome(Table(paths, next), true, [next])
    else
      SelectSound(s, paths, failed);
      assert Candidate(t.paths, failed, next);
      CandidatesShrink(t.paths, failed, w.at(failed), next);
      var rest := DoFailover(s, Table(paths, next), next, w);
      rest.(tried := [next] + rest.tried)
  }

  predicate Distinct(xs: seq<nat>) { forall i, j :: 0 <= i < j < |xs| ==> xs[i] != xs[j] }

  function Last(xs: seq<nat>): nat
    requires xs != []
  {
    xs[|xs| - 1]
  }

  /** Row i of the table after a failover that tried `tried`. */
  function RowAfter(t: Table, failed: nat, w: World, tried: seq<nat>, i: nat): Path
    requires i < |t.paths|
  {
    if i == failed || (i in tried && !w.up(i)) then t.paths[i].(state := Unhealthy, lastCheck := w.at(i))
    else t.paths[i]
  }

  /**
    What one failover does, for every callback behaviour: it tries distinct candidates, each at
    most once; every path whose callback failed ends Unhealthy and every other row is untouched;
    it succeeds exactly at the first callback that succeeds, which becomes the active path.
   */
  ghost predicate Faithful(t: Table, failed: nat, w: World, r: Outcome)
  {
    && |r.table.paths| == |t.paths|
    && Distinct(r.tried)
    && (forall k :: 0 <= k < |r.tried| ==> Candidate(t.paths, failed, r.tried[k]))
    && (forall k :: 0 <= k < |r.tried| - 1 ==> !w.up(r.tried[k]))
    && (forall i: nat :: i < |t.paths| ==> r.table.paths[i] == RowAfter(t, failed, w, r.tried, i))
    && r.table.active == (if r.tried == [] then t.active else Last(r.tried))
    && (r.ok <==> r.tried != [] && w.up(Last(r.tried)))
  }

  lemma {:induction false} FailoverFaithful(s: Strategy, t: Table, failed: nat, w: World)
    requires failed < |t.paths|
    ensures Faithful(t, failed, w, DoFailover(s, t, failed, w))
    decreases |Candidates(t.paths, failed)|
  {
    var paths := MarkDown(t.paths, failed, w.at(failed));
    var next := Select(s, paths, failed);
    SelectSound(s, paths, failed);
    if next >= 0 && !w.up(next) {
      assert Candidate(t.paths, failed, next);
      CandidatesShrink(t.paths, failed, w.at(failed), next);
      var mid := Table(paths, next);
      FailoverFaithful(s, mid, next, w);
      Prepend(t, failed, w, next, DoFailover(s, mid, next, w));
    }
  }

  /** One failed try in front of a faithful rest is faithful. */
  lemma Prepend(t: Table, failed: nat, w: World, next: nat, rest: Outcome)
    requires failed < |t.paths| && Candidate(t.paths, failed, next) && !w.up(next)
    requires Faithful(Table(MarkDown(t.paths, failed, w.at(failed)), next), next, w, rest)
    ensures Faithful(t, failed, w, rest.(tried := [next] + rest.tried))
  {
    var mid := Table(MarkDown(t.paths, failed, w.at(failed)), next);
    var tried := [next] + rest.tried;
    forall k | 0 <= k < |tried| ensures Candidate(t.paths, failed, tried[k]) {
      if k > 0 { assert Candidate(mid.paths, next, rest.tried[k - 1]); }
    }
    forall i, j | 0 <= i < j < |tried| ensures tried[i] != tried[j] {
      assert Candidate(mid.paths, next, rest.tried[j - 1]);
    }
    forall k | 0 <= k < |tried| - 1 ensures !w.up(tried[k]) {
      if k > 0 { assert !w.up(rest.tried[k - 1]); }
    }
    assert forall i :: i in tried <==> i == next || i in rest.tried;
  }

  /** The rows after a failover, each as it is written. */
  lemma FailoverRows(s: Strategy, t: Table, failed: nat, w: World, i: nat)
    requires failed < |t.paths| && i < |t.paths|
    ensures var r := DoFailover(s, t, failed, w);
      && |r.table.paths| == |t.paths|
      && (i in r.tried ==> i != failed && (t.paths[i].state == Healthy || t.paths[i].state == Degraded))
      && r.table.paths[i] ==
           if i == failed || (i in r.tried && !w.up(i)) then t.paths[i].(state := Unhealthy, lastCheck := w.at(i))
           else t.paths[i]
  {
    FailoverFaithful(s, t, failed, w);
    var r := DoFailover(s, t, failed, w);
    if i in r.tried {
      var k :| 0 <= k < |r.tried| && r.tried[k] == i;
      assert Candidate(t.paths, failed, i);
    }
  }

  /** Only candidates the strategy sees are tried, and it gives up only after trying all of them. */
  lemma {:induction false} FailoverExhaustive(s: Strategy, t: Table, failed: nat, w: World)
    requires failed < |t.paths|
    ensures var r := DoFailover(s, t, failed, w);
      && (forall k :: 0 <= k < |r.tried| ==> Choice(s, t.paths, failed, r.tried[k]))
      && (!r.ok ==> forall i: nat :: Choice(s, t.paths, failed, i) ==> i in r.tried)
    decreases |Candidates(t.paths, failed)|
  {
    var paths := MarkDown(t.paths, failed, w.at(failed));
    var next := Select(s, paths, failed);
    SelectSound(s, paths, failed);
    assert forall i :: Choice(s, paths, failed, i) <==> Choice(s, t.paths, failed, i);
    if next >= 0 && !w.up(next) {
      CandidatesShrink(t.paths, failed, w.at(failed), next);
      FailoverExhaustive(s, Table(paths, next), next, w);
      var rest := DoFailover(s, Table(paths, next), next, w).tried;
      assert forall i :: Choice(s, paths, next, i) ==> Choice(s, t.paths, failed, i);
      assert forall i :: Choice(s, t.paths, failed, i) ==> i == next || Choice(s, paths, next, i);
      assert forall k :: 0 < k < |[next] + rest| ==> ([next] + rest)[k] == rest[k - 1];
    }
  }

  /**
    doFailover succeeds if and only if the callback of some other usable path the strategy sees
    would; when it fails, every path it sees is Unhealthy or Disabled.
   */
  lemma FailoverSucceedsIff(s: Strategy, t: Table, failed: nat, w: World)
    requires failed < |t.paths|
    ensures var r := DoFailover(s, t, failed, w);
      && (r.ok <==> exists i: nat :: Choice(s, t.paths, failed, i) && w.up(i))
      && (r.ok ==> InTable(r.table) && Usable(r.table.paths[r.table.active]) && w.up(r.table.active))
      && (!r.ok ==> forall i :: 0 <= i < |r.table.paths| && Seen(s, r.table.paths[i]) ==> !Usable(r.table.paths[i]))
  {
    FailoverFaithful(s, t, failed, w);
    FailoverExhaustive(s, t, failed, w);
    var r := DoFailover(s, t, failed, w);
    if r.ok {
      assert Choice(s, t.paths, failed, Last(r.tried));
    } else {
      forall i: nat | Choice(s, t.paths, failed, i) ensures !w.up(i) {
        var k :| 0 <= k < |r.tried| && r.tried[k] == i;
      }
    }
  }

  predicate InTable(t: Table) { 0 <= t.active < |t.paths| }

  /** With every priority below MaxInt: success if and only if some other usable path answers. */
  lemma FailoverSucceedsWhenAllSeen(s: Strategy, t: Table, failed: nat, w: World)
    requires failed < |t.paths| && forall i :: 0 <= i < |t.paths| ==> Seen(s, t.paths[i])
    ensures var r := DoFailover(s, t, failed, w);
      && (r.ok <==> exists i: nat :: Candidate(t.paths, failed, i) && w.up(i))
      && (!r.ok ==> forall i :: 0 <= i < |r.table.paths| ==> !Usable(r.table.paths[i]))
  {
    FailoverSucceedsIff(s, t, failed, w);
    FailoverFaithful(s, t, failed, w);
    assert forall i: nat :: Choice(s, t.paths, failed, i) <==> Candidate(t.paths, failed, i);
  }

  /** A healthy path of priority MaxInt is not tried although its callback would succeed. */
  lemma MaxIntNeverTried()
    ensures
      var a, b := Path(Config("a", 1), Healthy, 0, 0, 3, 0), Path(Config("b", MAX_INT), Healthy, 0, 0, 0, 0);
      var t, w := Table([a, b], 0), World(_ => true, _ => 0);
      Candidate(t.paths, 0, 1) && w.up(1) && !DoFailover(Priority, t, 0, w).ok
  {
    var a, b := Path(Config("a", 1), Healthy, 0, 0, 3, 0), Path(Config("b", MAX_INT), Healthy, 0, 0, 0, 0);
    var t := Table([a, b], 0);
    var w := World(_ => true, _ => 0);
    FailoverSucceedsIff(Priority, t, 0, w);
    assert !Choice(Priority, t.paths, 0, 0) && !Choice(Priority, t.paths, 0, 1);
  }

  predicate Sorted(paths: seq<Path>)
  {
    forall i, j :: 0 <= i < j < |paths| ==> paths[i].config.priority <= paths[j].config.priority
  }

  /** In a sorted table the priority pick is the lowest usable index. */
  lemma LowestIndex(paths: seq<Path>, exclude: nat)
    requires exclude < |paths| && Sorted(paths)
    ensures var next := ByPriority(paths, exclude, |paths|);
      next >= 0 ==> forall i :: 0 <= i < next ==> !Candidate(paths, exclude, i)
  {
    ByPriorityMeans(paths, exclude, |paths|);
  }

  /** The tries go up the table and skip no candidate on the way. */
  ghost predicate Climbs(paths: seq<Path>, failed: nat, tried: seq<nat>)
  {
    && (forall i, j :: 0 <= i < j < |tried| ==> tried[i] < tried[j])
    && (forall k, i: nat :: 0 <= k < |tried| && i < tried[k] && Candidate(paths, failed, i) ==> i in tried)
  }

  lemma ClimbsOn(paths: seq<Path>, failed: nat, now: int, next: nat, rest: seq<nat>)
    requires failed < |paths| && Candidate(paths, failed, next)
    requires forall i :: 0 <= i < next ==> !Candidate(paths, failed, i)
    requires forall k :: 0 <= k < |rest| ==> Candidate(MarkDown(paths, failed, now), next, rest[k])
    requires Climbs(MarkDown(paths, failed, now), next, rest)
    ensures Climbs(paths, failed, [next] + rest)
  {
    var tried := [next] + rest;
    forall k, i: nat | 0 <= k < |tried| && i < tried[k] && Candidate(paths, failed, i) ensures i in tried {
      if i == next {
        assert tried[0] == i;
      } else {
        assert Candidate(MarkDown(paths, failed, now), next, i);
        assert i < rest[k - 1];
        assert i in rest;
      }
    }
    forall j | 0 < j < |tried| ensures next < tried[j] {
      assert Candidate(MarkDown(paths, failed, now), next, rest[j - 1]);
      assert Candidate(paths, failed, rest[j - 1]);
    }
  }

  /** Under the priority strategy the tries climb the sorted table. */
  lemma {:induction false} PriorityClimbs(t: Table, failed: nat, w: World)
    requires failed < |t.paths| && Sorted(t.paths)
    ensures Climbs(t.paths, failed, DoFailover(Priority, t, failed, w).tried)
    decreases |Candidates(t.paths, failed)|
  {
    var paths := MarkDown(t.paths, failed, w.at(failed));
    var next := Select(Priority, paths, failed);
    SelectSound(Priority, paths, failed);
    LowestIndex(paths, failed);
    assert forall i :: Candidate(t.paths, failed, i) ==> Candidate(paths, failed, i);
    if next >= 0 && !w.up(next) {
      assert Candidate(t.paths, failed, next);
      CandidatesShrink(t.paths, failed, w.at(failed), next);
      PriorityClimbs(Table(paths, next), next, w);
      FailoverFaithful(Priority, Table(paths, next), next, w);
      ClimbsOn(t.paths, failed, w.at(failed), next, DoFailover(Priority, Table(paths, next), next, w).tried);
    }
  }

  /** So the path that wins is, among those whose callback succeeds, one of least priority number. */
  lemma PriorityPicksBest(t: Table, failed: nat, w: World, i: nat)
    requires failed < |t.paths| && Sorted(t.paths)
    requires Candidate(t.paths, failed, i) && w.up(i)
    ensures var r := DoFailover(Priority, t, failed, w);
      r.ok ==> 0 <= r.table.active <= i && t.paths[r.table.active].config.priority <= t.paths[i].config.priority
  {
    PriorityClimbs(t, failed, w);
    FailoverFaithful(Priority, t, failed, w);
    var r := DoFailover(Priority, t, failed, w);
    if r.ok {
      var last := |r.tried| - 1;
      assert i < r.tried[last] ==> i in r.tried;
      assert forall k :: 0 <= k < |r.tried| && r.tried[k] == i ==> k == last;
      assert i in r.tried ==> i == Last(r.tried);
    }
  }
}
