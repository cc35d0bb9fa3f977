/** The mux session pool: which session the next stream is opened on. */
module SessionPool {
  import opened ByteSeq

  const FLOOR := -0x4000_0000              // -1 << 30, the score every candidate must reach

  datatype Session = Session(closed: bool, streams: nat)

  /** maxStreams and the optional quality function (called with index + 1). */
  datatype Config = Config(maxStreams: int, quality: Option<int -> int>)

  predicate Eligible(cfg: Config, s: Session)
  {
    !s.closed && !(cfg.maxStreams > 0 && s.streams >= cfg.maxStreams)
  }

  function Score(cfg: Config, ss: seq<Session>, i: nat): int
    requires i < |ss|
  {
    (if cfg.quality.None? then 100 else cfg.quality.value(i + 1)) - ss[i].streams
  }

  /** A session the loop can take: eligible, with a score not below the initial best. */
  predicate Visible(cfg: Config, ss: seq<Session>, i: int)
  {
    0 <= i < |ss| && Eligible(cfg, ss[i]) && Score(cfg, ss, i) >= FLOOR
  }

  /** No visible session scores higher than i. */
  ghost predicate Best(cfg: Config, ss: seq<Session>, i: int)
  {
    Visible(cfg, ss, i) && forall j :: Visible(cfg, ss, j) ==> Score(cfg, ss, j) <= Score(cfg, ss, i)
  }

  /** What being best means: open, below the limit, and at least as good as any other such session. */
  lemma BestMeans(cfg: Config, ss: seq<Session>, i: nat, j: nat)
    requires Best(cfg, ss, i)
    ensures i < |ss| && !ss[i].closed && (cfg.maxStreams > 0 ==> ss[i].streams < cfg.maxStreams)
    ensures cfg.quality.None? && j < |ss| && !ss[j].closed && (cfg.maxStreams > 0 ==> ss[j].streams < cfg.maxStreams)
      ==> ss[i].streams <= ss[j].streams
    ensures cfg.quality.Some? && j < |ss| && !ss[j].closed && (cfg.maxStreams > 0 ==> ss[j].streams < cfg.maxStreams)
      ==> cfg.quality.value(j + 1) - ss[j].streams <= cfg.quality.value(i + 1) - ss[i].streams
  {
    if j < |ss| && !Visible(cfg, ss, j) {
      assert Eligible(cfg, ss[j]) ==> Score(cfg, ss, j) < FLOOR <= Score(cfg, ss, i);
    }
  }

  /** So among sessions of equal quality the best has the fewest streams. */
  lemma BestIsLeastUsed(cfg: Config, ss: seq<Session>, i: nat, j: nat)
    requires Best(cfg, ss, i) && j < |ss| && Eligible(cfg, ss[j])
    requires cfg.quality.Some? ==> cfg.quality.value(i + 1) == cfg.quality.value(j + 1)
    ensures ss[i].streams <= ss[j].streams
  {
    BestMeans(cfg, ss, i, j);
  }

  /** No session is visible exactly when each is closed, full, or scored below the floor. */
  lemma NoneVisible(cfg: Config, ss: seq<Session>)
    ensures (forall i :: !Visible(cfg, ss, i)) <==> forall i :: 0 <= i < |ss| ==>
      || ss[i].closed || (cfg.maxStreams > 0 && ss[i].streams >= cfg.maxStreams)
      || (if cfg.quality.None? then 100 else cfg.quality.value(i + 1)) - ss[i].streams < -0x4000_0000
  {
    forall i | 0 <= i < |ss|
      ensures !Visible(cfg, ss, i) <==>
        || ss[i].closed || (cfg.maxStreams > 0 && ss[i].streams >= cfg.maxStreams)
        || (if cfg.quality.None? then 100 else cfg.quality.value(i + 1)) - ss[i].streams < -0x4000_0000 {
    }
  }

  predicate Increasing(xs: seq<nat>) { forall i, j :: 0 <= i < j < |xs| ==> xs[i] < xs[j] }

  /** xs lists, in order, exactly the visible ones of the first n that score `best`; none scores more. */
  ghost predicate Listed(cfg: Config, ss: seq<Session>, n: nat, best: int, xs: seq<nat>)
  {
    && Increasing(xs) && FLOOR <= best
    && (forall k :: 0 <= k < |xs| ==> xs[k] < n && Visible(cfg, ss, xs[k]) && Score(cfg, ss, xs[k]) == best)
    && (forall i: nat :: i < n && Visible(cfg, ss, i) ==>
          Score(cfg, ss, i) <= best && (Score(cfg, ss, i) == best ==> i in xs))
    && (xs == [] ==> best == FLOOR)
  }

  lemma ListedSkips(cfg: Config, ss: seq<Session>, n: nat, best: int, xs: seq<nat>)
    requires Listed(cfg, ss, n, best, xs) && n < |ss| && (!Visible(cfg, ss, n) || Score(cfg, ss, n) < best)
    ensures Listed(cfg, ss, n + 1, best, xs)
  {
  }

  lemma ListedAppends(cfg: Config, ss: seq<Session>, n: nat, best: int, xs: seq<nat>)
    requires Listed(cfg, ss, n, best, xs) && Visible(cfg, ss, n) && Score(cfg, ss, n) == best
    ensures Listed(cfg, ss, n + 1, best, xs + [n])
  {
    assert (xs + [n])[|xs|] == n;
  }

  lemma ListedRestarts(cfg: Config, ss: seq<Session>, n: nat, best: int, xs: seq<nat>)
    requires Listed(cfg, ss, n, best, xs) && Visible(cfg, ss, n) && Score(cfg, ss, n) > best
    ensures Listed(cfg, ss, n + 1, Score(cfg, ss, n), [n])
  {
  }

  /** The scan of GetStream: the ordered argmax set of the visible sessions. */
  method Candidates(cfg: Config, ss: seq<Session>) returns (candidates: seq<nat>)
    ensures forall i, j :: 0 <= i < j < |candidates| ==> candidates[i] < candidates[j]
    ensures forall i: nat :: i in candidates <==> Best(cfg, ss, i)
    ensures candidates == [] <==> forall i :: !Visible(cfg, ss, i)
  {
    candidates := [];
    var bestScore := FLOOR;
    for idx := 0 to |ss|
      invariant Listed(cfg, ss, idx, bestScore, candidates)
    {
      ListedCases(cfg, ss, idx, bestScore, candidates);
      hide Listed, Visible;
      var s := ss[idx];
      if s.closed { continue; }
      if cfg.maxStreams > 0 && s.streams >= cfg.maxStreams { continue; }
      var score := 100 - s.streams;
      if cfg.quality.Some? {
        score := cfg.quality.value(idx + 1) - s.streams;
      }
      if score > bestScore {
        bestScore := score;
        candidates := [idx];
      } else if score == bestScore {
        candidates := candidates + [idx];
      }
    }
    ListedMeans(cfg, ss, bestScore, candidates);
  }

  lemma ListedCases(cfg: Config, ss: seq<Session>, n: nat, best: int, xs: seq<nat>)
    requires Listed(cfg, ss, n, best, xs) && n < |ss|
    ensures !Eligible(cfg, ss[n]) || Score(cfg, ss, n) < best ==> Listed(cfg, ss, n + 1, best, xs)
    ensures Eligible(cfg, ss[n]) && Score(cfg, ss, n) == best ==> Listed(cfg, ss, n + 1, best, xs + [n])
    ensures Eligible(cfg, ss[n]) && Score(cfg, ss, n) > best ==> Listed(cfg, ss, n + 1, Score(cfg, ss, n), [n])
  {
    hide Listed;
    assert FLOOR <= best by { ListedFloor(cfg, ss, n, best, xs); }
    if !Eligible(cfg, ss[n]) || Score(cfg, ss, n) < best {
      ListedSkips(cfg, ss, n, best, xs);
    } else if Score(cfg, ss, n) == best {
      ListedAppends(cfg, ss, n, best, xs);
    } else {
      ListedRestarts(cfg, ss, n, best, xs);
    }
  }

  lemma ListedFloor(cfg: Config, ss: seq<Session>, n: nat, best: int, xs: seq<nat>)
    requires Listed(cfg, ss, n, best, xs)
    ensures FLOOR <= best
  {
  }

  lemma ListedMeans(cfg: Config, ss: seq<Session>, best: int, xs: seq<nat>)
    requires Listed(cfg, ss, |ss|, best, xs)
    ensures Increasing(xs) && (forall i: nat :: i in xs <==> Best(cfg, ss, i))
    ensures xs == [] <==> forall i :: !Visible(cfg, ss, i)
  {
    forall i: nat | i in xs ensures Best(cfg, ss, i) {
      var k :| 0 <= k < |xs| && xs[k] == i;
    }
    forall i: nat | Best(cfg, ss, i) ensures i in xs {
      if xs != [] {
        assert Visible(cfg, ss, xs[0]);
      }
    }
    if xs != [] {
      assert Visible(cfg, ss, xs[0]);
    }
  }

  // ---- The pool ----

  /** Stream counts after opening one on session i. */
  function Opened(ss: seq<Session>, i: nat): seq<Session>
    requires i < |ss|
  {
    ss[i := ss[i].(streams := ss[i].streams + 1)]
  }

  /** Equal bests are taken in turn: the pick is number (index mod count) of them. */
  ghost predicate Turn(cfg: Config, ss: seq<Session>, index: nat, picked: nat)
  {
    exists bests: seq<nat> ::
      && Increasing(bests) && (forall i: nat :: i in bests <==> Best(cfg, ss, i))
      && bests != [] && picked == bests[index % |bests|]
  }

  class Pool {
    const cfg: Config
    var sessions: seq<Session>
    var index: nat

    constructor (cfg: Config)
      ensures this.cfg == cfg && sessions == [] && index == 0
    {
      this.cfg, sessions, index := cfg, [], 0;
    }

    method Add(s: Session)
      modifies this
      ensures sessions == old(sessions) + [s] && index == old(index)
    {
      sessions := sessions + [s];
    }

    /** Nothing to pick from exactly when no session is visible; opens: whether smux gives a stream. */
    method GetStream(opens: bool) returns (picked: int)
      modifies this
      ensures picked == -1 <==> forall i :: !Visible(cfg, old(sessions), i)
      ensures picked == -1 <==> forall i :: 0 <= i < |old(sessions)| ==>
        var s := old(sessions)[i];
        || s.closed || (cfg.maxStreams > 0 && s.streams >= cfg.maxStreams)
        || (if cfg.quality.None? then 100 else cfg.quality.value(i + 1)) - s.streams < -0x4000_0000
      ensures picked >= 0 ==> Best(cfg, old(sessions), picked) && index == old(index) + 1
      ensures picked >= 0 && cfg.quality.Some? ==> forall j :: Visible(cfg, old(sessions), j) ==>
        cfg.quality.value(j + 1) - old(sessions)[j].streams
          <= cfg.quality.value(picked + 1) - old(sessions)[picked].streams
      ensures picked >= 0 && cfg.quality.None? ==> forall j :: Visible(cfg, old(sessions), j) ==>
        old(sessions)[picked].streams <= old(sessions)[j].streams
      ensures picked >= 0 ==> Turn(cfg, old(sessions), index, picked)
      ensures !(picked >= 0 && opens) ==> sessions == old(sessions)
      ensures picked >= 0 && opens ==> sessions == Opened(old(sessions), picked) && |sessions| == |old(sessions)|
      ensures picked >= 0 && opens ==> forall i :: 0 <= i < |sessions| ==>
        && sessions[i].closed == old(sessions)[i].closed
        && sessions[i].streams == old(sessions)[i].streams + if i == picked then 1 else 0
      ensures picked < 0 ==> picked == -1 && index == old(index)
    {
      NoneVisible(cfg, sessions);
      if |sessions| == 0 { return -1; }
      var candidates := Candidates(cfg, sessions);
      if |candidates| == 0 { return -1; }
      index := index + 1;
      picked := candidates[index % |candidates|];
      assert picked in candidates;
      if opens {
        sessions := Opened(sessions, picked);
      }
    }

    method RemoveClosed() returns (removed: nat)
      modifies this
      ensures sessions == Open(old(sessions)) && removed == |old(sessions)| - |sessions|
      ensures index == old(index)
    {
      var active: seq<Session> := [];
      removed := 0;
      for i := 0 to |sessions|
        invariant active == Open(sessions[..i]) && removed == i - |active|
        invariant sessions == old(sessions) && index == old(index)
      {
        assert sessions[..i + 1] == sessions[..i] + [sessions[i]];
        if sessions[i].closed {
          removed := removed + 1;
        } else {
          active := active + [sessions[i]];
        }
      }
      assert sessions[..|sessions|] == sessions;
      sessions := active;
    }

    method Count() returns (count: nat)
      ensures count == |Open(sessions)|
    {
      count := 0;
      for i := 0 to |sessions|
        invariant count == |Open(sessions[..i])|
      {
        assert sessions[..i + 1] == sessions[..i] + [sessions[i]];
        if !sessions[i].closed {
          count := count + 1;
        }
      }
      assert sessions[..|sessions|] == sessions;
    }
  }

  /** The open sessions, in order. */
  function Open(ss: seq<Session>): seq<Session>
  {
    if ss == [] then []
    else Open(ss[..|ss| - 1]) + if ss[|ss| - 1].closed then [] else [ss[|ss| - 1]]
  }

  /** xs are the positions, in order, of the open sessions of ss, and kept those sessions. */
  ghost predicate PositionsOf(ss: seq<Session>, xs: seq<nat>, kept: seq<Session>)
  {
    && Increasing(xs) && |xs| == |kept|
    && (forall k :: 0 <= k < |xs| ==> xs[k] < |ss| && !ss[xs[k]].closed && kept[k] == ss[xs[k]])
    && (forall i :: 0 <= i < |ss| && !ss[i].closed ==> i in xs)
  }

  lemma OneMorePosition(ss: seq<Session>, s: Session, xs: seq<nat>, kept: seq<Session>)
    requires PositionsOf(ss, xs, kept)
    ensures if s.closed then PositionsOf(ss + [s], xs, kept) else PositionsOf(ss + [s], xs + [|ss|], kept + [s])
  {
    var ys := xs + [|ss|];
    assert ys[|xs|] == |ss|;
    forall i | 0 <= i < |ss| + 1 && !(ss + [s])[i].closed ensures if s.closed then i in xs else i in ys {
      assert i == |ss| || (i < |ss| && (ss + [s])[i] == ss[i] && i in xs);
    }
  }

  /** RemoveClosed keeps exactly the open sessions, each once and in order. */
  lemma {:induction false} OpenMeans(ss: seq<Session>) returns (xs: seq<nat>)
    ensures PositionsOf(ss, xs, Open(ss))
  {
    if ss == [] {
      xs := [];
    } else {
      var front, last := ss[..|ss| - 1], ss[|ss| - 1];
      assert ss == front + [last];
      xs := OpenMeans(front);
      OneMorePosition(front, last, xs, Open(front));
      if last.closed {
        assert Open(ss) == Open(front);
      } else {
        xs := xs + [|front|];
      }
    }
  }

  // ---- Over runs ----

  /** With at most 2^30 streams and qualities that are not negative, every eligible session competes. */
  lemma EligibleIsVisible(cfg: Config, ss: seq<Session>, i: nat)
    requires i < |ss| && ss[i].streams <= 0x4000_0000
    requires cfg.quality.Some? ==> cfg.quality.value(i + 1) >= 0
    ensures Visible(cfg, ss, i) <==> Eligible(cfg, ss[i])
  {
  }

  /** Successful picks in turn: each opens a stream on a best session. */
  ghost predicate PickRun(cfg: Config, ss: seq<Session>, picks: seq<nat>)
    decreases |picks|
  {
    picks == [] || (Best(cfg, ss, picks[0]) && PickRun(cfg, Opened(ss, picks[0]), picks[1..]))
  }

  function AfterPicks(ss: seq<Session>, picks: seq<nat>): seq<Session>
    decreases |picks|
  {
    if picks == [] then ss
    else if picks[0] < |ss| then AfterPicks(Opened(ss, picks[0]), picks[1..])
    else AfterPicks(ss, picks[1..])
  }

  /** Each pick is one stream more on the session picked, and on no other. */
  lemma {:induction false} PicksCounted(ss: seq<Session>, picks: seq<nat>, i: nat)
    requires i < |ss| && forall k :: 0 <= k < |picks| ==> picks[k] < |ss|
    ensures |AfterPicks(ss, picks)| == |ss| && AfterPicks(ss, picks)[i].closed == ss[i].closed
    ensures AfterPicks(ss, picks)[i].streams == ss[i].streams + multiset(picks)[i]
    decreases |picks|
  {
    if picks != [] {
      PicksCounted(Opened(ss, picks[0]), picks[1..], i);
      assert picks == [picks[0]] + picks[1..];
    }
  }

  ghost predicate WithinMax(cfg: Config, ss: seq<Session>)
  {
    forall i :: 0 <= i < |ss| ==> ss[i].streams <= cfg.maxStreams
  }

  /** However many streams are opened, no session passes a positive MaxStreams. */
  lemma {:induction false} NeverPastMax(cfg: Config, ss: seq<Session>, picks: seq<nat>)
    requires 0 < cfg.maxStreams && WithinMax(cfg, ss) && PickRun(cfg, ss, picks)
    ensures WithinMax(cfg, AfterPicks(ss, picks))
    ensures forall s :: s in AfterPicks(ss, picks) ==> s.streams <= cfg.maxStreams
    decreases |picks|
  {
    if picks != [] {
      NeverPastMax(cfg, Opened(ss, picks[0]), picks[1..]);
    }
  }

  /** All open, and no two stream counts more than one apart. */
  ghost predicate Balanced(ss: seq<Session>)
  {
    && (forall i :: 0 <= i < |ss| ==> !ss[i].closed)
    && (forall i, j :: 0 <= i < |ss| && 0 <= j < |ss| ==> ss[i].streams <= ss[j].streams + 1)
  }

  /** No quality function, or one that tells the sessions of the pool the same. */
  ghost predicate EqualQuality(cfg: Config, n: nat)
  {
    cfg.quality.Some? ==>
      forall i, j :: 1 <= i <= n && 1 <= j <= n ==> cfg.quality.value(i) == cfg.quality.value(j)
  }

  /** With equal qualities, picks keep a balanced pool balanced, however many are made. */
  lemma {:induction false} StaysBalanced(cfg: Config, ss: seq<Session>, picks: seq<nat>)
    requires EqualQuality(cfg, |ss|) && Balanced(ss) && PickRun(cfg, ss, picks)
    ensures Balanced(AfterPicks(ss, picks)) && |AfterPicks(ss, picks)| == |ss|
    decreases |picks|
  {
    if picks != [] {
      BestIsLeast(cfg, ss, picks[0]);
      StaysBalanced(cfg, Opened(ss, picks[0]), picks[1..]);
    }
  }

  lemma BestIsLeast(cfg: Config, ss: seq<Session>, i: nat)
    requires EqualQuality(cfg, |ss|) && Best(cfg, ss, i) && Balanced(ss)
    ensures forall j :: 0 <= j < |ss| ==> ss[i].streams <= ss[j].streams
  {
    forall j | 0 <= j < |ss| ensures ss[i].streams <= ss[j].streams {
      if ss[j].streams < ss[i].streams {
        BestIsLeastUsed(cfg, ss, i, j);
      }
    }
  }
}
