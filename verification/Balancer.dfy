/** The load balancer's weighted strategy: a shared counter dealt out over the healthy backends. */
module Balancer {

  datatype Backend = Backend(address: string, weight: int, healthy: bool)

  predicate Weighted(bs: seq<Backend>) { forall i :: 0 <= i < |bs| ==> bs[i].weight >= 0 }

  /** Sum of the first n weights. */
  function Prefix(bs: seq<Backend>, n: nat): int
    requires n <= |bs|
  {
    if n == 0 then 0 else Prefix(bs, n - 1) + bs[n - 1].weight
  }

  function Total(bs: seq<Backend>): int { Prefix(bs, |bs|) }

  lemma {:induction false} PrefixMonotone(bs: seq<Backend>, i: nat, j: nat)
    requires i <= j <= |bs| && Weighted(bs)
    ensures Prefix(bs, i) <= Prefix(bs, j)
  {
    if i < j {
      PrefixMonotone(bs, i, j - 1);
    }
  }

  /** The backend whose slice of [0, total) holds slot x, searched from backend i on. */
  function Owner(bs: seq<Backend>, x: int, i: nat): (r: nat)
    requires i <= |bs|
    ensures r <= |bs|
    decreases |bs| - i
  {
    if i == |bs| then |bs| else if x < Prefix(bs, i + 1) then i else Owner(bs, x, i + 1)
  }

  /** Which is exactly the one with Prefix(r) <= x < Prefix(r + 1). */
  lemma {:induction false} OwnerMeans(bs: seq<Backend>, x: int, i: nat)
    requires Weighted(bs) && i <= |bs| && Prefix(bs, i) <= x < Total(bs)
    ensures var r := Owner(bs, x, i);
      && i <= r < |bs| && Prefix(bs, r) <= x < Prefix(bs, r + 1)
      && (forall k: nat :: k < |bs| && Prefix(bs, k) <= x < Prefix(bs, k + 1) ==> k == r)
    decreases |bs| - i
  {
    if i < |bs| && x >= Prefix(bs, i + 1) {
      OwnerMeans(bs, x, i + 1);
    } else if i < |bs| {
      forall k: nat | k < |bs| && Prefix(bs, k) <= x < Prefix(bs, k + 1) ensures k == i {
        if k < i { PrefixMonotone(bs, k + 1, i); }
        if k > i { PrefixMonotone(bs, i + 1, k); }
      }
    }
  }

  /** The pick for counter value c. */
  function Pick(bs: seq<Backend>, c: nat): nat
    requires 0 < Total(bs)
  {
    Owner(bs, c % Total(bs), 0)
  }

  // ---- Exact fairness ----

  function Hit(bs: seq<Backend>, c: nat, i: nat): nat
    requires 0 < Total(bs)
  {
    if Pick(bs, c) == i then 1 else 0
  }

  /** How many of the n picks from counter c on choose backend i. */
  function Picks(bs: seq<Backend>, c: nat, n: nat, i: nat): nat
    requires 0 < Total(bs)
  {
    if n == 0 then 0 else Picks(bs, c, n - 1, i) + Hit(bs, c + n - 1, i)
  }

  lemma {:induction false} PicksFront(bs: seq<Backend>, c: nat, n: nat, i: nat)
    requires 0 < Total(bs) && 0 < n
    ensures Picks(bs, c, n, i) == Hit(bs, c, i) + Picks(bs, c + 1, n - 1, i)
  {
    if n > 1 {
      PicksFront(bs, c, n - 1, i);
    }
  }

  lemma SamePick(bs: seq<Backend>, c: nat)
    requires 0 < Total(bs)
    ensures Pick(bs, c + Total(bs)) == Pick(bs, c)
  {
    AddMod(c, Total(bs));
  }

  lemma AddMod(c: nat, w: nat)
    requires 0 < w
    ensures (c + w) % w == c % w
  {
    assert c + w == (c / w + 1) * w + c % w;
    ModUnique(c + w, w, c / w + 1, c % w);
  }

  lemma ModUnique(x: nat, w: nat, q: nat, r: nat)
    requires 0 < w && x == q * w + r && r < w
    ensures x % w == r
  {
    var d := x / w - q;
    assert x % w - r == -(d * w);
    assert d >= 1 ==> d * w >= w;
    assert d <= -1 ==> d * w <= 0 - w;
  }

  /** A full window counts the same wherever it starts. */
  lemma {:induction false} WindowSlides(bs: seq<Backend>, c: nat, i: nat)
    requires 0 < Total(bs)
    ensures Picks(bs, c, Total(bs), i) == Picks(bs, 0, Total(bs), i)
  {
    if c > 0 {
      var w := Total(bs);
      WindowSlides(bs, c - 1, i);
      PicksFront(bs, c - 1, w, i);
      SamePick(bs, c - 1);
    }
  }

  function Clamp(x: int, hi: int): int { if x < 0 then 0 else if x > hi then hi else x }

  /** The first n slots contain as much of backend i's slice as reaches below n. */
  lemma {:induction false} SliceCount(bs: seq<Backend>, n: nat, i: nat)
    requires Weighted(bs) && 0 < Total(bs) && n <= Total(bs) && i < |bs|
    ensures Picks(bs, 0, n, i) == Clamp(n - Prefix(bs, i), bs[i].weight)
  {
    if n == 0 {
      PrefixMonotone(bs, 0, i);
    } else {
      SliceCount(bs, n - 1, i);
      ModUnique(n - 1, Total(bs), 0, n - 1);
      OwnerMeans(bs, n - 1, 0);
      assert Prefix(bs, i + 1) == Prefix(bs, i) + bs[i].weight;
      assert Hit(bs, n - 1, i) == if Prefix(bs, i) <= n - 1 < Prefix(bs, i + 1) then 1 else 0;
    }
  }

  /**
    Exact weighted fairness: with a fixed healthy list, any Total consecutive picks from any
    starting counter choose each backend exactly Weight times.
   */
  lemma ExactFairness(bs: seq<Backend>, c: nat, i: nat)
    requires Weighted(bs) && 0 < Total(bs) && i < |bs|
    ensures Picks(bs, c, Total(bs), i) == bs[i].weight
  {
    WindowSlides(bs, c, i);
    SliceCount(bs, Total(bs), i);
    PrefixMonotone(bs, i + 1, |bs|);
  }

  lemma OneMore(n: nat, w: int)
    ensures (n + 1) * w == n * w + w
  {
  }

  /** So over any whole number of rounds. */
  lemma {:induction false} FairOverRounds(bs: seq<Backend>, c: nat, rounds: nat, i: nat)
    requires Weighted(bs) && 0 < Total(bs) && i < |bs|
    ensures Picks(bs, c, rounds * Total(bs), i) == rounds * bs[i].weight
  {
    if rounds > 0 {
      var w := Total(bs);
      FairOverRounds(bs, c, rounds - 1, i);
      var m: nat := (rounds - 1) * w;
      PicksJoin(bs, c, m, w, i);
      ExactFairness(bs, c + m, i);
      OneMore(rounds - 1, w);
      OneMore(rounds - 1, bs[i].weight);
    }
  }

  lemma {:induction false} PicksJoin(bs: seq<Backend>, c: nat, m: nat, n: nat, i: nat)
    requires 0 < Total(bs)
    ensures Picks(bs, c, m + n, i) == Picks(bs, c, m, i) + Picks(bs, c + m, n, i)
  {
    if n > 0 {
      PicksJoin(bs, c, m, n - 1, i);
    }
  }

  // ---- The code ----

  function Healthy(bs: seq<Backend>, n: nat): seq<Backend>
    requires n <= |bs|
  {
    if n == 0 then [] else Healthy(bs, n - 1) + if bs[n - 1].healthy then [bs[n - 1]] else []
  }

  /** xs are the positions, in order, of the healthy ones of the first n backends, and hs those backends. */
  ghost predicate PositionsOf(bs: seq<Backend>, n: nat, xs: seq<nat>, hs: seq<Backend>)
  {
    && n <= |bs| && |xs| == |hs|
    && (forall i, j :: 0 <= i < j < |xs| ==> xs[i] < xs[j])
    && (forall k :: 0 <= k < |xs| ==> xs[k] < n && bs[xs[k]].healthy && hs[k] == bs[xs[k]])
    && (forall i :: 0 <= i < n && bs[i].healthy ==> i in xs)
  }

  lemma OneMorePosition(bs: seq<Backend>, n: nat, xs: seq<nat>, hs: seq<Backend>)
    requires PositionsOf(bs, n, xs, hs) && n < |bs| && bs[n].healthy
    ensures PositionsOf(bs, n + 1, xs + [n], hs + [bs[n]])
  {
    var ys := xs + [n];
    assert ys[|xs|] == n;
    forall i | 0 <= i < n + 1 && bs[i].healthy ensures i in ys {
      assert i == n || i in xs;
    }
  }

  /** Healthy keeps exactly the healthy backends, each once and in order. */
  lemma {:induction false} HealthyMeans(bs: seq<Backend>, n: nat) returns (xs: seq<nat>)
    requires n <= |bs|
    ensures PositionsOf(bs, n, xs, Healthy(bs, n))
  {
    if n == 0 {
      xs := [];
    } else {
      xs := HealthyMeans(bs, n - 1);
      if bs[n - 1].healthy {
        OneMorePosition(bs, n - 1, xs, Healthy(bs, n - 1));
        xs := xs + [n - 1];
      }
    }
  }

  datatype Outcome = Chosen(backend: Backend) | NoHealthy | DividesByZero

  class LoadBalancer {
    var backends: seq<Backend>
    var current: nat

    constructor ()
      ensures backends == [] && current == 0
    {
      backends, current := [], 0;
    }

    method AddBackend(address: string, weight: int)
      modifies this
      ensures backends == old(backends) + [Backend(address, weight, true)] && current == old(current)
    {
      backends := backends + [Backend(address, weight, true)];
    }

    method GetHealthy() returns (healthy: seq<Backend>)
      ensures healthy == Healthy(backends, |backends|)
    {
      healthy := [];
      for i := 0 to |backends|
        invariant healthy == Healthy(backends, i)
      {
        if backends[i].healthy {
          healthy := healthy + [backends[i]];
        }
      }
    }

    /** One pick; the slot loop always finds an owner, so the trailing fallback is dead code. */
    method PickWeighted(bs: seq<Backend>) returns (backend: Backend)
      requires Weighted(bs) && 0 < Total(bs)
      modifies this`current
      ensures Pick(bs, old(current)) < |bs| && backend == bs[Pick(bs, old(current))]
      ensures current == old(current) + 1
    {
      var totalWeight := 0;
      for i := 0 to |bs|
        invariant totalWeight == Prefix(bs, i)
      {
        totalWeight := totalWeight + bs[i].weight;
      }
      current := current + 1;
      ghost var slot := (current - 1) % totalWeight;
      OwnerMeans(bs, slot, 0);
      var idx := (current - 1) % totalWeight;
      for i := 0 to |bs|
        invariant idx == slot - Prefix(bs, i) && 0 <= idx
        invariant Owner(bs, slot, 0) == Owner(bs, slot, i)
      {
        idx := idx - bs[i].weight;
        if idx < 0 {
          return bs[i];
        }
      }
      assert false;
    }

    /** GetBackend under the weighted strategy; Go panics on the modulus when all weights are zero. */
    method GetBackend() returns (r: Outcome)
      requires Weighted(backends)
      modifies this`current
      ensures var hs := Healthy(backends, |backends|);
        && (r.NoHealthy? <==> hs == [])
        && (r.DividesByZero? <==> hs != [] && Total(hs) == 0)
        && (r.Chosen? ==> 0 < Total(hs) && Pick(hs, old(current)) < |hs| && r.backend == hs[Pick(hs, old(current))])
      ensures current == if r.NoHealthy? then old(current) else old(current) + 1
    {
      var healthy := GetHealthy();
      if |healthy| == 0 {
        return NoHealthy;
      }
      HealthyWeights(backends, |backends|);
      PrefixMonotone(healthy, 0, |healthy|);
      if Total(healthy) == 0 {
        current := current + 1;
        return DividesByZero;
      }
      var backend := PickWeighted(healthy);
      r := Chosen(backend);
    }
  }

  lemma {:induction false} HealthyWeights(bs: seq<Backend>, n: nat)
    requires n <= |bs| && Weighted(bs)
    ensures Weighted(Healthy(bs, n))
  {
    if n > 0 {
      HealthyWeights(bs, n - 1);
    }
  }
}
