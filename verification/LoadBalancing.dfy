/** Which target the pool picks, and how the picks share the load. Targets are indices;
    `health[i]` says whether target i is healthy. */
module LoadBalancing {
  import opened Modulo
  import opened Text

  type Health = seq<bool>

  const NONE: int := -1

  const MAX_INT64: int := 0x7FFF_FFFF_FFFF_FFFF

  // ---------------------------------------------------------------- round robin

  /** Whether position `p`, counted round and round, is a healthy target. */
  predicate UpAt(h: Health, p: int)
    requires |h| > 0
  {
    h[p % |h|]
  }

  /** The first healthy target at or after offset `i` from position `k`, going round once. */
  function Scan(h: Health, k: int, i: nat): (t: int)
    requires |h| > 0 && i <= |h|
    ensures t == NONE || (0 <= t < |h| && h[t])
    decreases |h| - i
  {
    if i == |h| then NONE
    else if UpAt(h, k + i) then (k + i) % |h|
    else Scan(h, k, i + 1)
  }

  lemma {:induction false} ScanFinds(h: Health, k: int, i: nat, d: nat)
    requires |h| > 0 && i <= d < |h| && UpAt(h, k + d)
    requires forall p :: k + i <= p < k + d ==> !UpAt(h, p)
    ensures Scan(h, k, i) == (k + d) % |h|
    decreases d - i
  {
    hide UpAt;
    if i < d {
      ScanFinds(h, k, i + 1, d);
    }
  }

  lemma {:induction false} ScanOffset(h: Health, k: int, i: nat) returns (d: nat)
    requires |h| > 0 && i <= |h| && Scan(h, k, i) != NONE
    ensures i <= d < |h| && Scan(h, k, i) == (k + d) % |h|
    ensures forall p :: k + i <= p < k + d ==> !UpAt(h, p)
    decreases |h| - i
  {
    hide UpAt;
    if UpAt(h, k + i) {
      d := i;
    } else {
      d := ScanOffset(h, k, i + 1);
    }
  }

  lemma {:induction false} ScanNothing(h: Health, k: int, i: nat)
    requires |h| > 0 && i <= |h| && Scan(h, k, i) == NONE
    ensures forall p :: k + i <= p < k + |h| ==> !UpAt(h, p)
    decreases |h| - i
  {
    hide UpAt;
    if i < |h| {
      ScanNothing(h, k, i + 1);
    }
  }

  lemma {:induction false} ScanPeriodic(h: Health, k: int, i: nat)
    requires |h| > 0 && i <= |h|
    ensures Scan(h, k + |h|, i) == Scan(h, k, i)
    decreases |h| - i
  {
    if i < |h| {
      ModShift(k + i, |h|);
      assert k + |h| + i == k + i + |h|;
      ScanPeriodic(h, k, i + 1);
    }
  }

  /** Nothing is picked exactly when nothing is healthy. */
  lemma NothingPickedIff(h: Health, k: int)
    requires |h| > 0
    ensures Scan(h, k, 0) == NONE <==> forall t :: 0 <= t < |h| ==> !h[t]
  {
    if Scan(h, k, 0) == NONE {
      ScanNothing(h, k, 0);
      forall t | 0 <= t < |h| ensures !h[t] {
        SomewhereAhead(h, k, t);
      }
    }
  }

  lemma SomewhereAhead(h: Health, k: int, t: int)
    requires 0 <= t < |h|
    ensures exists p :: k <= p < k + |h| && UpAt(h, p) == h[t]
  {
    var e := (t - k) % |h|;
    ModInner(t - k, k, |h|);
    ModOf(t, |h|, 0, t);
    assert e + k == k + e;
    assert UpAt(h, k + e) == h[t];
  }

  /** Picks of target `j` over `len` consecutive counter values from `from`. */
  function Picks(h: Health, j: int, from: int, len: nat): nat
    requires |h| > 0
  {
    if len == 0 then 0
    else Picks(h, j, from, len - 1) + if Scan(h, from + len - 1, 0) == j then 1 else 0
  }

  lemma {:induction false} PicksFront(h: Health, j: int, from: int, len: nat)
    requires |h| > 0 && len > 0
    ensures Picks(h, j, from, len) == (if Scan(h, from, 0) == j then 1 else 0) + Picks(h, j, from + 1, len - 1)
  {
    if len > 1 {
      PicksFront(h, j, from, len - 1);
    }
  }

  /** A round counts the same from wherever it starts. */
  lemma PicksShift(h: Health, j: int, from: int)
    requires |h| > 0
    ensures Picks(h, j, from + 1, |h|) == Picks(h, j, from, |h|)
  {
    PicksFront(h, j, from, |h|);
    ScanPeriodic(h, from, 0);
    assert from + 1 + |h| - 1 == from + |h|;
  }

  lemma {:induction false} PicksAnyRound(h: Health, j: int, a: int, b: int)
    requires |h| > 0 && a <= b
    ensures Picks(h, j, a, |h|) == Picks(h, j, b, |h|)
    decreases b - a
  {
    if a < b {
      PicksShift(h, j, a);
      PicksAnyRound(h, j, a + 1, b);
    }
  }

  /** How many consecutive unhealthy targets come right before `j`, going back from distance `d`. */
  function Gap(h: Health, j: int, d: nat): (g: nat)
    requires |h| > 0 && 1 <= d <= |h|
    ensures d - 1 + g < |h|
    ensures forall p :: j - d - g < p <= j - d ==> !UpAt(h, p)
    ensures d + g < |h| ==> UpAt(h, j - d - g)
    decreases |h| - d
  {
    hide UpAt;
    if d == |h| || UpAt(h, j - d) then 0 else 1 + Gap(h, j, d + 1)
  }

  lemma PickedFromBehind(h: Health, j: int, d: nat)
    requires 0 <= j < |h| && h[j] && d < |h|
    ensures Scan(h, j - d, 0) == j <==> d <= Gap(h, j, 1)
  {
    hide UpAt, Scan;
    var n, g := |h|, Gap(h, j, 1);
    ModOf(j, n, 0, j);
    assert UpAt(h, j) by { ModOf(j, n, 0, j); UpAtMeans(h, j); }
    if d <= g {
      assert j - d + d == j;
      ScanFinds(h, j - d, 0, d);
    } else {
      var near := j - 1 - g;
      assert UpAt(h, near) && j - d <= near < j - d + n;
      FoundBefore(h, j - d, 0, near);
      var o := ScanOffset(h, j - d, 0);
      assert j - d + o <= near;
      ModApart(j - d + o, j, n);
    }
  }

  lemma UpAtMeans(h: Health, p: int)
    requires |h| > 0
    ensures UpAt(h, p) == h[p % |h|]
  {
  }

  lemma {:induction false} FoundBefore(h: Health, k: int, i: nat, p: int)
    requires |h| > 0 && i <= |h| && k + i <= p < k + |h| && UpAt(h, p)
    ensures Scan(h, k, i) != NONE
    decreases |h| - i
  {
    hide UpAt;
    if !UpAt(h, k + i) {
      FoundBefore(h, k, i + 1, p);
    }
  }

  lemma {:induction false} PicksUpTo(h: Health, j: int, len: nat)
    requires 0 <= j < |h| && h[j] && len <= |h|
    ensures Picks(h, j, j + 1 - len, len) == if len <= Gap(h, j, 1) + 1 then len else Gap(h, j, 1) + 1
  {
    if len > 0 {
      PicksFront(h, j, j + 1 - len, len);
      PicksUpTo(h, j, len - 1);
      PickedFromBehind(h, j, len - 1);
      assert j + 1 - len == j - (len - 1) && j + 1 - len + 1 == j + 1 - (len - 1);
    }
  }

  lemma {:induction false} NeverUnhealthy(h: Health, j: int, from: int, len: nat)
    requires 0 <= j < |h| && !h[j]
    ensures Picks(h, j, from, len) == 0
  {
    if len > 0 {
      NeverUnhealthy(h, j, from, len - 1);
    }
  }

  /** Over any |h| consecutive calls a healthy target is picked once for itself and once for each
      consecutive unhealthy target right before it; an unhealthy target is never picked. */
  lemma ExactShares(h: Health, j: int, from: int)
    requires 0 <= j < |h|
    ensures Picks(h, j, from, |h|) == if h[j] then 1 + Gap(h, j, 1) else 0
  {
    if h[j] {
      PicksUpTo(h, j, |h|);
      if from <= j + 1 - |h| {
        PicksAnyRound(h, j, from, j + 1 - |h|);
      } else {
        PicksAnyRound(h, j, j + 1 - |h|, from);
      }
    } else {
      NeverUnhealthy(h, j, from, |h|);
    }
  }

  // ---------------------------------------------------------------- least connections

  /** `t` is what the least-connections scan returns. */
  ghost predicate IsLeast(h: Health, conns: seq<int>, t: int)
    requires |h| == |conns|
  {
    if t == NONE then forall i :: 0 <= i < |h| && h[i] ==> conns[i] >= MAX_INT64
    else
      && 0 <= t < |h| && h[t] && conns[t] < MAX_INT64
      && (forall i :: 0 <= i < |h| && h[i] ==> conns[t] <= conns[i])
      && (forall i :: 0 <= i < t && h[i] ==> conns[t] < conns[i])
  }

  /** The first healthy target with the fewest connections among the first `n`. */
  function Least(h: Health, conns: seq<int>, n: nat): (t: int)
    requires |h| == |conns| && n <= |h|
    ensures IsLeast(h[..n], conns[..n], t)
  {
    if n == 0 then NONE
    else
      var t := Least(h, conns, n - 1);
      if h[n - 1] && conns[n - 1] < (if t == NONE then MAX_INT64 else conns[t]) then n - 1 else t
  }

  lemma LeastUnique(h: Health, conns: seq<int>, s: int, t: int)
    requires |h| == |conns| && IsLeast(h, conns, s) && IsLeast(h, conns, t)
    ensures s == t
  {
    if s != NONE && t != NONE {
      assert conns[s] <= conns[t] && conns[t] <= conns[s];
    }
  }

  lemma LeastIsLeast(h: Health, conns: seq<int>)
    requires |h| == |conns|
    ensures IsLeast(h, conns, Least(h, conns, |h|))
  {
    assert h[..|h|] == h && conns[..|h|] == conns;
  }

  /** Counts after `k` picks, each followed by its increment, with no request completing. */
  function AfterPicks(h: Health, conns: seq<int>, k: nat): (r: seq<int>)
    requires |h| == |conns|
    ensures |r| == |conns|
  {
    if k == 0 then conns
    else
      var before := AfterPicks(h, conns, k - 1);
      var t := Least(h, before, |h|);
      if t == NONE then before else before[t := before[t] + 1]
  }

  ghost predicate Within(h: Health, conns: seq<int>, spread: int)
    requires |h| == |conns|
  {
    forall a, b :: 0 <= a < |h| && 0 <= b < |h| && h[a] && h[b] ==> conns[a] - conns[b] <= spread
  }

  /** Picking never widens a spread of at least one: from equal counts, healthy targets always stay
      within one connection of each other. */
  lemma {:induction false} LeastConnBalances(h: Health, conns: seq<int>, k: nat, spread: int)
    requires |h| == |conns| && Within(h, conns, spread) && spread >= 1
    ensures Within(h, AfterPicks(h, conns, k), spread)
  {
    if k > 0 {
      hide Least;
      LeastConnBalances(h, conns, k - 1, spread);
      var before := AfterPicks(h, conns, k - 1);
      LeastIsLeast(h, before);
    }
  }

  // ---------------------------------------------------------------- picks and increments apart

  /** Between its pick and its increment a request is uncounted: `uncounted` holds the targets that
      such requests have picked. */
  datatype Routing = Routing(conns: seq<int>, uncounted: multiset<int>)

  datatype RouteStep = Pick | Count(t: int)

  /** At most `m` requests are uncounted at a time, and none completes. */
  predicate RouteEnabled(h: Health, r: Routing, step: RouteStep, m: nat) {
    match step
    case Pick => |r.conns| == |h| && |r.uncounted| < m
    case Count(t) => t in r.uncounted && 0 <= t < |r.conns|
  }

  function RouteApply(h: Health, r: Routing, step: RouteStep, m: nat): (r': Routing)
    requires RouteEnabled(h, r, step, m)
    ensures |r'.conns| == |r.conns|
  {
    match step
    case Pick =>
      var t := Least(h, r.conns, |h|);
      if t == NONE then r else r.(uncounted := r.uncounted + multiset{t})
    case Count(t) => Routing(r.conns[t := r.conns[t] + 1], r.uncounted - multiset{t})
  }

  /** The routing after the steps, None if one of them was not enabled. */
  function RouteExec(h: Health, conns: seq<int>, m: nat, steps: seq<RouteStep>): (r: Option<Routing>)
    ensures r.Some? ==> |r.value.conns| == |conns|
  {
    if steps == [] then Some(Routing(conns, multiset{}))
    else
      var before := RouteExec(h, conns, m, steps[..|steps| - 1]);
      var step := steps[|steps| - 1];
      if before.Some? && RouteEnabled(h, before.value, step, m)
      then Some(RouteApply(h, before.value, step, m)) else None
  }

  /** Even with its uncounted requests no healthy target is more than `spread` above another. */
  ghost predicate Ahead(h: Health, r: Routing, spread: int, m: nat) {
    && |r.conns| == |h| && |r.uncounted| <= m
    && forall a, b :: 0 <= a < |h| && 0 <= b < |h| && h[a] && h[b] ==>
         r.conns[a] + r.uncounted[a] - r.conns[b] <= spread
  }

  lemma PickKeepsAhead(h: Health, r: Routing, spread: int, m: nat)
    requires Ahead(h, r, spread, m) && spread >= m && RouteEnabled(h, r, Pick, m)
    ensures Ahead(h, RouteApply(h, r, Pick, m), spread, m)
  {
    hide Least;
    LeastIsLeast(h, r.conns);
    var t := Least(h, r.conns, |h|);
    assert |r.uncounted[t := 0]| == |r.uncounted| - r.uncounted[t];
  }

  lemma CountKeepsAhead(h: Health, r: Routing, spread: int, m: nat, t: int)
    requires Ahead(h, r, spread, m) && RouteEnabled(h, r, Count(t), m)
    ensures Ahead(h, RouteApply(h, r, Count(t), m), spread, m)
  {
  }

  /** In every interleaving with at most `m` uncounted requests, the spread of the healthy targets
      never exceeds `m` or what it was. */
  lemma {:induction false} InterleavedSpread(h: Health, conns: seq<int>, m: nat, spread: int, steps: seq<RouteStep>)
    requires |h| == |conns| && Within(h, conns, spread) && spread >= m
    requires RouteExec(h, conns, m, steps).Some?
    ensures Ahead(h, RouteExec(h, conns, m, steps).value, spread, m)
    ensures Within(h, RouteExec(h, conns, m, steps).value.conns, spread)
  {
    hide RouteApply, RouteEnabled;
    if steps != [] {
      var before, step := steps[..|steps| - 1], steps[|steps| - 1];
      InterleavedSpread(h, conns, m, spread, before);
      var r := RouteExec(h, conns, m, before).value;
      match step {
        case Pick => PickKeepsAhead(h, r, spread, m);
        case Count(t) => CountKeepsAhead(h, r, spread, m, t);
      }
    }
  }

  ghost predicate StaysWithin(h: Health, conns: seq<int>, m: nat, spread: int)
    requires |h| == |conns|
  {
    forall steps :: RouteExec(h, conns, m, steps).Some? ==> Within(h, RouteExec(h, conns, m, steps).value.conns, spread)
  }

  lemma RouteStepExec(h: Health, conns: seq<int>, m: nat, steps: seq<RouteStep>, step: RouteStep)
    requires RouteExec(h, conns, m, steps).Some? && RouteEnabled(h, RouteExec(h, conns, m, steps).value, step, m)
    ensures RouteExec(h, conns, m, steps + [step]) == Some(RouteApply(h, RouteExec(h, conns, m, steps).value, step, m))
  {
    assert (steps + [step])[..|steps|] == steps;
  }

  /** `m` requests that pick before any of them is counted all pick the same target. */
  lemma {:induction false} PicksPileUp(h: Health, conns: seq<int>, m: nat, k: nat, t: int)
    returns (steps: seq<RouteStep>)
    requires |h| == |conns| && k <= m && t == Least(h, conns, |h|) != NONE
    ensures RouteExec(h, conns, m, steps) == Some(Routing(conns, multiset{}[t := k]))
  {
    hide Least;
    if k == 0 {
      steps := [];
      assert multiset{}[t := 0] == multiset{};
    } else {
      var before := PicksPileUp(h, conns, m, k - 1, t);
      RouteStepExec(h, conns, m, before, Pick);
      steps := before + [Pick];
      assert multiset{}[t := k - 1] + multiset{t} == multiset{}[t := k];
    }
  }

  lemma CountOne(h: Health, conns: seq<int>, m: nat, k: nat, t: int)
    requires |h| == |conns| && 1 <= k <= m && 0 <= t < |conns|
    ensures var r := Routing(conns[t := conns[t] + (k - 1)], multiset{}[t := m - (k - 1)]);
            && RouteEnabled(h, r, Count(t), m)
            && RouteApply(h, r, Count(t), m) == Routing(conns[t := conns[t] + k], multiset{}[t := m - k])
  {
    assert multiset{}[t := m - (k - 1)] - multiset{t} == multiset{}[t := m - k];
    assert conns[t := conns[t] + (k - 1)][t := conns[t] + k] == conns[t := conns[t] + k];
  }

  lemma {:induction false} CountsPileUp(h: Health, conns: seq<int>, m: nat, k: nat, t: int)
    returns (steps: seq<RouteStep>)
    requires |h| == |conns| && k <= m && t == Least(h, conns, |h|) != NONE && 0 <= t < |conns|
    ensures RouteExec(h, conns, m, steps) == Some(Routing(conns[t := conns[t] + k], multiset{}[t := m - k]))
  {
    hide Least, RouteExec, RouteApply, RouteEnabled;
    if k == 0 {
      steps := PicksPileUp(h, conns, m, m, t);
      assert conns[t := conns[t] + 0] == conns;
    } else {
      var before := CountsPileUp(h, conns, m, k - 1, t);
      CountOne(h, conns, m, k, t);
      RouteStepExec(h, conns, m, before, Count(t));
      steps := before + [Count(t)];
    }
  }

  /** From equal counts of at least two healthy targets, `m` is exactly the bound. */
  lemma InterleavedSpreadIff(h: Health, conns: seq<int>, m: nat, spread: int, a: nat, b: nat)
    requires |h| == |conns| && a < |h| && b < |h| && a != b && h[a] && h[b]
    requires Within(h, conns, 0) && conns[a] < MAX_INT64
    ensures StaysWithin(h, conns, m, spread) <==> spread >= m
  {
    hide RouteExec, Least;
    if spread >= m {
      forall steps | RouteExec(h, conns, m, steps).Some?
        ensures Within(h, RouteExec(h, conns, m, steps).value.conns, spread)
      {
        InterleavedSpread(h, conns, m, spread, steps);
      }
    } else {
      PickPlaces(h, conns, a);
      var t := Least(h, conns, |h|);
      var steps := CountsPileUp(h, conns, m, m, t);
      var other := if t == a then b else a;
      assert conns[t] - conns[other] <= 0 && conns[other] - conns[t] <= 0;
      assert conns[t := conns[t] + m][t] - conns[t := conns[t] + m][other] == m;
    }
  }

  function Sum(xs: seq<int>): int {
    if xs == [] then 0 else Sum(xs[..|xs| - 1]) + xs[|xs| - 1]
  }

  lemma {:induction false} SumUpdate(xs: seq<int>, i: nat, x: int)
    requires i < |xs|
    ensures Sum(xs[i := x]) == Sum(xs) - xs[i] + x
  {
    if i < |xs| - 1 {
      assert xs[i := x][..|xs| - 1] == xs[..|xs| - 1][i := x];
      SumUpdate(xs[..|xs| - 1], i, x);
    } else {
      assert xs[i := x][..|xs| - 1] == xs[..|xs| - 1];
    }
  }

  lemma PickPlaces(h: Health, conns: seq<int>, up: nat)
    requires |h| == |conns| && up < |h| && h[up] && conns[up] < MAX_INT64
    ensures var t := Least(h, conns, |h|); 0 <= t < |h| && h[t]
  {
    LeastIsLeast(h, conns);
  }

  /** Every pick places exactly one connection, as long as a healthy target can take it. */
  lemma {:induction false} EveryPickPlaced(h: Health, conns: seq<int>, k: nat, up: nat)
    requires |h| == |conns| && up < |h| && h[up]
    requires forall i :: 0 <= i < |conns| ==> conns[i] + k <= MAX_INT64
    ensures var after := AfterPicks(h, conns, k);
            && Sum(after) == Sum(conns) + k
            && (forall i :: 0 <= i < |conns| ==> after[i] <= conns[i] + k)
            && (forall i :: 0 <= i < |conns| && !h[i] ==> after[i] == conns[i])
  {
    hide Least, Sum;
    if k > 0 {
      EveryPickPlaced(h, conns, k - 1, up);
      var before := AfterPicks(h, conns, k - 1);
      assert conns[up] + k <= MAX_INT64 && before[up] <= conns[up] + k - 1;
      PickPlaces(h, before, up);
      var t := Least(h, before, |h|);
      SumUpdate(before, t, before[t] + 1);
    }
  }

  // ---------------------------------------------------------------- health

  datatype HealthState = HealthState(failures: int, healthy: bool)

  /** One health check of a target: three failures in a row mark it unhealthy, a success resets it. */
  function Checked(s: HealthState, success: bool): HealthState {
    if success then HealthState(0, true)
    else HealthState(s.failures + 1, if s.failures + 1 >= 3 then false else s.healthy)
  }

  function CheckedAll(results: seq<bool>): HealthState {
    if results == [] then HealthState(0, true)
    else Checked(CheckedAll(results[..|results| - 1]), results[|results| - 1])
  }

  /** A new target is unhealthy after a series of checks exactly when the last three all failed. */
  lemma {:induction false} UnhealthyIff(results: seq<bool>)
    ensures !CheckedAll(results).healthy <==>
            |results| >= 3 && forall i :: |results| - 3 <= i < |results| ==> !results[i]
    ensures 0 <= CheckedAll(results).failures <= |results|
    ensures forall i :: |results| - CheckedAll(results).failures <= i < |results| ==> !results[i]
    ensures CheckedAll(results).failures < |results| ==> results[|results| - 1 - CheckedAll(results).failures]
  {
    if results != [] {
      var before := results[..|results| - 1];
      UnhealthyIff(before);
      assert forall i :: 0 <= i < |before| ==> before[i] == results[i];
    }
  }
}
