/** Counting proxied connections: the director increments the chosen target, a goroutine of each
    request waits for the end of the request's context and then decrements it once. Requests
    interleave freely. */
module Connections {
  import opened LoadBalancing

  /** `open[r]` is the target of request r while its decrement is still to come; `ended` are those
      of them whose context has ended. */
  datatype Counters = Counters(active: seq<int>, open: map<nat, nat>, ended: set<nat>)

  datatype Step = Route(request: nat, target: nat) | End(request: nat) | Decrement(request: nat)

  /** A request is routed once, ends once, and is counted down after that. */
  predicate Enabled(c: Counters, step: Step) {
    match step
    case Route(r, t) => r !in c.open && t < |c.active|
    case End(r) => r in c.open && r !in c.ended
    case Decrement(r) => r in c.ended && r in c.open && c.open[r] < |c.active|
  }

  function Apply(c: Counters, step: Step): Counters
    requires Enabled(c, step)
  {
    match step
    case Route(r, t) => Counters(c.active[t := c.active[t] + 1], c.open[r := t], c.ended)
    case End(r) => c.(ended := c.ended + {r})
    case Decrement(r) => Counters(c.active[c.open[r] := c.active[c.open[r]] - 1], c.open - {r}, c.ended - {r})
  }

  function Exec(targets: nat, steps: seq<Step>): (r: seq<Counters>)
    ensures |r| <= 1
  {
    if steps == [] then [Counters(seq(targets, i => 0), map[], {})]
    else
      var before := Exec(targets, steps[..|steps| - 1]);
      var step := steps[|steps| - 1];
      if |before| == 1 && Enabled(before[0], step) then [Apply(before[0], step)] else []
  }

  /** The requests that hold a connection of target `t`. */
  function OpenOn(c: Counters, t: nat): set<nat> {
    set r | r in c.open && c.open[r] == t
  }

  /** Those of them that are still running. */
  function RunningOn(c: Counters, t: nat): set<nat> {
    set r | r in c.open && c.open[r] == t && r !in c.ended
  }

  /** Those whose decrement is due. */
  function DueOn(c: Counters, t: nat): set<nat> {
    set r | r in c.open && c.open[r] == t && r in c.ended
  }

  lemma OpenIsRunningOrDue(c: Counters, t: nat)
    ensures |OpenOn(c, t)| == |RunningOn(c, t)| + |DueOn(c, t)|
  {
    assert OpenOn(c, t) == RunningOn(c, t) + DueOn(c, t) && RunningOn(c, t) !! DueOn(c, t);
  }

  ghost predicate Inv(c: Counters, targets: nat) {
    && |c.active| == targets
    && (forall r :: r in c.open ==> c.open[r] < targets)
    && c.ended <= c.open.Keys
    && (forall t :: 0 <= t < targets ==> c.active[t] == |OpenOn(c, t)|)
    && Sum(c.active) == |c.open|
  }

  lemma OpenAfterRoute(c: Counters, r: nat, t: nat, u: nat)
    requires r !in c.open && t < |c.active|
    ensures |OpenOn(Apply(c, Route(r, t)), u)| == |OpenOn(c, u)| + if u == t then 1 else 0
  {
    var c' := Apply(c, Route(r, t));
    assert OpenOn(c', u) == if u == t then OpenOn(c, u) + {r} else OpenOn(c, u);
  }

  lemma OpenAfterDecrement(c: Counters, r: nat, u: nat)
    requires r in c.open && r in c.ended && c.open[r] < |c.active|
    ensures |OpenOn(Apply(c, Decrement(r)), u)| == |OpenOn(c, u)| - if u == c.open[r] then 1 else 0
  {
    var c' := Apply(c, Decrement(r));
    if u == c.open[r] {
      assert OpenOn(c, u) == OpenOn(c', u) + {r};
    } else {
      assert OpenOn(c', u) == OpenOn(c, u);
    }
  }

  lemma RouteKeepsInv(c: Counters, targets: nat, r: nat, t: nat)
    requires Inv(c, targets) && Enabled(c, Route(r, t))
    ensures Inv(Apply(c, Route(r, t)), targets)
  {
    hide Sum, OpenOn;
    var c' := Apply(c, Route(r, t));
    SumUpdate(c.active, t, c.active[t] + 1);
    assert c'.open.Keys == c.open.Keys + {r};
    forall u | 0 <= u < targets ensures c'.active[u] == |OpenOn(c', u)| {
      OpenAfterRoute(c, r, t, u);
    }
  }

  lemma DecrementKeepsInv(c: Counters, targets: nat, r: nat)
    requires Inv(c, targets) && Enabled(c, Decrement(r))
    ensures Inv(Apply(c, Decrement(r)), targets)
  {
    hide Sum, OpenOn;
    var c' := Apply(c, Decrement(r));
    var t := c.open[r];
    SumUpdate(c.active, t, c.active[t] - 1);
    assert c.open.Keys == c'.open.Keys + {r};
    forall u | 0 <= u < targets ensures c'.active[u] == |OpenOn(c', u)| {
      OpenAfterDecrement(c, r, u);
    }
  }

  lemma StepKeepsInv(c: Counters, targets: nat, step: Step)
    requires Inv(c, targets) && Enabled(c, step)
    ensures Inv(Apply(c, step), targets)
  {
    match step
    case Route(r, t) => RouteKeepsInv(c, targets, r, t);
    case End(r) => assert forall t :: OpenOn(Apply(c, step), t) == OpenOn(c, t);
    case Decrement(r) => DecrementKeepsInv(c, targets, r);
  }

  lemma {:induction false} SumOfZeros(n: nat)
    ensures Sum(seq(n, i => 0)) == 0
  {
    if n > 0 {
      assert seq(n, i => 0)[..n - 1] == seq(n - 1, i => 0);
      SumOfZeros(n - 1);
    }
  }

  lemma {:induction false} RunKeepsInv(targets: nat, steps: seq<Step>)
    requires |Exec(targets, steps)| == 1
    ensures Inv(Exec(targets, steps)[0], targets)
  {
    if steps == [] {
      SumOfZeros(targets);
      var c := Exec(targets, steps)[0];
      assert forall t :: 0 <= t < targets ==> OpenOn(c, t) == {};
    } else {
      hide Apply, Enabled, Sum;
      RunKeepsInv(targets, steps[..|steps| - 1]);
      StepKeepsInv(Exec(targets, steps[..|steps| - 1])[0], targets, steps[|steps| - 1]);
    }
  }

  /** In every run, each target's counter is the number of its running requests plus the decrements
      that are due, hence never negative and exact once those have been made; the counters add up
      to all requests that are running or due. */
  lemma CountersExact(targets: nat, steps: seq<Step>)
    requires |Exec(targets, steps)| == 1
    ensures var c := Exec(targets, steps)[0];
            && |c.active| == targets
            && (forall t :: 0 <= t < targets ==> c.active[t] == |RunningOn(c, t)| + |DueOn(c, t)| >= 0)
            && Sum(c.active) == |c.open|
            && (c.ended == {} <==> forall t :: 0 <= t < targets ==> c.active[t] == |RunningOn(c, t)|)
  {
    hide Exec, Sum;
    RunKeepsInv(targets, steps);
    var c := Exec(targets, steps)[0];
    forall t | 0 <= t < targets ensures c.active[t] == |RunningOn(c, t)| + |DueOn(c, t)| {
      OpenIsRunningOrDue(c, t);
    }
    if c.ended == {} {
      assert forall t :: DueOn(c, t) == {};
    } else {
      var r :| r in c.ended;
      assert r in c.open && r in DueOn(c, c.open[r]);
    }
  }
}
