/** The Redis fixed-window limiter as a distributed step system.

    Each call of `Allow` reads the clock, increments the counter of its key and bucket and,
    if the counter became 1, sets its expiry. Any number of calls interleave, any command may
    fail or lose its reply, time passes between any two steps, and Redis drops expired counters.
    Clocks agree; times are seconds as reals. */
module RedisWindow {
  import opened Text

  /** `window`: the window the callers pass. `ttl`: the lifetime that EXPIRE gives a counter.
      `delay`: the longest time between a call's clock read and its INCR. */
  datatype Config = Config(window: real, ttl: real, delay: real)

  datatype Counter = Counter(count: nat, expires: Option<real>)

  /** Where a running call is. */
  datatype Phase =
    | Read(key: string, bucket: int, limit: int, readAt: real)
    | MustExpire(key: string, bucket: int)

  /** An applied increment and the answer it gives its call; an increment whose reply was lost
      admits nothing. */
  datatype Outcome = Outcome(key: string, bucket: int, limit: int, readAt: real, count: nat, lost: bool, allowed: bool)

  datatype System = System(
    now: real,
    counters: map<(string, int), Counter>,
    calls: map<nat, Phase>,
    log: seq<Outcome>)

  datatype Step =
    | Tick(to: real)
    | ReadClock(call: nat, key: string, limit: int)
    | Incr(call: nat)
    | IncrFails(call: nat)
    | IncrReplyLost(call: nat, again: bool)
    | Expire(call: nat)
    | ExpireFails(call: nat)
    | Drop(key: string, bucket: int)

  /** Whole seconds of the window, at least one. */
  function WindowSec(window: real): (w: int)
    ensures w >= 1
  {
    if window.Floor < 1 then 1 else window.Floor
  }

  /** A bucket lasts the window cut to whole seconds, and one second for shorter windows. */
  lemma WindowSecMeaning(window: real)
    ensures window >= 1.0 ==> WindowSec(window) as real <= window < WindowSec(window) as real + 1.0
    ensures window < 1.0 ==> WindowSec(window) == 1
  {
  }

  function BucketOf(t: real, w: int): int
    requires w >= 1
  {
    t.Floor / w
  }

  function Start(bucket: int, w: int): real {
    (bucket * w) as real
  }

  // ---------------------------------------------------------------- steps

  predicate Enabled(cfg: Config, s: System, step: Step) {
    match step
    case Tick(to) => s.now <= to
    case ReadClock(p, _, _) => p !in s.calls
    case Incr(p) => p in s.calls && s.calls[p].Read? && s.now <= s.calls[p].readAt + cfg.delay
    case IncrReplyLost(p, _) => p in s.calls && s.calls[p].Read? && s.now <= s.calls[p].readAt + cfg.delay
    case IncrFails(p) => p in s.calls && s.calls[p].Read?
    case Expire(p) => p in s.calls && s.calls[p].MustExpire?
    case ExpireFails(p) => p in s.calls && s.calls[p].MustExpire?
    case Drop(key, bucket) =>
      (key, bucket) in s.counters && s.counters[(key, bucket)].expires.Some? &&
      s.counters[(key, bucket)].expires.value <= s.now
  }

  function Apply(cfg: Config, s: System, step: Step): System
    requires Enabled(cfg, s, step)
  {
    match step
    case Tick(to) => s.(now := to)
    case ReadClock(p, key, limit) =>
      s.(calls := s.calls[p := Read(key, BucketOf(s.now, WindowSec(cfg.window)), limit, s.now)])
    case Incr(p) => AfterIncr(s, p, Answered)
    case IncrReplyLost(p, again) => AfterIncr(s, p, if again then Retried else GivenUp)
    case IncrFails(p) => s.(calls := s.calls - {p})
    case Expire(p) =>
      var k := (s.calls[p].key, s.calls[p].bucket);
      s.(calls := s.calls - {p},
         counters := if k in s.counters
                     then s.counters[k := s.counters[k].(expires := Some(s.now + cfg.ttl))]
                     else s.counters)
    case ExpireFails(p) => s.(calls := s.calls - {p})
    case Drop(key, bucket) => s.(counters := s.counters - {(key, bucket)})
  }

  /** What became of the reply to an applied increment: it arrived, the client sends the command
      again, or the call ends with an error. */
  datatype Reply = Answered | Retried | GivenUp

  /** Redis has incremented. A call that got no reply never sets the expiry for this increment. */
  function AfterIncr(s: System, p: nat, reply: Reply): System
    requires p in s.calls && s.calls[p].Read?
  {
    var c := s.calls[p];
    var k := (c.key, c.bucket);
    var counter := if k in s.counters then s.counters[k] else Counter(0, None);
    var count := counter.count + 1;
    s.(counters := s.counters[k := counter.(count := count)],
       calls := if reply.Retried? then s.calls
                else if count == 1 && reply.Answered? then s.calls[p := MustExpire(c.key, c.bucket)] else s.calls - {p},
       log := s.log + [Outcome(c.key, c.bucket, c.limit, c.readAt, count, !reply.Answered?,
                               reply.Answered? && count <= c.limit)])
  }

  function Init(t0: real): System {
    System(t0, map[], map[], [])
  }

  /** The system after the steps, or None if one of them was not enabled. */
  function Exec(cfg: Config, t0: real, steps: seq<Step>): Option<System> {
    if steps == [] then Some(Init(t0))
    else
      var before := Exec(cfg, t0, steps[..|steps| - 1]);
      var step := steps[|steps| - 1];
      if before.Some? && Enabled(cfg, before.value, step) then Some(Apply(cfg, before.value, step)) else None
  }

  // ---------------------------------------------------------------- what is counted

  /** Increments of one key and bucket. */
  function Hits(log: seq<Outcome>, key: string, bucket: int): nat {
    if log == [] then 0
    else
      var o := log[|log| - 1];
      Hits(log[..|log| - 1], key, bucket) + if o.key == key && o.bucket == bucket then 1 else 0
  }

  /** Calls of one key and bucket that returned true under a limit of at most `limit`. */
  function Admissions(log: seq<Outcome>, key: string, bucket: int, limit: int): nat {
    if log == [] then 0
    else
      var o := log[|log| - 1];
      Admissions(log[..|log| - 1], key, bucket, limit) +
      if o.key == key && o.bucket == bucket && o.allowed && o.limit <= limit then 1 else 0
  }

  /** The same, by the time the clock was read instead of the bucket. */
  function AdmissionsBetween(log: seq<Outcome>, key: string, from: real, to: real, limit: int): nat {
    if log == [] then 0
    else
      var o := log[|log| - 1];
      AdmissionsBetween(log[..|log| - 1], key, from, to, limit) +
      if o.key == key && from <= o.readAt < to && o.allowed && o.limit <= limit then 1 else 0
  }

  function AtLeastZero(n: int): nat {
    if n < 0 then 0 else n
  }

  /** In every run, no key and bucket admits more calls than their limit. */
  ghost predicate Safe(cfg: Config) {
    forall t0: real, steps, key, bucket, limit :: t0 >= 0.0 && Exec(cfg, t0, steps).Some? ==>
      Admissions(Exec(cfg, t0, steps).value.log, key, bucket, limit) <= AtLeastZero(limit)
  }

  // ---------------------------------------------------------------- buckets of time

  lemma BucketHolds(t: real, w: int)
    requires w >= 1
    ensures Start(BucketOf(t, w), w) <= t < Start(BucketOf(t, w), w) + w as real
  {
    var b := BucketOf(t, w);
    assert t.Floor == b * w + t.Floor % w;
    assert b * w <= t.Floor <= b * w + w - 1;
  }

  lemma StartsApart(b: int, c: int, w: int)
    requires w >= 1 && b < c
    ensures Start(b, w) + w as real <= Start(c, w)
  {
    var gap := c - b - 1;
    assert gap * w >= 0;
    assert c * w == b * w + w + gap * w;
  }

  lemma NextStart(b: int, w: int)
    ensures Start(b + 1, w) == Start(b, w) + w as real
  {
    assert (b + 1) * w == b * w + w;
  }

  // ---------------------------------------------------------------- the invariant

  /** Each increment of a key and bucket saw exactly the increments before it. */
  ghost predicate Counted(log: seq<Outcome>) {
    log == [] ||
    var before, o := log[..|log| - 1], log[|log| - 1];
    && Counted(before)
    && o.count == Hits(before, o.key, o.bucket) + 1
    && o.allowed == (!o.lost && o.count <= o.limit)
  }

  lemma {:induction false} CountedBoundsAdmissions(log: seq<Outcome>, key: string, bucket: int, limit: int)
    requires Counted(log)
    ensures Admissions(log, key, bucket, limit) <= Hits(log, key, bucket)
    ensures Admissions(log, key, bucket, limit) <= AtLeastZero(limit)
  {
    if log != [] {
      CountedBoundsAdmissions(log[..|log| - 1], key, bucket, limit);
    }
  }

  ghost predicate CallOk(c: Phase, now: real, w: int)
    requires w >= 1
  {
    match c
    case Read(_, bucket, _, readAt) => Start(bucket, w) <= readAt < Start(bucket, w) + w as real && readAt <= now
    case MustExpire(_, bucket) => Start(bucket, w) <= now
  }

  ghost predicate CounterOk(s: System, key: string, bucket: int, w: int, ttl: real) {
    var hits := Hits(s.log, key, bucket);
    if (key, bucket) in s.counters then
      var c := s.counters[(key, bucket)];
      && c.count == hits
      && (c.expires.Some? ==> Start(bucket, w) + ttl <= c.expires.value)
    else hits == 0 || Start(bucket, w) + ttl <= s.now
  }

  ghost predicate Placed(o: Outcome, w: int) {
    Start(o.bucket, w) <= o.readAt < Start(o.bucket, w) + w as real
  }

  ghost predicate Inv(cfg: Config, s: System) {
    var w := WindowSec(cfg.window);
    && (forall p :: p in s.calls ==> CallOk(s.calls[p], s.now, w))
    && (forall key, bucket :: CounterOk(s, key, bucket, w, cfg.ttl))
    && Counted(s.log)
    && (forall i :: 0 <= i < |s.log| ==> Placed(s.log[i], w))
  }

  lemma HitsStep(log: seq<Outcome>, o: Outcome, key: string, bucket: int)
    ensures Hits(log + [o], key, bucket) ==
            Hits(log, key, bucket) + if o.key == key && o.bucket == bucket then 1 else 0
  {
    assert (log + [o])[..|log|] == log;
  }

  lemma IncrKeepsInv(cfg: Config, s: System, p: nat, reply: Reply)
    requires Inv(cfg, s) && cfg.delay <= cfg.ttl - WindowSec(cfg.window) as real
    requires Enabled(cfg, s, Incr(p))
    ensures Inv(cfg, AfterIncr(s, p, reply))
  {
    hide Start, WindowSec;
    var w, c, s' := WindowSec(cfg.window), s.calls[p], AfterIncr(s, p, reply);
    assert CallOk(c, s.now, w);
    assert CounterOk(s, c.key, c.bucket, w, cfg.ttl);
    var o := s'.log[|s.log|];
    assert s'.log[..|s.log|] == s.log;
    assert o.count == Hits(s.log, c.key, c.bucket) + 1;
    assert Placed(o, w);
    forall key, bucket ensures CounterOk(s', key, bucket, w, cfg.ttl) {
      assert CounterOk(s, key, bucket, w, cfg.ttl);
      HitsStep(s.log, o, key, bucket);
    }
  }

  lemma StepKeepsInv(cfg: Config, s: System, step: Step)
    requires Inv(cfg, s) && cfg.delay <= cfg.ttl - WindowSec(cfg.window) as real
    requires Enabled(cfg, s, step)
    ensures Inv(cfg, Apply(cfg, s, step))
  {
    hide Start, WindowSec, BucketOf, Hits, AfterIncr, Counted, Placed;
    var w, s' := WindowSec(cfg.window), Apply(cfg, s, step);
    if step.Incr? || step.IncrReplyLost? {
      IncrKeepsInv(cfg, s, step.call, if step.Incr? then Answered else if step.again then Retried else GivenUp);
    } else {
      if step.ReadClock? {
        BucketHolds(s.now, w);
      }
      if step.Expire? {
        assert CallOk(s.calls[step.call], s.now, w);
      }
      forall key, bucket ensures CounterOk(s', key, bucket, w, cfg.ttl) {
        assert CounterOk(s, key, bucket, w, cfg.ttl);
      }
    }
  }

  lemma {:induction false} RunKeepsInv(cfg: Config, t0: real, steps: seq<Step>)
    requires cfg.delay <= cfg.ttl - WindowSec(cfg.window) as real
    requires Exec(cfg, t0, steps).Some?
    ensures Inv(cfg, Exec(cfg, t0, steps).value)
  {
    hide Apply, Enabled;
    if steps == [] {
    } else {
      RunKeepsInv(cfg, t0, steps[..|steps| - 1]);
      StepKeepsInv(cfg, Exec(cfg, t0, steps[..|steps| - 1]).value, steps[|steps| - 1]);
    }
  }

  // ---------------------------------------------------------------- main results

  lemma FastEnoughIsSafe(cfg: Config)
    requires cfg.delay <= cfg.ttl - WindowSec(cfg.window) as real
    ensures Safe(cfg)
  {
    hide Exec, Admissions, Inv;
    forall t0: real, steps, key, bucket, limit | t0 >= 0.0 && Exec(cfg, t0, steps).Some?
      ensures Admissions(Exec(cfg, t0, steps).value.log, key, bucket, limit) <= AtLeastZero(limit)
    {
      RunKeepsInv(cfg, t0, steps);
      InvMeansCounted(cfg, Exec(cfg, t0, steps).value);
      CountedBoundsAdmissions(Exec(cfg, t0, steps).value.log, key, bucket, limit);
    }
  }

  lemma InvMeansCounted(cfg: Config, s: System)
    requires Inv(cfg, s)
    ensures Counted(s.log) && forall i :: 0 <= i < |s.log| ==> Placed(s.log[i], WindowSec(cfg.window))
  {
  }

  lemma {:induction false} CountedAt(log: seq<Outcome>, i: nat)
    requires Counted(log) && i < |log|
    ensures log[i].allowed <==> !log[i].lost && Hits(log[..i], log[i].key, log[i].bucket) < log[i].limit
  {
    var before := log[..|log| - 1];
    if i < |log| - 1 {
      CountedAt(before, i);
      assert before[..i] == log[..i];
    }
  }

  /** In any run, a call whose reply arrives is admitted exactly when fewer than its limit
      incremented before it. */
  lemma FirstComeFirstServed(cfg: Config, t0: real, steps: seq<Step>, i: nat)
    requires cfg.delay <= cfg.ttl - WindowSec(cfg.window) as real
    requires t0 >= 0.0 && Exec(cfg, t0, steps).Some? && i < |Exec(cfg, t0, steps).value.log|
    ensures var log := Exec(cfg, t0, steps).value.log;
            log[i].allowed <==> !log[i].lost && Hits(log[..i], log[i].key, log[i].bucket) < log[i].limit
  {
    hide Exec, Inv, Hits;
    RunKeepsInv(cfg, t0, steps);
    InvMeansCounted(cfg, Exec(cfg, t0, steps).value);
    CountedAt(Exec(cfg, t0, steps).value.log, i);
  }

  /** Two buckets cover any stretch of one window, so at most twice the limit is admitted in it. */
  lemma TwiceTheLimit(cfg: Config, t0: real, steps: seq<Step>, key: string, from: real, limit: int)
    requires cfg.delay <= cfg.ttl - WindowSec(cfg.window) as real
    requires t0 >= 0.0 && Exec(cfg, t0, steps).Some?
    ensures AdmissionsBetween(Exec(cfg, t0, steps).value.log, key, from, from + WindowSec(cfg.window) as real, limit)
            <= 2 * AtLeastZero(limit)
  {
    hide Exec, Inv, Admissions, AdmissionsBetween;
    var s, w := Exec(cfg, t0, steps).value, WindowSec(cfg.window);
    RunKeepsInv(cfg, t0, steps);
    InvMeansCounted(cfg, s);
    var b := BucketOf(from, w);
    CoveredByTwo(s.log, key, from, w, limit);
    CountedBoundsAdmissions(s.log, key, b, limit);
    CountedBoundsAdmissions(s.log, key, b + 1, limit);
  }

  lemma {:induction false} CoveredByTwo(log: seq<Outcome>, key: string, from: real, w: int, limit: int)
    requires w >= 1 && forall i :: 0 <= i < |log| ==> Placed(log[i], w)
    ensures var b := BucketOf(from, w);
            AdmissionsBetween(log, key, from, from + w as real, limit) <=
            Admissions(log, key, b, limit) + Admissions(log, key, b + 1, limit)
  {
    hide BucketOf, Start;
    if log != [] {
      CoveredByTwo(log[..|log| - 1], key, from, w, limit);
      var o := log[|log| - 1];
      assert Placed(o, w);
      if from <= o.readAt < from + w as real {
        InOneOfTwo(o, from, w);
      }
    }
  }

  lemma InOneOfTwo(o: Outcome, from: real, w: int)
    requires w >= 1 && Placed(o, w) && from <= o.readAt < from + w as real
    ensures o.bucket == BucketOf(from, w) || o.bucket == BucketOf(from, w) + 1
  {
    hide BucketOf, Start;
    var b := BucketOf(from, w);
    BucketHolds(from, w);
    NextStart(b, w);
    if o.bucket < b {
      StartsApart(o.bucket, b, w);
    } else if o.bucket > b + 1 {
      StartsApart(b + 1, o.bucket, w);
    }
  }

  // ---------------------------------------------------------------- too slow

  lemma ExecStep(cfg: Config, t0: real, steps: seq<Step>, step: Step)
    requires Exec(cfg, t0, steps).Some? && Enabled(cfg, Exec(cfg, t0, steps).value, step)
    ensures Exec(cfg, t0, steps + [step]) == Some(Apply(cfg, Exec(cfg, t0, steps).value, step))
  {
    hide Enabled, Apply;
    assert (steps + [step])[..|steps|] == steps;
  }

  /** A second call that reads the clock late in the bucket and increments after the counter
      was dropped. */
  function Straggler(read: real, incr: real): seq<Step> {
    [ReadClock(0, "client", 1), Incr(0), Expire(0), Tick(read), ReadClock(1, "client", 1),
     Tick(incr), Drop("client", 0), Incr(1)]
  }

  lemma SlowIsUnsafe(cfg: Config)
    requires cfg.delay >= 0.0 && cfg.delay > cfg.ttl - WindowSec(cfg.window) as real
    ensures !Safe(cfg)
  {
    var read := if cfg.ttl <= cfg.delay then 0.0 else cfg.ttl - cfg.delay;
    var incr := if cfg.ttl <= read then read else cfg.ttl;
    StragglerRuns(cfg, read, incr);
    var steps := Straggler(read, incr);
    assert Exec(cfg, 0.0, steps).Some?;
    assert Admissions(Exec(cfg, 0.0, steps).value.log, "client", 0, 1) > AtLeastZero(1);
  }

  lemma FirstBucket(t: real, w: int)
    requires w >= 1 && 0.0 <= t < w as real
    ensures BucketOf(t, w) == 0
  {
  }

  lemma StragglerRuns(cfg: Config, read: real, incr: real)
    requires 0.0 <= read < WindowSec(cfg.window) as real
    requires read <= incr <= read + cfg.delay && cfg.ttl <= incr && cfg.delay >= 0.0
    ensures Exec(cfg, 0.0, Straggler(read, incr)).Some?
    ensures Admissions(Exec(cfg, 0.0, Straggler(read, incr)).value.log, "client", 0, 1) == 2
  {
    hide Exec, WindowSec, BucketOf;
    var w := WindowSec(cfg.window);
    FirstBucket(0.0, w);
    FirstBucket(read, w);
    var k := ("client", 0);
    assert Exec(cfg, 0.0, []) == Some(Init(0.0)) by { ExecEmpty(cfg, 0.0); }
    var l1 := [ReadClock(0, "client", 1)];
    ExecStep(cfg, 0.0, [], l1[0]);
    assert [] + l1 == l1;
    var s1 := System(0.0, map[], map[0 := Read("client", 0, 1, 0.0)], []);
    assert Exec(cfg, 0.0, l1) == Some(s1);
    var l2 := l1 + [Incr(0)];
    ExecStep(cfg, 0.0, l1, Incr(0));
    var o := Outcome("client", 0, 1, 0.0, 1, false, true);
    var s2 := System(0.0, map[k := Counter(1, None)], map[0 := MustExpire("client", 0)], [o]);
    assert AfterIncr(s1, 0, Answered).log == s2.log;
    assert AfterIncr(s1, 0, Answered).counters == s2.counters && AfterIncr(s1, 0, Answered).calls == s2.calls;
    assert Exec(cfg, 0.0, l2) == Some(s2);
    var l3 := l2 + [Expire(0)];
    ExecStep(cfg, 0.0, l2, Expire(0));
    var s3 := System(0.0, map[k := Counter(1, Some(cfg.ttl))], map[], [o]);
    assert Apply(cfg, s2, Expire(0)).counters == s3.counters && Apply(cfg, s2, Expire(0)).calls == s3.calls;
    assert Exec(cfg, 0.0, l3) == Some(s3);
    var l4 := l3 + [Tick(read)];
    ExecStep(cfg, 0.0, l3, Tick(read));
    var l5 := l4 + [ReadClock(1, "client", 1)];
    ExecStep(cfg, 0.0, l4, ReadClock(1, "client", 1));
    var s5 := System(read, map[k := Counter(1, Some(cfg.ttl))], map[1 := Read("client", 0, 1, read)], [o]);
    assert Exec(cfg, 0.0, l5) == Some(s5);
    StragglerEnds(cfg, read, incr, l5, s5, o);
    assert l5 + [Tick(incr), Drop("client", 0), Incr(1)] == Straggler(read, incr);
  }

  lemma ExecEmpty(cfg: Config, t0: real)
    ensures Exec(cfg, t0, []) == Some(Init(t0))
  {
  }

  lemma StragglerEnds(cfg: Config, read: real, incr: real, l5: seq<Step>, s5: System, o: Outcome)
    requires read <= incr <= read + cfg.delay && cfg.ttl <= incr
    requires o == Outcome("client", 0, 1, 0.0, 1, false, true)
    requires s5 == System(read, map[("client", 0) := Counter(1, Some(cfg.ttl))],
                          map[1 := Read("client", 0, 1, read)], [o])
    requires Exec(cfg, 0.0, l5) == Some(s5)
    ensures var steps := l5 + [Tick(incr), Drop("client", 0), Incr(1)];
            Exec(cfg, 0.0, steps).Some? && Admissions(Exec(cfg, 0.0, steps).value.log, "client", 0, 1) == 2
  {
    hide Exec, WindowSec, BucketOf;
    var l6 := l5 + [Tick(incr)];
    ExecStep(cfg, 0.0, l5, Tick(incr));
    var l7 := l6 + [Drop("client", 0)];
    ExecStep(cfg, 0.0, l6, Drop("client", 0));
    var s7 := System(incr, map[], map[1 := Read("client", 0, 1, read)], [o]);
    assert Exec(cfg, 0.0, l7) == Some(s7);
    ExecStep(cfg, 0.0, l7, Incr(1));
    var log := [o, Outcome("client", 0, 1, read, 1, false, true)];
    assert Exec(cfg, 0.0, l7 + [Incr(1)]).value.log == log;
    assert l7 + [Incr(1)] == l5 + [Tick(incr), Drop("client", 0), Incr(1)];
    assert log[..1] == [o] && [o][..0] == [];
    assert Admissions(log, "client", 0, 1) == Admissions([o], "client", 0, 1) + 1;
  }

  /** The fixed window is safe exactly when every increment follows its clock read within the
      time by which a counter outlives its bucket. */
  lemma SafeIff(cfg: Config)
    requires cfg.delay >= 0.0
    ensures Safe(cfg) <==> cfg.delay <= cfg.ttl - WindowSec(cfg.window) as real
  {
    if cfg.delay <= cfg.ttl - WindowSec(cfg.window) as real {
      FastEnoughIsSafe(cfg);
    } else {
      SlowIsUnsafe(cfg);
    }
  }

  /** EXPIRE is called with the window plus one second, which a client may cut to whole seconds:
      for a window of at least one second, increments within a second of the clock read are safe. */
  lemma OneSecondIsSafe(cfg: Config)
    requires cfg.window >= 1.0 && 0.0 <= cfg.delay <= 1.0
    requires cfg.ttl == cfg.window + 1.0 || cfg.ttl == (cfg.window + 1.0).Floor as real
    ensures Safe(cfg)
  {
    SafeIff(cfg);
  }
}
