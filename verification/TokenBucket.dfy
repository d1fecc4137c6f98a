/** The in-process token bucket of the rate limiter, as a step function over a
    table of buckets, and what it means over a whole run.

    Times are seconds as reals, never decreasing along a run. A mutex-held method
    of the limiter is one atomic step. */
module TokenBucket {
  import opened Text

  datatype Bucket = Bucket(tokens: real, lastCheck: real, lastAccess: real)

  type Table = map<string, Bucket>

  /** The arguments of one `Allow` and its clock readings. `created` is read first
      and used only when the key has no bucket. */
  datatype Call = Call(key: string, limit: int, window: real, created: real, now: real)

  datatype Event = Request(call: Call) | Cleanup(at: real)

  datatype Answer = Answer(call: Call, admitted: bool)

  /** How long an idle bucket is kept, in seconds. */
  const BUCKET_TTL: real := 1800.0

  // ---------------------------------------------------------------- steps

  function Rate(limit: int, window: real): real
    requires window > 0.0
  {
    limit as real / window
  }

  /** Tokens that flow back in `elapsed` seconds. */
  function Gained(elapsed: real, limit: int, window: real): real
    requires window > 0.0
  {
    elapsed * Rate(limit, window)
  }

  function BucketFor(table: Table, c: Call): Bucket {
    if c.key in table then table[c.key] else Bucket(c.limit as real, c.created, c.created)
  }

  function Refilled(b: Bucket, c: Call): real
    requires c.window > 0.0
  {
    MinReal(b.tokens + Gained(c.now - b.lastCheck, c.limit, c.window), c.limit as real)
  }

  predicate Admits(table: Table, c: Call)
    requires c.window > 0.0
  {
    Refilled(BucketFor(table, c), c) >= 1.0
  }

  function AfterAllow(table: Table, c: Call): Table
    requires c.window > 0.0
  {
    var tokens := Refilled(BucketFor(table, c), c);
    table[c.key := Bucket(if tokens >= 1.0 then tokens - 1.0 else tokens, c.now, c.now)]
  }

  predicate Expired(b: Bucket, at: real, ttl: real) {
    at - b.lastAccess > ttl
  }

  function AfterCleanup(table: Table, at: real, ttl: real): Table {
    map k | k in table && !Expired(table[k], at, ttl) :: table[k]
  }

  // ---------------------------------------------------------------- runs

  function Time(e: Event): real {
    match e
    case Request(c) => c.now
    case Cleanup(at) => at
  }

  /** When the event starts looking at the clock. */
  function Begin(e: Event): real {
    match e
    case Request(c) => c.created
    case Cleanup(at) => at
  }

  /** A run the clock and the interface allow: positive windows, clock readings in order. */
  ghost predicate Run(es: seq<Event>) {
    es == [] || (Run(es[..|es| - 1]) && Follows(es[..|es| - 1], es[|es| - 1]))
  }

  /** `e` may come next: it starts after the last event of `before` and takes no negative time. */
  ghost predicate Follows(before: seq<Event>, e: Event) {
    && Begin(e) <= Time(e)
    && (before != [] ==> Time(before[|before| - 1]) <= Begin(e))
    && (e.Request? ==> e.call.window > 0.0)
  }

  function Step(table: Table, e: Event, ttl: real): Table
    requires e.Request? ==> e.call.window > 0.0
  {
    match e
    case Request(c) => AfterAllow(table, c)
    case Cleanup(at) => AfterCleanup(table, at, ttl)
  }

  ghost function TableAfter(es: seq<Event>, ttl: real): Table
    requires Run(es)
  {
    if es == [] then map[]
    else Step(TableAfter(es[..|es| - 1], ttl), es[|es| - 1], ttl)
  }

  /** The answers of a run that starts with no buckets, in order. */
  ghost function Answers(es: seq<Event>, ttl: real): seq<Answer>
    requires Run(es)
  {
    if es == [] then []
    else
      var before, e := es[..|es| - 1], es[|es| - 1];
      match e
      case Request(c) => Answers(before, ttl) + [Answer(c, Admits(TableAfter(before, ttl), c))]
      case Cleanup(_) => Answers(before, ttl)
  }

  /** The times at which requests of `key` were admitted, in order. */
  function AdmittedTimes(log: seq<Answer>, key: string): seq<real> {
    if log == [] then []
    else
      var before, a := log[..|log| - 1], log[|log| - 1];
      AdmittedTimes(before, key) +
      if a.admitted && a.call.key == key then [a.call.now] else []
  }

  /** The history of `key` after a run. */
  ghost function Admitted(es: seq<Event>, ttl: real, key: string): seq<real>
    requires Run(es)
  {
    AdmittedTimes(Answers(es, ttl), key)
  }

  /** Every request of `key` in the run uses this limit and this window. */
  ghost predicate Fixed(es: seq<Event>, key: string, limit: int, window: real) {
    forall e :: e in es && e.Request? && e.call.key == key ==> e.call.limit == limit && e.call.window == window
  }

  ghost predicate NoCleanup(es: seq<Event>) {
    forall e :: e in es ==> e.Request?
  }

  // ---------------------------------------------------------------- the simple statement

  /** One more admission at `t` would keep, for every earlier admission, the number of
      admissions since then within the burst plus the refill. */
  ghost predicate WithinBurst(admitted: seq<real>, t: real, limit: int, rate: real) {
    && limit >= 1
    && forall i :: 0 <= i < |admitted| ==>
         (|admitted| - i + 1) as real <= limit as real + (t - admitted[i]) * rate
  }

  // ---------------------------------------------------------------- a bucket that only remembers admissions

  /* From here to the main results, time is measured in tokens, so that refilling is
     plain addition. */

  function PointAt(t: real, rate: real): real {
    t * rate
  }

  function Points(times: seq<real>, rate: real): (p: seq<real>)
    ensures |p| == |times|
    ensures forall i :: 0 <= i < |p| ==> p[i] == PointAt(times[i], rate)
  {
    seq(|times|, i requires 0 <= i < |times| => PointAt(times[i], rate))
  }

  lemma PointsExtend(times: seq<real>, t: real, rate: real)
    ensures Points(times + [t], rate) == Points(times, rate) + [PointAt(t, rate)]
  {
    var p, q := Points(times + [t], rate), Points(times, rate) + [PointAt(t, rate)];
    forall i | 0 <= i < |p| ensures p[i] == q[i] {
      if i < |times| {
        assert (times + [t])[i] == times[i];
      }
    }
  }

  /** The tokens at point `p` of a bucket that starts full and lost one token at each of
      the given points. */
  function Available(points: seq<real>, p: real, limit: real): (tokens: real)
    ensures tokens <= limit
  {
    if points == [] then limit
    else
      var n := |points| - 1;
      MinReal(Available(points[..n], points[n], limit) - 1.0 + (p - points[n]), limit)
  }

  lemma {:induction false} AvailableMeaning(points: seq<real>, p: real, limit: real, x: real)
    ensures Available(points, p, limit) >= x <==>
            x <= limit &&
            forall i :: 0 <= i < |points| ==> x + (|points| - i) as real <= limit + (p - points[i])
  {
    if points == [] {
    } else {
      var n := |points| - 1;
      var prefix := points[..n];
      var y := x + 1.0 - (p - points[n]);
      AvailableMeaning(prefix, points[n], limit, y);
      assert forall i :: 0 <= i < n ==> prefix[i] == points[i];
      assert forall i :: 0 <= i < n ==> (|points| - i) as real == (n - i) as real + 1.0 + 0.0 * points[i];
    }
  }

  lemma AvailableFlows(points: seq<real>, p0: real, p: real, limit: real)
    requires p0 <= p
    ensures Available(points, p, limit) == MinReal(Available(points, p0, limit) + (p - p0), limit)
  {
  }

  lemma AvailableAfterAdmission(points: seq<real>, p: real, limit: real)
    ensures Available(points + [p], p, limit) == Available(points, p, limit) - 1.0
  {
    assert (points + [p])[..|points|] == points;
  }

  lemma Distribute(a: real, b: real, rate: real)
    ensures (b - a) * rate == PointAt(b, rate) - PointAt(a, rate)
  {
  }

  lemma Ordered(a: real, b: real, rate: real)
    requires a <= b && rate >= 0.0
    ensures PointAt(a, rate) <= PointAt(b, rate)
  {
  }

  lemma RatePositive(limit: int, window: real)
    requires window > 0.0 && limit >= 1
    ensures Rate(limit, window) > 0.0
  {
  }

  lemma GainedIsDistance(from: real, now: real, limit: int, window: real)
    requires window > 0.0
    ensures Gained(now - from, limit, window) ==
            PointAt(now, Rate(limit, window)) - PointAt(from, Rate(limit, window))
  {
    Distribute(from, now, Rate(limit, window));
  }

  lemma GainedNonNegative(elapsed: real, limit: int, window: real)
    requires window > 0.0 && limit >= 0 && elapsed >= 0.0
    ensures Gained(elapsed, limit, window) >= 0.0
  {
    var rate := Rate(limit, window);
    assert rate >= 0.0;
    assert elapsed * rate >= 0.0;
  }

  lemma FullWindowRefills(limit: int, window: real, elapsed: real)
    requires window > 0.0 && limit >= 0 && elapsed >= window
    ensures Gained(elapsed, limit, window) >= limit as real
  {
    var rate := Rate(limit, window);
    assert rate >= 0.0;
    assert window * rate == limit as real;
    Ordered(window, elapsed, rate);
  }

  // ---------------------------------------------------------------- the table against the history

  /** What the table knows about `key` once the clock has reached `t`. */
  ghost predicate Agrees(table: Table, key: string, points: seq<real>, t: real, limit: real, rate: real) {
    if key in table then
      var b := table[key];
      && b.lastAccess == b.lastCheck <= t
      && b.tokens >= 0.0
      && b.tokens == Available(points, PointAt(b.lastCheck, rate), limit)
    else Available(points, PointAt(t, rate), limit) == limit
  }

  lemma AgreesLater(table: Table, key: string, points: seq<real>, t0: real, t: real, limit: real, rate: real)
    requires Agrees(table, key, points, t0, limit, rate) && t0 <= t && rate >= 0.0
    ensures Agrees(table, key, points, t, limit, rate)
  {
    if key !in table {
      Ordered(t0, t, rate);
      AvailableFlows(points, PointAt(t0, rate), PointAt(t, rate), limit);
    }
  }

  lemma EmptyAgrees(key: string, t: real, limit: real, rate: real)
    ensures Agrees(map[], key, Points([], rate), t, limit, rate)
  {
  }

  /** A refilled bucket holds exactly what the history leaves. */
  lemma RefilledIsAvailable(table: Table, c: Call, points: seq<real>)
    requires c.window > 0.0 && c.limit >= 1 && c.created <= c.now
    requires Agrees(table, c.key, points, c.now, c.limit as real, Rate(c.limit, c.window))
    ensures Refilled(BucketFor(table, c), c) ==
            Available(points, PointAt(c.now, Rate(c.limit, c.window)), c.limit as real) >= 0.0
  {
    hide Rate, Gained, PointAt;
    var rate := Rate(c.limit, c.window);
    RatePositive(c.limit, c.window);
    var from := BucketFor(table, c).lastCheck;
    GainedIsDistance(from, c.now, c.limit, c.window);
    Ordered(from, c.now, rate);
    if c.key in table {
      AvailableFlows(points, PointAt(from, rate), PointAt(c.now, rate), c.limit as real);
    }
  }

  lemma AllowAgrees(table: Table, c: Call, points: seq<real>)
    requires c.window > 0.0 && c.limit >= 1 && c.created <= c.now
    requires Agrees(table, c.key, points, c.now, c.limit as real, Rate(c.limit, c.window))
    ensures var rate := Rate(c.limit, c.window);
            var points' := if Admits(table, c) then points + [PointAt(c.now, rate)] else points;
            Agrees(AfterAllow(table, c), c.key, points', c.now, c.limit as real, rate)
  {
    RefilledIsAvailable(table, c, points);
    AvailableAfterAdmission(points, PointAt(c.now, Rate(c.limit, c.window)), c.limit as real);
  }

  lemma AllowKeepsOthers(table: Table, c: Call, key: string)
    requires c.window > 0.0 && key != c.key
    ensures var table' := AfterAllow(table, c);
            (key in table' <==> key in table) && (key in table ==> table'[key] == table[key])
  {
    hide Refilled;
  }

  lemma CleanupAgrees(table: Table, key: string, points: seq<real>, at: real, ttl: real, limit: int, window: real)
    requires limit >= 1 && 0.0 < window <= ttl
    requires Agrees(table, key, points, at, limit as real, Rate(limit, window))
    ensures Agrees(AfterCleanup(table, at, ttl), key, points, at, limit as real, Rate(limit, window))
  {
    hide Rate, Gained, PointAt;
    if key in table && Expired(table[key], at, ttl) {
      var from, rate := table[key].lastCheck, Rate(limit, window);
      RatePositive(limit, window);
      Ordered(from, at, rate);
      GainedIsDistance(from, at, limit, window);
      FullWindowRefills(limit, window, at - from);
      AvailableFlows(points, PointAt(from, rate), PointAt(at, rate), limit as real);
    }
  }

  predicate AdmitsKey(table: Table, e: Event, key: string)
    requires e.Request? ==> e.call.window > 0.0
  {
    e.Request? && e.call.key == key && Admits(table, e.call)
  }

  /** What the last event of a run does to the table and adds to the history of `key`. */
  lemma HistoryStep(before: seq<Event>, e: Event, ttl: real, key: string)
    requires Run(before) && Follows(before, e)
    ensures Run(before + [e])
    ensures TableAfter(before + [e], ttl) == Step(TableAfter(before, ttl), e, ttl)
    ensures Admitted(before + [e], ttl, key) ==
            Admitted(before, ttl, key) + if AdmitsKey(TableAfter(before, ttl), e, key) then [Time(e)] else []
  {
    hide Admits, AfterAllow, AfterCleanup, Rate;
    var es := before + [e];
    assert es[|es| - 1] == e && es[..|es| - 1] == before;
    var log := Answers(before, ttl);
    if e.Request? {
      var a := Answer(e.call, Admits(TableAfter(before, ttl), e.call));
      assert Answers(es, ttl) == log + [a];
      assert (log + [a])[..|log|] == log;
    }
  }

  /** One event keeps the table and the history of `key` in agreement. */
  lemma StepAgrees(table: Table, e: Event, ttl: real, key: string, points: seq<real>, limit: int, window: real)
    requires limit >= 1 && window > 0.0 && Begin(e) <= Time(e)
    requires e.Request? ==>
               e.call.window > 0.0 && (e.call.key == key ==> e.call.limit == limit && e.call.window == window)
    requires e.Cleanup? ==> window <= ttl
    requires Agrees(table, key, points, Time(e), limit as real, Rate(limit, window))
    ensures var rate := Rate(limit, window);
            var points' := if AdmitsKey(table, e, key) then points + [PointAt(Time(e), rate)] else points;
            Agrees(Step(table, e, ttl), key, points', Time(e), limit as real, rate)
  {
    hide Rate, PointAt, Admits, AfterAllow, AfterCleanup, Available;
    match e {
      case Request(c) =>
        if c.key == key {
          AllowAgrees(table, c, points);
        } else {
          AllowKeepsOthers(table, c, key);
        }
      case Cleanup(at) =>
        CleanupAgrees(table, key, points, at, ttl, limit, window);
    }
  }

  lemma {:induction false} RunAgrees(es: seq<Event>, ttl: real, key: string, limit: int, window: real, t: real)
    requires Run(es) && Fixed(es, key, limit, window)
    requires limit >= 1 && window > 0.0 && (window <= ttl || NoCleanup(es))
    requires es != [] ==> Time(es[|es| - 1]) <= t
    ensures var rate := Rate(limit, window);
            Agrees(TableAfter(es, ttl), key, Points(Admitted(es, ttl, key), rate), t, limit as real, rate)
  {
    hide Rate, PointAt, Admits, AdmitsKey, Step, Available, Points, TableAfter, Admitted, Agrees, Run, Fixed, NoCleanup;
    var rate := Rate(limit, window);
    RatePositive(limit, window);
    if es == [] {
      EmptyRun(ttl, key);
      EmptyAgrees(key, t, limit as real, rate);
    } else {
      var before, e := es[..|es| - 1], es[|es| - 1];
      RunSplit(es, key, limit, window);
      RunAgrees(before, ttl, key, limit, window, Time(e));
      var table, admitted := TableAfter(before, ttl), Admitted(before, ttl, key);
      StepAgrees(table, e, ttl, key, Points(admitted, rate), limit, window);
      HistoryStep(before, e, ttl, key);
      if AdmitsKey(table, e, key) {
        PointsExtend(admitted, Time(e), rate);
      } else {
        assert admitted + [] == admitted;
      }
      AgreesLater(TableAfter(es, ttl), key, Points(Admitted(es, ttl, key), rate), Time(e), t, limit as real, rate);
    }
  }

  lemma RunSplit(es: seq<Event>, key: string, limit: int, window: real)
    requires es != [] && Run(es) && Fixed(es, key, limit, window)
    ensures var before, e := es[..|es| - 1], es[|es| - 1];
            && es == before + [e] && e in es
            && Run(before) && Follows(before, e)
            && Fixed(before, key, limit, window) && (NoCleanup(es) ==> NoCleanup(before) && e.Request?)
            && (e.Request? && e.call.key == key ==> e.call.limit == limit && e.call.window == window)
  {
  }

  lemma EmptyRun(ttl: real, key: string)
    ensures TableAfter([], ttl) == map[] && Admitted([], ttl, key) == []
  {
  }

  // ---------------------------------------------------------------- main results

  lemma PointsWithinBurst(admitted: seq<real>, t: real, limit: int, rate: real)
    requires limit >= 1
    ensures WithinBurst(admitted, t, limit, rate) <==>
            Available(Points(admitted, rate), PointAt(t, rate), limit as real) >= 1.0
  {
    var points := Points(admitted, rate);
    AvailableMeaning(points, PointAt(t, rate), limit as real, 1.0);
    forall i | 0 <= i < |admitted|
      ensures (t - admitted[i]) * rate == PointAt(t, rate) - points[i]
    {
      Distribute(admitted[i], t, rate);
    }
  }

  lemma AdmitsExact(es: seq<Event>, ttl: real, c: Call)
    requires Run(es) && Run(es + [Request(c)]) && c.window > 0.0
    requires Fixed(es, c.key, c.limit, c.window)
    requires c.window <= ttl || NoCleanup(es)
    ensures Admits(TableAfter(es, ttl), c) <==>
            WithinBurst(Admitted(es, ttl, c.key), c.now, c.limit, Rate(c.limit, c.window))
  {
    hide Rate, PointAt, TableAfter, Admitted, Available, Points;
    var all := es + [Request(c)];
    assert all[|es|] == Request(c) && all[..|es|] == es;
    var admitted := Admitted(es, ttl, c.key);
    if c.limit >= 1 {
      PointsWithinBurst(admitted, c.now, c.limit, Rate(c.limit, c.window));
      RunAgrees(es, ttl, c.key, c.limit, c.window, c.now);
      RefilledIsAvailable(TableAfter(es, ttl), c, Points(admitted, Rate(c.limit, c.window)));
    }
  }

  /** After any run, whatever happened to other keys and whenever idle buckets were swept, a
      request is admitted exactly when the admissions of its own key leave room for it. */
  lemma TokenBucketExact(es: seq<Event>, ttl: real, c: Call)
    requires Run(es) && Follows(es, Request(c))
    requires Fixed(es, c.key, c.limit, c.window)
    requires c.window <= ttl || NoCleanup(es)
    ensures Run(es + [Request(c)])
    ensures Answers(es + [Request(c)], ttl) ==
            Answers(es, ttl) +
            [Answer(c, WithinBurst(Admitted(es, ttl, c.key), c.now, c.limit, Rate(c.limit, c.window)))]
  {
    hide Admits, AfterAllow, AfterCleanup, Rate, WithinBurst;
    HistoryStep(es, Request(c), ttl, c.key);
    AdmitsExact(es, ttl, c);
    var all := es + [Request(c)];
    assert all[|es|] == Request(c) && all[..|es|] == es;
  }

  /** Every answer of every run, by the answers before it. */
  lemma {:induction false} EveryAnswerExact(es: seq<Event>, ttl: real, i: nat)
    requires Run(es) && i < |Answers(es, ttl)|
    requires var c := Answers(es, ttl)[i].call;
             Fixed(es, c.key, c.limit, c.window) && (c.window <= ttl || NoCleanup(es))
    ensures var a := Answers(es, ttl)[i];
            && a.call.window > 0.0
            && a.admitted == WithinBurst(AdmittedTimes(Answers(es, ttl)[..i], a.call.key), a.call.now,
                                         a.call.limit, Rate(a.call.limit, a.call.window))
  {
    hide Admits, AfterAllow, AfterCleanup, Rate, WithinBurst, Fixed, NoCleanup;
    var before, e := es[..|es| - 1], es[|es| - 1];
    var log, c := Answers(before, ttl), Answers(es, ttl)[i].call;
    assert es == before + [e];
    RunSplit(es, c.key, c.limit, c.window);
    if i < |log| {
      EveryAnswerExact(before, ttl, i);
      assert Answers(es, ttl)[i] == log[i] && Answers(es, ttl)[..i] == log[..i];
    } else {
      assert Answers(es, ttl)[i] == Answer(e.call, Admits(TableAfter(before, ttl), e.call));
      TokenBucketExact(before, ttl, c);
      assert Answers(es, ttl)[..i] == log;
    }
  }

  /** Over any stretch of a run, one key is admitted at most its burst plus the refill
      of that stretch. */
  lemma {:induction false} BurstBound(es: seq<Event>, ttl: real, key: string, limit: int, window: real, i: nat, j: nat)
    requires Run(es) && Fixed(es, key, limit, window) && window > 0.0
    requires window <= ttl || NoCleanup(es)
    requires i <= j < |Admitted(es, ttl, key)|
    ensures var admitted := Admitted(es, ttl, key);
            limit >= 1 &&
            (j - i + 1) as real <= limit as real + (admitted[j] - admitted[i]) * Rate(limit, window)
    decreases |es|
  {
    hide Rate, Admits, Step, TableAfter, Admitted, WithinBurst;
    EmptyRun(ttl, key);
    var before, e := es[..|es| - 1], es[|es| - 1];
    assert es == before + [e] && e in es;
    HistoryStep(before, e, ttl, key);
    var admitted := Admitted(before, ttl, key);
    if j < |admitted| {
      BurstBound(before, ttl, key, limit, window, i, j);
    } else {
      AdmitsExact(before, ttl, e.call);
      LastWithinBurst(admitted, Time(e), limit, Rate(limit, window), i);
    }
  }

  lemma LastWithinBurst(admitted: seq<real>, t: real, limit: int, rate: real, i: nat)
    requires WithinBurst(admitted, t, limit, rate) && i <= |admitted|
    ensures limit >= 1
    ensures (|admitted| - i + 1) as real <= limit as real + (t - (admitted + [t])[i]) * rate
  {
    if i == |admitted| {
      assert (t - (admitted + [t])[i]) == 0.0;
    } else {
      assert (admitted + [t])[i] == admitted[i];
    }
  }
}
