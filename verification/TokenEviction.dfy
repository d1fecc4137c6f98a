/** The sweep of idle buckets: when a run with sweeps answers exactly like the same run
    without them. */
module TokenEviction {
  import opened TokenBucket

  /** A sweep deletes exactly the buckets that were not used for longer than `ttl`. */
  lemma SweptIff(table: Table, at: real, ttl: real, key: string)
    ensures key in AfterCleanup(table, at, ttl) <==> key in table && at - table[key].lastAccess <= ttl
    ensures key in AfterCleanup(table, at, ttl) ==> AfterCleanup(table, at, ttl)[key] == table[key]
  {
  }

  /** The run with every sweep left out. */
  function Requests(es: seq<Event>): seq<Event> {
    if es == [] then []
    else Requests(es[..|es| - 1]) + if es[|es| - 1].Request? then [es[|es| - 1]] else []
  }

  lemma {:induction false} RequestsRun(es: seq<Event>)
    requires Run(es)
    ensures Run(Requests(es)) && NoCleanup(Requests(es))
    ensures Requests(es) != [] ==> es != [] && Time(Requests(es)[|Requests(es)| - 1]) <= Time(es[|es| - 1])
    ensures forall e :: e in Requests(es) ==> e in es
  {
    if es != [] {
      var before, e := es[..|es| - 1], es[|es| - 1];
      RequestsRun(before);
      if e.Request? {
        var rs := Requests(before);
        assert (rs + [e])[..|rs|] == rs;
      } else {
        assert Requests(es) == Requests(before);
      }
    }
  }

  // ---------------------------------------------------------------- simulation

  /** The swept table is the unswept one with some buckets missing, each of them idle for
      longer than `ttl` and not in debt. */
  ghost predicate Shadows(swept: Table, full: Table, t: real, ttl: real) {
    && (forall k :: k in swept ==> k in full && swept[k] == full[k])
    && (forall k :: k in full ==>
          && full[k].lastAccess == full[k].lastCheck <= t
          && full[k].tokens >= 0.0
          && (k !in swept ==> t - full[k].lastAccess > ttl))
  }

  lemma FreshIsFull(c: Call)
    requires c.window > 0.0 && c.limit >= 0 && c.created <= c.now
    ensures Refilled(Bucket(c.limit as real, c.created, c.created), c) == c.limit as real
  {
    hide Gained;
    GainedNonNegative(c.now - c.created, c.limit, c.window);
  }

  lemma IdleIsFull(b: Bucket, c: Call)
    requires c.window > 0.0 && c.limit >= 0 && b.tokens >= 0.0 && c.now - b.lastCheck >= c.window
    ensures Refilled(b, c) == c.limit as real
  {
    hide Gained;
    FullWindowRefills(c.limit, c.window, c.now - b.lastCheck);
  }

  lemma NeverInDebt(b: Bucket, c: Call)
    requires c.window > 0.0 && c.limit >= 0 && b.tokens >= 0.0 && b.lastCheck <= c.now
    ensures Refilled(b, c) >= 0.0
  {
    hide Gained;
    GainedNonNegative(c.now - b.lastCheck, c.limit, c.window);
  }

  lemma ShadowsSameTokens(swept: Table, full: Table, c: Call, ttl: real)
    requires 0.0 < c.window <= ttl && c.limit >= 0 && c.created <= c.now
    requires Shadows(swept, full, c.now, ttl)
    ensures Refilled(BucketFor(swept, c), c) == Refilled(BucketFor(full, c), c) >= 0.0
  {
    hide Refilled;
    FreshIsFull(c);
    if c.key in swept {
      NeverInDebt(full[c.key], c);
    } else if c.key in full {
      IdleIsFull(full[c.key], c);
    }
  }

  lemma ShadowsAllow(swept: Table, full: Table, c: Call, ttl: real)
    requires 0.0 < c.window <= ttl && c.limit >= 0 && c.created <= c.now
    requires Shadows(swept, full, c.now, ttl)
    ensures Admits(swept, c) == Admits(full, c)
    ensures Shadows(AfterAllow(swept, c), AfterAllow(full, c), c.now, ttl)
  {
    hide Refilled;
    ShadowsSameTokens(swept, full, c, ttl);
  }

  lemma ShadowsLater(swept: Table, full: Table, t0: real, t: real, ttl: real)
    requires Shadows(swept, full, t0, ttl) && t0 <= t
    ensures Shadows(swept, full, t, ttl)
  {
  }

  lemma ShadowsCleanup(swept: Table, full: Table, at: real, ttl: real)
    requires Shadows(swept, full, at, ttl)
    ensures Shadows(AfterCleanup(swept, at, ttl), full, at, ttl)
  {
  }

  ghost predicate Swept(es: seq<Event>, ttl: real) {
    forall e :: e in es && e.Request? ==> e.call.limit >= 0 && e.call.window <= ttl
  }

  lemma AnswersStep(before: seq<Event>, e: Event, ttl: real)
    requires Run(before) && Follows(before, e)
    ensures Run(before + [e])
    ensures TableAfter(before + [e], ttl) == Step(TableAfter(before, ttl), e, ttl)
    ensures Answers(before + [e], ttl) ==
            Answers(before, ttl) + if e.Request? then [Answer(e.call, Admits(TableAfter(before, ttl), e.call))] else []
  {
    hide Admits, AfterAllow, AfterCleanup;
    var es := before + [e];
    assert es[|es| - 1] == e && es[..|es| - 1] == before;
  }

  lemma {:induction false} SweptRunShadows(es: seq<Event>, ttl: real, t: real)
    requires Run(es) && Swept(es, ttl)
    requires es != [] ==> Time(es[|es| - 1]) <= t
    ensures Run(Requests(es))
    ensures Answers(es, ttl) == Answers(Requests(es), ttl)
    ensures Shadows(TableAfter(es, ttl), TableAfter(Requests(es), ttl), t, ttl)
  {
    hide Admits, AfterAllow, AfterCleanup, Answers, TableAfter, Shadows;
    RequestsRun(es);
    if es == [] {
      assert Shadows(map[], map[], t, ttl) by { EmptyShadows(t, ttl); }
      EmptyRun(ttl, "");
    } else {
      var before, e := es[..|es| - 1], es[|es| - 1];
      assert es == before + [e] && e in es;
      SweptRunShadows(before, ttl, Time(e));
      if e.Request? {
        RequestShadows(before, e, ttl);
      } else {
        SweepShadows(before, e, ttl);
      }
      ShadowsLater(TableAfter(es, ttl), TableAfter(Requests(es), ttl), Time(e), t, ttl);
    }
  }

  /** Swept and unswept run answer alike, and their tables correspond. */
  ghost predicate Correspond(es: seq<Event>, ttl: real, t: real) {
    && Run(es) && Run(Requests(es))
    && Answers(es, ttl) == Answers(Requests(es), ttl)
    && Shadows(TableAfter(es, ttl), TableAfter(Requests(es), ttl), t, ttl)
  }

  lemma RequestShadows(before: seq<Event>, e: Event, ttl: real)
    requires e.Request? && e.call.limit >= 0 && e.call.window <= ttl && Follows(before, e)
    requires Correspond(before, ttl, Time(e))
    ensures Correspond(before + [e], ttl, Time(e))
  {
    hide Admits, AfterAllow, AfterCleanup, Answers, TableAfter, Shadows;
    RequestsRun(before);
    var rs := Requests(before);
    RequestsStep(before, e);
    AnswersStep(before, e, ttl);
    AnswersStep(rs, e, ttl);
    ShadowsAllow(TableAfter(before, ttl), TableAfter(rs, ttl), e.call, ttl);
  }

  lemma SweepShadows(before: seq<Event>, e: Event, ttl: real)
    requires e.Cleanup? && Follows(before, e) && Correspond(before, ttl, Time(e))
    ensures Correspond(before + [e], ttl, Time(e))
  {
    hide Admits, AfterAllow, AfterCleanup, Answers, TableAfter, Shadows;
    RequestsStep(before, e);
    AnswersStep(before, e, ttl);
    ShadowsCleanup(TableAfter(before, ttl), TableAfter(Requests(before), ttl), e.at, ttl);
  }

  lemma RequestsStep(before: seq<Event>, e: Event)
    ensures Requests(before + [e]) == if e.Request? then Requests(before) + [e] else Requests(before)
  {
    assert (before + [e])[..|before|] == before;
    assert Requests(before) + [] == Requests(before);
  }

  lemma EmptyShadows(t: real, ttl: real)
    ensures Shadows(map[], map[], t, ttl)
  {
  }

  /** For every run, even one whose calls change their limit and window, sweeping idle buckets
      at any moments changes no answer, as long as no window outlasts the idle time. */
  lemma EvictionUnobservable(es: seq<Event>, ttl: real)
    requires Run(es) && Swept(es, ttl)
    ensures Run(Requests(es)) && Answers(es, ttl) == Answers(Requests(es), ttl)
  {
    SweptRunShadows(es, ttl, if es == [] then 0.0 else Time(es[|es| - 1]));
  }

  // ---------------------------------------------------------------- exactly when

  ghost predicate AllUse(es: seq<Event>, limit: int, window: real) {
    forall e :: e in es && e.Request? ==> e.call.limit == limit && e.call.window == window
  }

  /** No run whose calls all use this limit and window can tell that buckets are swept. */
  ghost predicate EvictionInvisible(limit: int, window: real, ttl: real) {
    forall es :: Run(es) && AllUse(es, limit, window) ==>
      Run(Requests(es)) && Answers(es, ttl) == Answers(Requests(es), ttl)
  }

  /** A limit below one refuses every request. */
  lemma {:induction false} NothingAdmitted(es: seq<Event>, limit: int, window: real, ttl: real)
    requires Run(es) && AllUse(es, limit, window) && limit <= 0
    ensures Run(Requests(es)) && Answers(es, ttl) == Answers(Requests(es), ttl)
  {
    hide Admits, AfterAllow, AfterCleanup, Answers, TableAfter;
    RequestsRun(es);
    if es != [] {
      var before, e := es[..|es| - 1], es[|es| - 1];
      assert es == before + [e] && e in es;
      NothingAdmitted(before, limit, window, ttl);
      RequestsRun(before);
      AnswersStep(before, e, ttl);
      if e.Request? {
        AnswersStep(Requests(before), e, ttl);
        NoRoom(TableAfter(before, ttl), e.call);
        NoRoom(TableAfter(Requests(before), ttl), e.call);
      } else {
        assert Requests(before) + [] == Requests(before);
      }
    } else {
      assert Requests(es) == es;
    }
  }

  lemma NoRoom(table: Table, c: Call)
    requires c.window > 0.0 && c.limit <= 0
    ensures !Admits(table, c)
  {
  }

  function CallAt(t: real, limit: int, window: real): Call {
    Call("client", limit, window, t, t)
  }

  function Burst(n: nat, t: real, limit: int, window: real): (es: seq<Event>)
    ensures |es| == n && forall e :: e in es ==> e == Request(CallAt(t, limit, window))
  {
    seq(n, i => Request(CallAt(t, limit, window)))
  }

  function Repeat(n: nat, t: real): seq<real> {
    seq(n, i => t)
  }

  /** `n` requests at one instant, on a full or missing bucket, are all admitted. */
  lemma {:induction false} BurstAdmitted(before: seq<Event>, n: nat, t: real, limit: int, window: real, ttl: real)
    requires Run(before) && window > 0.0 && n <= limit
    requires before != [] ==> Time(before[|before| - 1]) <= t
    requires "client" !in TableAfter(before, ttl)
    ensures var es := before + Burst(n, t, limit, window);
            && Run(es)
            && (es != [] ==> Time(es[|es| - 1]) <= t)
            && Admitted(es, ttl, "client") == Admitted(before, ttl, "client") + Repeat(n, t)
            && (n > 0 ==> "client" in TableAfter(es, ttl) &&
                          TableAfter(es, ttl)["client"] == Bucket((limit - n) as real, t, t))
  {
    hide Rate, Admitted, TableAfter, Admits, AfterAllow, Burst, Repeat, Run, Follows;
    BurstAndRepeat(n, t, limit, window);
    var history := Admitted(before, ttl, "client");
    if n == 0 {
      assert before + [] == before;
      assert history + [] == history;
    } else {
      var shorter := before + Burst(n - 1, t, limit, window);
      BurstAdmitted(before, n - 1, t, limit, window, ttl);
      BurstAndRepeat(n - 1, t, limit, window);
      var e := Request(CallAt(t, limit, window));
      assert Follows(shorter, e) by { MayFollow(shorter, t, limit, window); }
      HistoryStep(shorter, e, ttl, "client");
      assert shorter + [e] == before + Burst(n, t, limit, window);
      if n == 1 {
        assert shorter == before;
      } else {
        assert TableAfter(shorter, ttl)["client"] == Bucket((limit - (n - 1)) as real, t, t);
      }
      NoTimeNoRefill(TableAfter(shorter, ttl), e.call, n);
      assert (history + Repeat(n - 1, t)) + [t] == history + Repeat(n, t);
    }
  }

  lemma BurstAndRepeat(n: nat, t: real, limit: int, window: real)
    ensures n == 0 ==> Burst(n, t, limit, window) == [] && Repeat(n, t) == []
    ensures n > 0 ==>
              && Burst(n, t, limit, window) == Burst(n - 1, t, limit, window) + [Request(CallAt(t, limit, window))]
              && Repeat(n, t) == Repeat(n - 1, t) + [t]
  {
  }

  lemma MayFollow(before: seq<Event>, t: real, limit: int, window: real)
    requires window > 0.0 && (before != [] ==> Time(before[|before| - 1]) <= t)
    ensures Follows(before, Request(CallAt(t, limit, window)))
  {
  }

  lemma NoTimeNoRefill(table: Table, c: Call, n: nat)
    requires c.created == c.now && c.window > 0.0 && 1 <= n <= c.limit
    requires if n == 1 then c.key !in table
             else c.key in table && table[c.key] == Bucket((c.limit - n + 1) as real, c.now, c.now)
    ensures Admits(table, c)
    ensures c.key in AfterAllow(table, c)
    ensures AfterAllow(table, c)[c.key] == Bucket((c.limit - n) as real, c.now, c.now)
  {
    var b := BucketFor(table, c);
    assert Gained(c.now - b.lastCheck, c.limit, c.window) == 0.0;
    assert b.tokens == (c.limit - n + 1) as real;
    assert (c.limit - n + 1) as real - 1.0 == (c.limit - n) as real;
  }

  /** A burst, a sweep once the bucket is old enough but not yet refilled, and another burst. */
  function Exposing(t: real, limit: nat, window: real): seq<Event> {
    Burst(limit, 0.0, limit, window) + [Cleanup(t)] + Burst(limit, t, limit, window)
  }

  lemma ExposingAdmitsTwice(t: real, limit: nat, window: real, ttl: real)
    requires limit >= 1 && window > 0.0 && t > ttl && t >= 0.0
    ensures Run(Exposing(t, limit, window))
    ensures Admitted(Exposing(t, limit, window), ttl, "client") == Repeat(limit, 0.0) + Repeat(limit, t)
  {
    hide Admitted, TableAfter, Burst, Repeat, Run, Follows;
    EmptyRun(ttl, "client");
    EmptyIsRun();
    BurstAdmitted([], limit, 0.0, limit, window, ttl);
    var first := Burst(limit, 0.0, limit, window);
    assert [] + first == first;
    assert [] + Repeat(limit, 0.0) == Repeat(limit, 0.0);
    SweepMayFollow(first, t);
    SweepForgets(first, t, ttl, limit);
    var swept := first + [Cleanup(t)];
    assert swept[|swept| - 1] == Cleanup(t);
    BurstAdmitted(swept, limit, t, limit, window, ttl);
  }

  lemma EmptyIsRun()
    ensures Run([])
  {
  }

  lemma SweepMayFollow(before: seq<Event>, t: real)
    requires before != [] && Time(before[|before| - 1]) <= t
    ensures Follows(before, Cleanup(t))
  {
  }

  lemma SweepForgets(before: seq<Event>, t: real, ttl: real, limit: nat)
    requires Run(before) && Follows(before, Cleanup(t)) && t > ttl
    requires "client" in TableAfter(before, ttl) && TableAfter(before, ttl)["client"].lastAccess == 0.0
    ensures Run(before + [Cleanup(t)])
    ensures "client" !in TableAfter(before + [Cleanup(t)], ttl)
    ensures Admitted(before + [Cleanup(t)], ttl, "client") == Admitted(before, ttl, "client")
  {
    hide Admitted, TableAfter;
    HistoryStep(before, Cleanup(t), ttl, "client");
    assert Admitted(before, ttl, "client") + [] == Admitted(before, ttl, "client");
  }

  lemma ExposingAllUse(t: real, limit: nat, window: real)
    ensures AllUse(Exposing(t, limit, window), limit, window)
  {
  }

  /** Without the sweep the same requests cannot all be admitted. */
  lemma TooManyForOneWindow(es: seq<Event>, t: real, limit: nat, window: real, ttl: real)
    requires Run(es) && NoCleanup(es) && AllUse(es, limit, window)
    requires limit >= 1 && 0.0 <= t < window
    ensures Admitted(es, ttl, "client") != Repeat(limit, 0.0) + Repeat(limit, t)
  {
    hide Admitted, Run, NoCleanup, Repeat, Rate;
    var twice := Repeat(limit, 0.0) + Repeat(limit, t);
    TwoBursts(t, limit);
    ShortOfRefill(t, limit, window);
    assert Fixed(es, "client", limit, window);
    if Admitted(es, ttl, "client") == twice {
      BurstBound(es, ttl, "client", limit, window, 0, 2 * limit - 1);
    }
  }

  lemma TwoBursts(t: real, limit: nat)
    requires limit >= 1
    ensures var twice := Repeat(limit, 0.0) + Repeat(limit, t);
            |twice| == 2 * limit && twice[0] == 0.0 && twice[2 * limit - 1] == t
  {
  }

  lemma ShortOfRefill(t: real, limit: nat, window: real)
    requires limit >= 1 && 0.0 <= t < window
    ensures (t - 0.0) * Rate(limit, window) < limit as real
  {
    var rate := Rate(limit, window);
    assert window * rate == limit as real;
    RatePositive(limit, window);
    assert (window - t) * rate > 0.0;
  }

  /** Sweeping is unobservable exactly for windows that fit in the idle time (a limit below
      one admits nothing either way). */
  lemma EvictionInvisibleIff(limit: int, window: real, ttl: real)
    requires window > 0.0
    ensures EvictionInvisible(limit, window, ttl) <==> limit <= 0 || window <= ttl
  {
    if limit <= 0 {
      forall es | Run(es) && AllUse(es, limit, window)
        ensures Run(Requests(es)) && Answers(es, ttl) == Answers(Requests(es), ttl)
      {
        NothingAdmitted(es, limit, window, ttl);
      }
    } else if window <= ttl {
      forall es | Run(es) && AllUse(es, limit, window)
        ensures Run(Requests(es)) && Answers(es, ttl) == Answers(Requests(es), ttl)
      {
        EvictionUnobservable(es, ttl);
      }
    } else {
      var t := if ttl < 0.0 then window / 2.0 else (window + ttl) / 2.0;
      var es := Exposing(t, limit, window);
      ExposingAdmitsTwice(t, limit, window, ttl);
      ExposingAllUse(t, limit, window);
      RequestsRun(es);
      TooManyForOneWindow(Requests(es), t, limit, window, ttl);
    }
  }
}
