/** The agent's event counter as a step function over stored times, and its agreement with the
    full history. Times are nanoseconds and never decrease along a run. */
module SlidingWindow {

  type Counts = map<string, seq<int>>

  /** The times after the cutoff, in order. */
  function After(times: seq<int>, cutoff: int): (kept: seq<int>)
    ensures |kept| <= |times|
  {
    if times == [] then []
    else
      var last := times[|times| - 1];
      After(times[..|times| - 1], cutoff) + if last > cutoff then [last] else []
  }

  function Stored(counts: Counts, ip: string): seq<int> {
    if ip in counts then counts[ip] else []
  }

  function AfterRecord(counts: Counts, ip: string, now: int, window: int): Counts {
    counts[ip := After(Stored(counts, ip), now - window) + [now]]
  }

  function AfterCleanup(counts: Counts, now: int, window: int): Counts {
    map ip | ip in counts && After(counts[ip], now - window) != [] :: After(counts[ip], now - window)
  }

  /** What `record` returns. */
  predicate Answer(counts: Counts, ip: string, now: int, window: int, threshold: int) {
    |After(Stored(counts, ip), now - window)| + 1 >= threshold
  }

  datatype Event = Record(ip: string, now: int) | Cleanup(now: int)

  ghost predicate Run(es: seq<Event>) {
    es == [] || (Run(es[..|es| - 1]) && Follows(es[..|es| - 1], es[|es| - 1]))
  }

  ghost predicate Follows(before: seq<Event>, e: Event) {
    before != [] ==> before[|before| - 1].now <= e.now
  }

  function Step(counts: Counts, e: Event, window: int): Counts {
    match e
    case Record(ip, now) => AfterRecord(counts, ip, now, window)
    case Cleanup(now) => AfterCleanup(counts, now, window)
  }

  function CountsAfter(es: seq<Event>, window: int): Counts {
    if es == [] then map[] else Step(CountsAfter(es[..|es| - 1], window), es[|es| - 1], window)
  }

  /** All times ever recorded for `ip`, in order. */
  function History(es: seq<Event>, ip: string): seq<int> {
    if es == [] then []
    else
      var e := es[|es| - 1];
      History(es[..|es| - 1], ip) + if e.Record? && e.ip == ip then [e.now] else []
  }

  // ---------------------------------------------------------------- filtering

  lemma {:induction false} AfterAppend(a: seq<int>, b: seq<int>, cutoff: int)
    ensures After(a + b, cutoff) == After(a, cutoff) + After(b, cutoff)
  {
    if b == [] {
      assert a + b == a;
    } else {
      AfterAppend(a, b[..|b| - 1], cutoff);
      assert (a + b)[..|a + b| - 1] == a + b[..|b| - 1];
    }
  }

  lemma {:induction false} AfterTwice(times: seq<int>, early: int, late: int)
    requires early <= late
    ensures After(After(times, early), late) == After(times, late)
  {
    if times != [] {
      var front, last := times[..|times| - 1], times[|times| - 1];
      AfterTwice(front, early, late);
      AfterAppend(After(front, early), if last > early then [last] else [], late);
    }
  }

  lemma {:induction false} HistoryPast(es: seq<Event>, ip: string, cutoff: int)
    requires Run(es) && (es != [] ==> es[|es| - 1].now <= cutoff)
    ensures After(History(es, ip), cutoff) == []
  {
    if es != [] {
      var before, e := es[..|es| - 1], es[|es| - 1];
      HistoryPast(before, ip, cutoff);
      AfterAppend(History(before, ip), if e.Record? && e.ip == ip then [e.now] else [], cutoff);
    }
  }

  // ---------------------------------------------------------------- refinement

  /** One event, seen from a moment not before it. */
  lemma StepStored(counts: Counts, e: Event, ip: string, window: int, cutoff: int)
    requires e.now - window <= cutoff
    ensures After(Stored(Step(counts, e, window), ip), cutoff) ==
            After(Stored(counts, ip), cutoff) + After(if e.Record? && e.ip == ip then [e.now] else [], cutoff)
  {
    hide After;
    var stored, early := Stored(counts, ip), e.now - window;
    AfterTwice(stored, early, cutoff);
    assert After([], cutoff) == [] && After([], early) == [] by { AfterEmpty(cutoff); AfterEmpty(early); }
    assert After(stored, cutoff) + [] == After(stored, cutoff);
    if e.Record? && e.ip == ip {
      AfterAppend(After(stored, early), [e.now], cutoff);
    }
  }

  lemma AfterEmpty(cutoff: int)
    ensures After([], cutoff) == []
  {
  }

  /** Looking back from any moment not before the last event, the stored times and the full history
      have the same times inside the window. */
  lemma {:induction false} StoredIsRecentHistory(es: seq<Event>, ip: string, window: int, cutoff: int)
    requires Run(es) && (es != [] ==> es[|es| - 1].now - window <= cutoff)
    ensures After(Stored(CountsAfter(es, window), ip), cutoff) == After(History(es, ip), cutoff)
  {
    hide After, Step;
    if es != [] {
      var before, e := es[..|es| - 1], es[|es| - 1];
      StoredIsRecentHistory(before, ip, window, cutoff);
      StepStored(CountsAfter(before, window), e, ip, window, cutoff);
      AfterAppend(History(before, ip), if e.Record? && e.ip == ip then [e.now] else [], cutoff);
    }
  }

  /** How many events of `ip` lie in the window that ends now, the one being recorded included. */
  function RecentCount(es: seq<Event>, ip: string, now: int, window: int): nat {
    |After(History(es, ip) + [now], now - window)|
  }

  /** With a positive window, whatever was swept and whatever other addresses did, `record` reports
      exactly whether the window holds enough events. */
  lemma RecordCountsHistory(es: seq<Event>, ip: string, now: int, window: int, threshold: int)
    requires Run(es + [Record(ip, now)]) && window > 0
    ensures Answer(CountsAfter(es, window), ip, now, window, threshold) <==>
            RecentCount(es, ip, now, window) >= threshold
  {
    hide After, CountsAfter, History, Stored, Run;
    LastEvent(es, Record(ip, now));
    StoredIsRecentHistory(es, ip, window, now - window);
    AfterAppend(History(es, ip), [now], now - window);
    AfterOne(now, now - window);
  }

  lemma LastEvent(es: seq<Event>, e: Event)
    requires Run(es + [e])
    ensures Run(es) && Follows(es, e)
  {
    var all := es + [e];
    assert all[|es|] == e && all[..|es|] == es;
  }

  lemma AfterOne(t: int, cutoff: int)
    ensures After([t], cutoff) == if t > cutoff then [t] else []
  {
    assert [t][..0] == [];
  }

  /** `record` agrees with the count in the window after every run. */
  ghost predicate CountsExactly(window: int, threshold: int) {
    forall es, ip, now :: Run(es + [Record(ip, now)]) ==>
      (Answer(CountsAfter(es, window), ip, now, window, threshold) <==>
       RecentCount(es, ip, now, window) >= threshold)
  }

  /** Without a positive window the event just recorded still counts, which shows exactly at
      threshold 1. */
  lemma CountsExactlyIff(window: int, threshold: int)
    ensures CountsExactly(window, threshold) <==> window > 0 || threshold != 1
  {
    if window > 0 {
      forall es, ip, now | Run(es + [Record(ip, now)])
        ensures Answer(CountsAfter(es, window), ip, now, window, threshold) <==>
                RecentCount(es, ip, now, window) >= threshold
      {
        RecordCountsHistory(es, ip, now, window, threshold);
      }
    } else if threshold != 1 {
      forall es, ip, now | Run(es + [Record(ip, now)])
        ensures Answer(CountsAfter(es, window), ip, now, window, threshold) <==>
                RecentCount(es, ip, now, window) >= threshold
      {
        EmptyWindow(es, ip, now, window);
      }
    } else {
      var es: seq<Event>, ip, now := [], "", 0;
      var all := es + [Record(ip, now)];
      assert all[..0] == [] && Run(all[..0]);
      assert Run(es + [Record(ip, now)]);
      EmptyWindow(es, ip, now, window);
    }
  }

  lemma EmptyWindow(es: seq<Event>, ip: string, now: int, window: int)
    requires Run(es + [Record(ip, now)]) && window <= 0
    ensures After(Stored(CountsAfter(es, window), ip), now - window) == []
    ensures RecentCount(es, ip, now, window) == 0
  {
    hide After, CountsAfter, History, Stored, Run;
    LastEvent(es, Record(ip, now));
    StoredIsRecentHistory(es, ip, window, now - window);
    HistoryPast(es, ip, now - window);
    AfterAppend(History(es, ip), [now], now - window);
    AfterOne(now, now - window);
  }

  /** A sweep keeps exactly the addresses that have an event after the cutoff. */
  lemma {:induction false} KeptIff(counts: Counts, now: int, window: int, ip: string)
    ensures ip in AfterCleanup(counts, now, window) <==>
            ip in counts && exists i :: 0 <= i < |counts[ip]| && counts[ip][i] > now - window
  {
    if ip in counts {
      SomeAfterIff(counts[ip], now - window);
    }
  }

  lemma {:induction false} SomeAfterIff(times: seq<int>, cutoff: int)
    ensures After(times, cutoff) != [] <==> exists i :: 0 <= i < |times| && times[i] > cutoff
  {
    if times != [] {
      SomeAfterIff(times[..|times| - 1], cutoff);
      if i :| 0 <= i < |times| - 1 && times[i] > cutoff {
        assert times[..|times| - 1][i] > cutoff;
      }
    }
  }
}
