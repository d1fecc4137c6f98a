/** The bounded audit store: what its slots hold after any run of records, and what a query of the
    slots returns. The learning engine keeps its records in the same kind of ring. */
module AuditRing {
  import opened Modulo

  datatype Event = Event(actor: string, action: string, resource: string, result: string, details: string)

  datatype Ring = Ring(slots: seq<Event>, pos: nat)

  /** Appends while there is room, then overwrites the oldest slot. */
  function Recorded(r: Ring, maxSize: nat, e: Event): Ring
    requires maxSize > 0
  {
    if |r.slots| < maxSize then Ring(r.slots + [e], r.pos)
    else if r.pos < |r.slots| then Ring(r.slots[r.pos := e], (r.pos + 1) % maxSize)
    else r
  }

  function AfterRun(es: seq<Event>, maxSize: nat): Ring
    requires maxSize > 0
  {
    if es == [] then Ring([], 0) else Recorded(AfterRun(es[..|es| - 1], maxSize), maxSize, es[|es| - 1])
  }

  /** The last `n` events, oldest first; all of them if there are fewer. */
  function LastOf(es: seq<Event>, n: nat): seq<Event> {
    if |es| <= n then es else es[|es| - n..]
  }

  /** A ring after `n` records of which it keeps `kept`: rotating the slots at `pos` gives them
      oldest first. */
  ghost predicate Holds(r: Ring, n: nat, kept: seq<Event>, maxSize: nat)
    requires maxSize > 0
  {
    && |r.slots| == (if n < maxSize then n else maxSize)
    && r.pos == (if n < maxSize then 0 else n % maxSize)
    && r.pos <= |r.slots| && r.pos < maxSize
    && r.slots[r.pos..] + r.slots[..r.pos] == kept
  }

  lemma HoldsStep(r: Ring, n: nat, kept: seq<Event>, e: Event, maxSize: nat)
    requires maxSize > 0 && Holds(r, n, kept, maxSize)
    ensures Holds(Recorded(r, maxSize, e), n + 1, (if n < maxSize then kept else kept[1..]) + [e], maxSize)
  {
    hide Recorded;
    RecordedShape(r, maxSize, e);
    if n < maxSize {
      AppendKeeps(r, kept, e, maxSize);
      if n + 1 == maxSize {
        BelowFull(n + 1, maxSize);
      }
    } else {
      OverwriteKeeps(r, kept, e, maxSize);
      ModInner(n, 1, maxSize);
    }
  }

  /** In every run: slots below `pos` hold the newest events, the others the ones before them, so
      that rotating at `pos` gives the last maxSize events in order. */
  lemma {:induction false} RingHoldsLast(es: seq<Event>, maxSize: nat)
    requires maxSize > 0
    ensures Holds(AfterRun(es, maxSize), |es|, LastOf(es, maxSize), maxSize)
  {
    hide Recorded, LastOf, Holds;
    if es == [] {
      EmptyHolds(maxSize);
      LastOfNone(maxSize);
    } else {
      var before, e := es[..|es| - 1], es[|es| - 1];
      RingHoldsLast(before, maxSize);
      assert es == before + [e];
      LastOfStep(before, e, maxSize);
      HoldsStep(AfterRun(before, maxSize), |before|, LastOf(before, maxSize), e, maxSize);
    }
  }

  lemma EmptyHolds(maxSize: nat)
    requires maxSize > 0
    ensures Holds(Ring([], 0), 0, [], maxSize)
  {
  }

  lemma LastOfNone(n: nat)
    ensures LastOf([], n) == []
  {
  }

  lemma RecordedShape(r: Ring, maxSize: nat, e: Event)
    requires maxSize > 0 && r.pos < maxSize && |r.slots| <= maxSize
    ensures var r' := Recorded(r, maxSize, e);
            && |r'.slots| == (if |r.slots| < maxSize then |r.slots| + 1 else maxSize)
            && r'.pos == (if |r.slots| < maxSize then r.pos else (r.pos + 1) % maxSize)
  {
  }

  lemma BelowFull(n: nat, maxSize: nat)
    requires n <= maxSize && maxSize > 0
    ensures (if n < maxSize then 0 else n % maxSize) == 0
  {
    if n == maxSize {
      ModOf(n, maxSize, 1, 0);
    }
  }

  /** Recording while there is room. */
  lemma AppendKeeps(r: Ring, kept: seq<Event>, e: Event, maxSize: nat)
    requires |r.slots| < maxSize && r.pos == 0 && r.slots[r.pos..] + r.slots[..r.pos] == kept
    ensures var r' := Recorded(r, maxSize, e); r'.slots[r'.pos..] + r'.slots[..r'.pos] == kept + [e]
  {
    assert r.slots[0..] + r.slots[..0] == r.slots;
    var r' := Recorded(r, maxSize, e);
    assert r'.slots[0..] + r'.slots[..0] == r'.slots;
  }

  /** Recording over the oldest slot. */
  lemma OverwriteKeeps(r: Ring, kept: seq<Event>, e: Event, maxSize: nat)
    requires r.pos < |r.slots| == maxSize && r.slots[r.pos..] + r.slots[..r.pos] == kept
    ensures var r' := Recorded(r, maxSize, e);
            r'.pos < maxSize && r'.slots[r'.pos..] + r'.slots[..r'.pos] == kept[1..] + [e]
  {
    NextRound(r.pos, maxSize);
    var r' := Recorded(r, maxSize, e);
    if r.pos + 1 < maxSize {
      assert r'.slots[r.pos + 1..] == r.slots[r.pos..][1..];
      assert r'.slots[..r.pos + 1] == r.slots[..r.pos] + [e];
      assert kept[1..] == r.slots[r.pos..][1..] + r.slots[..r.pos];
    } else {
      assert r'.slots[0..] + r'.slots[..0] == r'.slots;
      assert r'.slots == r.slots[..r.pos] + [e];
      assert kept[1..] == r.slots[..r.pos];
    }
  }

  lemma LastOfStep(before: seq<Event>, e: Event, n: nat)
    requires n > 0
    ensures |before| >= n ==> |LastOf(before, n)| == n
    ensures LastOf(before + [e], n) == (if |before| < n then LastOf(before, n) else LastOf(before, n)[1..]) + [e]
  {
  }

  // ---------------------------------------------------------------- queries

  datatype Filter = Filter(limit: int, actor: string, action: string, result: string)

  predicate Selects(f: Filter, e: Event) {
    && (f.actor == "" || e.actor == f.actor)
    && (f.action == "" || e.action == f.action)
    && (f.result == "" || e.result == f.result)
  }

  function Limit(f: Filter): nat {
    if f.limit <= 0 || f.limit > 1000 then 100 else f.limit
  }

  /** The selected events, last slot first. */
  function Backwards(slots: seq<Event>, f: Filter): seq<Event> {
    if slots == [] then []
    else
      var last := slots[|slots| - 1];
      (if Selects(f, last) then [last] else []) + Backwards(slots[..|slots| - 1], f)
  }

  function Take(es: seq<Event>, n: nat): seq<Event> {
    if |es| <= n then es else es[..n]
  }

  lemma {:induction false} BackwardsConcat(a: seq<Event>, b: seq<Event>, f: Filter)
    ensures Backwards(a + b, f) == Backwards(b, f) + Backwards(a, f)
  {
    if b == [] {
      assert a + b == a;
    } else {
      BackwardsConcat(a, b[..|b| - 1], f);
      assert (a + b)[..|a + b| - 1] == a + b[..|b| - 1];
    }
  }

  /** What a filter asks of an event: an empty field asks nothing. */
  ghost predicate Asked(f: Filter, e: Event) {
    && (f.actor != "" ==> f.actor == e.actor)
    && (f.action != "" ==> f.action == e.action)
    && (f.result != "" ==> f.result == e.result)
  }

  /** `got` are the events in the slots `at`, which descend and are all that are asked for. */
  ghost predicate TakenFrom(got: seq<Event>, at: seq<nat>, slots: seq<Event>, f: Filter) {
    && |at| == |got|
    && (forall j :: 0 <= j < |at| ==> at[j] < |slots| && got[j] == slots[at[j]])
    && (forall j, k :: 0 <= j < k < |at| ==> at[j] > at[k])
    && (forall i :: 0 <= i < |slots| ==> (i in at <==> Asked(f, slots[i])))
  }

  lemma SkippedSlot(got: seq<Event>, at: seq<nat>, slots: seq<Event>, f: Filter, e: Event)
    requires TakenFrom(got, at, slots, f) && !Asked(f, e)
    ensures TakenFrom(got, at, slots + [e], f)
  {
    hide Asked;
    var all := slots + [e];
    assert forall i :: 0 <= i < |slots| ==> all[i] == slots[i];
    assert |slots| !in at;
  }

  lemma TakenSlot(got: seq<Event>, at: seq<nat>, slots: seq<Event>, f: Filter, e: Event)
    requires TakenFrom(got, at, slots, f) && Asked(f, e)
    ensures TakenFrom([e] + got, [|slots|] + at, slots + [e], f)
  {
    hide Asked;
    var n: nat, all, more: seq<nat>, gotMore := |slots|, slots + [e], [|slots|] + at, [e] + got;
    forall j | 0 <= j < |more| ensures more[j] <= n && gotMore[j] == all[more[j]] {
      if j > 0 {
        assert more[j] == at[j - 1] && gotMore[j] == got[j - 1];
      }
    }
    forall j, k | 0 <= j < k < |more| ensures more[j] > more[k] {
      assert more[k] == at[k - 1];
      if j > 0 {
        assert more[j] == at[j - 1];
      }
    }
    forall i | 0 <= i < |all| ensures i in more <==> Asked(f, all[i]) {
      if i < n {
        assert all[i] == slots[i];
        assert i in more <==> i in at;
      }
    }
  }

  lemma SelectsIsAsked(f: Filter, e: Event)
    ensures Selects(f, e) <==> Asked(f, e)
  {
  }

  /** A query goes through the events that are asked for, each once, from the last slot to the first. */
  lemma {:induction false} BackwardsIs(slots: seq<Event>, f: Filter) returns (at: seq<nat>)
    ensures TakenFrom(Backwards(slots, f), at, slots, f)
  {
    hide Selects, Asked, TakenFrom;
    if slots == [] {
      at := [];
      assert TakenFrom([], [], [], f) by { NothingTaken(f); }
    } else {
      var front, e := slots[..|slots| - 1], slots[|slots| - 1];
      assert front + [e] == slots;
      at := BackwardsIs(front, f);
      SelectsIsAsked(f, e);
      if Asked(f, e) {
        TakenSlot(Backwards(front, f), at, front, f, e);
        at := [|front|] + at;
      } else {
        SkippedSlot(Backwards(front, f), at, front, f, e);
        assert Backwards(slots, f) == Backwards(front, f);
      }
    }
  }

  lemma NothingTaken(f: Filter)
    ensures TakenFrom([], [], [], f)
  {
  }

  /** A query returns as many of them as the limit says: the one that is given, from 1 to 1000, and
      otherwise 100. */
  lemma QueryLength(slots: seq<Event>, f: Filter)
    ensures var all, got := Backwards(slots, f), Take(Backwards(slots, f), Limit(f));
            && got <= all && |got| <= 1000
            && (1 <= f.limit <= 1000 ==> |got| == if |all| <= f.limit then |all| else f.limit)
            && (f.limit < 1 || f.limit > 1000 ==> |got| == if |all| <= 100 then |all| else 100)
  {
    hide Backwards;
  }

  /** What a query returns after a run, in terms of the events themselves: with `pos` of the last
      maxSize events overwritten since the slots last filled up, the older ones newest first, then
      the newer ones newest first, cut at the limit. */
  lemma QueryByAge(es: seq<Event>, maxSize: nat, f: Filter)
    requires maxSize > 0
    ensures var r, recent := AfterRun(es, maxSize), LastOf(es, maxSize);
            && r.pos <= |recent|
            && var older, newer := recent[..|recent| - r.pos], recent[|recent| - r.pos..];
               Take(Backwards(r.slots, f), Limit(f)) == Take(Backwards(older, f) + Backwards(newer, f), Limit(f))
  {
    RingHoldsLast(es, maxSize);
    var r, recent := AfterRun(es, maxSize), LastOf(es, maxSize);
    var older, newer := recent[..|recent| - r.pos], recent[|recent| - r.pos..];
    assert older == r.slots[r.pos..] && newer == r.slots[..r.pos];
    assert newer + older == r.slots;
    BackwardsConcat(newer, older, f);
  }

  /** After the run, a query returns the selected events newest first over everything kept. */
  ghost predicate NewestFirst(es: seq<Event>, maxSize: nat, f: Filter)
    requires maxSize > 0
  {
    Take(Backwards(AfterRun(es, maxSize).slots, f), Limit(f)) == Take(Backwards(LastOf(es, maxSize), f), Limit(f))
  }

  lemma WholeWraps(es: seq<Event>, maxSize: nat, f: Filter)
    requires maxSize > 0 && (|es| <= maxSize || |es| % maxSize == 0)
    ensures NewestFirst(es, maxSize, f)
  {
    RingHoldsLast(es, maxSize);
    if |es| <= maxSize {
      BelowFull(|es|, maxSize);
    }
    var r := AfterRun(es, maxSize);
    assert r.pos == 0;
    assert r.slots[0..] + r.slots[..0] == r.slots;
  }

  /** When the ring is part-way through a wrap, an unfiltered query starts with an event recorded
      before the newest one. */
  lemma PartWayStartsOld(es: seq<Event>, maxSize: nat, f: Filter)
    requires maxSize > 0 && |es| > maxSize && |es| % maxSize != 0
    requires f.actor == "" && f.action == "" && f.result == ""
    ensures var got := Take(Backwards(AfterRun(es, maxSize).slots, f), Limit(f));
            got != [] && got[0] == es[|es| - 1 - |es| % maxSize]
  {
    hide AfterRun;
    RingHoldsLast(es, maxSize);
    var r, recent := AfterRun(es, maxSize), LastOf(es, maxSize);
    var n := |r.slots|;
    assert r.pos == |es| % maxSize < maxSize;
    assert r.slots[n - 1] == (r.slots[r.pos..] + r.slots[..r.pos])[n - 1 - r.pos];
    assert recent[n - 1 - r.pos] == es[|es| - 1 - r.pos];
    assert Backwards(r.slots, f) == [r.slots[n - 1]] + Backwards(r.slots[..n - 1], f);
  }

  /** A run of `n` different events. */
  function Numbered(n: nat): (es: seq<Event>)
    ensures |es| == n && forall i :: 0 <= i < n ==> |es[i].actor| == i
  {
    seq(n, i requires 0 <= i => Event(seq(i, k => 'x'), "", "", "", ""))
  }

  lemma PartWayDiffers(n: nat, maxSize: nat)
    requires maxSize > 0 && n > maxSize && n % maxSize != 0
    ensures !NewestFirst(Numbered(n), maxSize, Filter(0, "", "", ""))
  {
    hide AfterRun;
    var es, f := Numbered(n), Filter(0, "", "", "");
    PartWayStartsOld(es, maxSize, f);
    var recent := LastOf(es, maxSize);
    assert recent[maxSize - 1] == es[n - 1];
    assert Backwards(recent, f) == [es[n - 1]] + Backwards(recent[..maxSize - 1], f);
    assert |es[n - 1].actor| != |es[n - 1 - n % maxSize].actor|;
  }

  /** After `n` records, queries are newest first, whatever was recorded and whatever the filter,
      exactly when the ring has not wrapped or has wrapped a whole number of times. */
  lemma NewestFirstIff(n: nat, maxSize: nat)
    requires maxSize > 0
    ensures (forall es, f :: |es| == n ==> NewestFirst(es, maxSize, f)) <==> n <= maxSize || n % maxSize == 0
  {
    hide NewestFirst;
    if n <= maxSize || n % maxSize == 0 {
      forall es, f | |es| == n ensures NewestFirst(es, maxSize, f) {
        WholeWraps(es, maxSize, f);
      }
    } else {
      PartWayDiffers(n, maxSize);
    }
  }

  // ---------------------------------------------------------------- the store

  datatype Stats = Stats(total: nat, allowed: nat, blocked: nat)

  function Allowed(slots: seq<Event>): (n: nat)
    ensures n <= |slots|
  {
    if slots == [] then 0
    else Allowed(slots[..|slots| - 1]) + if slots[|slots| - 1].result == "allowed" then 1 else 0
  }

  ghost function AllowedSlots(slots: seq<Event>, n: nat): set<int>
    requires n <= |slots|
  {
    set i | 0 <= i < n && slots[i].result == "allowed"
  }

  /** The count is the number of slots with the result "allowed". */
  lemma {:induction false} AllowedIs(slots: seq<Event>, n: nat)
    requires n <= |slots|
    ensures Allowed(slots[..n]) == |AllowedSlots(slots, n)|
  {
    if n == 0 {
      assert AllowedSlots(slots, 0) == {};
    } else {
      AllowedIs(slots, n - 1);
      assert slots[..n][..n - 1] == slots[..n - 1];
      AllowedSlotsStep(slots, n - 1);
    }
  }

  lemma AllowedSlotsStep(slots: seq<Event>, n: nat)
    requires n < |slots|
    ensures |AllowedSlots(slots, n + 1)| == |AllowedSlots(slots, n)| + if slots[n].result == "allowed" then 1 else 0
  {
    var added := if slots[n].result == "allowed" then {n} else {};
    assert AllowedSlots(slots, n + 1) == AllowedSlots(slots, n) + added;
  }

  lemma BackwardsStep(slots: seq<Event>, i: nat, f: Filter)
    requires i < |slots|
    ensures Backwards(slots[..i + 1], f) == (if Selects(f, slots[i]) then [slots[i]] else []) + Backwards(slots[..i], f)
  {
    assert slots[..i + 1][..i] == slots[..i];
  }

  lemma BackwardsNone(slots: seq<Event>, f: Filter)
    ensures Backwards(slots[..0], f) == []
  {
  }

  lemma StopsInTime(result: seq<Event>, rest: seq<Event>, limit: nat)
    requires |result| <= limit && (rest == [] || |result| == limit)
    ensures Take(result + rest, limit) == result
  {
  }

  class Store {
    var events: array<Event>
    var len: nat
    var pos: nat
    const maxSize: nat

    ghost predicate Valid()
      reads this
    {
      events.Length == maxSize > 0 && len <= maxSize && pos < maxSize
    }

    ghost function Contents(): Ring
      requires Valid()
      reads this, events
    {
      Ring(events[..len], pos)
    }

    constructor (maxSize: nat)
      requires maxSize > 0
      ensures Valid() && fresh(events) && Contents() == Ring([], 0) && this.maxSize == maxSize
    {
      this.maxSize := maxSize;
      events := new Event[maxSize];
      len, pos := 0, 0;
    }

    method Record(e: Event)
      requires Valid()
      modifies this, events
      ensures Valid() && events == old(events)
      ensures Contents() == Recorded(old(Contents()), maxSize, e)
    {
      if len < maxSize {
        events[len] := e;
        len := len + 1;
      } else {
        events[pos] := e;
        pos := (pos + 1) % maxSize;
      }
    }

    method Query(f: Filter) returns (result: seq<Event>)
      requires Valid()
      ensures result == Take(Backwards(Contents().slots, f), Limit(f))
    {
      hide Limit, Backwards;
      var limit := Limit(f);
      result := [];
      var i := len;
      ghost var slots := events[..len];
      assert slots[..len] == slots;
      BackwardsNone(slots, f);
      while i > 0 && |result| < limit
        invariant 0 <= i <= len && |result| <= limit
        invariant Backwards(slots, f) == result + Backwards(slots[..i], f)
      {
        i := i - 1;
        BackwardsStep(slots, i, f);
        var e := events[i];
        if f.actor != "" && e.actor != f.actor {
          continue;
        }
        if f.action != "" && e.action != f.action {
          continue;
        }
        if f.result != "" && e.result != f.result {
          continue;
        }
        result := result + [e];
      }
      StopsInTime(result, Backwards(slots[..i], f), limit);
    }

    method GetStats() returns (s: Stats)
      requires Valid()
      ensures s == Stats(len, Allowed(Contents().slots), len - Allowed(Contents().slots))
    {
      var allowed, blocked := 0, 0;
      for i := 0 to len
        invariant allowed == Allowed(events[..i]) && allowed + blocked == i
      {
        assert events[..i + 1][..i] == events[..i];
        if events[i].result == "allowed" {
          allowed := allowed + 1;
        } else {
          blocked := blocked + 1;
        }
      }
      s := Stats(len, allowed, blocked);
    }
  }
}
