/** The plugin chain: plugins kept per phase in ascending priority, run until one fails. */
module PluginChain {
  import opened Text

  datatype Phase = PreRequest | PostRequest | PreResponse | PostResponse | LogPhase

  /** What plugins see and pass on; a failing plugin that answered the client left its status. */
  datatype Context = Context(values: map<string, string>, statusCode: int)

  datatype Outcome = Outcome(ctx: Context, error: Option<string>)

  datatype Plugin = Plugin(name: string, phase: Phase, priority: int, run: Context -> Outcome)

  // ---------------------------------------------------------------- stable order

  ghost predicate Ascending(ps: seq<Plugin>) {
    forall i, j :: 0 <= i < j < |ps| ==> ps[i].priority <= ps[j].priority
  }

  /** The plugins of one priority, in order. */
  ghost function OfPriority(ps: seq<Plugin>, priority: int): seq<Plugin> {
    if ps == [] then []
    else
      var last := ps[|ps| - 1];
      OfPriority(ps[..|ps| - 1], priority) + if last.priority == priority then [last] else []
  }

  /** Equal priorities come in the same order in both. */
  ghost predicate SameOrder(a: seq<Plugin>, b: seq<Plugin>) {
    forall v :: OfPriority(a, v) == OfPriority(b, v)
  }

  /** Puts `p` behind every plugin of the same or a smaller priority. */
  function Insert(ps: seq<Plugin>, p: Plugin): (r: seq<Plugin>)
    ensures |r| == |ps| + 1
  {
    if ps == [] || ps[|ps| - 1].priority <= p.priority then ps + [p]
    else Insert(ps[..|ps| - 1], p) + [ps[|ps| - 1]]
  }

  /** The stable sort by priority. */
  function StableSort(ps: seq<Plugin>): (r: seq<Plugin>)
    ensures |r| == |ps|
  {
    if ps == [] then [] else Insert(StableSort(ps[..|ps| - 1]), ps[|ps| - 1])
  }

  lemma {:induction false} OfPriorityAppend(a: seq<Plugin>, p: Plugin, priority: int)
    ensures OfPriority(a + [p], priority) == OfPriority(a, priority) + if p.priority == priority then [p] else []
  {
    assert (a + [p])[..|a|] == a;
  }

  lemma {:induction false} NoneBeyond(ps: seq<Plugin>, priority: int)
    requires forall i :: 0 <= i < |ps| ==> ps[i].priority != priority
    ensures OfPriority(ps, priority) == []
  {
    if ps != [] {
      NoneBeyond(ps[..|ps| - 1], priority);
    }
  }

  lemma {:induction false} InsertAscending(ps: seq<Plugin>, p: Plugin)
    requires Ascending(ps)
    ensures Ascending(Insert(ps, p))
    ensures forall i :: 0 <= i < |Insert(ps, p)| ==>
      Insert(ps, p)[i].priority <=
      if ps == [] || ps[|ps| - 1].priority <= p.priority then p.priority else ps[|ps| - 1].priority
  {
    if ps == [] || ps[|ps| - 1].priority <= p.priority {
    } else {
      InsertAscending(ps[..|ps| - 1], p);
    }
  }

  lemma {:induction false} InsertStable(ps: seq<Plugin>, p: Plugin, priority: int)
    requires Ascending(ps)
    ensures OfPriority(Insert(ps, p), priority) == OfPriority(ps + [p], priority)
  {
    OfPriorityAppend(ps, p, priority);
    if ps == [] || ps[|ps| - 1].priority <= p.priority {
    } else {
      var front, last := ps[..|ps| - 1], ps[|ps| - 1];
      InsertStable(front, p, priority);
      OfPriorityAppend(front, p, priority);
      OfPriorityAppend(Insert(front, p), last, priority);
    }
  }

  lemma SortStep(front: seq<Plugin>, last: Plugin)
    ensures StableSort([]) == [] && StableSort(front + [last]) == Insert(StableSort(front), last)
  {
    assert (front + [last])[..|front|] == front;
  }

  /** The sort is ascending and keeps the order of equals. */
  lemma {:induction false} SortIsStable(ps: seq<Plugin>, priority: int)
    ensures Ascending(StableSort(ps))
    ensures OfPriority(StableSort(ps), priority) == OfPriority(ps, priority)
  {
    if ps == [] {
    } else {
      hide StableSort, Insert, OfPriority, Ascending;
      var front, last := ps[..|ps| - 1], ps[|ps| - 1];
      var sorted := StableSort(front);
      assert front + [last] == ps;
      SortIsStable(front, priority);
      SortStep(front, last);
      InsertAscending(sorted, last);
      InsertStable(sorted, last, priority);
      OfPriorityAppend(sorted, last, priority);
      OfPriorityAppend(front, last, priority);
    }
  }

  lemma {:induction false} SortOfAscending(ps: seq<Plugin>)
    requires Ascending(ps)
    ensures StableSort(ps) == ps
  {
    if ps != [] {
      SortOfAscending(ps[..|ps| - 1]);
    }
  }

  /** Ascending order with equals in a given order leaves no choice. */
  lemma {:induction false} StableUnique(a: seq<Plugin>, b: seq<Plugin>)
    requires Ascending(a) && Ascending(b)
    requires SameOrder(a, b)
    ensures a == b
    decreases |a| + |b|
  {
    var top := if a != [] then a[|a| - 1].priority else if b != [] then b[|b| - 1].priority else 0;
    assert OfPriority(a, top) == OfPriority(b, top);
    if a != [] && b != [] {
      var x, y := a[|a| - 1], b[|b| - 1];
      if x.priority < y.priority {
        assert OfPriority(a, y.priority) == OfPriority(b, y.priority);
        NoneBeyond(a, y.priority);
      } else if y.priority < x.priority {
        assert OfPriority(a, x.priority) == OfPriority(b, x.priority);
        NoneBeyond(b, x.priority);
      } else {
        var front, back := a[..|a| - 1], b[..|b| - 1];
        var v := x.priority;
        assert OfPriority(front, v) + [x] == OfPriority(back, v) + [y];
        assert (OfPriority(front, v) + [x])[|OfPriority(front, v)|] == x;
        forall w ensures OfPriority(front, w) == OfPriority(back, w) {
          assert OfPriority(a, w) == OfPriority(b, w);
          if w == v {
            var f, g := OfPriority(front, v), OfPriority(back, v);
            assert f == (f + [x])[..|f|] && g == (g + [y])[..|g|];
          } else {
            assert OfPriority(front, w) + [] == OfPriority(front, w);
            assert OfPriority(back, w) + [] == OfPriority(back, w);
          }
        }
        StableUnique(front, back);
      }
    }
  }

  /** The added plugins of one phase, in Add order. */
  function OfPhase(added: seq<Plugin>, phase: Phase): seq<Plugin> {
    if added == [] then []
    else
      var last := added[|added| - 1];
      OfPhase(added[..|added| - 1], phase) + if last.phase == phase then [last] else []
  }

  lemma SortAfterAdd(ps: seq<Plugin>, p: Plugin)
    ensures StableSort(StableSort(ps) + [p]) == StableSort(ps + [p])
  {
    SortIsStable(ps, 0);
    SortOfAscending(StableSort(ps));
    assert (StableSort(ps) + [p])[..|ps|] == StableSort(ps);
    assert (ps + [p])[..|ps|] == ps;
  }

  /** Any chain kept ascending, with equals in Add order, is the sorted list of what was added. */
  lemma ChainOrder(added: seq<Plugin>, phase: Phase, chain: seq<Plugin>)
    ensures chain == StableSort(OfPhase(added, phase)) <==>
            Ascending(chain) && SameOrder(chain, OfPhase(added, phase))
  {
    hide StableSort, OfPriority, OfPhase, SameOrder;
    var ps := OfPhase(added, phase);
    SortSameOrder(ps);
    if Ascending(chain) && SameOrder(chain, ps) {
      SameOrderJoins(chain, ps, StableSort(ps));
      StableUnique(chain, StableSort(ps));
    }
  }

  lemma SortSameOrder(ps: seq<Plugin>)
    ensures Ascending(StableSort(ps)) && SameOrder(StableSort(ps), ps)
  {
    SortIsStable(ps, 0);
    forall v ensures OfPriority(StableSort(ps), v) == OfPriority(ps, v) {
      SortIsStable(ps, v);
    }
  }

  lemma SameOrderJoins(a: seq<Plugin>, b: seq<Plugin>, c: seq<Plugin>)
    requires SameOrder(a, b) && SameOrder(c, b)
    ensures SameOrder(a, c)
  {
  }

  lemma OfPhaseAdd(added: seq<Plugin>, p: Plugin, phase: Phase)
    ensures OfPhase(added + [p], phase) ==
            if p.phase == phase then OfPhase(added, phase) + [p] else OfPhase(added, phase)
  {
    assert (added + [p])[..|added|] == added;
  }

  lemma SortOfEmpty()
    ensures StableSort([]) == []
  {
  }

  // ---------------------------------------------------------------- running

  /** Runs the plugins in order, each on the context the one before left, until one fails. */
  function RunAll(ps: seq<Plugin>, ctx: Context): Outcome {
    if ps == [] then Outcome(ctx, None)
    else
      var o := ps[0].run(ctx);
      if o.error.Some? then Outcome(o.ctx, Some("plugin " + ps[0].name + " error: " + o.error.value))
      else RunAll(ps[1..], o.ctx)
  }

  /** The context that reaches plugin `i` if none before it fails. */
  function ContextAt(ps: seq<Plugin>, ctx: Context, i: nat): Context
    requires i <= |ps|
  {
    if i == 0 then ctx else ContextAt(ps[1..], ps[0].run(ctx).ctx, i - 1)
  }

  /** The chain succeeds exactly when no plugin fails on the context that reaches it. */
  lemma {:induction false} ChainSucceedsIff(ps: seq<Plugin>, ctx: Context)
    ensures RunAll(ps, ctx).error.None? <==>
            forall i :: 0 <= i < |ps| ==> ps[i].run(ContextAt(ps, ctx, i)).error.None?
  {
    if ps != [] {
      var rest, next := ps[1..], ps[0].run(ctx).ctx;
      ChainSucceedsIff(rest, next);
      forall i | 0 <= i < |rest|
        ensures ps[i + 1].run(ContextAt(ps, ctx, i + 1)) == rest[i].run(ContextAt(rest, next, i))
      {
        assert ps[i + 1] == rest[i];
      }
      assert ContextAt(ps, ctx, 0) == ctx;
      if forall i :: 0 <= i < |ps| ==> ps[i].run(ContextAt(ps, ctx, i)).error.None? {
        forall i | 0 <= i < |rest| ensures rest[i].run(ContextAt(rest, next, i)).error.None? {
          assert ps[i + 1].run(ContextAt(ps, ctx, i + 1)).error.None?;
        }
      }
      if RunAll(ps, ctx).error.None? {
        forall i | 0 <= i < |ps| ensures ps[i].run(ContextAt(ps, ctx, i)).error.None? {
          if i > 0 {
            assert ps[(i - 1) + 1].run(ContextAt(ps, ctx, (i - 1) + 1)) ==
                   rest[i - 1].run(ContextAt(rest, next, i - 1));
          }
        }
      }
    }
  }

  ghost predicate FailsFirst(ps: seq<Plugin>, ctx: Context, i: nat) {
    && i < |ps|
    && ps[i].run(ContextAt(ps, ctx, i)).error.Some?
    && forall k :: 0 <= k < i ==> ps[k].run(ContextAt(ps, ctx, k)).error.None?
  }

  /** A failing chain ends with what the first failing plugin left. */
  lemma {:induction false} FirstFailure(ps: seq<Plugin>, ctx: Context) returns (i: nat)
    requires RunAll(ps, ctx).error.Some?
    ensures FailsFirst(ps, ctx, i)
    ensures forall k: nat :: FailsFirst(ps, ctx, k) ==> k == i
    ensures RunAll(ps, ctx).ctx == ps[i].run(ContextAt(ps, ctx, i)).ctx
    ensures RunAll(ps, ctx).error ==
            Some("plugin " + ps[i].name + " error: " + ps[i].run(ContextAt(ps, ctx, i)).error.value)
  {
    if ps[0].run(ctx).error.Some? {
      i := 0;
      assert ContextAt(ps, ctx, 0) == ctx;
    } else {
      var rest, next := ps[1..], ps[0].run(ctx).ctx;
      var j := FirstFailure(rest, next);
      i := j + 1;
      forall k | 0 <= k < i ensures ps[k].run(ContextAt(ps, ctx, k)).error.None? {
        if k > 0 {
          assert rest[k - 1].run(ContextAt(rest, next, k - 1)).error.None?;
          assert ContextAt(ps, ctx, k) == ContextAt(rest, next, k - 1);
        }
      }
    }
  }

  class Chain {
    var plugins: seq<Plugin>
    var byPhase: map<Phase, seq<Plugin>>

    /** Every phase holds its plugins in stable priority order. */
    ghost predicate Valid()
      reads this
    {
      && (forall f :: f in byPhase <==> OfPhase(plugins, f) != [])
      && (forall f :: f in byPhase ==> byPhase[f] == StableSort(OfPhase(plugins, f)))
    }

    constructor ()
      ensures Valid() && plugins == []
    {
      plugins, byPhase := [], map[];
    }

    method Add(p: Plugin)
      requires Valid()
      modifies this
      ensures Valid() && plugins == old(plugins) + [p]
    {
      hide StableSort, OfPhase;
      ghost var before := plugins;
      plugins := plugins + [p];
      var list := (if p.phase in byPhase then byPhase[p.phase] else []) + [p];
      byPhase := byPhase[p.phase := StableSort(list)];
      SortOfEmpty();
      assert list == StableSort(OfPhase(before, p.phase)) + [p];
      SortAfterAdd(OfPhase(before, p.phase), p);
      forall f ensures f in byPhase <==> OfPhase(plugins, f) != [] {
        OfPhaseAdd(before, p, f);
      }
      forall f | f in byPhase ensures byPhase[f] == StableSort(OfPhase(plugins, f)) {
        OfPhaseAdd(before, p, f);
      }
    }

    method Execute(ctx: Context, phase: Phase) returns (o: Outcome)
      requires Valid()
      ensures o == RunAll(StableSort(OfPhase(plugins, phase)), ctx)
    {
      if phase !in byPhase {
        return Outcome(ctx, None);
      }
      var ps, current := byPhase[phase], ctx;
      for i := 0 to |ps|
        invariant RunAll(ps, ctx) == RunAll(ps[i..], current)
      {
        var r := ps[i].run(current);
        if r.error.Some? {
          return Outcome(r.ctx, Some("plugin " + ps[i].name + " error: " + r.error.value));
        }
        assert ps[i..][1..] == ps[i + 1..];
        current := r.ctx;
      }
      return Outcome(current, None);
    }
  }
}
