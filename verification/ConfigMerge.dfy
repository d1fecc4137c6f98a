/** Configuration updates: deep merge of one decoded object into another, and normalisation of
    its keys. A value that is not an object is a leaf. */
module ConfigMerge {
  import opened Text

  datatype Json = Leaf(value: string) | Obj(fields: map<string, Json>)

  type Path = seq<string>

  // ---------------------------------------------------------------- merge

  /** What is left where `t` was after merging `s` into it. */
  function Merge(t: Json, s: Json): Json
    decreases s
  {
    if t.Obj? && s.Obj? then
      Obj(map k | k in t.fields.Keys + s.fields.Keys ::
            if k !in s.fields then t.fields[k]
            else if k in t.fields then Merge(t.fields[k], s.fields[k])
            else s.fields[k])
    else s
  }

  /** One key of a merge. */
  lemma MergeAt(t: Json, s: Json, k: string)
    requires t.Obj? && s.Obj?
    ensures Merge(t, s).Obj?
    ensures k in Merge(t, s).fields <==> k in t.fields || k in s.fields
    ensures k in s.fields && k in t.fields ==> Merge(t, s).fields[k] == Merge(t.fields[k], s.fields[k])
    ensures k in s.fields && k !in t.fields ==> Merge(t, s).fields[k] == s.fields[k]
    ensures k !in s.fields && k in t.fields ==> Merge(t, s).fields[k] == t.fields[k]
  {
  }

  /** The target after the keys of `source` but those in `todo` have been merged into it. */
  ghost predicate MergedBut(merged: map<string, Json>, target: map<string, Json>, source: map<string, Json>,
                            todo: set<string>)
  {
    && merged.Keys == target.Keys + (source.Keys - todo)
    && (forall k :: k in target && (k in todo || k !in source) ==> merged[k] == target[k])
    && (forall k :: k in source && k !in todo ==>
          merged[k] == if k in target then Merge(target[k], source[k]) else source[k])
  }

  lemma MergeOneKey(merged: map<string, Json>, target: map<string, Json>, source: map<string, Json>,
                    todo: set<string>, key: string, v: Json)
    requires MergedBut(merged, target, source, todo) && key in todo && todo <= source.Keys
    requires v == if key in merged then Merge(merged[key], source[key]) else source[key]
    ensures MergedBut(merged[key := v], target, source, todo - {key})
  {
    hide Merge;
  }

  lemma MergedAll(merged: map<string, Json>, target: map<string, Json>, source: map<string, Json>)
    ensures MergedBut(target, target, source, source.Keys)
    ensures MergedBut(merged, target, source, {}) ==> Obj(merged) == Merge(Obj(target), Obj(source))
  {
    if MergedBut(merged, target, source, {}) {
      forall k | k in merged ensures merged[k] == Merge(Obj(target), Obj(source)).fields[k] {
        MergeAt(Obj(target), Obj(source), k);
      }
      assert merged == Merge(Obj(target), Obj(source)).fields;
    }
  }

  /** The program's loop over the keys of the source, in any order. */
  method DeepMerge(target: map<string, Json>, source: map<string, Json>) returns (merged: map<string, Json>)
    ensures Obj(merged) == Merge(Obj(target), Obj(source))
    decreases Obj(source)
  {
    hide MergedBut;
    merged := target;
    var todo := source.Keys;
    MergedAll(merged, target, source);
    while todo != {}
      invariant todo <= source.Keys && MergedBut(merged, target, source, todo)
    {
      var key :| key in todo;
      var srcVal := source[key];
      MergeOneKey(merged, target, source, todo, key, if key in merged then Merge(merged[key], srcVal) else srcVal);
      if srcVal.Obj? && key in merged && merged[key].Obj? {
        assert Obj(source).fields[key] == srcVal;
        var sub := DeepMerge(merged[key].fields, srcVal.fields);
        merged := merged[key := Obj(sub)];
      } else {
        merged := merged[key := srcVal];
      }
      todo := todo - {key};
    }
    MergedAll(merged, target, source);
  }

  // ---------------------------------------------------------------- idempotence

  lemma {:induction false} MergeSelf(s: Json)
    ensures Merge(s, s) == s
    decreases s
  {
    if s.Obj? {
      forall k | k in s.fields ensures Merge(s, s).fields[k] == s.fields[k] {
        MergeSelf(s.fields[k]);
      }
      assert Merge(s, s).fields == s.fields;
    }
  }

  /** Applying the same update twice changes nothing more. */
  lemma {:induction false} MergeIdempotent(t: Json, s: Json)
    ensures Merge(Merge(t, s), s) == Merge(t, s)
    decreases s
  {
    if t.Obj? && s.Obj? {
      var m := Merge(t, s);
      forall k | k in m.fields ensures Merge(m, s).fields[k] == m.fields[k] {
        if k in s.fields && k in t.fields {
          MergeIdempotent(t.fields[k], s.fields[k]);
        } else if k in s.fields {
          MergeSelf(s.fields[k]);
        }
      }
      assert Merge(m, s).fields == m.fields;
    } else {
      MergeSelf(s);
    }
  }

  // ---------------------------------------------------------------- leaves and paths

  /** What is found by following the keys of a path. */
  function At(j: Json, path: Path): Option<Json> {
    if path == [] then Some(j)
    else if j.Obj? && path[0] in j.fields then At(j.fields[path[0]], path[1..])
    else None
  }

  /** The update says something about this path: it has a value there, or a leaf on the way. */
  predicate Touches(s: Json, path: Path) {
    s.Leaf? || path == [] || (path[0] in s.fields && Touches(s.fields[path[0]], path[1..]))
  }

  /** Exactly which leaves a merge has, and where they come from: those of the update, and those of
      the target at paths the update does not touch. */
  lemma {:induction false} LeavesOfMerge(t: Json, s: Json, path: Path, v: string)
    ensures At(Merge(t, s), path) == Some(Leaf(v)) <==>
            || At(s, path) == Some(Leaf(v))
            || (At(t, path) == Some(Leaf(v)) && !Touches(s, path))
    decreases s, path
  {
    if t.Obj? && s.Obj? && path != [] {
      MergeAt(t, s, path[0]);
      if path[0] in t.fields && path[0] in s.fields {
        LeavesOfMerge(t.fields[path[0]], s.fields[path[0]], path[1..], v);
      }
    } else if t.Leaf? {
      OnlyRootOfLeaf(t, s, path);
    }
  }

  lemma OnlyRootOfLeaf(t: Json, s: Json, path: Path)
    requires t.Leaf?
    ensures At(t, path).Some? ==> Touches(s, path)
  {
  }

  // ---------------------------------------------------------------- two updates or one

  /** The second update never turns a leaf of the first into an object. */
  ghost predicate Compatible(a: Json, b: Json)
    decreases a
  {
    if a.Leaf? then b.Leaf?
    else b.Obj? ==> forall k :: k in a.fields && k in b.fields ==> Compatible(a.fields[k], b.fields[k])
  }

  lemma {:induction false} CompatibleAssociates(t: Json, a: Json, b: Json)
    requires Compatible(a, b)
    ensures Merge(Merge(t, a), b) == Merge(t, Merge(a, b))
    decreases a
  {
    if a.Obj? && b.Obj? && t.Obj? {
      var l, r := Merge(Merge(t, a), b), Merge(t, Merge(a, b));
      forall k | k in l.fields ensures l.fields[k] == r.fields[k] {
        if k in a.fields && k in b.fields && k in t.fields {
          CompatibleAssociates(t.fields[k], a.fields[k], b.fields[k]);
        }
      }
      assert l.fields == r.fields;
    }
  }

  lemma {:induction false} LongKey(keys: set<string>) returns (key: string)
    ensures forall k :: k in keys ==> |k| < |key|
    decreases |keys|
  {
    if keys == {} {
      key := "";
    } else {
      var k :| k in keys;
      var rest := LongKey(keys - {k});
      key := if |rest| > |k| then rest else k + "x";
    }
  }

  /** A target that tells two successive updates from their merge. */
  lemma {:induction false} Telling(a: Json, b: Json) returns (t: Json)
    requires !Compatible(a, b)
    ensures Merge(Merge(t, a), b) != Merge(t, Merge(a, b))
    ensures t.Obj?
    decreases a
  {
    if a.Leaf? {
      var k := LongKey(b.fields.Keys);
      t := Obj(map[k := Leaf("")]);
      assert k in Merge(t, b).fields && k !in b.fields;
    } else {
      var k :| k in a.fields && k in b.fields && !Compatible(a.fields[k], b.fields[k]);
      var sub := Telling(a.fields[k], b.fields[k]);
      t := Obj(map[k := sub]);
      var l, r := Merge(Merge(t, a), b), Merge(t, Merge(a, b));
      assert l.fields[k] == Merge(Merge(sub, a.fields[k]), b.fields[k]);
      assert r.fields[k] == Merge(sub, Merge(a.fields[k], b.fields[k]));
    }
  }

  /** Two updates in a row do the same to every target as their merge does, exactly when the second
      never puts an object where the first has a leaf. */
  lemma TwoUpdatesAsOneIff(a: Json, b: Json)
    ensures (forall t :: Merge(Merge(t, a), b) == Merge(t, Merge(a, b))) <==> Compatible(a, b)
  {
    if Compatible(a, b) {
      forall t ensures Merge(Merge(t, a), b) == Merge(t, Merge(a, b)) {
        CompatibleAssociates(t, a, b);
      }
    } else {
      var t := Telling(a, b);
    }
  }

  // ---------------------------------------------------------------- keys

  /** Lower case, with an underscore before every upper-case letter but the first character. */
  function Snake(s: string): string {
    if s == "" then ""
    else
      var n := |s| - 1;
      Snake(s[..n]) + (if n > 0 && IsAsciiUpper(s[n]) then "_" else "") + [LowerChar(s[n])]
  }

  method ToSnakeCase(s: string) returns (b: string)
    ensures b == Snake(s)
  {
    b := "";
    for i := 0 to |s|
      invariant b == Snake(s[..i])
    {
      assert s[..i + 1][..i] == s[..i];
      if i > 0 && IsAsciiUpper(s[i]) {
        b := b + "_";
      }
      b := b + [LowerChar(s[i])];
    }
    assert s[..|s|] == s;
  }

  lemma {:induction false} SnakeOfLower(s: string)
    requires forall i :: 0 <= i < |s| ==> !IsAsciiUpper(s[i])
    ensures Snake(s) == s
  {
    if s != "" {
      SnakeOfLower(s[..|s| - 1]);
      assert s == s[..|s| - 1] + "" + [s[|s| - 1]];
    }
  }

  lemma {:induction false} SnakeIsLower(s: string)
    ensures forall i :: 0 <= i < |Snake(s)| ==> !IsAsciiUpper(Snake(s)[i])
  {
    if s != "" {
      SnakeIsLower(s[..|s| - 1]);
    }
  }

  lemma SnakeIdempotent(s: string)
    ensures Snake(Snake(s)) == Snake(s)
  {
    SnakeIsLower(s);
    SnakeOfLower(Snake(s));
  }

  /** The upper-case letters among the first `n` characters but the very first. */
  ghost function Humps(s: string, n: nat): set<int>
    requires n <= |s|
  {
    set k | 1 <= k < n && IsAsciiUpper(s[k])
  }

  /** Every character moves back by one place for each upper-case letter up to it but the very first, in
      lower case, and exactly those letters have an underscore before them. */
  lemma {:induction false} SnakeAt(s: string, i: nat)
    requires i < |s|
    ensures |Snake(s)| == |s| + |Humps(s, |s|)|
    ensures var at := i + |Humps(s, i + 1)|;
            && at < |Snake(s)| && Snake(s)[at] == LowerChar(s[i])
            && (i > 0 && IsAsciiUpper(s[i]) ==> at > 0 && Snake(s)[at - 1] == '_')
  {
    var n := |s| - 1;
    var front := s[..n];
    HumpsStep(s, n);
    if n == 0 {
      assert Snake(front) == "" && Humps(s, 0) == {};
    } else {
      assert Humps(front, n) == Humps(s, n);
      SnakeAt(front, if i < n then i else n - 1);
      if i < n {
        assert Humps(front, i + 1) == Humps(s, i + 1);
      }
    }
  }

  lemma HumpsStep(s: string, n: nat)
    requires n < |s|
    ensures |Humps(s, n + 1)| == |Humps(s, n)| + if n > 0 && IsAsciiUpper(s[n]) then 1 else 0
  {
    var added := if n > 0 && IsAsciiUpper(s[n]) then {n} else {};
    assert Humps(s, n + 1) == Humps(s, n) + added;
  }

  /** No two keys of one object become the same key, at any depth. */
  ghost predicate CollisionFree(j: Json)
    decreases j
  {
    j.Obj? ==>
      && (forall k, l :: k in j.fields && l in j.fields && Snake(k) == Snake(l) ==> k == l)
      && (forall k :: k in j.fields ==> CollisionFree(j.fields[k]))
  }

  /** `n` is `j` with every key of every object in snake case. */
  ghost predicate IsNormalized(j: Json, n: Json)
    decreases j
  {
    if j.Leaf? then n == j
    else
      && n.Obj?
      && n.fields.Keys == (set k | k in j.fields :: Snake(k))
      && (forall k :: k in j.fields ==> IsNormalized(j.fields[k], n.fields[Snake(k)]))
  }

  /** Keys in snake case at every depth. */
  ghost predicate AllSnake(out: map<string, Json>) {
    forall x :: x in out ==> Snake(x) == x && CollisionFree(out[x]) && IsNormalized(out[x], out[x])
  }

  lemma SnakeKeysStay(out: map<string, Json>)
    requires AllSnake(out)
    ensures CollisionFree(Obj(out)) && IsNormalized(Obj(out), Obj(out))
  {
    assert (set x | x in out :: Snake(x)) == out.Keys;
  }

  /** The keys of `m` but those in `todo` have been normalised into `out`. */
  ghost predicate NormalizedBut(out: map<string, Json>, m: map<string, Json>, todo: set<string>) {
    && out.Keys == (set k | k in m && k !in todo :: Snake(k))
    && (CollisionFree(Obj(m)) ==> forall k :: k in m && k !in todo ==> IsNormalized(m[k], out[Snake(k)]))
    && AllSnake(out)
  }

  lemma ChildrenCollisionFree(m: map<string, Json>)
    requires CollisionFree(Obj(m))
    ensures forall k, l :: k in m && l in m && Snake(k) == Snake(l) ==> k == l
    ensures forall k :: k in m ==> CollisionFree(m[k])
  {
  }

  lemma NormalizeOneKey(out: map<string, Json>, m: map<string, Json>, todo: set<string>, k: string, v: Json)
    requires NormalizedBut(out, m, todo) && k in todo && todo <= m.Keys
    requires CollisionFree(m[k]) ==> IsNormalized(m[k], v)
    requires CollisionFree(v) && IsNormalized(v, v)
    ensures NormalizedBut(out[Snake(k) := v], m, todo - {k})
  {
    hide IsNormalized, CollisionFree, Snake;
    SnakeIdempotent(k);
    if CollisionFree(Obj(m)) {
      ChildrenCollisionFree(m);
    }
  }

  lemma AllNormalized(out: map<string, Json>, m: map<string, Json>)
    ensures NormalizedBut(map[], m, m.Keys)
    ensures NormalizedBut(out, m, {}) ==>
              && out.Keys == (set k | k in m :: Snake(k))
              && (CollisionFree(Obj(m)) ==> IsNormalized(Obj(m), Obj(out)))
              && CollisionFree(Obj(out)) && IsNormalized(Obj(out), Obj(out))
  {
    if NormalizedBut(out, m, {}) {
      SnakeKeysStay(out);
    }
  }

  lemma LeafIsNormal(v: Json)
    requires v.Leaf?
    ensures CollisionFree(v) && IsNormalized(v, v)
  {
  }

  /** The program's loop over the keys, in any order; colliding keys overwrite each other. Whatever
      the order, the result is collision-free and its own normal form. */
  method NormalizeKeys(m: map<string, Json>) returns (out: map<string, Json>)
    ensures out.Keys == (set k | k in m :: Snake(k))
    ensures CollisionFree(Obj(m)) ==> IsNormalized(Obj(m), Obj(out))
    ensures CollisionFree(Obj(out)) && IsNormalized(Obj(out), Obj(out))
    decreases Obj(m)
  {
    hide NormalizedBut, IsNormalized, CollisionFree, Snake;
    out := map[];
    var todo := m.Keys;
    AllNormalized(out, m);
    while todo != {}
      invariant todo <= m.Keys && NormalizedBut(out, m, todo)
    {
      var k :| k in todo;
      var key := ToSnakeCase(k);
      var v := m[k];
      assert Obj(m).fields[k] == v;
      if v.Obj? {
        var sub := NormalizeKeys(v.fields);
        assert v == Obj(v.fields);
        NormalizeOneKey(out, m, todo, k, Obj(sub));
        out := out[key := Obj(sub)];
      } else {
        LeafIsNormal(v);
        NormalizeOneKey(out, m, todo, k, v);
        out := out[key := v];
      }
      todo := todo - {k};
    }
    AllNormalized(out, m);
  }

  /** A collision-free object has exactly one normal form. */
  lemma {:induction false} NormalizedUnique(j: Json, n1: Json, n2: Json)
    requires IsNormalized(j, n1) && IsNormalized(j, n2)
    ensures n1 == n2
    decreases j
  {
    if j.Obj? {
      forall x | x in n1.fields ensures n1.fields[x] == n2.fields[x] {
        var k :| k in j.fields && x == Snake(k);
        NormalizedUnique(j.fields[k], n1.fields[x], n2.fields[x]);
      }
      assert n1.fields == n2.fields;
    }
  }

  /** A normal form is collision-free and its own normal form. */
  lemma {:induction false} NormalizeIdempotent(j: Json, n: Json)
    requires IsNormalized(j, n)
    ensures CollisionFree(n) && IsNormalized(n, n)
    decreases j
  {
    if j.Obj? {
      forall x | x in n.fields
        ensures Snake(x) == x && CollisionFree(n.fields[x]) && IsNormalized(n.fields[x], n.fields[x])
      {
        var k :| k in j.fields && x == Snake(k);
        SnakeIdempotent(k);
        NormalizeIdempotent(j.fields[k], n.fields[x]);
      }
      assert (set x | x in n.fields :: Snake(x)) == n.fields.Keys;
    }
  }
}
