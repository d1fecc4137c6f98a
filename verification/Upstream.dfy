/** The upstream pool as the program runs it: target objects with atomic fields. */
module Upstream {
  import opened LoadBalancing
  import opened Text
  import opened Modulo

  class Target {
    var activeConns: int
    var failures: int
    var healthy: bool
    const url: string

    constructor (url: string)
      ensures activeConns == 0 && failures == 0 && healthy && this.url == url
    {
      this.url := url;
      activeConns, failures, healthy := 0, 0, true;
    }

    /** One health check result; a status of 500 or more counts as a failure. */
    method Check(success: bool)
      modifies this`failures, this`healthy
      ensures HealthState(failures, healthy) == Checked(old(HealthState(failures, healthy)), success)
    {
      if !success {
        failures := failures + 1;
        if failures >= 3 {
          healthy := false;
        }
      } else {
        failures := 0;
        healthy := true;
      }
    }
  }

  datatype Policy = RoundRobin | LeastConn | IPHash

  class Pool {
    var index: nat
    var targets: seq<Target>
    const lbType: Policy

    constructor (lbType: Policy)
      ensures index == 0 && targets == [] && this.lbType == lbType
    {
      this.lbType := lbType;
      index, targets := 0, [];
    }

    /** No target object is in the pool twice. */
    ghost predicate Distinct()
      reads this
    {
      forall i, j :: 0 <= i < j < |targets| ==> targets[i] != targets[j]
    }

    function HealthNow(): (h: Health)
      reads this, targets
      ensures |h| == |targets| && forall i :: 0 <= i < |h| ==> h[i] == targets[i].healthy
    {
      seq(|targets|, i requires 0 <= i < |targets| reads this, targets => targets[i].healthy)
    }

    function ConnsNow(): (c: seq<int>)
      reads this, targets
      ensures |c| == |targets| && forall i :: 0 <= i < |c| ==> c[i] == targets[i].activeConns
    {
      seq(|targets|, i requires 0 <= i < |targets| reads this, targets => targets[i].activeConns)
    }

    /** `url` is the parsed address, None when it does not parse. */
    method AddTarget(url: Option<string>) returns (ok: bool)
      requires Distinct()
      modifies this`targets
      ensures Distinct() && ok == url.Some?
      ensures !ok ==> targets == old(targets)
      ensures ok ==> |targets| == |old(targets)| + 1 && targets[..|old(targets)|] == old(targets)
      ensures ok ==> var t := targets[|old(targets)|];
                     fresh(t) && t.healthy && t.failures == 0 && t.activeConns == 0 && t.url == url.value
    {
      if url.None? {
        return false;
      }
      var t := new Target(url.value);
      targets := targets + [t];
      return true;
    }

    /** The counter is a uint64 converted to int, so it must stay below 2^63. */
    method NextRoundRobin() returns (pick: int)
      requires index < MAX_INT64
      modifies this`index
      ensures pick == if targets == [] then NONE else Scan(HealthNow(), index, 0)
      ensures index == if targets == [] then old(index) else old(index) + 1
    {
      if |targets| == 0 {
        return NONE;
      }
      index := index + 1;
      pick := ScanFrom(index % |targets|);
      ModuloStart(HealthNow(), index, 0);
    }

    /** The first healthy target from `idx` on, going round once. */
    method ScanFrom(idx: nat) returns (pick: int)
      requires idx < |targets|
      ensures pick == Scan(HealthNow(), idx, 0)
    {
      for i := 0 to |targets|
        invariant Scan(HealthNow(), idx, 0) == Scan(HealthNow(), idx, i)
      {
        var t := targets[(idx + i) % |targets|];
        if t.healthy {
          return (idx + i) % |targets|;
        }
      }
      return NONE;
    }

    method NextLeastConn() returns (best: int)
      ensures best == Least(HealthNow(), ConnsNow(), |targets|)
      ensures IsLeast(HealthNow(), ConnsNow(), best)
    {
      best := NONE;
      var minConns := MAX_INT64;
      ghost var h, c := HealthNow(), ConnsNow();
      for i := 0 to |targets|
        invariant best == Least(h, c, i)
        invariant minConns == if best == NONE then MAX_INT64 else c[best]
      {
        var t := targets[i];
        if !t.healthy {
          continue;
        }
        var conns := t.activeConns;
        if conns < minConns {
          minConns := conns;
          best := i;
        }
      }
      assert h[..|targets|] == h && c[..|targets|] == c;
    }

    /** `hash` is the 32-bit FNV-1a sum of the client's host. Falls back to the hashed target when
        no target is healthy. */
    method NextIPHash(hash: nat) returns (pick: int)
      ensures targets == [] ==> pick == NONE
      ensures targets != [] ==>
        var idx := hash % |targets|;
        pick == if Scan(HealthNow(), idx, 0) == NONE then idx else Scan(HealthNow(), idx, 0)
    {
      if |targets| == 0 {
        return NONE;
      }
      var idx := hash % |targets|;
      pick := ScanFrom(idx);
      if pick == NONE {
        pick := idx;
      }
    }

    /** The policy decides: the healthy target with the fewest connections; the hashed target as long
        as it is healthy, and a healthy one while there is any; or the next healthy one round and round. */
    method Next(hash: nat) returns (pick: int)
      requires index < MAX_INT64
      modifies this`index
      ensures index == if lbType == RoundRobin && targets != [] then old(index) + 1 else old(index)
      ensures pick == if targets == [] then NONE else PickNow(hash)
      ensures pick == NONE || 0 <= pick < |targets|
      ensures lbType == LeastConn ==> IsLeast(HealthNow(), ConnsNow(), pick)
      ensures lbType == IPHash && targets != [] ==>
                && pick != NONE
                && (targets[hash % |targets|].healthy ==> pick == hash % |targets|)
                && ((exists t :: t in targets && t.healthy) ==> targets[pick].healthy)
      ensures lbType == RoundRobin && targets != [] ==> pick == Scan(HealthNow(), old(index) + 1, 0)
      ensures lbType != IPHash && pick != NONE ==> targets[pick].healthy
      ensures lbType != LeastConn && pick == NONE ==> forall t :: t in targets ==> !t.healthy
    {
      if |targets| == 0 {
        return NONE;
      }
      match lbType
      case LeastConn => pick := NextLeastConn();
      case IPHash =>
        pick := NextIPHash(hash);
        HashedPick(HealthNow(), hash % |targets|);
      case RoundRobin =>
        pick := NextRoundRobin();
        NothingPickedIff(HealthNow(), index);
    }

    /** The target each policy picks, the round-robin counter having been advanced. */
    function PickNow(hash: nat): int
      requires targets != []
      reads this, targets
    {
      match lbType
      case LeastConn => Least(HealthNow(), ConnsNow(), |targets|)
      case RoundRobin => Scan(HealthNow(), index, 0)
      case IPHash =>
        var idx := hash % |targets|;
        if Scan(HealthNow(), idx, 0) == NONE then idx else Scan(HealthNow(), idx, 0)
    }

    /** Any number of calls in a row, with health and connections as they are. Round robin gives each
        target its exact share of every |targets| of them. */
    method Serve(hashes: seq<nat>) returns (picks: seq<int>)
      requires index + |hashes| < MAX_INT64
      modifies this`index
      ensures |picks| == |hashes|
      ensures lbType == RoundRobin && targets != [] ==>
                index == old(index) + |hashes| && Rounds(old(HealthNow()), picks, old(index) + 1)
      ensures lbType == RoundRobin && |hashes| == |targets| > 0 ==>
                forall j :: 0 <= j < |targets| ==>
                  Times(picks, j) == if targets[j].healthy then 1 + Gap(old(HealthNow()), j, 1) else 0
    {
      hide Rounds, Scan, Gap, Least, Times;
      ghost var h, start := HealthNow(), index + 1;
      NoRounds(h, start);
      picks := [];
      for i := 0 to |hashes|
        invariant |picks| == i
        invariant index == if lbType == RoundRobin && targets != [] then old(index) + i else old(index)
        invariant lbType == RoundRobin && targets != [] ==> Rounds(h, picks, start)
        invariant HealthNow() == h
      {
        var pick := Next(hashes[i]);
        assert HealthNow() == h;
        if lbType == RoundRobin && targets != [] {
          MoreRounds(h, picks, start, pick);
        }
        picks := picks + [pick];
      }
      if lbType == RoundRobin && |hashes| == |targets| > 0 {
        SharesOf(h, picks, start);
      }
    }

    /** Checks every target once; `success[i]` is the outcome for target i. */
    method CheckAll(success: seq<bool>)
      requires Distinct() && |success| == |targets|
      modifies targets
      ensures forall i :: 0 <= i < |targets| ==>
        && HealthState(targets[i].failures, targets[i].healthy) ==
           Checked(old(HealthState(targets[i].failures, targets[i].healthy)), success[i])
        && targets[i].activeConns == old(targets[i].activeConns)
    {
      for i := 0 to |targets|
        invariant forall j :: 0 <= j < |targets| ==> targets[j].activeConns == old(targets[j].activeConns)
        invariant forall j :: 0 <= j < i ==>
          HealthState(targets[j].failures, targets[j].healthy) ==
          Checked(old(HealthState(targets[j].failures, targets[j].healthy)), success[j])
        invariant forall j :: i <= j < |targets| ==>
          HealthState(targets[j].failures, targets[j].healthy) ==
          old(HealthState(targets[j].failures, targets[j].healthy))
      {
        targets[i].Check(success[i]);
      }
    }
  }

  lemma HashedPick(h: Health, idx: nat)
    requires idx < |h|
    ensures h[idx] ==> Scan(h, idx, 0) == idx
    ensures Scan(h, idx, 0) == NONE <==> forall t :: 0 <= t < |h| ==> !h[t]
  {
    NothingPickedIff(h, idx);
    ModOf(idx, |h|, 0, idx);
  }

  /** How often `j` is picked. */
  function Times(picks: seq<int>, j: int): nat {
    if picks == [] then 0 else Times(picks[..|picks| - 1], j) + if picks[|picks| - 1] == j then 1 else 0
  }

  /** The picks for consecutive counter values from `from`. */
  ghost predicate Rounds(h: Health, picks: seq<int>, from: int) {
    |h| > 0 ==> forall k :: 0 <= k < |picks| ==> picks[k] == Scan(h, from + k, 0)
  }

  lemma NoRounds(h: Health, from: int)
    ensures Rounds(h, [], from)
  {
  }

  lemma MoreRounds(h: Health, picks: seq<int>, from: int, pick: int)
    requires |h| > 0 && Rounds(h, picks, from) && pick == Scan(h, from + |picks|, 0)
    ensures Rounds(h, picks + [pick], from)
  {
  }

  lemma {:induction false} TimesIsPicks(h: Health, picks: seq<int>, from: int, j: int)
    requires |h| > 0 && Rounds(h, picks, from)
    ensures Times(picks, j) == Picks(h, j, from, |picks|)
  {
    if picks != [] {
      TimesIsPicks(h, picks[..|picks| - 1], from, j);
    }
  }

  lemma SharesOf(h: Health, picks: seq<int>, from: int)
    requires |picks| == |h| > 0 && Rounds(h, picks, from)
    ensures forall j :: 0 <= j < |h| ==> Times(picks, j) == if h[j] then 1 + Gap(h, j, 1) else 0
  {
    forall j | 0 <= j < |h| ensures Times(picks, j) == if h[j] then 1 + Gap(h, j, 1) else 0 {
      TimesIsPicks(h, picks, from, j);
      ExactShares(h, j, from);
    }
  }

  lemma {:induction false} ModuloStart(h: Health, k: nat, i: nat)
    requires |h| > 0 && i <= |h|
    ensures Scan(h, k % |h|, i) == Scan(h, k, i)
    decreases |h| - i
  {
    if i < |h| {
      ModInner(k, i, |h|);
      ModuloStart(h, k, i + 1);
    }
  }
}
