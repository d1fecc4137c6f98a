/** The agent's event tracker as the program runs it: slices compacted in place. */
module EventTracker {
  import opened SlidingWindow

  /** A Go slice that starts at the front of its backing array; its capacity is the array. */
  datatype Slice = Slice(arr: array<int>, len: nat)

  ghost predicate Fits(s: Slice) {
    s.len <= s.arr.Length
  }

  ghost function Times(s: Slice): seq<int>
    requires Fits(s)
    reads s.arr
  {
    s.arr[..s.len]
  }

  /** Keeps the times after the cutoff, writing them over the front of the same array. */
  method Compact(events: Slice, cutoff: int) returns (valid: Slice)
    requires Fits(events)
    modifies events.arr
    ensures valid.arr == events.arr && valid.len <= events.len
    ensures Times(valid) == After(old(Times(events)), cutoff)
  {
    var arr, m := events.arr, 0;
    for i := 0 to events.len
      invariant m <= i
      invariant arr[..m] == After(old(arr[..i]), cutoff)
      invariant forall k :: i <= k < events.len ==> arr[k] == old(arr[k])
    {
      assert old(arr[..i + 1])[..i] == old(arr[..i]);
      var ts := arr[i];
      if ts > cutoff {
        arr[m] := ts;
        m := m + 1;
      }
    }
    valid := Slice(arr, m);
  }

  /** `append`: in place while there is capacity, into a larger array otherwise. */
  method Append(s: Slice, x: int) returns (r: Slice)
    requires Fits(s)
    modifies s.arr
    ensures Fits(r) && (r.arr == s.arr || fresh(r.arr))
    ensures Times(r) == old(Times(s)) + [x]
  {
    if s.len < s.arr.Length {
      s.arr[s.len] := x;
      r := Slice(s.arr, s.len + 1);
    } else {
      var bigger := new int[2 * s.len + 1];
      for i := 0 to s.len
        invariant bigger[..i] == s.arr[..i]
        invariant s.arr[..] == old(s.arr[..])
      {
        bigger[i] := s.arr[i];
      }
      bigger[s.len] := x;
      r := Slice(bigger, s.len + 1);
    }
  }

  /** The slice of an address that has no events yet. */
  method Empty() returns (s: Slice)
    ensures Fits(s) && fresh(s.arr) && Times(s) == []
  {
    var none := new int[0];
    s := Slice(none, 0);
  }

  /** Forgets the times up to the cutoff and appends `now`. */
  method Advance(events: Slice, cutoff: int, now: int) returns (valid: Slice)
    requires Fits(events)
    modifies events.arr
    ensures Fits(valid) && (valid.arr == events.arr || fresh(valid.arr))
    ensures Times(valid) == After(old(Times(events)), cutoff) + [now]
    ensures valid.len == |After(old(Times(events)), cutoff)| + 1
  {
    hide After;
    valid := Compact(events, cutoff);
    valid := Append(valid, now);
    TimesLength(valid);
  }

  /** The slice of an address that has no events before `now`. */
  method FirstEvent(cutoff: int, now: int) returns (valid: Slice)
    ensures Fits(valid) && fresh(valid.arr)
    ensures Times(valid) == After([], cutoff) + [now] && valid.len == |After([], cutoff)| + 1
  {
    hide After;
    var none := Empty();
    valid := Advance(none, cutoff, now);
  }

  class Tracker {
    var counts: map<string, Slice>
    const threshold: int
    const window: int
    ghost var Contents: Counts
    ghost var Owner: map<array<int>, string>

    /** Every slice fits its array, no two addresses share one, and `Contents` is what they hold. */
    ghost predicate Valid()
      reads this, Owner.Keys
    {
      && Contents.Keys == counts.Keys
      && forall ip :: ip in counts ==>
           && counts[ip].arr in Owner.Keys && Owner[counts[ip].arr] == ip
           && Fits(counts[ip]) && Times(counts[ip]) == Contents[ip]
    }

    constructor (threshold: int, windowSec: int)
      ensures Valid() && Contents == map[] && Owner == map[]
      ensures this.threshold == threshold && window == windowSec * 1_000_000_000
    {
      this.threshold := threshold;
      window := windowSec * 1_000_000_000;
      counts, Contents, Owner := map[], map[], map[];
    }

    /** All that `Valid` says of addresses other than `ip`. */
    ghost predicate ValidBut(ip: string)
      reads this, Owner.Keys
    {
      && Contents.Keys + {ip} == counts.Keys + {ip}
      && forall other :: other in counts && other != ip ==>
           && other in Contents
           && counts[other].arr in Owner.Keys && Owner[counts[other].arr] == other
           && Fits(counts[other]) && Times(counts[other]) == Contents[other]
    }

    /** Stores the new slice of an address. */
    method Install(ip: string, valid: Slice)
      requires ValidBut(ip) && Fits(valid) && (valid.arr in Owner.Keys ==> Owner[valid.arr] == ip)
      modifies this
      ensures Valid() && Owner == old(Owner)[valid.arr := ip]
      ensures Contents == old(Contents)[ip := Times(valid)]
    {
      hide Times, Fits;
      counts, Owner, Contents := counts[ip := valid], Owner[valid.arr := ip], Contents[ip := Times(valid)];
      forall other | other in counts
        ensures counts[other].arr in Owner.Keys && Owner[counts[other].arr] == other
        ensures Fits(counts[other]) && Times(counts[other]) == Contents[other]
      {
        if other == ip {
          assert counts[other] == valid;
        } else {
          assert counts[other] == old(counts)[other] && Contents[other] == old(Contents)[other];
        }
      }
    }

    /** `Record` for an address without events: it starts from an empty slice. */
    method Begin(ip: string, now: int) returns (exceeded: bool)
      requires Valid() && ip !in counts
      modifies this
      ensures Valid() && fresh(Owner.Keys - old(Owner.Keys))
      ensures Contents == old(Contents)[ip := After([], now - window) + [now]]
      ensures exceeded == (|After([], now - window)| + 1 >= threshold)
    {
      hide After, Times, Fits;
      var valid := FirstEvent(now - window, now);
      Install(ip, valid);
      exceeded := valid.len >= threshold;
    }

    /** `Record` for an address that has a slice. */
    method Extend(ip: string, now: int) returns (exceeded: bool)
      requires Valid() && ip in counts
      modifies this, Owner.Keys
      ensures Valid() && fresh(Owner.Keys - old(Owner.Keys))
      ensures var kept := After(old(Contents)[ip], now - window);
              && Contents == old(Contents)[ip := kept + [now]]
              && exceeded == (|kept| + 1 >= threshold)
    {
      hide After, Times, Fits;
      var valid := Advance(counts[ip], now - window, now);
      Install(ip, valid);
      exceeded := valid.len >= threshold;
    }

    method Record(ip: string, now: int) returns (exceeded: bool)
      requires Valid()
      modifies this, Owner.Keys
      ensures Valid() && fresh(Owner.Keys - old(Owner.Keys))
      ensures Contents == AfterRecord(old(Contents), ip, now, window)
      ensures exceeded == Answer(old(Contents), ip, now, window, threshold)
    {
      hide After, Times, Fits;
      if ip in counts {
        exceeded := Extend(ip, now);
      } else {
        exceeded := Begin(ip, now);
      }
    }

    /** The turn of one address in `Cleanup`. */
    method Sweep(ip: string, cutoff: int)
      requires Valid() && ip in counts
      modifies this, Owner.Keys
      ensures Valid() && Owner == old(Owner)
      ensures var kept := After(old(Contents)[ip], cutoff);
              Contents == if kept == [] then old(Contents) - {ip} else old(Contents)[ip := kept]
    {
      hide After, Times;
      var valid := Compact(counts[ip], cutoff);
      TimesLength(valid);
      ghost var kept := After(Contents[ip], cutoff);
      if valid.len == 0 {
        counts, Contents := counts - {ip}, Contents - {ip};
      } else {
        counts, Contents := counts[ip := valid], Contents[ip := kept];
      }
    }

    method Cleanup(now: int)
      requires Valid()
      modifies this, Owner.Keys
      ensures Valid() && Owner == old(Owner)
      ensures Contents == AfterCleanup(old(Contents), now, window)
    {
      hide After, Times;
      var cutoff := now - window;
      ghost var before := Contents;
      var todo := counts.Keys;
      while todo != {}
        invariant Valid() && Owner == old(Owner)
        invariant todo <= Contents.Keys <= before.Keys
        invariant forall ip :: ip in todo ==> Contents[ip] == before[ip]
        invariant forall ip :: ip in before && ip !in todo ==>
          if ip in Contents then Contents[ip] == After(before[ip], cutoff) != []
          else After(before[ip], cutoff) == []
      {
        var ip :| ip in todo;
        Sweep(ip, cutoff);
        todo := todo - {ip};
      }
    }
  }

  lemma TimesLength(s: Slice)
    requires Fits(s)
    ensures |Times(s)| == s.len
  {
  }
}
