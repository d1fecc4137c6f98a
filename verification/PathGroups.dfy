/** How the learning engine groups request paths: the scanning loop, what it computes, and the
    counts per group. */
module PathGroups {
  import opened Text

  predicate IsNumeric(s: string) {
    s != "" && forall i :: 0 <= i < |s| ==> IsDigit(s[i])
  }

  predicate IsHex(s: string) {
    s != "" && forall i :: 0 <= i < |s| ==> IsHexChar(s[i])
  }

  function Count(s: string, c: char): nat {
    if s == "" then 0 else Count(s[..|s| - 1], c) + if s[|s| - 1] == c then 1 else 0
  }

  predicate IsUUID(s: string) {
    |s| == 36 && Count(s, '-') == 4
  }

  /** The placeholder of a segment, or the segment itself. */
  function Classify(segment: string): (c: string)
    ensures c == "" ==> segment == ""
  {
    if IsNumeric(segment) then "{id}"
    else if IsUUID(segment) then "{uuid}"
    else if IsHex(segment) && |segment| > 16 then "{hash}"
    else segment
  }

  function ClassifyAll(segments: seq<string>): (cs: seq<string>)
    ensures |cs| == |segments| && forall i :: 0 <= i < |cs| ==> cs[i] == Classify(segments[i])
  {
    seq(|segments|, i requires 0 <= i < |segments| => Classify(segments[i]))
  }

  function CutQuery(path: string): (p: string)
    ensures '?' !in p
  {
    var i := IndexOf(path, '?');
    if i < 0 then path else path[..i]
  }

  /** `strings.Trim(path, "/")`. */
  function TrimSlashes(s: string): (t: string)
    ensures t == "" || (t[0] != '/' && t[|t| - 1] != '/')
    ensures forall c :: c in t ==> c in s
    decreases |s|
  {
    if s == "" then ""
    else if s[0] == '/' then
      assert forall c :: c in s[1..] ==> c in s;
      TrimSlashes(s[1..])
    else if s[|s| - 1] == '/' then
      assert forall c :: c in s[..|s| - 1] ==> c in s;
      TrimSlashes(s[..|s| - 1])
    else s
  }

  /** The classified segments of a path. */
  function Segments(path: string): (cs: seq<string>)
    ensures |cs| >= 1
  {
    ClassifyAll(Split(TrimSlashes(CutQuery(path)), '/'))
  }

  /** Each segment behind a slash. */
  function Rejoin(segments: seq<string>): string {
    if segments == [] then "" else Rejoin(segments[..|segments| - 1]) + "/" + segments[|segments| - 1]
  }

  /** What the grouping key of a path means. */
  function NormalForm(path: string): string {
    Rejoin(Segments(path))
  }

  /** The loop of the program: one segment at a time, appended to a builder. */
  method NormalizePath(path: string) returns (key: string)
    ensures key == NormalForm(path)
  {
    hide IndexOf, Split, TrimSlashes, CutQuery, Classify, ClassifyAll, Rejoin;
    var trimmed := TrimSlashes(CutQuery(path));
    EmptyRejoin();
    if trimmed == "" {
      return "/";
    }
    key := "";
    ghost var pieces := Split(trimmed, '/');
    assert pieces[..0] == [] && pieces[0..] == pieces && trimmed[0..] == trimmed;
    ghost var n := 0;
    var start := 0;
    while true
      invariant start <= |trimmed| && n < |pieces|
      invariant Split(trimmed[start..], '/') == pieces[n..]
      invariant key == Rejoin(ClassifyAll(pieces[..n]))
      decreases |trimmed| - start
    {
      var end := IndexOf(trimmed[start..], '/');
      var segment := if end == -1 then trimmed[start..] else trimmed[start..start + end];
      SplitHead(trimmed, start);
      assert segment == pieces[n..][0] == pieces[n];
      RejoinStep(pieces, n);
      key := key + "/" + Classify(segment);
      if end == -1 {
        assert n + 1 == |pieces|;
        assert pieces[..n + 1] == pieces;
        return;
      }
      assert pieces[n..][1..] == pieces[n + 1..];
      n := n + 1;
      start := start + end + 1;
    }
  }

  lemma SplitHead(s: string, start: nat)
    requires start <= |s|
    ensures var rest := s[start..]; var end := IndexOf(rest, '/');
            if end < 0 then Split(rest, '/') == [rest]
            else Split(rest, '/')[0] == s[start..start + end] &&
                 Split(rest, '/')[1..] == Split(s[start + end + 1..], '/')
  {
    hide IndexOf, Split;
    var rest := s[start..];
    SplitFirst(rest, '/');
    var end := IndexOf(rest, '/');
    if end >= 0 {
      assert rest[..end] == s[start..start + end];
      assert rest[end + 1..] == s[start + end + 1..];
    }
  }

  lemma RejoinStep(pieces: seq<string>, n: nat)
    requires n < |pieces|
    ensures Rejoin(ClassifyAll(pieces[..n + 1])) == Rejoin(ClassifyAll(pieces[..n])) + "/" + Classify(pieces[n])
  {
    var more := ClassifyAll(pieces[..n + 1]);
    assert more[..n] == ClassifyAll(pieces[..n]);
  }

  lemma EmptyRejoin()
    ensures Split("", '/') == [""] && Rejoin(ClassifyAll([""])) == "/"
    ensures Rejoin(ClassifyAll([])) == ""
  {
    assert ClassifyAll([]) == [];
    var cs := ClassifyAll([""]);
    assert cs == [""] && cs[..0] == [];
  }

  // ---------------------------------------------------------------- joining and splitting

  lemma {:induction false} RejoinIsJoin(segments: seq<string>)
    requires segments != []
    ensures Rejoin(segments) == "/" + Join(segments, "/")
  {
    if |segments| == 1 {
      assert segments[..0] == [];
    } else {
      RejoinIsJoin(segments[..|segments| - 1]);
      JoinBack(segments);
    }
  }

  lemma {:induction false} JoinBack(parts: seq<string>)
    requires |parts| >= 2
    ensures Join(parts, "/") == Join(parts[..|parts| - 1], "/") + "/" + parts[|parts| - 1]
  {
    var front := parts[..|parts| - 1];
    if |parts| > 2 {
      JoinBack(parts[1..]);
      assert parts[1..][..|parts| - 2] == front[1..];
    }
  }

  lemma ClassifiedClean(segment: string)
    requires '/' !in segment && '?' !in segment
    ensures '/' !in Classify(segment) && '?' !in Classify(segment)
  {
    PlaceholdersClean();
  }

  lemma PlaceholdersClean()
    ensures '/' !in "{id}" && '?' !in "{id}"
    ensures '/' !in "{uuid}" && '?' !in "{uuid}"
    ensures '/' !in "{hash}" && '?' !in "{hash}"
  {
  }

  lemma {:induction false} SplitKeepsOut(s: string, c: char, d: char)
    requires d !in s
    ensures forall i :: 0 <= i < |Split(s, c)| ==> d !in Split(s, c)[i]
    decreases |s|
  {
    hide IndexOf, Split;
    SplitFirst(s, c);
    var i, pieces := IndexOf(s, c), Split(s, c);
    if i >= 0 {
      assert forall x :: x in s[i + 1..] ==> x in s;
      assert forall x :: x in s[..i] ==> x in s;
      SplitKeepsOut(s[i + 1..], c, d);
      forall k | 0 <= k < |pieces| ensures d !in pieces[k] {
        if k > 0 {
          assert pieces[k] == pieces[1..][k - 1];
        }
      }
    }
  }

  /** No classified segment contains a slash or a question mark. */
  lemma SegmentsClean(path: string)
    ensures forall i :: 0 <= i < |Segments(path)| ==> '/' !in Segments(path)[i] && '?' !in Segments(path)[i]
  {
    hide Split, TrimSlashes, CutQuery, Classify;
    var trimmed := TrimSlashes(CutQuery(path));
    var pieces := Split(trimmed, '/');
    SplitKeepsOut(trimmed, '/', '?');
    forall i | 0 <= i < |pieces| ensures '/' !in Classify(pieces[i]) && '?' !in Classify(pieces[i]) {
      assert pieces[i] in pieces;
      ClassifiedClean(pieces[i]);
    }
  }

  // ---------------------------------------------------------------- main results

  /** Two paths fall into the same group exactly when their classified segments are the same. */
  lemma SameGroupIff(p: string, q: string)
    ensures NormalForm(p) == NormalForm(q) <==> Segments(p) == Segments(q)
  {
    hide Segments, Split, Join, Rejoin;
    var a, b := Segments(p), Segments(q);
    RejoinIsJoin(a);
    RejoinIsJoin(b);
    SegmentsClean(p);
    SegmentsClean(q);
    SplitOfJoin(a, '/');
    SplitOfJoin(b, '/');
    if NormalForm(p) == NormalForm(q) {
      assert ("/" + Join(a, "/"))[1..] == Join(a, "/");
      assert ("/" + Join(b, "/"))[1..] == Join(b, "/");
    }
  }

  lemma ClassifyTwice(segment: string)
    ensures Classify(Classify(segment)) == Classify(segment)
  {
    assert "{id}"[0] == '{' && "{uuid}"[0] == '{' && "{hash}"[0] == '{';
  }

  /** First and last segments of a trimmed path are empty only for the empty path. */
  lemma EdgeSegments(trimmed: string)
    requires trimmed == "" || (trimmed[0] != '/' && trimmed[|trimmed| - 1] != '/')
    ensures var pieces := Split(trimmed, '/');
            trimmed == "" || (pieces[0] != "" && pieces[|pieces| - 1] != "")
  {
    hide IndexOf;
    var i := IndexOf(trimmed, '/');
    if trimmed != "" && i >= 0 {
      assert i > 0;
      LastPiece(trimmed);
    }
  }

  lemma {:induction false} LastPiece(s: string)
    requires s != "" && s[|s| - 1] != '/'
    ensures var pieces := Split(s, '/'); pieces[|pieces| - 1] != ""
    decreases |s|
  {
    hide IndexOf;
    var i := IndexOf(s, '/');
    if i >= 0 {
      LastPiece(s[i + 1..]);
    }
  }

  lemma JoinEnds(cs: seq<string>)
    requires cs != [] && cs[0] != "" && cs[|cs| - 1] != ""
    ensures var x, last := Join(cs, "/"), cs[|cs| - 1];
            x != "" && x[0] == cs[0][0] && x[|x| - 1] == last[|last| - 1]
  {
    if |cs| > 1 {
      hide Join;
      assert Join(cs, "/") == cs[0] + "/" + Join(cs[1..], "/") by { JoinCons(cs, "/"); }
      JoinBack(cs);
    }
  }

  lemma TrimOnce(x: string)
    requires x == "" || (x[0] != '/' && x[|x| - 1] != '/')
    ensures TrimSlashes("/" + x) == x
  {
    assert ("/" + x)[1..] == x;
  }

  /** Joined segments whose ends are not empty need no trimming. */
  lemma TrimOfKey(cs: seq<string>)
    requires cs != [] && forall i :: 0 <= i < |cs| ==> '/' !in cs[i]
    requires cs == [""] || (cs[0] != "" && cs[|cs| - 1] != "")
    ensures TrimSlashes("/" + Join(cs, "/")) == Join(cs, "/")
  {
    if cs == [""] {
      assert Join(cs, "/") == "";
    } else {
      hide Join, TrimSlashes;
      JoinEnds(cs);
      var last := cs[|cs| - 1];
      assert cs[0][0] in cs[0] && last[|last| - 1] in last;
    }
    TrimOnce(Join(cs, "/"));
  }

  lemma {:induction false} JoinKeepsOut(parts: seq<string>, d: char)
    requires d != '/' && forall i :: 0 <= i < |parts| ==> d !in parts[i]
    ensures d !in Join(parts, "/")
  {
    if |parts| > 1 {
      JoinKeepsOut(parts[1..], d);
    }
  }

  lemma EmptySegments()
    ensures Split("", '/') == [""] && Classify("") == ""
  {
  }

  lemma EdgesOfSegments(path: string)
    ensures var cs := Segments(path); cs == [""] || (cs[0] != "" && cs[|cs| - 1] != "")
  {
    hide CutQuery, TrimSlashes, Split, Classify;
    var trimmed := TrimSlashes(CutQuery(path));
    EdgeSegments(trimmed);
    if trimmed == "" {
      EmptySegments();
      assert Segments(path) == [""];
    }
  }

  /** A path and its group key have the same segments. */
  lemma SegmentsOfKey(path: string)
    ensures Segments(NormalForm(path)) == Segments(path)
  {
    hide Segments, Split, Join, Rejoin, TrimSlashes, Classify;
    var cs := Segments(path);
    RejoinIsJoin(cs);
    SegmentsClean(path);
    EdgesOfSegments(path);
    JoinKeepsOut(cs, '?');
    var key := "/" + Join(cs, "/");
    assert '?' !in key;
    assert CutQuery(key) == key;
    TrimOfKey(cs);
    SplitOfJoin(cs, '/');
    SegmentsMeans(key);
    ClassifiedStays(path);
  }

  lemma SegmentsMeans(path: string)
    ensures Segments(path) == ClassifyAll(Split(TrimSlashes(CutQuery(path)), '/'))
  {
  }

  lemma ClassifiedStays(path: string)
    ensures ClassifyAll(Segments(path)) == Segments(path)
  {
    hide Classify, Split, TrimSlashes, CutQuery;
    var pieces := Split(TrimSlashes(CutQuery(path)), '/');
    forall i | 0 <= i < |pieces| ensures Classify(Classify(pieces[i])) == Classify(pieces[i]) {
      ClassifyTwice(pieces[i]);
    }
  }

  /** Normalising a group key changes nothing. */
  lemma NormalFormIdempotent(path: string)
    ensures NormalForm(NormalForm(path)) == NormalForm(path)
  {
    hide Segments, Rejoin;
    SegmentsOfKey(path);
  }

  // ---------------------------------------------------------------- which paths share a group

  ghost predicate NumberLike(s: string) {
    s != "" && forall i :: 0 <= i < |s| ==> '0' <= s[i] <= '9'
  }

  /** The positions at which `c` stands. */
  ghost function Places(s: string, c: char): set<int> {
    set i | 0 <= i < |s| && s[i] == c
  }

  ghost predicate UuidLike(s: string) {
    |s| == 36 && |Places(s, '-')| == 4
  }

  ghost predicate HashLike(s: string) {
    && |s| > 16 && !NumberLike(s)
    && forall i :: 0 <= i < |s| ==> ('0' <= s[i] <= '9') || ('a' <= s[i] <= 'f') || ('A' <= s[i] <= 'F')
  }

  /** `a` is of a kind that `b` is of too, or whose placeholder `b` is. */
  ghost predicate SameKind(a: string, b: string) {
    || (NumberLike(a) && (NumberLike(b) || b == "{id}"))
    || (UuidLike(a) && (UuidLike(b) || b == "{uuid}"))
    || (HashLike(a) && (HashLike(b) || b == "{hash}"))
  }

  ghost predicate Alike(a: string, b: string) {
    a == b || SameKind(a, b) || SameKind(b, a)
  }

  lemma {:induction false} CountIsPlaces(s: string, c: char)
    ensures Count(s, c) == |Places(s, c)|
  {
    if s == "" {
      assert Places(s, c) == {};
    } else {
      var n := |s| - 1;
      CountIsPlaces(s[..n], c);
      assert Places(s, c) == Places(s[..n], c) + if s[n] == c then {n} else {};
    }
  }

  /** What a segment is replaced by. */
  lemma Replaced(s: string)
    ensures NumberLike(s) ==> Classify(s) == "{id}"
    ensures UuidLike(s) ==> Classify(s) == "{uuid}"
    ensures HashLike(s) ==> Classify(s) == "{hash}"
    ensures !NumberLike(s) && !UuidLike(s) && !HashLike(s) ==> Classify(s) == s
  {
    CountIsPlaces(s, '-');
    if UuidLike(s) {
      assert Places(s, '-') != {};
      var i :| i in Places(s, '-');
      assert s[i] == '-';
    }
  }

  lemma BracesAreLiteral()
    ensures forall b :: b == "{id}" || b == "{uuid}" || b == "{hash}" ==> !NumberLike(b) && !UuidLike(b) && !HashLike(b)
    ensures "{id}" != "{uuid}" && "{id}" != "{hash}" && "{uuid}" != "{hash}"
  {
    assert "{id}"[0] == '{' && "{uuid}"[0] == '{' && "{hash}"[0] == '{';
    assert "{id}"[1] == 'i' && "{uuid}"[1] == 'u' && "{hash}"[1] == 'h';
  }

  lemma ReplacedAlikeIff(a: string, b: string)
    ensures Classify(a) == Classify(b) <==> Alike(a, b)
  {
    hide Classify, NumberLike, UuidLike, HashLike;
    Replaced(a);
    Replaced(b);
    BracesAreLiteral();
  }

  /** The pieces of a path between slashes, without the query and the slashes around it. */
  function Pieces(path: string): seq<string> {
    Split(TrimSlashes(CutQuery(path)), '/')
  }

  /** Two paths share a group exactly when they have equally many pieces and each is equal to its
      counterpart or of the same kind. */
  lemma SameKeyIff(p: string, q: string)
    ensures NormalForm(p) == NormalForm(q) <==>
            |Pieces(p)| == |Pieces(q)| && forall i :: 0 <= i < |Pieces(p)| ==> Alike(Pieces(p)[i], Pieces(q)[i])
  {
    hide NormalForm, Classify, Alike, Split, TrimSlashes, CutQuery;
    SameGroupIff(p, q);
    var a, b := Pieces(p), Pieces(q);
    if |a| == |b| {
      forall i | 0 <= i < |a| ensures Segments(p)[i] == Segments(q)[i] <==> Alike(a[i], b[i]) {
        ReplacedAlikeIff(a[i], b[i]);
      }
    }
  }

  /** A trimmed path without a query is cut at its slashes only. */
  lemma PlainPieces(parts: seq<string>)
    requires parts != [] && parts[0] != "" && parts[|parts| - 1] != ""
    requires forall i :: 0 <= i < |parts| ==> '/' !in parts[i] && '?' !in parts[i]
    ensures Pieces("/" + Join(parts, "/")) == parts
  {
    hide Split, TrimSlashes, Join;
    JoinKeepsOut(parts, '?');
    var path := "/" + Join(parts, "/");
    assert CutQuery(path) == path;
    TrimOfKey(parts);
    SplitOfJoin(parts, '/');
  }

  /** The query and the slashes around a path do not matter. */
  lemma SurroundingsIgnored(path: string, query: string)
    requires '?' !in path
    ensures NormalForm(path + "?" + query) == NormalForm(path)
    ensures NormalForm("/" + path) == NormalForm(path) == NormalForm(path + "/")
  {
    hide IndexOf, TrimSlashes, ClassifyAll, Split, Rejoin;
    IndexAfter(path, '?', query);
    assert (path + "?" + query)[..|path|] == path;
    TrimmedBefore(path);
    TrimmedBehind(path);
  }

  lemma TrimmedBefore(s: string)
    ensures TrimSlashes("/" + s) == TrimSlashes(s)
  {
    assert ("/" + s)[1..] == s;
  }

  lemma {:induction false} TrimmedBehind(s: string)
    ensures TrimSlashes(s + "/") == TrimSlashes(s)
  {
    if s == "" {
      assert TrimSlashes("/") == TrimSlashes("");
    } else if s[0] == '/' {
      assert (s + "/")[1..] == s[1..] + "/";
      TrimmedBehind(s[1..]);
    } else {
      assert (s + "/")[..|s|] == s;
    }
  }

  lemma NumberedPieces(n: string)
    requires NumberLike(n)
    ensures Pieces("/users/" + n) == ["users", n]
  {
    hide Pieces;
    var parts := ["users", n];
    assert parts[1..] == [n] && n[0] in n;
    assert Join(parts, "/") == "users" + "/" + n;
    PlainPieces(parts);
    assert "/" + ("users" + "/" + n) == "/users/" + n;
  }

  /** For example: a resource has one group whatever its number. */
  lemma NumberedUsersShareGroup(n: string)
    requires NumberLike(n)
    ensures NormalForm("/users/" + n) == "/users/{id}"
  {
    hide Classify, Split, TrimSlashes, CutQuery;
    NumberedPieces(n);
    assert "users"[0] == 'u';
    Replaced("users");
    Replaced(n);
    var cs := Segments("/users/" + n);
    assert cs == ["users", "{id}"] && cs[..1] == ["users"] && cs[..1][..0] == [];
    assert Rejoin(["users"]) == "/users";
  }

  // ---------------------------------------------------------------- tallies

  /** Times are nanoseconds after the zero time. */
  datatype Record = Record(path: string, blocked: bool, seen: nat)

  datatype Group = Group(count: nat, blocked: nat, lastSeen: nat)

  const NO_GROUP: Group := Group(0, 0, 0)

  function Counted(g: Group, r: Record): Group {
    Group(g.count + 1, g.blocked + if r.blocked then 1 else 0, if r.seen > g.lastSeen then r.seen else g.lastSeen)
  }

  /** Records of one group, all and blocked, and the latest time among them. */
  function InGroup(records: seq<Record>, key: string): Group {
    if records == [] then NO_GROUP
    else
      var r, g := records[|records| - 1], InGroup(records[..|records| - 1], key);
      if NormalForm(r.path) == key then Counted(g, r) else g
  }

  ghost function Members(records: seq<Record>, key: string): set<int> {
    set i | 0 <= i < |records| && NormalForm(records[i].path) == key
  }

  ghost function BlockedMembers(records: seq<Record>, key: string): set<int> {
    set i | 0 <= i < |records| && NormalForm(records[i].path) == key && records[i].blocked
  }

  lemma MembersStep(before: seq<Record>, r: Record, key: string)
    ensures |Members(before + [r], key)| == |Members(before, key)| + if NormalForm(r.path) == key then 1 else 0
  {
    hide NormalForm;
    var added := if NormalForm(r.path) == key then {|before|} else {};
    assert Members(before + [r], key) == Members(before, key) + added;
  }

  lemma BlockedMembersStep(before: seq<Record>, r: Record, key: string)
    ensures |BlockedMembers(before + [r], key)| ==
            |BlockedMembers(before, key)| + if NormalForm(r.path) == key && r.blocked then 1 else 0
  {
    hide NormalForm;
    var added := if NormalForm(r.path) == key && r.blocked then {|before|} else {};
    assert BlockedMembers(before + [r], key) == BlockedMembers(before, key) + added;
  }

  ghost predicate IsLatest(records: seq<Record>, key: string, t: nat) {
    && (forall i :: 0 <= i < |records| && NormalForm(records[i].path) == key ==> records[i].seen <= t)
    && (t > 0 ==> exists i :: 0 <= i < |records| && NormalForm(records[i].path) == key && records[i].seen == t)
  }

  lemma LatestStep(before: seq<Record>, r: Record, key: string, t: nat)
    requires IsLatest(before, key, t)
    ensures IsLatest(before + [r], key, if NormalForm(r.path) == key && r.seen > t then r.seen else t)
  {
    hide NormalForm;
    var all := before + [r];
    assert all[|before|] == r;
    if t > 0 {
      var i :| 0 <= i < |before| && NormalForm(before[i].path) == key && before[i].seen == t;
      assert all[i] == before[i];
    }
  }

  /** A group counts the records whose path has its key, and the blocked ones among them, and keeps
      the latest of their times. */
  lemma {:induction false} GroupMeaning(records: seq<Record>, key: string)
    ensures InGroup(records, key).count == |Members(records, key)|
    ensures InGroup(records, key).blocked == |BlockedMembers(records, key)|
    ensures IsLatest(records, key, InGroup(records, key).lastSeen)
  {
    hide NormalForm, Members, BlockedMembers, IsLatest;
    if records == [] {
      NoMembers(key);
    } else {
      var before, r := records[..|records| - 1], records[|records| - 1];
      assert before + [r] == records;
      GroupMeaning(before, key);
      MembersStep(before, r, key);
      BlockedMembersStep(before, r, key);
      LatestStep(before, r, key, InGroup(before, key).lastSeen);
    }
  }

  lemma NoMembers(key: string)
    ensures |Members([], key)| == 0 == |BlockedMembers([], key)| && IsLatest([], key, 0)
  {
    hide NormalForm;
    assert Members([], key) == {} == BlockedMembers([], key);
  }

  method Tally(records: seq<Record>) returns (groups: map<string, Group>)
    ensures forall key :: key in groups ==> groups[key] == InGroup(records, key)
    ensures forall key :: key in groups <==> InGroup(records, key).count > 0
  {
    hide NormalForm;
    groups := map[];
    for i := 0 to |records|
      invariant forall key :: key in groups ==> groups[key] == InGroup(records[..i], key)
      invariant forall key :: key in groups <==> InGroup(records[..i], key).count > 0
    {
      assert records[..i + 1][..i] == records[..i];
      var key := NormalizePath(records[i].path);
      EmptyGroup(records[..i], key);
      var g := if key in groups then groups[key] else NO_GROUP;
      g := g.(count := g.count + 1);
      if records[i].blocked {
        g := g.(blocked := g.blocked + 1);
      }
      if records[i].seen > g.lastSeen {
        g := g.(lastSeen := records[i].seen);
      }
      groups := groups[key := g];
    }
    assert records[..|records|] == records;
  }

  lemma {:induction false} EmptyGroup(records: seq<Record>, key: string)
    ensures InGroup(records, key).blocked <= InGroup(records, key).count
    ensures InGroup(records, key).count == 0 ==> InGroup(records, key) == NO_GROUP
  {
    if records != [] {
      EmptyGroup(records[..|records| - 1], key);
    }
  }

  /** The counts of the given groups, added up. */
  ghost function CountOf(records: seq<Record>, keys: set<string>): nat {
    if keys == {} then 0
    else
      var key :| key in keys;
      InGroup(records, key).count + CountOf(records, keys - {key})
  }

  lemma {:induction false} CountOfRemove(records: seq<Record>, keys: set<string>, key: string)
    requires key in keys
    ensures CountOf(records, keys) == InGroup(records, key).count + CountOf(records, keys - {key})
    decreases |keys|
  {
    hide InGroup;
    var k :| k in keys && CountOf(records, keys) == InGroup(records, k).count + CountOf(records, keys - {k});
    if k != key {
      CountOfRemove(records, keys - {k}, key);
      CountOfRemove(records, keys - {key}, k);
      assert keys - {k} - {key} == keys - {key} - {k};
    }
  }

  lemma {:induction false} CountOfUnchanged(before: seq<Record>, r: Record, keys: set<string>)
    requires NormalForm(r.path) !in keys
    ensures CountOf(before + [r], keys) == CountOf(before, keys)
    decreases |keys|
  {
    hide NormalForm;
    assert (before + [r])[..|before|] == before;
    if keys != {} {
      var key :| key in keys;
      CountOfRemove(before, keys, key);
      CountOfRemove(before + [r], keys, key);
      CountOfUnchanged(before, r, keys - {key});
    }
  }

  /** Every record is in exactly one group: the counts of any set of groups that covers the records
      add up to the number of records. */
  lemma {:induction false} GroupsPartition(records: seq<Record>, keys: set<string>)
    requires forall i :: 0 <= i < |records| ==> NormalForm(records[i].path) in keys
    ensures CountOf(records, keys) == |records|
  {
    hide NormalForm;
    if records == [] {
      NothingCounted(keys);
    } else {
      var before, r := records[..|records| - 1], records[|records| - 1];
      assert before + [r] == records;
      GroupsPartition(before, keys);
      var key := NormalForm(r.path);
      CountOfRemove(before, keys, key);
      CountOfRemove(records, keys, key);
      CountOfUnchanged(before, r, keys - {key});
    }
  }

  lemma {:induction false} NothingCounted(keys: set<string>)
    ensures CountOf([], keys) == 0
    decreases |keys|
  {
    if keys != {} {
      var key :| key in keys;
      CountOfRemove([], keys, key);
      NothingCounted(keys - {key});
    }
  }
}
