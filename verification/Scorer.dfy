/** The built-in anomaly scorer in real arithmetic: pattern hits, heuristics that add up, the
    verdict, and the per-address request counters. */
module Scorer {
  import opened Text

  datatype Verdict = Allow | Suspicious | Block

  function ScoreThreshold(score: real): Verdict {
    if score >= 0.70 then Block else if score >= 0.40 then Suspicious else Allow
  }

  // ---------------------------------------------------------------- patterns

  /** The pattern occurs, in any case, in the URI, in a parameter value or in the body. */
  predicate Occurs(uri: string, values: set<string>, body: string, pattern: string) {
    || Contains(Lower(uri), pattern)
    || (exists v :: v in values && Contains(Lower(v), pattern))
    || (body != "" && Contains(Lower(body), pattern))
  }

  ghost predicate AnyOccurs(uri: string, values: set<string>, body: string, patterns: seq<string>) {
    exists i :: 0 <= i < |patterns| && Occurs(uri, values, body, patterns[i])
  }

  ghost predicate FirstOccurring(uri: string, values: set<string>, body: string, patterns: seq<string>, i: nat)
    requires i < |patterns|
  {
    && Occurs(uri, values, body, patterns[i])
    && forall k :: 0 <= k < i ==> !Occurs(uri, values, body, patterns[k])
  }

  /** Scans the patterns in order; 0.9 and the first pattern that occurs, 0 without one. */
  method CheckPatterns(uri: string, params: map<string, string>, body: string, patterns: seq<string>)
    returns (score: real, matched: string)
    ensures score == if AnyOccurs(uri, params.Values, body, patterns) then 0.9 else 0.0
    ensures score == 0.0 ==> matched == ""
    ensures score == 0.9 ==>
              exists i :: 0 <= i < |patterns| && matched == patterns[i] &&
                          FirstOccurring(uri, params.Values, body, patterns, i)
  {
    hide Contains, Lower;
    for i := 0 to |patterns|
      invariant forall k :: 0 <= k < i ==> !Occurs(uri, params.Values, body, patterns[k])
    {
      var pattern := patterns[i];
      if Contains(Lower(uri), pattern) {
        return 0.9, pattern;
      }
      var todo := params.Values;
      while todo != {}
        invariant todo <= params.Values
        invariant forall v :: v in params.Values && v !in todo ==> !Contains(Lower(v), pattern)
      {
        var val :| val in todo;
        if Contains(Lower(val), pattern) {
          return 0.9, pattern;
        }
        todo := todo - {val};
      }
      if |body| > 0 && Contains(Lower(body), pattern) {
        return 0.9, pattern;
      }
    }
    return 0.0, "";
  }

  /** `text` stands in `s` at position `at`, in any case; patterns are in lower case. */
  predicate StandsAt(s: string, pattern: string, at: nat) {
    at + |pattern| <= |s| && forall k :: 0 <= k < |pattern| ==> LowerChar(s[at + k]) == pattern[k]
  }

  ghost predicate FoundIn(s: string, pattern: string) {
    exists at: nat :: StandsAt(s, pattern, at)
  }

  lemma ContainsIsFound(s: string, pattern: string)
    ensures Contains(Lower(s), pattern) <==> FoundIn(s, pattern)
  {
    var l := Lower(s);
    forall i | 0 <= i <= |l| && pattern <= l[i..] ensures StandsAt(s, pattern, i) {
      forall k | 0 <= k < |pattern| ensures LowerChar(s[i + k]) == pattern[k] {
        assert l[i..][k] == l[i + k];
      }
    }
    forall at: nat | StandsAt(s, pattern, at) ensures pattern <= l[at..] {
      assert forall k :: 0 <= k < |pattern| ==> l[at..][k] == pattern[k];
    }
  }

  /** A pattern occurs exactly when it stands somewhere in the URI, in a parameter value or in the body. */
  lemma OccursIff(uri: string, values: set<string>, body: string, pattern: string)
    requires pattern != ""
    ensures Occurs(uri, values, body, pattern) <==>
            FoundIn(uri, pattern) || FoundIn(body, pattern) || exists v :: v in values && FoundIn(v, pattern)
  {
    hide Contains, Lower, FoundIn;
    ContainsIsFound(uri, pattern);
    ContainsIsFound(body, pattern);
    forall v | v in values ensures Contains(Lower(v), pattern) <==> FoundIn(v, pattern) {
      ContainsIsFound(v, pattern);
    }
    NothingInEmpty(pattern);
  }

  lemma NothingInEmpty(pattern: string)
    requires pattern != ""
    ensures !FoundIn("", pattern)
  {
  }

  // ---------------------------------------------------------------- character distribution

  /** Letters and digits among single bytes read as Latin-1 characters. */
  predicate IsUpper(c: char) {
    ('A' <= c <= 'Z') || (0xC0 <= c as int <= 0xDE && c as int != 0xD7)
  }

  predicate IsLower(c: char) {
    ('a' <= c <= 'z') || c as int == 0xB5 || (0xDF <= c as int <= 0xFF && c as int != 0xF7)
  }

  predicate IsSpecial(c: char) {
    !IsUpper(c) && !IsLower(c) && !IsDigit(c)
  }

  predicate StartsEscape(s: string, i: nat)
    requires i < |s|
  {
    s[i] == '%' && i + 2 < |s| && IsHexChar(s[i + 1]) && IsHexChar(s[i + 2])
  }

  /** Among the first `n` bytes: those that are special. */
  function Specials(s: string, n: nat): (k: nat)
    requires n <= |s|
    ensures k <= n
  {
    if n == 0 then 0 else Specials(s, n - 1) + if IsSpecial(s[n - 1]) then 1 else 0
  }

  /** Among the first `n` bytes: those that start a percent escape. */
  function Escapes(s: string, n: nat): (k: nat)
    requires n <= |s|
    ensures k <= Specials(s, n)
  {
    if n == 0 then 0 else Escapes(s, n - 1) + if StartsEscape(s, n - 1) then 1 else 0
  }

  function Ratio(k: nat, n: nat): real
    requires n > 0
  {
    k as real / n as real
  }

  function CharScore(s: string): real {
    if s == "" then 0.0
    else
      var encoded, special := Ratio(Escapes(s, |s|), |s|), Ratio(Specials(s, |s|), |s|);
      if encoded > 0.05 then MinReal(encoded * 10.0, 1.0)
      else if special > 0.15 then MinReal(special * 3.0, 1.0)
      else 0.0
  }

  method AnalyzeCharDistribution(s: string) returns (score: real)
    ensures score == CharScore(s)
  {
    if |s| == 0 {
      return 0.0;
    }
    var upper, lower, digits, special, encoded := 0, 0, 0, 0, 0;
    for i := 0 to |s|
      invariant special == Specials(s, i) && encoded == Escapes(s, i)
      invariant upper + lower + digits + special == i
    {
      var c := s[i];
      if IsUpper(c) {
        upper := upper + 1;
      } else if IsLower(c) {
        lower := lower + 1;
      } else if IsDigit(c) {
        digits := digits + 1;
      } else if c == '%' {
        if i + 2 < |s| && IsHexChar(s[i + 1]) && IsHexChar(s[i + 2]) {
          encoded := encoded + 1;
        }
        special := special + 1;
      } else {
        special := special + 1;
      }
    }
    var encodedRatio := Ratio(encoded, |s|);
    if encodedRatio > 0.05 {
      return MinReal(encodedRatio * 10.0, 1.0);
    }
    var specialRatio := Ratio(special, |s|);
    if specialRatio > 0.15 {
      return MinReal(specialRatio * 3.0, 1.0);
    }
    return 0.0;
  }

  lemma CharScoreRange(s: string)
    ensures 0.0 <= CharScore(s) <= 1.0
  {
  }

  ghost function SpecialPlaces(s: string, n: nat): set<int>
    requires n <= |s|
  {
    set i | 0 <= i < n && IsSpecial(s[i])
  }

  ghost function EscapePlaces(s: string, n: nat): set<int>
    requires n <= |s|
  {
    set i | 0 <= i < n && StartsEscape(s, i)
  }

  lemma {:induction false} SpecialsCounted(s: string, n: nat)
    requires n <= |s|
    ensures Specials(s, n) == |SpecialPlaces(s, n)|
  {
    hide IsSpecial;
    if n == 0 {
      assert SpecialPlaces(s, 0) == {};
    } else {
      SpecialsCounted(s, n - 1);
      var added := if IsSpecial(s[n - 1]) then {n - 1} else {};
      assert SpecialPlaces(s, n) == SpecialPlaces(s, n - 1) + added;
    }
  }

  lemma {:induction false} EscapesCounted(s: string, n: nat)
    requires n <= |s|
    ensures Escapes(s, n) == |EscapePlaces(s, n)|
  {
    hide StartsEscape, Specials;
    if n == 0 {
      assert EscapePlaces(s, 0) == {};
    } else {
      EscapesCounted(s, n - 1);
      var added := if StartsEscape(s, n - 1) then {n - 1} else {};
      assert EscapePlaces(s, n) == EscapePlaces(s, n - 1) + added;
    }
  }

  predicate Hexadecimal(c: char) {
    '0' <= c <= '9' || 'a' <= c <= 'f' || 'A' <= c <= 'F'
  }

  /** Which bytes are special: among ASCII characters all but letters and digits, among the others of
      Latin-1 all but the letters that have a case. An escape is a '%' and two hexadecimal digits. */
  lemma SpecialMeaning(c: char, s: string, i: nat)
    ensures c as int < 128 ==> (IsSpecial(c) <==> !('A' <= c <= 'Z' || 'a' <= c <= 'z' || '0' <= c <= '9'))
    ensures 128 <= c as int < 256 ==> (IsSpecial(c) <==> (c as int < 192 && c as int != 181) || c as int in {215, 247})
    ensures i + 2 < |s| ==> (StartsEscape(s, i) <==> s[i] == '%' && Hexadecimal(s[i + 1]) && Hexadecimal(s[i + 2]))
    ensures i < |s| <= i + 2 ==> !StartsEscape(s, i)
  {
  }

  lemma SignOfProduct(d: real, m: real)
    requires m > 0.0
    ensures (d > 0.0 <==> d * m > 0.0) && (d >= 0.0 <==> d * m >= 0.0)
  {
  }

  lemma FractionAbove(x: real, c: real, m: real, k: real, p: real, q: real)
    requires m > 0.0 && q > 0.0 && x * m == k && c * q == p
    ensures (x > c <==> q * k > p * m) && (x >= c <==> q * k >= p * m)
  {
    var d := x - c;
    SignOfProduct(d, m);
    SignOfProduct(d * m, q);
    assert d * m == k - c * m;
    assert d * m * q == k * q - c * m * q;
    assert c * m * q == c * q * m;
  }

  lemma Whole(a: nat, k: nat)
    ensures a as real * k as real == (a * k) as real
  {
  }

  /** Comparing a ratio with p/q. */
  lemma RatioAbove(k: nat, n: nat, p: nat, q: nat, c: real)
    requires n > 0 && q > 0 && c * q as real == p as real
    ensures Ratio(k, n) > c <==> q * k > p * n
    ensures Ratio(k, n) >= c <==> q * k >= p * n
  {
    var x := Ratio(k, n);
    assert x * n as real == k as real;
    Whole(q, k);
    Whole(p, n);
    hide Ratio;
    FractionAbove(x, c, n as real, k as real, p as real, q as real);
  }

  lemma RatioScaled(k: nat, n: nat, c: real)
    requires n > 0
    ensures Ratio(k, n) * c * n as real == c * k as real
    ensures Ratio(k, n) >= 0.0
  {
    var x := Ratio(k, n);
    assert x * n as real == k as real;
    assert x * c * n as real == c * (x * n as real);
  }

  lemma Scaled(k: nat, n: nat)
    requires n > 0
    ensures Ratio(k, n) > 0.05 <==> 20 * k > n
    ensures Ratio(k, n) > 0.15 <==> 100 * k > 15 * n
    ensures Ratio(k, n) * 10.0 >= 1.0 <==> 10 * k >= n
    ensures Ratio(k, n) * 3.0 >= 1.0 <==> 3 * k >= n
    ensures Ratio(k, n) * 10.0 * n as real == 10.0 * k as real
    ensures Ratio(k, n) * 3.0 * n as real == 3.0 * k as real
    ensures Ratio(k, n) >= 0.0
  {
    hide Ratio;
    RatioAbove(k, n, 1, 20, 0.05);
    RatioAbove(k, n, 15, 100, 0.15);
    RatioAbove(k, n, 1, 10, 0.1);
    RatioAbove(k, n, 1, 3, 1.0 / 3.0);
    RatioScaled(k, n, 10.0);
    RatioScaled(k, n, 3.0);
  }

  /** With `e` escapes and `k` special characters among `n`: the score is positive exactly when
      escapes are more than a twentieth or special characters more than 15 of a hundred, and full from a
      tenth of escapes or, without many escapes, a third of special characters on. */
  lemma CharScoreMeaning(s: string)
    requires s != ""
    ensures var n, e, k := |s|, |EscapePlaces(s, |s|)|, |SpecialPlaces(s, |s|)|;
            && (CharScore(s) > 0.0 <==> 20 * e > n || 100 * k > 15 * n)
            && (CharScore(s) == 1.0 <==> 10 * e >= n || (20 * e <= n && 3 * k >= n))
            && (20 * e > n >= 10 * e ==> CharScore(s) * n as real == 10.0 * e as real)
            && (20 * e <= n && 100 * k > 15 * n && n >= 3 * k ==> CharScore(s) * n as real == 3.0 * k as real)
  {
    hide Ratio, Specials, Escapes, SpecialPlaces, EscapePlaces;
    SpecialsCounted(s, |s|);
    EscapesCounted(s, |s|);
    Scaled(Escapes(s, |s|), |s|);
    Scaled(Specials(s, |s|), |s|);
  }

  // ---------------------------------------------------------------- headers

  const BAD_AGENTS: seq<string> := ["nikto", "sqlmap", "acunetix", "nessus", "burpsuite", "nmap", "masscan"]

  predicate BadAgent(userAgent: string) {
    exists i :: 0 <= i < |BAD_AGENTS| && Contains(Lower(userAgent), BAD_AGENTS[i])
  }

  function If(condition: bool, points: real): real {
    if condition then points else 0.0
  }

  function HeaderScore(userAgent: string): real {
    MinReal(If(userAgent == "", 0.3) + If(BadAgent(userAgent), 0.8) + If(0 < |userAgent| < 10, 0.2) +
            If(|userAgent| > 500, 0.3), 1.0)
  }

  /** The header score lies in [0, 1]; it is positive for a missing, known bad, short or long agent
      and above one half only for a known bad one. */
  lemma HeaderScoreMeaning(userAgent: string)
    ensures 0.0 <= HeaderScore(userAgent) <= 1.0
    ensures HeaderScore(userAgent) > 0.0 <==>
            userAgent == "" || BadAgent(userAgent) || |userAgent| < 10 || |userAgent| > 500
    ensures HeaderScore(userAgent) > 0.5 <==> BadAgent(userAgent)
  {
    hide BadAgent;
  }

  method AnalyzeHeaders(userAgent: string) returns (score: real)
    ensures score == HeaderScore(userAgent)
  {
    hide Contains, Lower;
    var reasons := 0;
    score := 0.0;
    if userAgent == "" {
      score := score + 0.3;
      reasons := reasons + 1;
    }
    var bad := false;
    for i := 0 to |BAD_AGENTS|
      invariant !bad && forall k :: 0 <= k < i ==> !Contains(Lower(userAgent), BAD_AGENTS[k])
    {
      if Contains(Lower(userAgent), BAD_AGENTS[i]) {
        bad := true;
        break;
      }
    }
    assert bad == BadAgent(userAgent);
    if bad {
      score := score + 0.8;
      reasons := reasons + 1;
    }
    if |userAgent| > 0 && |userAgent| < 10 {
      score := score + 0.2;
      reasons := reasons + 1;
    }
    if |userAgent| > 500 {
      score := score + 0.3;
      reasons := reasons + 1;
    }
    if reasons == 0 {
      return 0.0;
    }
    score := MinReal(score, 1.0);
  }

  // ---------------------------------------------------------------- request counters

  /** Requests of an address since its window began; times are nanoseconds. */
  datatype Counter = Counter(count: nat, windowStart: int)

  const MINUTE: int := 60_000_000_000

  const MAX_PER_MINUTE: nat := 300

  function Counted(freq: map<string, Counter>, ip: string, now: int): map<string, Counter> {
    if ip == "" then freq
    else if ip !in freq || now - freq[ip].windowStart > MINUTE then freq[ip := Counter(1, now)]
    else freq[ip := freq[ip].(count := freq[ip].count + 1)]
  }

  /** How far the window's count is above the allowed rate, at most 1. */
  function RateScore(freq: map<string, Counter>, ip: string): real {
    if ip !in freq || freq[ip].count <= MAX_PER_MINUTE then 0.0
    else MinReal(Ratio(freq[ip].count, MAX_PER_MINUTE) - 1.0, 1.0)
  }

  datatype Seen = Seen(ip: string, now: int)

  function FreqAfter(run: seq<Seen>): map<string, Counter> {
    if run == [] then map[] else Counted(FreqAfter(run[..|run| - 1]), run[|run| - 1].ip, run[|run| - 1].now)
  }

  /** Requests of `ip` from position `from` of the run on. */
  function RequestsFrom(run: seq<Seen>, ip: string, from: nat): nat {
    if |run| <= from then 0
    else RequestsFrom(run[..|run| - 1], ip, from) + if run[|run| - 1].ip == ip then 1 else 0
  }

  /** After any run, an address's counter is the number of its requests since the one that opened
      its window, which lies at most a minute before its latest request. That one was the first of the
      address or came more than a minute after the previous window was opened. */
  lemma {:induction false} CounterSinceWindow(run: seq<Seen>, ip: string) returns (w: nat)
    requires ip != "" && ip in FreqAfter(run)
    ensures w < |run| && run[w].ip == ip && FreqAfter(run)[ip] == Counter(RequestsFrom(run, ip, w), run[w].now)
    ensures forall i :: w < i < |run| && run[i].ip == ip ==> run[i].now - run[w].now <= MINUTE
    ensures ip in FreqAfter(run[..w]) ==> run[w].now - FreqAfter(run[..w])[ip].windowStart > MINUTE
    ensures ip !in FreqAfter(run[..w]) ==> RequestsFrom(run[..w], ip, 0) == 0
  {
    hide Counted;
    var before, last := run[..|run| - 1], run[|run| - 1];
    var freq := FreqAfter(before);
    if last.ip == ip && (ip !in freq || last.now - freq[ip].windowStart > MINUTE) {
      w := |run| - 1;
      assert RequestsFrom(before, ip, w) == 0;
      CountedOpens(freq, ip, last.now);
      if ip !in freq {
        UnseenIff(before, ip);
      }
    } else {
      CountedKeeps(freq, last, ip);
      w := CounterSinceWindow(before, ip);
      assert before[..w] == run[..w];
    }
  }

  lemma CountedOpens(freq: map<string, Counter>, ip: string, now: int)
    requires ip != "" && (ip !in freq || now - freq[ip].windowStart > MINUTE)
    ensures ip in Counted(freq, ip, now) && Counted(freq, ip, now)[ip] == Counter(1, now)
  {
  }

  lemma CountedKeeps(freq: map<string, Counter>, s: Seen, ip: string)
    requires ip != "" && ip in Counted(freq, s.ip, s.now)
    requires s.ip == ip ==> ip in freq && s.now - freq[ip].windowStart <= MINUTE
    ensures ip in freq
    ensures Counted(freq, s.ip, s.now)[ip] == freq[ip].(count := freq[ip].count + if s.ip == ip then 1 else 0)
  {
  }

  lemma {:induction false} UnseenIff(run: seq<Seen>, ip: string)
    requires ip != ""
    ensures ip !in FreqAfter(run) <==> RequestsFrom(run, ip, 0) == 0
  {
    if run != [] {
      UnseenIff(run[..|run| - 1], ip);
    }
  }

  /** As long as no request of an address comes more than a minute after its first, they are all counted. */
  lemma {:induction false} FirstMinuteCounted(run: seq<Seen>, ip: string, first: nat)
    requires ip != "" && first < |run| && run[first].ip == ip
    requires forall i :: 0 <= i < first ==> run[i].ip != ip
    requires forall i :: first <= i < |run| && run[i].ip == ip ==> run[i].now - run[first].now <= MINUTE
    ensures ip in FreqAfter(run) && FreqAfter(run)[ip] == Counter(RequestsFrom(run, ip, 0), run[first].now)
    ensures RequestsFrom(run[..first], ip, 0) == 0
  {
    hide Counted;
    var before, last := run[..|run| - 1], run[|run| - 1];
    if first == |run| - 1 {
      NoneBefore(before, ip);
      UnseenIff(before, ip);
      CountedOpens(FreqAfter(before), ip, last.now);
    } else {
      FirstMinuteCounted(before, ip, first);
      assert before[..first] == run[..first];
      StaysCounted(FreqAfter(before), last, ip);
    }
  }

  lemma StaysCounted(freq: map<string, Counter>, s: Seen, ip: string)
    requires ip != "" && ip in freq && (s.ip == ip ==> s.now - freq[ip].windowStart <= MINUTE)
    ensures ip in Counted(freq, s.ip, s.now)
    ensures Counted(freq, s.ip, s.now)[ip] == freq[ip].(count := freq[ip].count + if s.ip == ip then 1 else 0)
  {
  }

  lemma {:induction false} NoneBefore(run: seq<Seen>, ip: string)
    requires forall i :: 0 <= i < |run| ==> run[i].ip != ip
    ensures RequestsFrom(run, ip, 0) == 0
  {
    if run != [] {
      NoneBefore(run[..|run| - 1], ip);
    }
  }

  /** The rate scores exactly from the 301st request of a window on, fully from the 600th, and
      grows evenly between. */
  lemma RateScoreMeaning(freq: map<string, Counter>, ip: string)
    ensures 0.0 <= RateScore(freq, ip) <= 1.0
    ensures RateScore(freq, ip) > 0.0 <==> ip in freq && freq[ip].count > 300
    ensures RateScore(freq, ip) == 1.0 <==> ip in freq && freq[ip].count >= 600
    ensures ip in freq && 300 <= freq[ip].count <= 600 ==> RateScore(freq, ip) * 300.0 == (freq[ip].count - 300) as real
  {
  }

  /** 600 requests of an address within a minute of its first score fully. */
  lemma BurstScoresFully(run: seq<Seen>, ip: string, first: nat)
    requires ip != "" && first < |run| && run[first].ip == ip
    requires forall i :: 0 <= i < first ==> run[i].ip != ip
    requires forall i :: first <= i < |run| && run[i].ip == ip ==> run[i].now - run[first].now <= MINUTE
    requires RequestsFrom(run, ip, 0) >= 600
    ensures RateScore(FreqAfter(run), ip) == 1.0
  {
    FirstMinuteCounted(run, ip, first);
    RateScoreMeaning(FreqAfter(run), ip);
  }

  // ---------------------------------------------------------------- the score

  datatype Hits = Hits(sqli: bool, xss: bool, traversal: bool, command: bool)

  /** What is known about a request: which pattern families hit, the larger of the URI's and the
      body's entropy, and the heuristic scores. */
  datatype Signals = Signals(hits: Hits, entropy: real, chars: real, header: real, rate: real, uriLength: nat)

  ghost predicate Sound(s: Signals) {
    s.entropy >= 0.0 && 0.0 <= s.chars <= 1.0 && 0.0 <= s.header <= 1.0 && 0.0 <= s.rate <= 1.0
  }

  datatype Scored = Scored(verdict: Verdict, score: real, confidence: real, anomalies: nat)

  function Weight(hit: bool, weight: real): real {
    if hit then 0.9 * weight else 0.0
  }

  function PatternScore(h: Hits): real {
    Weight(h.sqli, 0.80) + Weight(h.xss, 0.80) + Weight(h.traversal, 0.75) + Weight(h.command, 0.80)
  }

  function EntropyScore(entropy: real): real {
    if entropy > 4.5 then MinReal((entropy - 4.5) / 3.5, 1.0) else 0.0
  }

  function LengthScore(uriLength: nat): real {
    if uriLength > 2048 then MinReal(uriLength as real / 8192.0, 1.0) else 0.0
  }

  function Heuristics(s: Signals): real {
    EntropyScore(s.entropy) * 0.15 + s.chars * 0.10 + s.header * 0.10 + s.rate * 0.10 + LengthScore(s.uriLength) * 0.05
  }

  /** Verdict and score of an enabled scorer. */
  function Outcome(s: Signals): (Verdict, real) {
    var patterns := PatternScore(s.hits);
    if (s.hits.sqli || s.hits.xss || s.hits.traversal || s.hits.command) && patterns >= 0.70 then (Block, patterns)
    else var score := MinReal(patterns + Heuristics(s), 1.0); (ScoreThreshold(score), score)
  }

  function One(condition: bool): nat {
    if condition then 1 else 0
  }

  function HitCount(h: Hits): nat {
    One(h.sqli) + One(h.xss) + One(h.traversal) + One(h.command)
  }

  /** Heuristics that are reported as anomalies. */
  function OddCount(s: Signals): nat {
    One(EntropyScore(s.entropy) > 0.5) + One(s.chars > 0.5) + One(s.header > 0.5) + One(s.rate > 0.5) +
    One(s.uriLength > 2048)
  }

  function Confidence(anomalies: nat): real {
    if anomalies >= 3 then 0.95 else if anomalies == 2 then 0.85 else 0.7
  }

  // ---------------------------------------------------------------- the scorer

  datatype Patterns = Patterns(sqli: seq<string>, xss: seq<string>, traversal: seq<string>, command: seq<string>)

  const BUILT_IN: Patterns := Patterns(
    ["union select", "union/**/select", "or 1=1", "' or '1'='1", "or 1=1--", "' or 1=1#",
     "information_schema", "load_file(", "outfile", "char("],
    ["<script", "</script>", "javascript:", "onerror=", "onload=", "onclick=", "onfocus=",
     "alert(", "prompt(", "confirm(", "document.cookie", "document.write", "eval(", "fromcharcode"],
    ["../", "..\\", "/etc/passwd", "/etc/shadow", "boot.ini", "win.ini", "proc/self/environ"],
    [";cat ", ";ls ", ";id ", ";wget ", "|cat ", "|ls ", "|id ", "&&cat ", "&&ls ", "&&id ",
     "$(cat ", "$(id)", "$(ls)", "`cat ", "`id`", "`ls`"])

  /** A request as the scorer sees it, with the entropies of URI and body. */
  datatype Features = Features(
    uri: string, params: map<string, string>, body: string, userAgent: string, clientIP: string,
    uriLength: nat, uriEntropy: real, bodyEntropy: real)

  function Larger(x: real, y: real): real {
    if y > x then y else x
  }

  ghost function HitsOf(f: Features, p: Patterns): Hits {
    var values := f.params.Values;
    Hits(AnyOccurs(f.uri, values, f.body, p.sqli), AnyOccurs(f.uri, values, f.body, p.xss),
         AnyOccurs(f.uri, values, f.body, p.traversal), AnyOccurs(f.uri, values, f.body, p.command))
  }

  ghost predicate Strong(h: Hits) {
    h.sqli || h.xss || h.command
  }

  function HeuristicSignals(f: Features, rate: real, hits: Hits): Signals {
    Signals(hits,
            if f.body == "" then f.uriEntropy else Larger(f.uriEntropy, f.bodyEntropy),
            if f.body == "" then CharScore(f.uri) else Larger(CharScore(f.uri), CharScore(f.body)),
            HeaderScore(f.userAgent), rate, f.uriLength)
  }

  /** First part of the scorer: the weights of the pattern families that hit. */
  method PatternPass(h: Hits) returns (total: real, anomalies: nat)
    ensures total == PatternScore(h) && anomalies == HitCount(h)
  {
    total, anomalies := 0.0, 0;
    if h.sqli {
      total := total + 0.9 * 0.80;
      anomalies := anomalies + 1;
    }
    if h.xss {
      total := total + 0.9 * 0.80;
      anomalies := anomalies + 1;
    }
    if h.traversal {
      total := total + 0.9 * 0.75;
      anomalies := anomalies + 1;
    }
    if h.command {
      total := total + 0.9 * 0.80;
      anomalies := anomalies + 1;
    }
  }

  /** Second part: the heuristics on top of what the patterns gave. */
  method HeuristicPass(before: real, seen: nat, s: Signals) returns (total: real, anomalies: nat)
    ensures total == before + Heuristics(s) && anomalies == seen + OddCount(s)
  {
    total, anomalies := before, seen;
    if s.entropy > 4.5 {
      var entropyScore := (s.entropy - 4.5) / 3.5;
      if entropyScore > 1.0 {
        entropyScore := 1.0;
      }
      total := total + entropyScore * 0.15;
      if entropyScore > 0.5 {
        anomalies := anomalies + 1;
      }
    }
    total := total + s.chars * 0.10;
    if s.chars > 0.5 {
      anomalies := anomalies + 1;
    }
    total := total + s.header * 0.10;
    if s.header > 0.5 {
      anomalies := anomalies + 1;
    }
    total := total + s.rate * 0.10;
    if s.rate > 0.5 {
      anomalies := anomalies + 1;
    }
    if s.uriLength > 2048 {
      total := total + MinReal(s.uriLength as real / 8192.0, 1.0) * 0.05;
      anomalies := anomalies + 1;
    }
  }

  class BasicScorer {
    var enabled: bool
    var ipFrequency: map<string, Counter>
    const patterns: Patterns

    constructor ()
      ensures enabled && ipFrequency == map[] && patterns == BUILT_IN
    {
      enabled, ipFrequency, patterns := true, map[], BUILT_IN;
    }

    method CheckRate(ip: string, now: int) returns (score: real)
      requires "" !in ipFrequency
      modifies this`ipFrequency
      ensures "" !in ipFrequency && ipFrequency == Counted(old(ipFrequency), ip, now)
      ensures score == RateScore(ipFrequency, ip)
    {
      if ip == "" {
        return 0.0;
      }
      if ip !in ipFrequency || now - ipFrequency[ip].windowStart > MINUTE {
        ipFrequency := ipFrequency[ip := Counter(1, now)];
        return 0.0;
      }
      var counter := ipFrequency[ip];
      ipFrequency := ipFrequency[ip := counter.(count := counter.count + 1)];
      var rate := Ratio(counter.count + 1, MAX_PER_MINUTE);
      if rate > 1.0 {
        return MinReal(rate - 1.0, 1.0);
      }
      return 0.0;
    }

    /** Scores one request. The request is counted against its address only when no early block
        has been decided. */
    method Evaluate(f: Features, now: int) returns (r: Scored)
      requires "" !in ipFrequency
      modifies this`ipFrequency
      ensures "" !in ipFrequency
      ensures !enabled ==> r.verdict == Allow && r.score == 0.0 && ipFrequency == old(ipFrequency)
      ensures enabled && Strong(HitsOf(f, patterns)) ==>
                && ipFrequency == old(ipFrequency)
                && r == Scored(Block, PatternScore(HitsOf(f, patterns)), 0.90, HitCount(HitsOf(f, patterns)))
      ensures enabled && !Strong(HitsOf(f, patterns)) ==>
                && ipFrequency == Counted(old(ipFrequency), f.clientIP, now)
                && var s := HeuristicSignals(f, RateScore(ipFrequency, f.clientIP), HitsOf(f, patterns));
                   && (r.verdict, r.score) == Outcome(s)
                   && r.anomalies == HitCount(s.hits) + OddCount(s)
                   && r.confidence == Confidence(r.anomalies)
    {
      hide AnyOccurs, FirstOccurring, CharScore, HeaderScore, RateScore, Counted, Heuristics, OddCount;
      if !enabled {
        return Scored(Allow, 0.0, 0.0, 0);
      }
      var sqli, xss, traversal, command, matched;
      sqli, matched := CheckPatterns(f.uri, f.params, f.body, patterns.sqli);
      xss, matched := CheckPatterns(f.uri, f.params, f.body, patterns.xss);
      traversal, matched := CheckPatterns(f.uri, f.params, f.body, patterns.traversal);
      command, matched := CheckPatterns(f.uri, f.params, f.body, patterns.command);
      var hits := Hits(sqli > 0.0, xss > 0.0, traversal > 0.0, command > 0.0);
      assert hits == HitsOf(f, patterns);
      var total, anomalies := PatternPass(hits);
      if anomalies > 0 && total >= 0.70 {
        return Scored(Block, total, 0.90, anomalies);
      }
      var entropy := f.uriEntropy;
      var chars := AnalyzeCharDistribution(f.uri);
      if |f.body| > 0 {
        entropy := Larger(entropy, f.bodyEntropy);
        var bodyChars := AnalyzeCharDistribution(f.body);
        chars := Larger(chars, bodyChars);
      }
      var header := AnalyzeHeaders(f.userAgent);
      var rate := CheckRate(f.clientIP, now);
      total, anomalies := HeuristicPass(total, anomalies, Signals(hits, entropy, chars, header, rate, f.uriLength));
      if total > 1.0 {
        total := 1.0;
      }
      return Scored(ScoreThreshold(total), total, Confidence(anomalies), anomalies);
    }
  }

  /** What the scorer gathers is within the bounds the verdict theorem asks for. */
  lemma SignalsSound(f: Features, freq: map<string, Counter>, hits: Hits)
    requires f.uriEntropy >= 0.0 && f.bodyEntropy >= 0.0
    ensures Sound(HeuristicSignals(f, RateScore(freq, f.clientIP), hits))
  {
    hide CharScore, HeaderScore;
    CharScoreRange(f.uri);
    CharScoreRange(f.body);
    HeaderScoreMeaning(f.userAgent);
  }

  /** Entropy and character scores are those of the worse of URI and body. */
  lemma SignalsMeaning(f: Features, rate: real, hits: Hits)
    ensures var s := HeuristicSignals(f, rate, hits);
            && s.entropy >= f.uriEntropy && s.chars >= CharScore(f.uri)
            && (f.body != "" ==> s.entropy >= f.bodyEntropy && s.chars >= CharScore(f.body))
            && (s.entropy == f.uriEntropy || (f.body != "" && s.entropy == f.bodyEntropy))
            && (s.chars == CharScore(f.uri) || (f.body != "" && s.chars == CharScore(f.body)))
            && s.header == HeaderScore(f.userAgent) && s.rate == rate && s.uriLength == f.uriLength && s.hits == hits
  {
    hide CharScore, HeaderScore;
  }

  /** Entropy scores from 4.5 bits on and fully from 8, a URI from 2049 bytes on and fully from 8192. */
  lemma ScaleMeaning(entropy: real, length: nat)
    ensures (EntropyScore(entropy) > 0.0 <==> entropy > 4.5) && (EntropyScore(entropy) == 1.0 <==> entropy >= 8.0)
    ensures 4.5 <= entropy <= 8.0 ==> EntropyScore(entropy) * 3.5 == entropy - 4.5
    ensures (LengthScore(length) > 0.0 <==> length > 2048) && (LengthScore(length) == 1.0 <==> length >= 8192)
    ensures 2048 < length <= 8192 ==> LengthScore(length) * 8192.0 == length as real
  {
  }

  /** What each heuristic weighs: the score moves with it alone, and is 0 when all are. */
  lemma HeuristicWeights(s: Signals, x: real, entropy: real, length: nat)
    ensures Heuristics(s.(chars := x)) - Heuristics(s) == (x - s.chars) * 0.10
    ensures Heuristics(s.(header := x)) - Heuristics(s) == (x - s.header) * 0.10
    ensures Heuristics(s.(rate := x)) - Heuristics(s) == (x - s.rate) * 0.10
    ensures s.entropy <= 4.5 && entropy >= 8.0 ==> Heuristics(s.(entropy := entropy)) - Heuristics(s) == 0.15
    ensures s.uriLength <= 2048 && length >= 8192 ==> Heuristics(s.(uriLength := length)) - Heuristics(s) == 0.05
    ensures s.entropy <= 4.5 && s.uriLength <= 2048 && s.chars == s.header == s.rate == 0.0 ==> Heuristics(s) == 0.0
  {
    hide EntropyScore, LengthScore;
    ScaleMeaning(s.entropy, s.uriLength);
    ScaleMeaning(entropy, length);
    NoScale(s.entropy, s.uriLength);
  }

  lemma NoScale(entropy: real, length: nat)
    ensures entropy <= 4.5 ==> EntropyScore(entropy) == 0.0
    ensures length <= 2048 ==> LengthScore(length) == 0.0
  {
  }

  /** What each pattern family weighs. */
  lemma PatternWeights(h: Hits)
    ensures PatternScore(Hits(true, false, false, false)) == PatternScore(Hits(false, true, false, false)) ==
            PatternScore(Hits(false, false, false, true)) == 0.72
    ensures PatternScore(Hits(false, false, true, false)) == 0.675
    ensures PatternScore(h) ==
            PatternScore(Hits(h.sqli, false, false, false)) + PatternScore(Hits(false, h.xss, false, false)) +
            PatternScore(Hits(false, false, h.traversal, false)) + PatternScore(Hits(false, false, false, h.command))
  {
  }

  /** Nothing is reported as an anomaly exactly when no heuristic is above one half and the URI is short;
      confidence grows with the anomalies. */
  lemma ReportMeaning(s: Signals, few: nat, many: nat)
    ensures OddCount(s) == 0 <==>
            s.entropy <= 6.25 && s.chars <= 0.5 && s.header <= 0.5 && s.rate <= 0.5 && s.uriLength <= 2048
    ensures OddCount(s) <= 5
    ensures few <= 1 < 3 <= many ==> Confidence(few) == 0.7 && Confidence(2) == 0.85 && Confidence(many) == 0.95
  {
  }

  lemma HeuristicsBound(s: Signals)
    requires Sound(s)
    ensures 0.0 <= Heuristics(s) <= 0.50
  {
    assert 0.0 <= EntropyScore(s.entropy) <= 1.0;
    assert 0.0 <= LengthScore(s.uriLength) <= 1.0;
  }

  /** Exactly when a request is blocked, suspected or allowed: an SQL injection, XSS or command hit
      always blocks; a path-traversal hit is never allowed and blocks once the heuristics add 0.025;
      without any hit the score stays at most 0.50 and nothing is blocked. Off the early return the
      score lies in [0, 1]. */
  lemma VerdictExact(s: Signals)
    requires Sound(s)
    ensures var (verdict, score), strong := Outcome(s), s.hits.sqli || s.hits.xss || s.hits.command;
            && (strong ==> verdict == Block && score >= 0.72)
            && (!strong ==> 0.0 <= score <= 1.0)
            && (!strong && s.hits.traversal ==>
                  score >= 0.675 && verdict == if Heuristics(s) >= 0.025 then Block else Suspicious)
            && (!strong && !s.hits.traversal ==>
                  score <= 0.50 && verdict == if Heuristics(s) >= 0.40 then Suspicious else Allow)
  {
    HeuristicsBound(s);
  }

  /** The score leaves [0, 1] exactly when two or more pattern families hit, because the early
      return is not capped; 2.835 is the most it can be. */
  lemma ScoreAboveOneIff(s: Signals)
    requires Sound(s)
    ensures Outcome(s).1 > 1.0 <==> HitCount(s.hits) >= 2
    ensures 0.0 <= Outcome(s).1 <= 2.835
    ensures Outcome(s).1 == 2.835 <==> HitCount(s.hits) == 4
  {
    HeuristicsBound(s);
  }

  const TWO_ATTACKS: Features := Features("/?q=<script>&r=union select", map[], "", "", "", 27, 0.0, 0.0)

  lemma AlreadyLower(s: string)
    requires forall i :: 0 <= i < |s| ==> !('A' <= s[i] <= 'Z')
    ensures Lower(s) == s
  {
  }

  lemma OccursAt(uri: string, pattern: string, at: nat, patterns: seq<string>, i: nat)
    requires (forall k :: 0 <= k < |uri| ==> !('A' <= uri[k] <= 'Z')) && at <= |uri| && pattern <= uri[at..]
    requires i < |patterns| && patterns[i] == pattern
    ensures AnyOccurs(uri, {}, "", patterns)
  {
    AlreadyLower(uri);
    assert Occurs(uri, {}, "", patterns[i]);
  }

  lemma SqliOccurs()
    ensures AnyOccurs(TWO_ATTACKS.uri, {}, "", BUILT_IN.sqli)
  {
    hide AnyOccurs;
    OccursAt(TWO_ATTACKS.uri, "union select", 15, BUILT_IN.sqli, 0);
  }

  lemma XssOccurs()
    ensures AnyOccurs(TWO_ATTACKS.uri, {}, "", BUILT_IN.xss)
  {
    hide AnyOccurs;
    OccursAt(TWO_ATTACKS.uri, "<script", 4, BUILT_IN.xss, 0);
  }

  lemma TwoHits()
    requires AnyOccurs(TWO_ATTACKS.uri, {}, "", BUILT_IN.sqli) && AnyOccurs(TWO_ATTACKS.uri, {}, "", BUILT_IN.xss)
    ensures HitsOf(TWO_ATTACKS, BUILT_IN).sqli && HitsOf(TWO_ATTACKS, BUILT_IN).xss
  {
    hide AnyOccurs, BUILT_IN;
    assert TWO_ATTACKS.params.Values == {};
  }

  lemma SignalsKeepHits(f: Features, rate: real, hits: Hits)
    ensures HeuristicSignals(f, rate, hits).hits == hits
  {
    hide CharScore, HeaderScore;
  }

  /** One request that hits two families of the built-in patterns: it scores above 1, whatever the
      counters say. */
  lemma TwoAttacksScoreAboveOne(freq: map<string, Counter>)
    ensures var hits := HitsOf(TWO_ATTACKS, BUILT_IN);
            && hits.sqli && hits.xss
            && Outcome(HeuristicSignals(TWO_ATTACKS, RateScore(freq, ""), hits)).1 > 1.0
  {
    hide AnyOccurs, HitsOf, HeuristicSignals, RateScore, BUILT_IN, Outcome;
    var hits := HitsOf(TWO_ATTACKS, BUILT_IN);
    SqliOccurs();
    XssOccurs();
    TwoHits();
    SignalsSound(TWO_ATTACKS, freq, hits);
    SignalsKeepHits(TWO_ATTACKS, RateScore(freq, ""), hits);
    ScoreAboveOneIff(HeuristicSignals(TWO_ATTACKS, RateScore(freq, ""), hits));
  }
}
