/** Printing the manager's rules and parsing the listing of the chain that holds them: what the
    parser reports for every line, and when it reports the rules that were added. */
module FirewallRoundTrip {
  import opened Text
  import opened Words
  import opened Firewall

  /** What the manager puts into its chain: a default policy, and rules. */
  datatype Entry = Default(policy: string) | Added(rule: Rule)

  function SpecOf(e: Entry): seq<string> {
    match e
    case Default(policy) => ["counter", policy]
    case Added(r) => RuleArgs(r)
  }

  /** Hexadecimal digits, dots, colons and slashes, as in an address or network. */
  predicate IsAddressText(ip: string) {
    forall i :: 0 <= i < |ip| ==> IsHexChar(ip[i]) || ip[i] == '.' || ip[i] == ':' || ip[i] == '/'
  }

  predicate IsManaged(r: Rule) {
    r == ManagedRule(r.port) && IsInt64(r.port)
  }

  predicate IsBlock(r: Rule) {
    r == BlockRule(r.source) && IsAddressText(r.source)
  }

  predicate Known(e: Entry) {
    match e
    case Default(policy) => policy in ACTIONS
    case Added(r) => IsManaged(r) || IsBlock(r)
  }

  const TABLE: string := "ip waffynx"

  /** A rule as the parser reports it: the table is the nft table, and the protocol is whichever
      word follows the first keyword. */
  function AsListed(r: Rule): Rule {
    r.(table := TABLE, protocol := if r.protocol == "tcp" then "dport" else "saddr")
  }

  /** The hook of the chain and a default policy are reported as rules that apply to all traffic. */
  function WholeChain(action: string): Rule {
    Rule(TABLE, "INPUT", "tcp", 0, "", action, "")
  }

  /** What the parser reports for an entry: nothing for a block of the empty address. */
  function Reported(e: Entry): seq<Rule> {
    match e
    case Default(policy) => [WholeChain(policy)]
    case Added(r) => if r == BlockRule("") then [] else [AsListed(r)]
  }

  // ---------------------------------------------------------------- the words of a line

  function Tail(handle: nat): seq<string> {
    ["#", "handle", Decimal(handle)]
  }

  function FirstWords(e: Entry, l: Listed): seq<string> {
    match e
    case Default(policy) => ["counter", "packets", Decimal(l.packets), "bytes", Decimal(l.bytes), policy]
    case Added(r) =>
      if r.protocol != "" then ["tcp", "dport", Itoa(r.port), "accept", "comment", "\"Waffynx", "managed\""]
      else if r.source != "" then ["ip", "saddr", r.source, "drop", "comment", "\"Waffynx", "block\""]
      else ["drop", "comment", "\"Waffynx", "block\""]
  }

  function WordsOf(e: Entry, l: Listed): seq<string> {
    FirstWords(e, l) + Tail(l.handle)
  }

  lemma FixedWords()
    ensures AllWords(["tcp", "dport", "accept", "comment", "ip", "saddr", "drop",
                      "counter", "packets", "bytes", "#", "handle"])
    ensures AllWords(["\"Waffynx", "managed\"", "block\""])
  {
  }

  lemma AddressIsWord(ip: string)
    requires IsAddressText(ip)
    ensures ip != "" ==> IsWord(ip)
    ensures '"' !in ip
  {
  }

  lemma DecimalIsWord(n: nat)
    ensures IsWord(Decimal(n)) && '"' !in Decimal(n)
    ensures forall i :: 0 <= i < |Decimal(n)| ==> IsDigit(Decimal(n)[i])
  {
    DecimalChars(n);
  }

  lemma WordsAreWords(e: Entry, l: Listed)
    requires Known(e)
    ensures AllWords(WordsOf(e, l))
  {
    hide IsWord, Decimal, Itoa, IsAddressText;
    FixedWords();
    var a := ["tcp", "dport", "accept", "comment", "ip", "saddr", "drop", "counter", "packets", "bytes", "#", "handle"];
    var b := ["\"Waffynx", "managed\"", "block\""];
    assert IsWord(a[0]) && IsWord(a[1]) && IsWord(a[2]) && IsWord(a[3]) && IsWord(a[4]) && IsWord(a[5]) && IsWord(a[6]);
    assert IsWord(a[7]) && IsWord(a[8]) && IsWord(a[9]) && IsWord(a[10]) && IsWord(a[11]);
    assert IsWord(b[0]) && IsWord(b[1]) && IsWord(b[2]);
    DecimalIsWord(l.packets);
    DecimalIsWord(l.bytes);
    DecimalIsWord(l.handle);
    if e.Default? {
      ActionsAreNoKeys(e.policy);
    }
    if e.Added? {
      if IsManaged(e.rule) {
        AtoiOfItoa(e.rule.port);
      } else {
        AddressIsWord(e.rule.source);
      }
    }
  }

  lemma JoinPair(parts: seq<string>, a: string, b: string)
    requires parts != []
    ensures Join(parts + [a + " " + b], " ") == Join(parts + [a, b], " ")
  {
    hide Join;
    JoinLast(parts, a + " " + b);
    JoinLast(parts, a);
    JoinLast(parts + [a], b);
    assert parts + [a] + [b] == parts + [a, b];
  }

  lemma CommentWords()
    ensures Quoted(MANAGED_COMMENT) == "\"Waffynx" + " " + "managed\""
    ensures Quoted(BLOCK_COMMENT) == "\"Waffynx" + " " + "block\""
  {
  }

  /** What nft shows of an entry, without the handle. */
  lemma ShownIsWords(e: Entry, l: Listed)
    requires Known(e) && l.spec == SpecOf(e)
    ensures Join(Shown(l), " ") == Join(FirstWords(e, l), " ")
  {
    hide Join, Itoa, Decimal, Quoted;
    match e {
      case Default(policy) => assert Shown(l) == FirstWords(e, l);
      case Added(r) =>
        CommentWords();
        NotCounter(r);
        ArgsOfRule(r);
        var front := PlainArgs(r);
        assert FirstWords(e, l) ==
               front + ["\"Waffynx", if r.protocol != "" then "managed\"" else "block\""];
        JoinPair(front, "\"Waffynx", if r.protocol != "" then "managed\"" else "block\"");
    }
  }

  lemma WithHandleIsWords(ws: seq<string>, handle: nat)
    requires ws != []
    ensures WithHandle(Join(ws, " "), handle) == Join(ws + Tail(handle), " ")
  {
    hide Join, Decimal;
    JoinLast(ws, "#");
    JoinLast(ws + ["#"], "handle");
    JoinLast(ws + ["#"] + ["handle"], Decimal(handle));
    assert ws + ["#"] + ["handle"] + [Decimal(handle)] == ws + Tail(handle);
    assert " # handle " == " " + "#" + " " + "handle" + " ";
  }

  lemma LineIsWords(e: Entry, l: Listed)
    requires Known(e) && l.spec == SpecOf(e)
    ensures RuleLine(l) == "\t\t" + Join(WordsOf(e, l), " ")
  {
    hide Join, Shown, WithHandle;
    ShownIsWords(e, l);
    WithHandleIsWords(FirstWords(e, l), l.handle);
  }

  // ---------------------------------------------------------------- what the extractors find

  lemma {:induction false} KeyAbsent(words: seq<string>, key: string)
    requires forall i :: 0 <= i < |words| ==> words[i] != key
    ensures FieldAfter(words, key) == ""
    ensures key == "dport" ==> PortIn(words) == 0
    ensures key == "saddr" ==> SourceIn(words) == ""
  {
    hide Atoi;
    if |words| >= 2 {
      KeyAbsent(words[1..], key);
    }
  }

  /** Numbers and addresses are no keywords and start no action. */
  lemma NumberIsNoKey(n: nat)
    ensures Decimal(n) != "ip" && Decimal(n) != "saddr" && Decimal(n) != "dport" && Decimal(n) != "tcp" &&
            Decimal(n) != "udp"
    ensures forall a :: a in ACTIONS ==> !(a <= Decimal(n))
  {
    DecimalChars(n);
    assert "ip"[0] == 'i' && "saddr"[0] == 's' && "dport"[0] == 'd' && "tcp"[0] == 't' && "udp"[0] == 'u';
    forall a | a in ACTIONS ensures !(a <= Decimal(n)) {
      assert a[0] == 'a' || a[0] == 'd' || a[0] == 'r' || a[0] == 'l';
      assert Decimal(n)[0] != a[0];
    }
  }

  lemma PortIsNoKey(n: int)
    ensures Itoa(n) != "ip" && Itoa(n) != "saddr" && !("accept" <= Itoa(n))
  {
    DecimalChars(if n < 0 then -n else n);
    assert "ip"[0] == 'i' && "saddr"[0] == 's' && "accept"[0] == 'a';
    assert Itoa(n)[0] != 'a';
  }

  lemma AddressIsNoKey(ip: string)
    requires IsAddressText(ip)
    ensures ip != "dport" && NotAVerdict(ip) && !("accept" <= ip)
  {
    assert "dport"[1] == 'p' && "accept"[4] == 'p' && "drop"[1] == 'r' && "deny"[2] == 'n' && "reject"[0] == 'r';
  }

  ghost predicate NoneIs(words: seq<string>, key: string) {
    forall i :: 0 <= i < |words| ==> words[i] != key
  }

  lemma ManagedFields(e: Entry, l: Listed)
    requires e.Added? && IsManaged(e.rule)
    ensures var ws := WordsOf(e, l);
            ProtocolIn(ws) == "dport" && PortIn(ws) == e.rule.port && SourceIn(ws) == ""
  {
    hide Itoa, Atoi, Decimal;
    var ws := WordsOf(e, l);
    AtoiOfItoa(e.rule.port);
    PortIsNoKey(e.rule.port);
    NumberIsNoKey(l.handle);
    KeyAbsent(ws, "ip");
    KeyAbsent(ws, "saddr");
    assert ws[1..][0] == "dport" && ws[1..][1] == Itoa(e.rule.port);
  }

  lemma BlockFields(e: Entry, l: Listed)
    requires e.Added? && IsBlock(e.rule) && e.rule.source != ""
    ensures var ws := WordsOf(e, l);
            ProtocolIn(ws) == "saddr" && PortIn(ws) == 0 && SourceIn(ws) == e.rule.source
  {
    hide Itoa, Atoi, Decimal, IsAddressText;
    var ws := WordsOf(e, l);
    AddressIsNoKey(e.rule.source);
    NumberIsNoKey(l.handle);
    KeyAbsent(ws, "dport");
    assert ws[1..][0] == "saddr" && ws[1..][1] == e.rule.source;
  }

  /** A line without any of the keywords. */
  lemma NoFields(ws: seq<string>)
    requires NoneIs(ws, "ip") && NoneIs(ws, "tcp") && NoneIs(ws, "dport") && NoneIs(ws, "saddr")
    ensures ProtocolIn(ws) == "tcp" && PortIn(ws) == 0 && SourceIn(ws) == ""
  {
    hide Atoi;
    KeyAbsent(ws, "ip");
    KeyAbsent(ws, "tcp");
    KeyAbsent(ws, "dport");
    KeyAbsent(ws, "saddr");
  }

  lemma ActionsAreNoKeys(a: string)
    requires a in ACTIONS
    ensures a != "ip" && a != "tcp" && a != "dport" && a != "saddr" && '"' !in a && IsWord(a)
  {
    assert "dport"[1] == 'p' && "tcp"[0] == 't' && "ip"[0] == 'i' && "saddr"[0] == 's';
    assert ACTIONS[1][1] == 'r' && ACTIONS[2][1] == 'e';
  }

  lemma DefaultFields(e: Entry, l: Listed)
    requires e.Default? && Known(e)
    ensures var ws := WordsOf(e, l);
            ProtocolIn(ws) == "tcp" && PortIn(ws) == 0 && SourceIn(ws) == ""
  {
    hide Decimal, Atoi;
    ActionsAreNoKeys(e.policy);
    NumberIsNoKey(l.packets);
    NumberIsNoKey(l.bytes);
    NumberIsNoKey(l.handle);
    NoFields(WordsOf(e, l));
  }

  // ---------------------------------------------------------------- the action of a line

  /** A word after the first starts with `a`. */
  ghost predicate StartsSome(ws: seq<string>, a: string) {
    exists i :: 1 <= i < |ws| && a <= ws[i]
  }

  lemma ActionsAreWords()
    ensures AllWords(ACTIONS)
  {
  }

  /** The action is the first known one that some later word starts with. */
  lemma {:induction false} ActionOfWords(ws: seq<string>, i: nat)
    requires AllWords(ws) && i <= |ACTIONS|
    ensures ActionFrom(Join(ws, " "), i) ==
            if i == |ACTIONS| then ""
            else if StartsSome(ws, ACTIONS[i]) then ACTIONS[i] else ActionFrom(Join(ws, " "), i + 1)
  {
    hide Join, Contains, IsWord;
    if i < |ACTIONS| {
      ActionsAreWords();
      SpaceThenIff(ws, ACTIONS[i]);
    }
  }

  lemma {:induction false} FirstStarting(ws: seq<string>, k: nat, i: nat)
    requires AllWords(ws) && k <= i < |ACTIONS| && StartsSome(ws, ACTIONS[i])
    requires forall m :: k <= m < i ==> !StartsSome(ws, ACTIONS[m])
    ensures ActionFrom(Join(ws, " "), k) == ACTIONS[i]
    decreases i - k
  {
    hide Join, Contains, IsWord, StartsSome, ActionFrom;
    ActionOfWords(ws, k);
    if k < i {
      FirstStarting(ws, k + 1, i);
    }
  }

  lemma AcceptLine(ws: seq<string>)
    requires AllWords(ws) && StartsSome(ws, "accept")
    ensures ActionFrom(Join(ws, " "), 0) == "accept"
  {
    hide ActionFrom, StartsSome;
    FirstStarting(ws, 0, 0);
  }

  lemma ActionsDiffer(i: nat, m: nat)
    requires m < i < |ACTIONS|
    ensures !(ACTIONS[m] <= ACTIONS[i])
  {
    assert ACTIONS[0][0] == 'a' && ACTIONS[1][1] == 'r' && ACTIONS[2][0] == 'd' && ACTIONS[2][1] == 'e';
    assert ACTIONS[1][0] == 'd' && ACTIONS[3][0] == 'r' && ACTIONS[4][0] == 'l';
  }

  /** In the line of a default policy, only the policy starts with an action. */
  lemma OnlyPolicyStarts(e: Entry, l: Listed, a: string)
    requires e.Default? && a in ACTIONS && !(a <= e.policy)
    ensures !StartsSome(WordsOf(e, l), a)
  {
    hide Decimal;
    var ws := WordsOf(e, l);
    NumberIsNoKey(l.packets);
    NumberIsNoKey(l.bytes);
    NumberIsNoKey(l.handle);
    assert ws == ["counter", "packets", Decimal(l.packets), "bytes", Decimal(l.bytes), e.policy, "#", "handle",
           Decimal(l.handle)];
    assert ws[1][0] == 'p' && ws[3][0] == 'b' && ws[6][0] == '#' && ws[7][0] == 'h';
    assert a[0] == 'a' || a[0] == 'd' || a[0] == 'r' || a[0] == 'l';
  }

  lemma DefaultAction(e: Entry, l: Listed)
    requires e.Default? && Known(e)
    ensures ActionFrom(Join(WordsOf(e, l), " "), 0) == e.policy
  {
    hide Join, Decimal, IsWord, ActionFrom, AllWords;
    var i :| 0 <= i < |ACTIONS| && ACTIONS[i] == e.policy;
    WordsAreWords(e, l);
    assert e.policy <= WordsOf(e, l)[5];
    forall m | 0 <= m < i ensures !StartsSome(WordsOf(e, l), ACTIONS[m]) {
      ActionsDiffer(i, m);
      OnlyPolicyStarts(e, l, ACTIONS[m]);
    }
    FirstStarting(WordsOf(e, l), 0, i);
  }

  lemma RuleAction(e: Entry, l: Listed)
    requires e.Added? && Known(e) && e != Added(BlockRule(""))
    ensures ActionFrom(Join(WordsOf(e, l), " "), 0) == e.rule.action
  {
    hide Join, Itoa, Decimal, IsWord, IsAddressText, ActionFrom, AllWords;
    var ws := WordsOf(e, l);
    WordsAreWords(e, l);
    if IsManaged(e.rule) {
      assert "accept" <= ws[3];
      AcceptLine(ws);
    } else {
      NumberIsNoKey(l.handle);
      AddressIsNoKey(e.rule.source);
      assert "accept" in ACTIONS && "accept"[0] == 'a' && "drop" <= ws[3];
      assert ws == ["ip", "saddr", e.rule.source, "drop", "comment", "\"Waffynx", "block\"", "#", "handle",
             Decimal(l.handle)];
      assert ws[1][0] == 's' && ws[3][0] == 'd' && ws[4][0] == 'c' && ws[5][0] == '"' && ws[6][0] == 'b' &&
             ws[7][0] == '#' && ws[8][0] == 'h';
      FirstStarting(ws, 0, 1);
    }
  }

  lemma {:induction false} NoAction(ws: seq<string>, i: nat)
    requires AllWords(ws) && i <= |ACTIONS| && forall k :: i <= k < |ACTIONS| ==> !StartsSome(ws, ACTIONS[k])
    ensures ActionFrom(Join(ws, " "), i) == ""
    decreases |ACTIONS| - i
  {
    hide Join, Contains, IsWord, StartsSome;
    ActionOfWords(ws, i);
    if i < |ACTIONS| {
      NoAction(ws, i + 1);
    }
  }

  lemma NothingStarts(e: Entry, l: Listed, a: string)
    requires e == Added(BlockRule("")) && a in ACTIONS
    ensures !StartsSome(WordsOf(e, l), a)
  {
    hide Decimal;
    NumberIsNoKey(l.handle);
    var ws := WordsOf(e, l);
    assert ws == ["drop", "comment", "\"Waffynx", "block\"", "#", "handle", Decimal(l.handle)];
    assert ws[1][0] == 'c' && ws[2][0] == '"' && ws[3][0] == 'b' && ws[4][0] == '#' && ws[5][0] == 'h';
    assert a[0] == 'a' || a[0] == 'd' || a[0] == 'r' || a[0] == 'l';
  }

  lemma EmptyAddressAction(e: Entry, l: Listed)
    requires e == Added(BlockRule(""))
    ensures ActionFrom(Join(WordsOf(e, l), " "), 0) == ""
  {
    hide Join, WordsOf, StartsSome;
    WordsAreWords(e, l);
    forall i | 0 <= i < |ACTIONS| ensures !StartsSome(WordsOf(e, l), ACTIONS[i]) {
      NothingStarts(e, l, ACTIONS[i]);
    }
    NoAction(WordsOf(e, l), 0);
  }

  // ---------------------------------------------------------------- the comment of a line

  lemma {:induction false} NoQuoteInJoin(ws: seq<string>)
    requires forall i :: 0 <= i < |ws| ==> '"' !in ws[i]
    ensures '"' !in Join(ws, " ")
  {
    if |ws| > 1 {
      NoQuoteInJoin(ws[1..]);
    }
  }

  lemma NoQuotes(line: string)
    requires '"' !in line
    ensures QuotedIn(line) == ""
  {
  }

  lemma QuotedBetween(before: string, comment: string, after: string)
    requires '"' !in before && '"' !in comment
    ensures QuotedIn(before + Quoted(comment) + after) == comment
  {
    hide IndexOf;
    var s := before + Quoted(comment) + after;
    assert s == before + ['"'] + (comment + "\"" + after);
    IndexAfter(before, '"', comment + "\"" + after);
    assert s[|before| + 1..] == comment + ['"'] + after;
    IndexAfter(comment, '"', after);
  }

  /** The arguments of a rule up to its comment. */
  function PlainArgs(r: Rule): seq<string> {
    if r.protocol != "" then ["tcp", "dport", Itoa(r.port), "accept", "comment"]
    else if r.source != "" then ["ip", "saddr", r.source, "drop", "comment"]
    else ["drop", "comment"]
  }

  lemma ArgsOfRule(r: Rule)
    requires IsManaged(r) || IsBlock(r)
    ensures RuleArgs(r) == PlainArgs(r) + [Quoted(r.comment)]
    ensures r.comment == if r.protocol != "" then MANAGED_COMMENT else BLOCK_COMMENT
  {
    hide Itoa, IsAddressText, Quoted;
  }

  lemma CommentsUnquoted()
    ensures '"' !in MANAGED_COMMENT && '"' !in BLOCK_COMMENT
  {
  }

  lemma ArgsWithoutQuotes(r: Rule)
    requires IsManaged(r) || IsBlock(r)
    ensures '"' !in r.comment
    ensures forall i :: 0 <= i < |PlainArgs(r)| ==> '"' !in PlainArgs(r)[i]
  {
    hide Itoa, IsAddressText, Quoted, RuleArgs;
    ArgsOfRule(r);
    CommentsUnquoted();
    if IsManaged(r) {
      AtoiOfItoa(r.port);
    } else {
      AddressIsWord(r.source);
    }
  }

  lemma CommentFound(r: Rule, l: Listed)
    requires (IsManaged(r) || IsBlock(r)) && l.spec == SpecOf(Added(r))
    ensures QuotedIn(Join(WordsOf(Added(r), l), " ")) == r.comment
  {
    hide Join, Itoa, Decimal, IsManaged, IsBlock, RuleArgs, PlainArgs, FirstWords, QuotedIn;
    ArgsOfRule(r);
    ArgsWithoutQuotes(r);
    NotCounter(r);
    var args, front := RuleArgs(r), PlainArgs(r);
    assert front != [] by { SomeArgs(r); }
    NoQuoteInJoin(front);
    JoinLast(front, Quoted(r.comment));
    KnownWords(r, l);
    ShownIsWords(Added(r), l);
    WithHandleIsWords(FirstWords(Added(r), l), l.handle);
    QuotedBetween(Join(front, " ") + " ", r.comment, " # handle " + Decimal(l.handle));
    assert WithHandle(Join(args, " "), l.handle) ==
           (Join(front, " ") + " ") + Quoted(r.comment) + (" # handle " + Decimal(l.handle));
  }

  lemma SomeArgs(r: Rule)
    ensures PlainArgs(r) != []
  {
  }

  lemma KnownWords(r: Rule, l: Listed)
    ensures IsManaged(r) || IsBlock(r) ==> Known(Added(r))
    ensures FirstWords(Added(r), l) != []
  {
  }

  lemma NotCounter(r: Rule)
    requires IsManaged(r) || IsBlock(r)
    ensures RuleArgs(r) != [] && RuleArgs(r)[0] != "counter"
  {
    assert "counter"[0] == 'c' && "tcp"[0] == 't' && "ip"[0] == 'i' && "drop"[0] == 'd';
  }

  lemma DefaultUnquoted(e: Entry, l: Listed)
    requires e.Default? && Known(e)
    ensures QuotedIn(Join(WordsOf(e, l), " ")) == ""
  {
    hide Join, Decimal, QuotedIn;
    ActionsAreNoKeys(e.policy);
    DecimalIsWord(l.packets);
    DecimalIsWord(l.bytes);
    DecimalIsWord(l.handle);
    NoQuoteInJoin(WordsOf(e, l));
    NoQuotes(Join(WordsOf(e, l), " "));
  }

  // ---------------------------------------------------------------- one line

  lemma {:induction false} TrimIndented(s: string)
    requires s != "" && !IsSpace(s[0]) && !IsSpace(s[|s| - 1])
    ensures TrimSpace(s) == s && TrimSpace("\t" + s) == s && TrimSpace("\t\t" + s) == s
  {
    hide IsSpace;
    assert IsSpace('\t') by { TabIsSpace(); }
    assert ("\t\t" + s)[1..] == "\t" + s;
    assert ("\t" + s)[1..] == s;
    assert TrimSpace(s) == s;
    assert TrimSpace("\t" + s) == s;
  }

  lemma TabIsSpace()
    ensures IsSpace('\t')
  {
  }

  lemma JoinedLine(ws: seq<string>)
    requires ws != [] && AllWords(ws)
    ensures var s := Join(ws, " ");
            && s != "" && ws[0] <= s && !IsSpace(s[0]) && !IsSpace(s[|s| - 1])
            && Fields(s) == ws && TrimSpace("\t\t" + s) == s && TrimSpace("\t" + s) == s && TrimSpace(s) == s
  {
    hide Join, Fields, TrimSpace, IsSpace;
    JoinEnds(ws);
    FieldsOfJoin(ws);
    assert IsWord(ws[0]) && IsWord(ws[|ws| - 1]);
    TrimIndented(Join(ws, " "));
  }

  lemma UpperInput()
    ensures Upper("input") == "INPUT"
  {
  }

  /** A line of words that is neither a table, a chain nor a brace. */
  lemma WordLine(s: State, ws: seq<string>)
    requires |ws| >= 2 && AllWords(ws) && !StartsWith(Join(ws, " "), "table") && !StartsWith(Join(ws, " "), "chain")
    requires s.chain == "input"
    ensures var line := Join(ws, " ");
            var action := ActionFrom(line, 0);
            ParseLine(s, "\t\t" + line) ==
            if action == "" then s
            else s.(rules := s.rules + [Rule(s.table, "INPUT", ProtocolIn(ws), PortIn(ws), SourceIn(ws), action,
                                             QuotedIn(line))])
  {
    hide Fields, TrimSpace, ActionFrom, ProtocolIn, PortIn, SourceIn, QuotedIn, Upper, Join;
    JoinedLine(ws);
    UpperInput();
    LongerThanBrace(ws);
  }

  lemma LongerThanBrace(ws: seq<string>)
    requires |ws| >= 2 && AllWords(ws)
    ensures |Join(ws, " ")| >= 2
  {
    JoinCons(ws, " ");
    assert IsWord(ws[0]);
  }

  lemma EntryStart(e: Entry, l: Listed)
    requires Known(e)
    ensures var s := Join(WordsOf(e, l), " "); !StartsWith(s, "table") && !StartsWith(s, "chain")
  {
    hide Join, Decimal, Itoa, IsWord, IsAddressText;
    WordsAreWords(e, l);
    JoinEnds(WordsOf(e, l));
    var w, s := WordsOf(e, l)[0], Join(WordsOf(e, l), " ");
    assert |w| >= 2 && s[0] == w[0] && s[1] == w[1];
    assert "table"[0] == 't' && "table"[1] == 'a' && "chain"[0] == 'c' && "chain"[1] == 'h';
  }

  /** The line of one entry is reported as the entry says. */
  lemma EntryLine(s: State, e: Entry, l: Listed)
    requires Known(e) && l.spec == SpecOf(e) && s.table == TABLE && s.chain == "input"
    ensures ParseLine(s, RuleLine(l)) == s.(rules := s.rules + Reported(e))
  {
    hide ActionFrom, ProtocolIn, PortIn, SourceIn, QuotedIn, ParseLine, WordsOf, RuleLine, Join, StartsWith;
    hide IsAddressText;
    LineIsWords(e, l);
    WordsAreWords(e, l);
    EntryStart(e, l);
    assert |WordsOf(e, l)| >= 2 by { SomeWords(e, l); }
    WordLine(s, WordsOf(e, l));
    if e == Added(BlockRule("")) {
      EmptyAddressAction(e, l);
    } else {
      if e.Default? {
        DefaultAction(e, l);
        DefaultFields(e, l);
        DefaultUnquoted(e, l);
      } else {
        RuleAction(e, l);
        CommentFound(e.rule, l);
        if IsManaged(e.rule) {
          ManagedFields(e, l);
        } else {
          BlockFields(e, l);
        }
      }
    }
  }

  lemma SomeWords(e: Entry, l: Listed)
    ensures |WordsOf(e, l)| >= 2
  {
  }

  /** The line of a blocked address parses to its rule exactly when the address is not empty. */
  lemma BlockLineIff(s: State, ip: string, l: Listed)
    requires IsAddressText(ip) && l.spec == RuleArgs(BlockRule(ip)) && s.table == TABLE && s.chain == "input"
    ensures ParseLine(s, RuleLine(l)) == s.(rules := s.rules + [AsListed(BlockRule(ip))]) <==> ip != ""
  {
    hide ParseLine, RuleLine, RuleArgs;
    EntryLine(s, Added(BlockRule(ip)), l);
    assert |s.rules + [AsListed(BlockRule(ip))]| == |s.rules| + 1;
  }

  // ---------------------------------------------------------------- the listing

  function AllReported(entries: seq<Entry>): seq<Rule> {
    if entries == [] then [] else AllReported(entries[..|entries| - 1]) + Reported(entries[|entries| - 1])
  }

  ghost predicate AllKnown(entries: seq<Entry>) {
    forall i :: 0 <= i < |entries| ==> Known(entries[i])
  }

  /** The listed rules are the entries, whatever their counters and handles. */
  ghost predicate Lists(rules: seq<Listed>, entries: seq<Entry>) {
    |rules| == |entries| && forall i :: 0 <= i < |rules| ==> rules[i].spec == SpecOf(entries[i])
  }

  lemma {:induction false} EntryLines(s: State, rules: seq<Listed>, entries: seq<Entry>)
    requires AllKnown(entries) && Lists(rules, entries) && s.table == TABLE && s.chain == "input"
    ensures ParseLines(s, RuleLines(rules)) == s.(rules := s.rules + AllReported(entries))
  {
    hide ParseLine, RuleLine, Reported, Known, SpecOf;
    if rules == [] {
      assert RuleLines(rules) == [];
    } else {
      var front, last := rules[..|rules| - 1], rules[|rules| - 1];
      var before := entries[..|entries| - 1];
      EntryLines(s, front, before);
      assert RuleLines(rules)[..|rules| - 1] == RuleLines(front);
      EntryLine(s.(rules := s.rules + AllReported(before)), entries[|entries| - 1], last);
    }
  }

  lemma {:induction false} ParseAppend(s: State, a: seq<string>, b: seq<string>)
    ensures ParseLines(s, a + b) == ParseLines(ParseLines(s, a), b)
  {
    hide ParseLine;
    if b == [] {
      assert a + b == a;
    } else {
      ParseAppend(s, a, b[..|b| - 1]);
      assert (a + b)[..|a + b| - 1] == a + b[..|b| - 1];
    }
  }

  lemma TableWords()
    ensures AllWords(["table", "ip", "waffynx", "{"])
    ensures Join(["table", "ip", "waffynx", "{"], " ") == "table ip waffynx {"
  {
    JoinCons(["table", "ip", "waffynx", "{"], " ");
    assert ["table", "ip", "waffynx", "{"][1..] == ["ip", "waffynx", "{"];
    JoinCons(["ip", "waffynx", "{"], " ");
    assert ["ip", "waffynx", "{"][1..] == ["waffynx", "{"];
    JoinCons(["waffynx", "{"], " ");
    assert ["waffynx", "{"][1..] == ["{"];
  }

  lemma ChainWords()
    ensures AllWords(["chain", "input", "{"])
    ensures Join(["chain", "input", "{"], " ") == "chain input {"
  {
    JoinCons(["chain", "input", "{"], " ");
    assert ["chain", "input", "{"][1..] == ["input", "{"];
    JoinCons(["input", "{"], " ");
    assert ["input", "{"][1..] == ["{"];
  }

  lemma TailWords(ws: seq<string>, handle: nat)
    requires AllWords(ws)
    ensures AllWords(ws + Tail(handle))
  {
    DecimalIsWord(handle);
  }

  lemma TableLine(s: State, handle: nat)
    ensures ParseLine(s, WithHandle("table ip waffynx {", handle)) == s.(table := TABLE)
  {
    hide Fields, Join, IsWord, TrimSpace, Tail, WithHandle;
    var ws := ["table", "ip", "waffynx", "{"];
    TableWords();
    TailWords(ws, handle);
    WithHandleIsWords(ws, handle);
    JoinedLine(ws + Tail(handle));
    assert (ws + Tail(handle))[0] == "table" && (ws + Tail(handle))[1] == "ip" && (ws + Tail(handle))[2] == "waffynx";
    assert "ip" + " " + "waffynx" == TABLE;
  }

  lemma ChainLine(s: State, handle: nat)
    ensures ParseLine(s, "\t" + WithHandle("chain input {", handle)) == s.(chain := "input")
  {
    hide Fields, Join, IsWord, TrimSpace, Tail, WithHandle;
    var ws := ["chain", "input", "{"];
    ChainWords();
    TailWords(ws, handle);
    WithHandleIsWords(ws, handle);
    JoinedLine(ws + Tail(handle));
    assert (ws + Tail(handle))[0] == "chain" && (ws + Tail(handle))[1] == "input";
    assert WithHandle("chain input {", handle)[0] == 'c' && "table"[0] == 't';
  }

  lemma HookIsWords(priority: string)
    requires IsWord(priority) && '"' !in priority
    ensures AllWords(HookWords(priority)) && '"' !in Join(HookWords(priority), " ")
  {
    hide Join;
    NoQuoteInJoin(HookWords(priority));
  }

  lemma HookFields(priority: string)
    ensures NoneIs(HookWords(priority), "ip") && NoneIs(HookWords(priority), "tcp")
    ensures NoneIs(HookWords(priority), "dport") && NoneIs(HookWords(priority), "saddr")
    ensures StartsSome(HookWords(priority), "accept")
  {
    var ws := HookWords(priority);
    assert ws[5][|ws[5]| - 1] == ';' && "ip"[1] == 'p' && "tcp"[2] == 'p' && "dport"[4] == 't' && "saddr"[4] == 'r';
    assert "accept" <= ws[7];
  }

  lemma NotAHeader(line: string)
    requires |line| >= 2 && line[0] == 't' && line[1] == 'y'
    ensures !StartsWith(line, "table") && !StartsWith(line, "chain")
  {
    assert "table"[1] == 'a' && "chain"[0] == 'c';
  }

  lemma HookStart(priority: string)
    ensures |HookWords(priority)| == 8 && HookWords(priority)[0] == "type"
  {
  }

  lemma PrefixChars(line: string)
    requires "type" <= line
    ensures |line| >= 2 && line[0] == 't' && line[1] == 'y'
  {
  }

  /** The hook of the chain is taken for a rule that accepts. */
  lemma HookReported(s: State, priority: string)
    requires IsWord(priority) && '"' !in priority && s.table == TABLE && s.chain == "input"
    ensures ParseLine(s, HookLine(priority)) == s.(rules := s.rules + [WholeChain("accept")])
  {
    hide ActionFrom, ProtocolIn, PortIn, SourceIn, QuotedIn, ParseLine, Join, IsWord, AllWords, HookWords;
    var ws := HookWords(priority);
    HookIsWords(priority);
    HookFields(priority);
    NoFields(ws);
    AcceptLine(ws);
    NoQuotes(Join(ws, " "));
    JoinEnds(ws);
    HookStart(priority);
    PrefixChars(Join(ws, " "));
    NotAHeader(Join(ws, " "));
    WordLine(s, ws);
  }

  lemma ClosingLines(s: State)
    ensures ParseLine(s, "\t}") == s && ParseLine(s, "}") == s
  {
    TrimIndented("}");
    assert "\t}" == "\t" + "}";
    assert "}"[0] == '}' && "table"[0] == 't' && "chain"[0] == 'c';
  }

  lemma ParseOne(s: State, a: string)
    ensures ParseLines(s, [a]) == ParseLine(s, a)
  {
    hide ParseLine;
    assert [a][..0] == [];
  }

  lemma ParseTwo(s: State, a: string, b: string)
    ensures ParseLines(s, [a, b]) == ParseLine(ParseLine(s, a), b)
  {
    hide ParseLine;
    ParseOne(s, a);
    assert [a, b][..1] == [a];
  }

  ghost predicate Plausible(v: TableView) {
    IsWord(v.priority) && '"' !in v.priority
  }

  lemma LinesParse(v: TableView, entries: seq<Entry>)
    requires AllKnown(entries) && Lists(v.rules, entries) && Plausible(v)
    ensures ParseLines(State("", "", []), ListingLines(v)).rules == [WholeChain("accept")] + AllReported(entries)
  {
    hide ParseLine, ParseLines, RuleLines, AllReported, WithHandle, HookLine, Lists, AllKnown;
    var start := State("", "", []);
    var t, c, h := WithHandle("table ip waffynx {", v.handle), "\t" + WithHandle("chain input {", v.chainHandle),
                   HookLine(v.priority);
    var head, mid, tail := [t, c] + [h], RuleLines(v.rules), ["\t}", "}"];
    assert ListingLines(v) == head + mid + tail;
    ParseAppend(start, head + mid, tail);
    ParseAppend(start, head, mid);
    ParseAppend(start, [t, c], [h]);
    ParseTwo(start, t, c);
    TableLine(start, v.handle);
    ChainLine(start.(table := TABLE), v.chainHandle);
    var inside := State(TABLE, "input", []);
    assert ParseLines(start, [t, c]) == inside;
    ParseOne(inside, h);
    HookReported(inside, v.priority);
    var hooked := State(TABLE, "input", [WholeChain("accept")]);
    EntryLines(hooked, v.rules, entries);
    var done := hooked.(rules := hooked.rules + AllReported(entries));
    ClosingLines(done);
    ParseTwo(done, "\t}", "}");
    assert ParseLines(start, head) == hooked;
    assert ParseLines(start, head + mid + tail) == done;
  }

  lemma {:induction false} NoNewlineInJoin(ws: seq<string>)
    requires AllWords(ws)
    ensures '\n' !in Join(ws, " ")
  {
    if ws != [] {
      assert IsWord(ws[0]);
      if |ws| > 1 {
        NoNewlineInJoin(ws[1..]);
      }
    }
  }

  lemma NoNewlineInEntry(e: Entry, l: Listed)
    requires Known(e) && l.spec == SpecOf(e)
    ensures '\n' !in RuleLine(l)
  {
    hide Known, WordsOf, Join, RuleLine, SpecOf;
    LineIsWords(e, l);
    WordsAreWords(e, l);
    NoNewlineInJoin(WordsOf(e, l));
  }

  lemma OneLineEach(v: TableView, entries: seq<Entry>)
    requires AllKnown(entries) && Lists(v.rules, entries) && Plausible(v)
    ensures forall line :: line in ListingLines(v) ==> '\n' !in line
  {
    hide RuleLine, Known, SpecOf, Join, HookWords, IsWord;
    forall i | 0 <= i < |v.rules| ensures '\n' !in RuleLine(v.rules[i]) {
      NoNewlineInEntry(entries[i], v.rules[i]);
    }
    HookIsWords(v.priority);
    NoNewlineInJoin(HookWords(v.priority));
    DecimalWithoutNewline(v.handle);
    DecimalWithoutNewline(v.chainHandle);
  }

  lemma DecimalWithoutNewline(n: nat)
    ensures '\n' !in Decimal(n)
  {
    DecimalChars(n);
  }

  /** The parser reports, for a listing of the manager's chain: the hook as a rule that accepts, and
      then what it reports for each entry, in order, whatever the counters and handles. */
  lemma ListingParses(v: TableView, entries: seq<Entry>)
    requires AllKnown(entries) && Lists(v.rules, entries) && Plausible(v)
    ensures ParseNFT(Listing(v)) == [WholeChain("accept")] + AllReported(entries)
  {
    hide ParseLines, ListingLines, Split, Join, Lists, AllKnown, Plausible;
    OneLineEach(v, entries);
    assert |ListingLines(v)| >= 1 by { SomeLines(v); }
    SplitOfJoin(ListingLines(v), '\n');
    LinesParse(v, entries);
  }

  lemma SomeLines(v: TableView)
    ensures |ListingLines(v)| >= 1
  {
  }

  // ---------------------------------------------------------------- rules in, rules out

  function EntriesOf(rules: seq<Rule>): (es: seq<Entry>)
    ensures |es| == |rules|
  {
    seq(|rules|, i requires 0 <= i < |rules| => Added(rules[i]))
  }

  /** The same rule but for the table and the protocol, which the parser never recovers. */
  predicate SameButTableAndProtocol(p: Rule, r: Rule) {
    && p.chain == r.chain && p.port == r.port && p.source == r.source && p.action == r.action && p.comment == r.comment
    && p.table != r.table && p.protocol != r.protocol
  }

  ghost predicate ComeBack(reported: seq<Rule>, rules: seq<Rule>) {
    |reported| == |rules| && forall i :: 0 <= i < |rules| ==> SameButTableAndProtocol(reported[i], rules[i])
  }

  lemma ReportedRule(r: Rule)
    requires Known(Added(r))
    ensures r == BlockRule("") ==> Reported(Added(r)) == []
    ensures r != BlockRule("") ==> Reported(Added(r)) == [AsListed(r)] && SameButTableAndProtocol(AsListed(r), r)
  {
    hide IsAddressText;
    TablesDiffer();
  }

  lemma {:induction false} ReportedRules(rules: seq<Rule>)
    requires AllKnown(EntriesOf(rules))
    ensures |AllReported(EntriesOf(rules))| <= |rules|
    ensures ComeBack(AllReported(EntriesOf(rules)), rules) <==> BlockRule("") !in rules
    ensures BlockRule("") in rules ==> |AllReported(EntriesOf(rules))| < |rules|
  {
    hide Known, Reported, AsListed, BlockRule, SameButTableAndProtocol;
    if rules == [] {
      assert EntriesOf(rules) == [];
    } else {
      var front, last, es := rules[..|rules| - 1], rules[|rules| - 1], EntriesOf(rules);
      assert es[..|es| - 1] == EntriesOf(front) && es[|es| - 1] == Added(last);
      forall i | 0 <= i < |front| ensures Known(EntriesOf(front)[i]) {
        assert Known(es[i]);
      }
      ReportedRules(front);
      assert Known(es[|es| - 1]);
      ReportedRule(last);
      assert rules == front + [last];
    }
  }

  lemma TablesDiffer()
    ensures TABLE != "filter" && "dport" != "tcp" && "saddr" != ""
  {
    assert TABLE[0] == 'i' && "filter"[0] == 'f' && "dport"[0] == 'd' && "tcp"[0] == 't';
  }

  /** For any rules that the manager adds: behind the hook, parsing the listing returns all of them,
      in order, with the same chain, port, source, action and comment, exactly when none of them
      blocks the empty address. */
  lemma PrintParseRoundTripIff(v: TableView, rules: seq<Rule>)
    requires Plausible(v) && AllKnown(EntriesOf(rules)) && Lists(v.rules, EntriesOf(rules))
    ensures ParseNFT(Listing(v)) != []
    ensures ComeBack(ParseNFT(Listing(v))[1..], rules) <==> BlockRule("") !in rules
  {
    hide ParseNFT, Listing, AllReported, ComeBack, Lists, AllKnown;
    ListingParses(v, EntriesOf(rules));
    ReportedRules(rules);
    assert ([WholeChain("accept")] + AllReported(EntriesOf(rules)))[1..] == AllReported(EntriesOf(rules));
  }
}
