/** Firewall rules as text: the rule bodies the manager prints for nftables, and the parser of
    rule listings. */
module Firewall {
  import opened Text
  import opened Words

  datatype Rule = Rule(
    table: string, chain: string, protocol: string, port: int, source: string, action: string, comment: string)

  // ---------------------------------------------------------------- the manager's rules

  const MANAGED_COMMENT: string := "Waffynx managed"
  const BLOCK_COMMENT: string := "Waffynx block"

  /** Opens a managed port. */
  function ManagedRule(port: int): Rule {
    Rule("filter", "INPUT", "tcp", port, "", "accept", MANAGED_COMMENT)
  }

  /** Blocks an address. */
  function BlockRule(ip: string): Rule {
    Rule("filter", "INPUT", "", 0, ip, "drop", BLOCK_COMMENT)
  }

  // ---------------------------------------------------------------- printing

  function Quoted(s: string): string {
    "\"" + s + "\""
  }

  /** The arguments of one `nft add rule` after "add rule ip waffynx input". */
  function RuleArgs(r: Rule): seq<string> {
    (if r.protocol != "" then [r.protocol, "dport", Itoa(r.port)] else [])
    + (if r.source != "" then ["ip", "saddr", r.source] else [])
    + [r.action]
    + (if r.comment != "" then ["comment", Quoted(r.comment)] else [])
  }

  // ---------------------------------------------------------------- listings

  /** A rule as nft shows it with `-a`: what it was added with, its counter if it has one, and its
      handle. */
  datatype Listed = Listed(spec: seq<string>, packets: nat, bytes: nat, handle: nat)

  /** The table of the program with its chain. `priority` is how nft names the hook's priority. */
  datatype TableView = TableView(handle: nat, chainHandle: nat, priority: string, rules: seq<Listed>)

  function Shown(l: Listed): seq<string> {
    if l.spec != [] && l.spec[0] == "counter"
    then ["counter", "packets", Decimal(l.packets), "bytes", Decimal(l.bytes)] + l.spec[1..]
    else l.spec
  }

  function WithHandle(text: string, handle: nat): string {
    text + " # handle " + Decimal(handle)
  }

  function RuleLine(l: Listed): string {
    "\t\t" + WithHandle(Join(Shown(l), " "), l.handle)
  }

  function RuleLines(rules: seq<Listed>): (lines: seq<string>)
    ensures |lines| == |rules|
  {
    seq(|rules|, i requires 0 <= i < |rules| => RuleLine(rules[i]))
  }

  function HookWords(priority: string): seq<string> {
    ["type", "filter", "hook", "input", "priority", priority + ";", "policy", "accept;"]
  }

  function HookLine(priority: string): string {
    "\t\t" + Join(HookWords(priority), " ")
  }

  function ListingLines(v: TableView): seq<string> {
    [WithHandle("table ip waffynx {", v.handle), "\t" + WithHandle("chain input {", v.chainHandle),
     HookLine(v.priority)]
    + RuleLines(v.rules) + ["\t}", "}"]
  }

  /** The listing of the table: its chain with the hook and the rules in order. */
  function Listing(v: TableView): string {
    Join(ListingLines(v), "\n")
  }

  // ---------------------------------------------------------------- parsing

  const ACTIONS: seq<string> := ["accept", "drop", "deny", "reject", "log"]

  /** The first known action that occurs behind a space. */
  function ActionFrom(line: string, i: nat): string
    requires i <= |ACTIONS|
    decreases |ACTIONS| - i
  {
    if i == |ACTIONS| then ""
    else if Contains(line, " " + ACTIONS[i]) then ACTIONS[i]
    else ActionFrom(line, i + 1)
  }

  predicate NotAVerdict(w: string) {
    w != "accept" && w != "drop" && w != "deny" && w != "reject"
  }

  /** The word after the first `key` that has a word other than a verdict behind it. */
  function FieldAfter(words: seq<string>, key: string): string {
    if |words| < 2 then ""
    else if words[0] == key && NotAVerdict(words[1]) then words[1]
    else FieldAfter(words[1..], key)
  }

  function FieldOr(words: seq<string>, key: string, default: string): string {
    if FieldAfter(words, key) == "" then default else FieldAfter(words, key)
  }

  /** The first number behind a "dport", 0 without one. */
  function PortIn(words: seq<string>): int {
    if |words| < 2 then 0
    else if words[0] == "dport" && Atoi(words[1]).Some? then Atoi(words[1]).value
    else PortIn(words[1..])
  }

  /** The word behind the first "saddr". */
  function SourceIn(words: seq<string>): string {
    if |words| < 2 then ""
    else if words[0] == "saddr" then words[1]
    else SourceIn(words[1..])
  }

  const VERDICTS: set<string> := {"accept", "drop", "deny", "reject"}

  /** The field is the word behind the first keyword that has no verdict behind it. */
  lemma {:induction false} FieldIs(words: seq<string>, key: string, i: nat)
    requires i + 1 < |words| && words[i] == key && words[i + 1] !in VERDICTS
    requires forall k :: 0 <= k < i ==> words[k] != key || words[k + 1] in VERDICTS
    ensures FieldAfter(words, key) == words[i + 1]
  {
    if i > 0 {
      FieldIs(words[1..], key, i - 1);
    }
  }

  lemma {:induction false} FieldMissing(words: seq<string>, key: string)
    requires forall k :: 0 <= k < |words| - 1 ==> words[k] != key || words[k + 1] in VERDICTS
    ensures FieldAfter(words, key) == ""
  {
    if |words| >= 2 {
      FieldMissing(words[1..], key);
    }
  }

  /** The port is the first number behind a "dport". */
  lemma {:induction false} PortIs(words: seq<string>, i: nat)
    requires i + 1 < |words| && words[i] == "dport" && Atoi(words[i + 1]).Some?
    requires forall k :: 0 <= k < i ==> words[k] != "dport" || Atoi(words[k + 1]).None?
    ensures PortIn(words) == Atoi(words[i + 1]).value
  {
    hide Atoi;
    if i > 0 {
      PortIs(words[1..], i - 1);
    }
  }

  lemma {:induction false} PortMissing(words: seq<string>)
    requires forall k :: 0 <= k < |words| - 1 ==> words[k] != "dport" || Atoi(words[k + 1]).None?
    ensures PortIn(words) == 0
  {
    hide Atoi;
    if |words| >= 2 {
      PortMissing(words[1..]);
    }
  }

  /** The source is the word behind the first "saddr". */
  lemma {:induction false} SourceIs(words: seq<string>, i: nat)
    requires i + 1 < |words| && words[i] == "saddr" && forall k :: 0 <= k < i ==> words[k] != "saddr"
    ensures SourceIn(words) == words[i + 1]
  {
    if i > 0 {
      SourceIs(words[1..], i - 1);
    }
  }

  lemma {:induction false} SourceMissing(words: seq<string>)
    requires forall k :: 0 <= k < |words| - 1 ==> words[k] != "saddr"
    ensures SourceIn(words) == ""
  {
    if |words| >= 2 {
      SourceMissing(words[1..]);
    }
  }

  /** The action is the first known one, in their fixed order, that occurs behind a space. */
  lemma ActionIs(line: string)
    ensures ActionFrom(line, 0) ==
            if Contains(line, " accept") then "accept"
            else if Contains(line, " drop") then "drop"
            else if Contains(line, " deny") then "deny"
            else if Contains(line, " reject") then "reject"
            else if Contains(line, " log") then "log" else ""
  {
    hide Contains;
    assert " " + "accept" == " accept" && " " + "drop" == " drop" && " " + "deny" == " deny";
    assert " " + "reject" == " reject" && " " + "log" == " log";
    assert ActionFrom(line, 5) == "";
    assert ActionFrom(line, 3) == if Contains(line, " reject") then "reject" else ActionFrom(line, 4);
  }

  /** The text between the first two quotes. */
  function QuotedIn(line: string): string {
    var start := IndexOf(line, '"');
    if start < 0 then ""
    else
      var end := IndexOf(line[start + 1..], '"');
      if end < 0 then "" else line[start + 1..][..end]
  }

  function ProtocolIn(words: seq<string>): string {
    var ip := FieldOr(words, "ip", "");
    var tcp := if ip == "" then FieldOr(words, "tcp", "tcp") else ip;
    if tcp == "" then FieldOr(words, "udp", "udp") else tcp
  }

  /** What the parser has seen so far. */
  datatype State = State(table: string, chain: string, rules: seq<Rule>)

  function RuleIn(s: State, trimmed: string, action: string): Rule {
    var words := Fields(trimmed);
    Rule(s.table, Upper(s.chain), ProtocolIn(words), PortIn(words), SourceIn(words), action, QuotedIn(trimmed))
  }

  function ParseLine(s: State, line: string): State {
    var trimmed := TrimSpace(line);
    if StartsWith(trimmed, "table") then
      var parts := Fields(trimmed);
      if |parts| >= 3 then s.(table := parts[1] + " " + parts[2]) else s
    else if StartsWith(trimmed, "chain") then
      var parts := Fields(trimmed);
      if |parts| >= 2 then s.(chain := parts[1]) else s
    else if trimmed == "{" || trimmed == "}" || trimmed == "" then s
    else
      var action := ActionFrom(trimmed, 0);
      if action == "" then s else s.(rules := s.rules + [RuleIn(s, trimmed, action)])
  }

  function ParseLines(s: State, lines: seq<string>): State {
    if lines == [] then s else ParseLine(ParseLines(s, lines[..|lines| - 1]), lines[|lines| - 1])
  }

  function ParseNFT(output: string): seq<Rule> {
    ParseLines(State("", "", []), Split(output, '\n')).rules
  }

  method ExtractAction(line: string) returns (action: string)
    ensures action == ActionFrom(line, 0)
  {
    hide Contains;
    for i := 0 to |ACTIONS|
      invariant ActionFrom(line, 0) == ActionFrom(line, i)
    {
      if Contains(line, " " + ACTIONS[i]) {
        return ACTIONS[i];
      }
    }
    return "";
  }

  method ExtractField(line: string, key: string, default: string) returns (value: string)
    ensures value == FieldOr(Fields(line), key, default)
  {
    hide Fields;
    var words := Fields(line);
    FieldOfWords(words, key);
    for i := 0 to |words|
      invariant FieldAfter(words, key) == FieldAfter(words[i..], key)
    {
      if words[i] == key && i + 1 < |words| && NotAVerdict(words[i + 1]) {
        assert IsWord(words[i + 1]);
        return words[i + 1];
      }
      assert words[i..][1..] == words[i + 1..];
    }
    return default;
  }

  lemma FieldOfWords(words: seq<string>, key: string)
    ensures words[0..] == words && FieldAfter([], key) == ""
  {
  }

  method ExtractPort(line: string) returns (port: int)
    ensures port == PortIn(Fields(line))
  {
    hide Fields, Atoi;
    var words := Fields(line);
    assert words[0..] == words;
    for i := 0 to |words|
      invariant PortIn(words) == PortIn(words[i..])
    {
      if words[i] == "dport" && i + 1 < |words| {
        var n := Atoi(words[i + 1]);
        if n.Some? {
          return n.value;
        }
      }
      assert words[i..][1..] == words[i + 1..];
    }
    return 0;
  }

  method ExtractSource(line: string) returns (source: string)
    ensures source == SourceIn(Fields(line))
  {
    hide Fields;
    var words := Fields(line);
    assert words[0..] == words;
    for i := 0 to |words|
      invariant SourceIn(words) == SourceIn(words[i..])
    {
      if words[i] == "saddr" && i + 1 < |words| {
        return words[i + 1];
      }
      assert words[i..][1..] == words[i + 1..];
    }
    return "";
  }

  /** The parser's loop over the lines of a listing. */
  method ParseNFTRules(output: string) returns (rules: seq<Rule>)
    ensures rules == ParseNFT(output)
  {
    hide TrimSpace, Fields, ActionFrom, QuotedIn, FieldOr, PortIn, SourceIn, Split;
    rules := [];
    var currentTable, currentChain := "", "";
    var lines := Split(output, '\n');
    assert ParseLines(State("", "", []), lines[..0]) == State("", "", []);
    for i := 0 to |lines|
      invariant ParseLines(State("", "", []), lines[..i]) == State(currentTable, currentChain, rules)
    {
      assert lines[..i + 1][..i] == lines[..i];
      var trimmed := TrimSpace(lines[i]);
      if StartsWith(trimmed, "table") {
        var parts := Fields(trimmed);
        if |parts| >= 3 {
          currentTable := parts[1] + " " + parts[2];
        }
        continue;
      }
      if StartsWith(trimmed, "chain") {
        var parts := Fields(trimmed);
        if |parts| >= 2 {
          currentChain := parts[1];
        }
        continue;
      }
      if trimmed == "{" || trimmed == "}" || trimmed == "" {
        continue;
      }
      var action := ExtractAction(trimmed);
      if action == "" {
        continue;
      }
      var protocol := ExtractField(trimmed, "ip", "");
      if protocol == "" {
        protocol := ExtractField(trimmed, "tcp", "tcp");
        if protocol == "" {
          protocol := ExtractField(trimmed, "udp", "udp");
        }
      }
      var port := ExtractPort(trimmed);
      var source := ExtractSource(trimmed);
      rules := rules + [Rule(currentTable, Upper(currentChain), protocol, port, source, action, QuotedIn(trimmed))];
    }
    assert lines[..|lines|] == lines;
  }
}
