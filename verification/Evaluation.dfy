/** One evaluation from end to end: the request that the nginx module sends, what the sidecar makes of
    it, and the verdict that comes back. */
module Evaluation {
  import opened Text
  import opened NginxFraming
  import opened NginxMessage
  import V = NginxVerdict
  import S = Sidecar

  // ---------------------------------------------------------------- reading the headers

  function TrimBlanks(s: string): string
    decreases |s|
  {
    if s == "" then ""
    else if s[0] == ' ' || s[0] == '\t' then TrimBlanks(s[1..])
    else if s[|s| - 1] == ' ' || s[|s| - 1] == '\t' then TrimBlanks(s[..|s| - 1])
    else s
  }

  predicate IsBlank(c: char) {
    c == ' ' || c == '\t'
  }

  /** Exactly the blanks at both ends are dropped. */
  lemma {:induction false} TrimBlanksIs(s: string) returns (from: nat, to: nat)
    ensures from <= to <= |s| && TrimBlanks(s) == s[from..to]
    ensures (forall i :: 0 <= i < from || to <= i < |s| ==> IsBlank(s[i]))
    ensures from < to ==> !IsBlank(s[from]) && !IsBlank(s[to - 1])
    decreases |s|
  {
    if s == "" {
      from, to := 0, 0;
    } else if IsBlank(s[0]) {
      from, to := TrimBlanksIs(s[1..]);
      assert s[1..][from..to] == s[from + 1..to + 1];
      from, to := from + 1, to + 1;
    } else if IsBlank(s[|s| - 1]) {
      from, to := TrimBlanksIs(s[..|s| - 1]);
    } else {
      from, to := 0, |s|;
    }
  }

  /** `Header.Get`: the value of the first header line of this name, empty without one. */
  function Get(lines: seq<string>, name: string): string {
    if lines == [] then ""
    else if StartsWith(lines[0], name + ":") then TrimBlanks(lines[0][|name| + 1..])
    else Get(lines[1..], name)
  }

  /** What the sidecar takes from a message; the first line is the request line. */
  function IncomingOf(m: Message): S.Incoming {
    var headers := if m.lines == [] then [] else m.lines[1..];
    S.Incoming(Get(headers, "X-WN-M"), Get(headers, "X-WN-U"), Get(headers, "X-WN-H"), Get(headers, "X-WN-IP"),
               Get(headers, "X-WN-UA"), Get(headers, "X-WN-CT"), Get(headers, "X-WN-Ref"), m.body, false)
  }

  /** What arrives at the sidecar, whose reader also ends a line at a bare LF. */
  function Arrives(r: RequestInfo, chain: seq<Buf>, maxBody: nat): Option<S.Incoming>
    requires |HeadText(HeaderLines(r))| >= 2
  {
    match ReadMessage(Framed(HeadText(HeaderLines(r)), chain, maxBody), true)
    case None => None
    case Some(m) => Some(IncomingOf(m))
  }

  // ---------------------------------------------------------------- the module's lines as names and values

  datatype Entry = Entry(name: string, value: string)

  function LineOf(e: Entry): string {
    e.name + ": " + e.value
  }

  function LinesOf(es: seq<Entry>): (lines: seq<string>)
    ensures |lines| == |es|
  {
    seq(|es|, i requires 0 <= i < |es| => LineOf(es[i]))
  }

  function Find(es: seq<Entry>, name: string): string {
    if es == [] then "" else if es[0].name == name then TrimBlanks(es[0].value) else Find(es[1..], name)
  }

  ghost predicate PlainNames(es: seq<Entry>) {
    forall i :: 0 <= i < |es| ==> ':' !in es[i].name
  }

  /** Names without a colon are told apart by the text up to the first colon. */
  lemma NameOfLine(e: Entry, name: string)
    requires ':' !in e.name && ':' !in name
    ensures StartsWith(LineOf(e), name + ":") <==> e.name == name
    ensures e.name == name ==> LineOf(e)[|name| + 1..] == " " + e.value
  {
    var line := LineOf(e);
    assert line == e.name + [':'] + (" " + e.value);
    IndexAfter(e.name, ':', " " + e.value);
    if StartsWith(line, name + ":") {
      var rest := line[|name| + 1..];
      assert line == name + [':'] + rest;
      IndexAfter(name, ':', rest);
      assert name == line[..|name|] == e.name;
    }
  }

  lemma TrimLeading(s: string)
    ensures TrimBlanks(" " + s) == TrimBlanks(s)
  {
    assert (" " + s)[1..] == s;
  }

  lemma {:induction false} GetIsFind(es: seq<Entry>, name: string)
    requires PlainNames(es) && ':' !in name
    ensures Get(LinesOf(es), name) == Find(es, name)
  {
    hide LineOf, TrimBlanks;
    if es == [] {
      assert LinesOf(es) == [];
    } else {
      assert LinesOf(es)[1..] == LinesOf(es[1..]);
      NameOfLine(es[0], name);
      TrimLeading(es[0].value);
      GetIsFind(es[1..], name);
    }
  }

  lemma FindCons(e: Entry, es: seq<Entry>, name: string)
    ensures Find([e] + es, name) == if e.name == name then TrimBlanks(e.value) else Find(es, name)
  {
    hide TrimBlanks;
    assert ([e] + es)[1..] == es;
  }

  function MaybeEntry(name: string, value: Option<string>): seq<Entry> {
    if value.Some? then [Entry(name, value.value)] else []
  }

  function FirstEntries(r: RequestInfo): seq<Entry> {
    [Entry("Host", "waffynx.internal"), Entry("Connection", "close"), Entry("X-WN-M", r.methodName),
     Entry("X-WN-U", Target(r))]
  }

  function Address(r: RequestInfo): Option<string> {
    if r.clientAddr == "" then None else Some(r.clientAddr)
  }

  function OtherEntries(r: RequestInfo): seq<Entry> {
    MaybeEntry("X-WN-H", r.host)
    + (MaybeEntry("X-WN-IP", Address(r))
       + (MaybeEntry("X-WN-UA", r.userAgent)
          + (MaybeEntry("X-WN-CT", r.contentType)
             + (MaybeEntry("X-WN-Ref", r.referer)
                + MaybeEntry("X-WN-CL", if r.contentLength > 0 then Some(Decimal(r.contentLength)) else None)))))
  }

  function LengthEntry(n: nat): seq<Entry> {
    if n == 0 then [] else [Entry("Content-Length", Decimal(n))]
  }

  lemma MaybeLines(name: string, value: Option<string>)
    ensures LinesOf(MaybeEntry(name, value)) == Maybe(name + ": ", value)
  {
  }

  lemma LinesConcat(a: seq<Entry>, b: seq<Entry>)
    ensures LinesOf(a + b) == LinesOf(a) + LinesOf(b)
  {
    hide LineOf;
  }

  lemma FirstLines(r: RequestInfo)
    ensures [FIXED_LINES[0]] + LinesOf(FirstEntries(r)) ==
            FIXED_LINES + ["X-WN-M: " + r.methodName] + ["X-WN-U: " + Target(r)]
  {
    var es := FirstEntries(r);
    assert LineOf(es[0]) == FIXED_LINES[1] && LineOf(es[1]) == FIXED_LINES[2];
    assert LineOf(es[2]) == "X-WN-M: " + r.methodName && LineOf(es[3]) == "X-WN-U: " + Target(r);
  }

  lemma OtherLinesOf(r: RequestInfo)
    ensures LinesOf(OtherEntries(r)) == OtherLines(r)
  {
    hide LinesOf, MaybeEntry, Maybe;
    var length := if r.contentLength > 0 then Some(Decimal(r.contentLength)) else None;
    var e6 := MaybeEntry("X-WN-CL", length);
    var e5 := MaybeEntry("X-WN-Ref", r.referer) + e6;
    var e4 := MaybeEntry("X-WN-CT", r.contentType) + e5;
    var e3 := MaybeEntry("X-WN-UA", r.userAgent) + e4;
    var e2 := MaybeEntry("X-WN-IP", Address(r)) + e3;
    LinesConcat(MaybeEntry("X-WN-Ref", r.referer), e6);
    LinesConcat(MaybeEntry("X-WN-CT", r.contentType), e5);
    LinesConcat(MaybeEntry("X-WN-UA", r.userAgent), e4);
    LinesConcat(MaybeEntry("X-WN-IP", Address(r)), e3);
    LinesConcat(MaybeEntry("X-WN-H", r.host), e2);
    NamedLines(r, length);
  }

  lemma NamedLines(r: RequestInfo, length: Option<string>)
    requires length == if r.contentLength > 0 then Some(Decimal(r.contentLength)) else None
    ensures LinesOf(MaybeEntry("X-WN-H", r.host)) == Maybe("X-WN-H: ", r.host)
    ensures LinesOf(MaybeEntry("X-WN-IP", Address(r))) == Maybe("X-WN-IP: ", Address(r))
    ensures LinesOf(MaybeEntry("X-WN-UA", r.userAgent)) == Maybe("X-WN-UA: ", r.userAgent)
    ensures LinesOf(MaybeEntry("X-WN-CT", r.contentType)) == Maybe("X-WN-CT: ", r.contentType)
    ensures LinesOf(MaybeEntry("X-WN-Ref", r.referer)) == Maybe("X-WN-Ref: ", r.referer)
    ensures LinesOf(MaybeEntry("X-WN-CL", length)) == LengthHeader(r)
  {
    hide LinesOf, MaybeEntry;
    MaybeLines("X-WN-H", r.host);
    MaybeLines("X-WN-IP", Address(r));
    MaybeLines("X-WN-UA", r.userAgent);
    MaybeLines("X-WN-CT", r.contentType);
    MaybeLines("X-WN-Ref", r.referer);
    MaybeLines("X-WN-CL", length);
    assert "X-WN-H" + ": " == "X-WN-H: " && "X-WN-IP" + ": " == "X-WN-IP: " && "X-WN-UA" + ": " == "X-WN-UA: ";
    assert "X-WN-CT" + ": " == "X-WN-CT: " && "X-WN-Ref" + ": " == "X-WN-Ref: " && "X-WN-CL" + ": " == "X-WN-CL: ";
  }

  function AllEntries(r: RequestInfo, n: nat): seq<Entry> {
    FirstEntries(r) + (OtherEntries(r) + LengthEntry(n))
  }

  lemma SentLines(r: RequestInfo, n: nat)
    ensures (HeaderLines(r) + if n == 0 then [] else [LENGTH_NAME + Decimal(n)]) ==
            [FIXED_LINES[0]] + LinesOf(AllEntries(r, n))
  {
    hide LinesOf, FirstEntries, OtherEntries, OtherLines;
    LinesConcat(FirstEntries(r), OtherEntries(r) + LengthEntry(n));
    LinesConcat(OtherEntries(r), LengthEntry(n));
    FirstLines(r);
    OtherLinesOf(r);
    LengthLines(n);
    var other, length := LinesOf(OtherEntries(r)), LinesOf(LengthEntry(n));
    assert [FIXED_LINES[0]] + (LinesOf(FirstEntries(r)) + (other + length)) ==
           ([FIXED_LINES[0]] + LinesOf(FirstEntries(r))) + other + length;
  }

  lemma LengthLines(n: nat)
    ensures LinesOf(LengthEntry(n)) == if n == 0 then [] else [LENGTH_NAME + Decimal(n)]
  {
    if n > 0 {
      assert LineOf(Entry("Content-Length", Decimal(n))) == LENGTH_NAME + Decimal(n);
    }
  }

  // ---------------------------------------------------------------- looking the values up

  lemma FindMaybe(name: string, value: Option<string>, rest: seq<Entry>, key: string)
    ensures Find(MaybeEntry(name, value) + rest, key) ==
            if value.Some? && name == key then TrimBlanks(value.value) else Find(rest, key)
  {
    hide TrimBlanks;
    if value.None? {
      assert MaybeEntry(name, value) + rest == rest;
    } else {
      assert (MaybeEntry(name, value) + rest)[1..] == rest;
    }
  }

  lemma NamesApart()
    ensures "Content-Length" != "X-WN-M" && "Content-Length" != "X-WN-U"
    ensures forall n :: n in NAMES ==> n != "Content-Length" && n != "Host" && n != "Connection" && ':' !in n
    ensures forall i, j :: 0 <= i < j < |NAMES| ==> NAMES[i] != NAMES[j]
  {
    assert NAMES[0][5] == 'M' && NAMES[1][5] == 'U' && NAMES[2][5] == 'H' && NAMES[3][5] == 'I' && NAMES[4][5] == 'U';
    assert NAMES[5][5] == 'C' && NAMES[6][5] == 'R' && NAMES[7][5] == 'C' && NAMES[5][6] == 'T' && NAMES[7][6] == 'L';
    assert |NAMES[1]| == 6 && |NAMES[4]| == 7;
    assert "Content-Length"[0] == 'C' && "Host"[0] == 'H' && "Connection"[0] == 'C';
    assert forall i :: 0 <= i < |NAMES| ==> NAMES[i][0] == 'X';
  }

  const NAMES: seq<string> := ["X-WN-M", "X-WN-U", "X-WN-H", "X-WN-IP", "X-WN-UA", "X-WN-CT", "X-WN-Ref", "X-WN-CL"]

  function ValueNamed(r: RequestInfo, name: string): string {
    if name == NAMES[0] then r.methodName
    else if name == NAMES[1] then Target(r)
    else if name == NAMES[2] then OrEmpty(r.host)
    else if name == NAMES[3] then r.clientAddr
    else if name == NAMES[4] then OrEmpty(r.userAgent)
    else if name == NAMES[5] then OrEmpty(r.contentType)
    else OrEmpty(r.referer)
  }

  lemma FindFirst(r: RequestInfo, rest: seq<Entry>, name: string)
    requires name in NAMES
    ensures Find(FirstEntries(r) + rest, name) ==
            if name == NAMES[0] then TrimBlanks(r.methodName)
            else if name == NAMES[1] then TrimBlanks(Target(r)) else Find(rest, name)
  {
    hide TrimBlanks, Target, Find;
    NamesApart();
    var es := FirstEntries(r);
    FindCons(es[3], rest, name);
    FindCons(es[2], [es[3]] + rest, name);
    FindCons(es[1], [es[2]] + ([es[3]] + rest), name);
    FindCons(es[0], [es[1]] + ([es[2]] + ([es[3]] + rest)), name);
    assert es + rest == [es[0]] + ([es[1]] + ([es[2]] + ([es[3]] + rest)));
  }

  /** The first of the entries that are not always there and have this name. */
  function OtherNamed(r: RequestInfo, rest: string, name: string): string {
    if r.host.Some? && name == "X-WN-H" then TrimBlanks(r.host.value)
    else if r.clientAddr != "" && name == "X-WN-IP" then TrimBlanks(r.clientAddr)
    else if r.userAgent.Some? && name == "X-WN-UA" then TrimBlanks(r.userAgent.value)
    else if r.contentType.Some? && name == "X-WN-CT" then TrimBlanks(r.contentType.value)
    else if r.referer.Some? && name == "X-WN-Ref" then TrimBlanks(r.referer.value)
    else if r.contentLength > 0 && name == "X-WN-CL" then TrimBlanks(Decimal(r.contentLength))
    else rest
  }

  lemma FindAmongOthers(r: RequestInfo, rest: seq<Entry>, name: string)
    ensures Find(OtherEntries(r) + rest, name) == OtherNamed(r, Find(rest, name), name)
  {
    hide TrimBlanks, MaybeEntry, Find, Decimal;
    var length := if r.contentLength > 0 then Some(Decimal(r.contentLength)) else None;
    var l6 := MaybeEntry("X-WN-CL", length) + rest;
    var l5 := MaybeEntry("X-WN-Ref", r.referer) + l6;
    var l4 := MaybeEntry("X-WN-CT", r.contentType) + l5;
    var l3 := MaybeEntry("X-WN-UA", r.userAgent) + l4;
    var l2 := MaybeEntry("X-WN-IP", Address(r)) + l3;
    assert OtherEntries(r) + rest == MaybeEntry("X-WN-H", r.host) + l2;
    FindMaybe("X-WN-CL", length, rest, name);
    FindMaybe("X-WN-Ref", r.referer, l6, name);
    FindMaybe("X-WN-CT", r.contentType, l5, name);
    FindMaybe("X-WN-UA", r.userAgent, l4, name);
    FindMaybe("X-WN-IP", Address(r), l3, name);
    FindMaybe("X-WN-H", r.host, l2, name);
  }

  lemma FindOther(r: RequestInfo, rest: seq<Entry>, name: string)
    requires name in NAMES && name != NAMES[7] && Find(rest, name) == ""
    requires name != NAMES[0] && name != NAMES[1]
    ensures Find(OtherEntries(r) + rest, name) == TrimBlanks(ValueNamed(r, name))
  {
    hide TrimBlanks, OtherEntries, Find;
    FindAmongOthers(r, rest, name);
    NamesApart();
    TrimNothing();
  }

  lemma TrimNothing()
    ensures TrimBlanks("") == ""
  {
  }

  lemma FindLength(n: nat, name: string)
    requires name in NAMES
    ensures Find(LengthEntry(n), name) == ""
  {
    NamesApart();
  }

  /** Every value is found under its name. */
  lemma ValueFound(r: RequestInfo, n: nat, name: string)
    requires name in NAMES && name != NAMES[7]
    ensures Find(AllEntries(r, n), name) == TrimBlanks(ValueNamed(r, name))
  {
    hide Find, TrimBlanks, FirstEntries, OtherEntries, LengthEntry;
    FindLength(n, name);
    FindFirst(r, OtherEntries(r) + LengthEntry(n), name);
    if name != NAMES[0] && name != NAMES[1] {
      FindOther(r, LengthEntry(n), name);
    }
  }

  lemma PlainConcat(a: seq<Entry>, b: seq<Entry>)
    requires PlainNames(a) && PlainNames(b)
    ensures PlainNames(a + b)
  {
  }

  lemma MaybePlain(name: string, value: Option<string>)
    requires ':' !in name
    ensures PlainNames(MaybeEntry(name, value))
  {
  }

  lemma OthersArePlain(r: RequestInfo)
    ensures PlainNames(OtherEntries(r))
  {
    hide PlainNames, MaybeEntry;
    var length := if r.contentLength > 0 then Some(Decimal(r.contentLength)) else None;
    var e6 := MaybeEntry("X-WN-CL", length);
    var e5 := MaybeEntry("X-WN-Ref", r.referer) + e6;
    var e4 := MaybeEntry("X-WN-CT", r.contentType) + e5;
    var e3 := MaybeEntry("X-WN-UA", r.userAgent) + e4;
    var e2 := MaybeEntry("X-WN-IP", Address(r)) + e3;
    MaybePlain("X-WN-CL", length);
    MaybePlain("X-WN-Ref", r.referer);
    MaybePlain("X-WN-CT", r.contentType);
    MaybePlain("X-WN-UA", r.userAgent);
    MaybePlain("X-WN-IP", Address(r));
    MaybePlain("X-WN-H", r.host);
    PlainConcat(MaybeEntry("X-WN-Ref", r.referer), e6);
    PlainConcat(MaybeEntry("X-WN-CT", r.contentType), e5);
    PlainConcat(MaybeEntry("X-WN-UA", r.userAgent), e4);
    PlainConcat(MaybeEntry("X-WN-IP", Address(r)), e3);
    PlainConcat(MaybeEntry("X-WN-H", r.host), e2);
  }

  lemma PlainOne(e: Entry)
    requires ':' !in e.name
    ensures PlainNames([e]) && PlainNames([])
  {
  }

  lemma FirstArePlain(r: RequestInfo, n: nat)
    ensures PlainNames(FirstEntries(r)) && PlainNames(LengthEntry(n))
  {
    hide PlainNames, Target, Decimal;
    var es := FirstEntries(r);
    PlainOne(es[0]);
    PlainOne(es[1]);
    PlainOne(es[2]);
    PlainOne(es[3]);
    PlainOne(Entry("Content-Length", Decimal(n)));
    PlainConcat([es[0]], [es[1]]);
    PlainConcat([es[0]] + [es[1]], [es[2]]);
    PlainConcat([es[0]] + [es[1]] + [es[2]], [es[3]]);
    assert es == [es[0]] + [es[1]] + [es[2]] + [es[3]];
  }

  lemma NamesArePlain(r: RequestInfo, n: nat)
    ensures PlainNames(AllEntries(r, n))
  {
    hide PlainNames, FirstEntries, OtherEntries, LengthEntry;
    FirstArePlain(r, n);
    OthersArePlain(r);
    PlainConcat(OtherEntries(r), LengthEntry(n));
    PlainConcat(FirstEntries(r), OtherEntries(r) + LengthEntry(n));
  }

  lemma ValueRead(r: RequestInfo, n: nat, name: string)
    requires name in NAMES && name != NAMES[7]
    ensures Get(LinesOf(AllEntries(r, n)), name) == TrimBlanks(ValueNamed(r, name))
  {
    hide Get, Find, LinesOf, AllEntries, TrimBlanks, ValueNamed, PlainNames;
    NamesArePlain(r, n);
    NamesApart();
    GetIsFind(AllEntries(r, n), name);
    ValueFound(r, n, name);
  }

  // ---------------------------------------------------------------- what arrives

  /** The request as the sidecar should get it; surrounding blanks of a value are lost. */
  function Expected(r: RequestInfo, chain: seq<Buf>, maxBody: nat): S.Incoming {
    S.Incoming(TrimBlanks(r.methodName), TrimBlanks(Target(r)), TrimBlanks(OrEmpty(r.host)), TrimBlanks(r.clientAddr),
               TrimBlanks(OrEmpty(r.userAgent)), TrimBlanks(OrEmpty(r.contentType)), TrimBlanks(OrEmpty(r.referer)),
               BodyOf(chain)[..CopyLen(chain, maxBody)], false)
  }

  lemma ValuesNamed(r: RequestInfo)
    ensures ValueNamed(r, NAMES[0]) == r.methodName && ValueNamed(r, NAMES[1]) == Target(r)
    ensures ValueNamed(r, NAMES[2]) == OrEmpty(r.host) && ValueNamed(r, NAMES[3]) == r.clientAddr
    ensures ValueNamed(r, NAMES[4]) == OrEmpty(r.userAgent) && ValueNamed(r, NAMES[5]) == OrEmpty(r.contentType)
    ensures ValueNamed(r, NAMES[6]) == OrEmpty(r.referer)
  {
    hide OrEmpty, Target;
    NamesApart();
  }

  lemma IncomingOfSent(r: RequestInfo, chain: seq<Buf>, maxBody: nat)
    ensures IncomingOf(Sent(HeaderLines(r), chain, maxBody)) == Expected(r, chain, maxBody)
  {
    hide Get, LinesOf, AllEntries, TrimBlanks, HeaderLines, BodyOf, CopyLen, ValueNamed, OrEmpty, Target;
    var n := CopyLen(chain, maxBody);
    SentLines(r, n);
    assert Sent(HeaderLines(r), chain, maxBody).lines[1..] == LinesOf(AllEntries(r, n));
    ValuesNamed(r);
    NamesApart();
    ValueRead(r, n, NAMES[0]);
    ValueRead(r, n, NAMES[1]);
    ValueRead(r, n, NAMES[2]);
    ValueRead(r, n, NAMES[3]);
    ValueRead(r, n, NAMES[4]);
    ValueRead(r, n, NAMES[5]);
    ValueRead(r, n, NAMES[6]);
  }

  /** A request whose values contain no line end arrives as it is. */
  lemma RequestArrives(r: RequestInfo, chain: seq<Buf>, maxBody: nat)
    requires UnbrokenValues(r, true)
    ensures |HeadText(HeaderLines(r))| >= 2
    ensures Arrives(r, chain, maxBody) == Some(Expected(r, chain, maxBody))
  {
    hide ReadMessage, Framed, Sent, IncomingOf, Expected, HeaderLines, UnbrokenValues;
    RequestRoundTripIff(r, chain, maxBody, true);
    IncomingOfSent(r, chain, maxBody);
  }

  /** The body that arrives is the start of the body in memory: all of it, or exactly maxBody bytes. */
  lemma BodyArrives(r: RequestInfo, chain: seq<Buf>, maxBody: nat)
    requires UnbrokenValues(r, true)
    ensures |HeadText(HeaderLines(r))| >= 2 && Arrives(r, chain, maxBody).Some?
    ensures var body := Arrives(r, chain, maxBody).value.body;
            body <= BodyOf(chain) && |body| <= maxBody && (body == BodyOf(chain) || |body| == maxBody)
  {
    hide Arrives, UnbrokenValues, HeaderLines, BodyOf;
    RequestArrives(r, chain, maxBody);
  }

  /** What plugins find in the context, and rules in the request: each value of the original request
      under its own name. A body is there exactly when body bytes were copied. */
  lemma ContextArrives(r: RequestInfo, chain: seq<Buf>, maxBody: nat)
    requires UnbrokenValues(r, true)
    ensures |HeadText(HeaderLines(r))| >= 2 && Arrives(r, chain, maxBody).Some?
    ensures var incoming := Arrives(r, chain, maxBody).value;
            var ctx, body := S.ContextOf(incoming).values, incoming.body;
            && ctx.Keys == CONTEXT_NAMES + (if body == "" then {} else {"wn_body"})
            && ctx["wn_method"] == TrimBlanks(r.methodName) && ctx["wn_uri"] == TrimBlanks(Target(r))
            && ctx["wn_host"] == TrimBlanks(OrEmpty(r.host)) && ctx["wn_ip"] == TrimBlanks(r.clientAddr)
            && ctx["wn_ua"] == TrimBlanks(OrEmpty(r.userAgent)) && ctx["wn_ct"] == TrimBlanks(OrEmpty(r.contentType))
            && ctx["wn_ref"] == TrimBlanks(OrEmpty(r.referer))
            && (body != "" ==> ctx["wn_body"] == FirstRead(body))
            && S.ContextOf(incoming).statusCode == 0
    ensures var incoming := Arrives(r, chain, maxBody).value;
            var req := S.RequestOf(incoming);
            && req.httpMethod == TrimBlanks(r.methodName) && req.path == TrimBlanks(Target(r))
            && req.host == TrimBlanks(OrEmpty(r.host)) && req.remoteIP == TrimBlanks(r.clientAddr)
            && req.headers.Keys == {"User-Agent", "Content-Type", "Referer"}
            && req.headers["User-Agent"] == [TrimBlanks(OrEmpty(r.userAgent))]
            && req.headers["Content-Type"] == [TrimBlanks(OrEmpty(r.contentType))]
            && req.headers["Referer"] == [TrimBlanks(OrEmpty(r.referer))]
            && req.body == FirstRead(incoming.body)
  {
    hide Arrives, UnbrokenValues, HeaderLines, TrimBlanks, BodyOf, Target, OrEmpty;
    RequestArrives(r, chain, maxBody);
    ContextNames(Expected(r, chain, maxBody));
    HeaderNames(Expected(r, chain, maxBody));
  }

  const CONTEXT_NAMES: set<string> := {"wn_method", "wn_uri", "wn_host", "wn_ip", "wn_ua", "wn_ct", "wn_ref"}

  /** The sidecar reads at most 65536 body bytes. */
  function FirstRead(body: string): string {
    if |body| <= 65536 then body else body[..65536]
  }

  lemma ContextNames(i: S.Incoming)
    ensures var ctx := S.ContextOf(i).values;
            && ctx.Keys == CONTEXT_NAMES + (if i.body == "" then {} else {"wn_body"})
            && ctx["wn_method"] == i.httpMethod && ctx["wn_uri"] == i.uri && ctx["wn_host"] == i.host
            && ctx["wn_ip"] == i.remoteIP && ctx["wn_ua"] == i.userAgent && ctx["wn_ct"] == i.contentType
            && ctx["wn_ref"] == i.referer && (i.body != "" ==> ctx["wn_body"] == FirstRead(i.body))
  {
    assert "wn_method"[3] == 'm' && "wn_host"[3] == 'h' && "wn_ip"[3] == 'i' && "wn_ct"[3] == 'c' && "wn_ref"[3] == 'r';
    assert "wn_uri"[3] == 'u' && "wn_uri"[4] == 'r' && "wn_ua"[3] == 'u' && "wn_ua"[4] == 'a' && "wn_body"[3] == 'b';
  }

  lemma HeaderNames(i: S.Incoming)
    ensures var h := S.RequestOf(i).headers;
            && h.Keys == {"User-Agent", "Content-Type", "Referer"}
            && h["User-Agent"] == [i.userAgent] && h["Content-Type"] == [i.contentType] && h["Referer"] == [i.referer]
  {
    assert "User-Agent"[0] == 'U' && "Content-Type"[0] == 'C' && "Referer"[0] == 'R';
  }

  // ---------------------------------------------------------------- the verdict

  /** The response starts with a status line of this status. */
  predicate AnswersWith(stream: string, status: int) {
    100 <= status <= 999 && |stream| >= 12 && stream[9..12] == Decimal(status)
  }

  lemma StatusOnTheWire(stream: string, status: int)
    requires AnswersWith(stream, status)
    ensures V.Says204(stream) <==> status == 204
    ensures !V.Unparsable(stream)
  {
    DecimalRoundTrip(status);
    DecimalRoundTrip(204);
    assert Decimal(204) == "204";
    var d := Decimal(status);
    assert stream[9] == d[0] && stream[10] == d[1] && stream[11] == d[2];
    assert d[0] in d && d[1] in d && d[2] in d;
  }

  /** For every request without line ends in its values, every body and every pattern of partial
      sends, fragments and interrupts that completes: if the response carries the sidecar's status,
      the module lets the request through exactly when every stage of the sidecar lets pass what
      arrived, as long as no failing plugin has answered 204 itself. */
  lemma VerdictIsTheSidecars(r: RequestInfo, chain: seq<Buf>, maxBody: nat, setup: S.Setup, stages: S.Stages,
                             stream: string, failOpen: bool, sends: V.SendScript, recvs: V.RecvScript)
    requires UnbrokenValues(r, true)
    requires var incoming := Expected(r, chain, maxBody);
             && S.StagesOf(setup, incoming, stages)
             && !S.FailsWithStatus(setup, incoming, 204)
    requires AnswersWith(stream, S.StatusOf(S.Decide(stages).reply))
    requires |HeadText(HeaderLines(r))| >= 2
    requires V.WholeRequestSent(|Framed(HeadText(HeaderLines(r)), chain, maxBody)|, sends) &&
             !V.ResponseLost(stream, recvs)
    ensures Arrives(r, chain, maxBody) == Some(Expected(r, chain, maxBody))
    ensures V.Allowed(true, |Framed(HeadText(HeaderLines(r)), chain, maxBody)|, failOpen, sends, stream, recvs)
            <==> S.LetsPass(setup, Expected(r, chain, maxBody))
  {
    hide Arrives, Expected, Framed, HeaderLines, S.StagesOf, S.LetsPass, S.FailsWithStatus;
    hide V.WholeRequestSent, V.ResponseLost, V.Says204, V.Unparsable, AnswersWith;
    RequestArrives(r, chain, maxBody);
    S.AllowedIff(setup, Expected(r, chain, maxBody), stages);
    StatusOnTheWire(stream, S.StatusOf(S.Decide(stages).reply));
  }
}
