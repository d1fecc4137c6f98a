/** Printing the header block into a bounded buffer, and reading the spliced message back
    (message framing: section 7.2.2 of RFC 1945). */
module NginxMessage {
  import opened Text
  import opened NginxFraming

  // ---------------------------------------------------------------- the header block

  datatype RequestInfo = RequestInfo(
    methodName: string, uri: string, args: string,
    host: Option<string>, clientAddr: string, userAgent: Option<string>,
    contentType: Option<string>, referer: Option<string>, contentLength: int)

  function Maybe(name: string, value: Option<string>): seq<string> {
    match value
    case Some(v) => [name + v]
    case None => []
  }

  const FIXED_LINES: seq<string> := ["GET /evaluate HTTP/1.0", "Host: waffynx.internal", "Connection: close"]

  /** The URI, as nginx has decoded it, and the query. */
  function Target(r: RequestInfo): string {
    r.uri + if r.args == "" then "" else "?" + r.args
  }

  function LengthHeader(r: RequestInfo): seq<string> {
    if r.contentLength > 0 then ["X-WN-CL: " + Decimal(r.contentLength)] else []
  }

  function OtherLines(r: RequestInfo): seq<string> {
    Maybe("X-WN-H: ", r.host)
    + Maybe("X-WN-IP: ", if r.clientAddr == "" then None else Some(r.clientAddr))
    + Maybe("X-WN-UA: ", r.userAgent)
    + Maybe("X-WN-CT: ", r.contentType)
    + Maybe("X-WN-Ref: ", r.referer)
    + LengthHeader(r)
  }

  /** The lines the module prints, in order. */
  function HeaderLines(r: RequestInfo): seq<string> {
    FIXED_LINES + ["X-WN-M: " + r.methodName] + ["X-WN-U: " + Target(r)] + OtherLines(r)
  }

  function LinesText(lines: seq<string>): string {
    if lines == [] then "" else LinesText(lines[..|lines| - 1]) + lines[|lines| - 1] + CRLF
  }

  function HeadText(lines: seq<string>): string {
    LinesText(lines) + CRLF
  }

  /** `ngx_snprintf` at `p`: as much of the text as fits before `size`. */
  method Print(buf: array<Byte>, p: nat, size: nat, text: string) returns (q: nat)
    requires p <= size <= buf.Length
    modifies buf
    ensures q == MinNat(p + |text|, size)
    ensures buf[..q] == old(buf[..p]) + text[..q - p]
    ensures buf[size..] == old(buf[size..])
  {
    ghost var before := buf[..];
    var fits := Snprintf(size - p, text);
    Memcpy(buf, p, fits);
    q := p + |fits|;
    assert buf[..q] == buf[..][..q];
    assert buf[size..] == buf[..][size..] == before[size..];
  }

  /** Prints the header block; -1 if it does not leave room for one more byte. */
  method BuildHeaders(r: RequestInfo, buf: array<Byte>, size: nat) returns (n: int)
    requires size <= buf.Length
    modifies buf
    ensures n == if |HeadText(HeaderLines(r))| < size then |HeadText(HeaderLines(r))| else -1
    ensures n >= 0 ==> buf[..n] == HeadText(HeaderLines(r))
    ensures buf[size..] == old(buf[size..])
  {
    hide HeaderLines;
    var lines, p, i := HeaderLines(r), 0, 0;
    while i < |lines|
      invariant i <= |lines| && p == MinNat(|LinesText(lines[..i])|, size)
      invariant buf[..p] == LinesText(lines[..i])[..p]
      invariant buf[size..] == old(buf[size..])
    {
      assert lines[..i + 1][..i] == lines[..i];
      ghost var done, text := LinesText(lines[..i]), lines[i] + CRLF;
      var q := Print(buf, p, size, lines[i] + CRLF);
      assert LinesText(lines[..i + 1]) == done + text;
      PrintedPrefix(done, text, p, q, size);
      p := q;
      i := i + 1;
    }
    assert lines[..i] == lines;
    var q := Print(buf, p, size, CRLF);
    PrintedPrefix(LinesText(lines), CRLF, p, q, size);
    if q >= size {
      return -1;
    }
    return q;
  }

  lemma PrintedPrefix(done: string, text: string, p: nat, q: nat, size: nat)
    requires p == MinNat(|done|, size) && q == MinNat(p + |text|, size)
    ensures q == MinNat(|done + text|, size)
    ensures done[..p] + text[..q - p] == (done + text)[..q]
  {
  }

  // ---------------------------------------------------------------- readers

  /** A line ends at CR LF; a lenient reader, like the sidecar's, also ends it at a bare LF. */
  predicate EndsLine(s: string, i: int, bareLF: bool) {
    0 <= i < |s| && s[i] == '\n' && (bareLF || (i > 0 && s[i - 1] == '\r'))
  }

  /** Position of the first LF from `i` on that ends a line, or -1. */
  function FirstEnd(s: string, i: nat, bareLF: bool): (e: int)
    requires i <= |s|
    ensures e >= 0 ==> i <= e && EndsLine(s, e, bareLF) && forall k :: i <= k < e ==> !EndsLine(s, k, bareLF)
    ensures e < 0 ==> e == -1 && forall k :: i <= k ==> !EndsLine(s, k, bareLF)
    decreases |s| - i
  {
    if i == |s| then -1 else if EndsLine(s, i, bareLF) then i else FirstEnd(s, i + 1, bareLF)
  }

  /** A line without the CR of its line end. */
  function WithoutCR(line: string): string {
    if line != "" && line[|line| - 1] == '\r' then line[..|line| - 1] else line
  }

  datatype Head = Head(lines: seq<string>, rest: string)

  /** The lines up to the first empty one, and what follows it. */
  function ReadHead(s: string, bareLF: bool): Option<Head>
    decreases |s|
  {
    var e := FirstEnd(s, 0, bareLF);
    if e < 0 then None
    else if WithoutCR(s[..e]) == "" then Some(Head([], s[e + 1..]))
    else
      match ReadHead(s[e + 1..], bareLF)
      case None => None
      case Some(h) => Some(Head([WithoutCR(s[..e])] + h.lines, h.rest))
  }

  const LENGTH_NAME: string := "Content-Length: "

  function ContentLength(lines: seq<string>): Option<nat> {
    if lines == [] then None
    else if StartsWith(lines[0], LENGTH_NAME) then ParseDecimal(lines[0][|LENGTH_NAME|..])
    else ContentLength(lines[1..])
  }

  datatype Message = Message(lines: seq<string>, body: string)

  /** A reader that takes exactly as many body bytes as the length line says, none without one. */
  function ReadMessage(s: string, bareLF: bool): Option<Message> {
    match ReadHead(s, bareLF)
    case None => None
    case Some(h) =>
      match ContentLength(h.lines)
      case None => Some(Message(h.lines, ""))
      case Some(n) => if n <= |h.rest| then Some(Message(h.lines, h.rest[..n])) else None
  }

  // ---------------------------------------------------------------- what reads back

  /** No line ends inside the text. */
  ghost predicate Unbroken(text: string, bareLF: bool) {
    forall k :: !EndsLine(text, k, bareLF)
  }

  ghost predicate CleanLine(line: string, bareLF: bool) {
    line != "" && Unbroken(line, bareLF)
  }

  ghost predicate AllClean(lines: seq<string>, bareLF: bool) {
    forall l :: l in lines ==> CleanLine(l, bareLF)
  }

  lemma FirstLine(line: string, rest: string, bareLF: bool)
    requires Unbroken(line, bareLF)
    ensures var s := line + CRLF + rest;
            FirstEnd(s, 0, bareLF) == |line| + 1 && WithoutCR(s[..|line| + 1]) == line && s[|line| + 2..] == rest
  {
    var s := line + CRLF + rest;
    assert s[|line|] == '\r' && s[|line| + 1] == '\n';
    assert EndsLine(s, |line| + 1, bareLF);
    forall k | 0 <= k <= |line| ensures !EndsLine(s, k, bareLF) {
      if k < |line| {
        assert s[k] == line[k] && (k > 0 ==> s[k - 1] == line[k - 1]);
        assert !EndsLine(line, k, bareLF);
      }
    }
    assert s[..|line| + 1] == line + "\r";
  }

  lemma {:induction false} LinesTextFront(lines: seq<string>)
    requires lines != []
    ensures LinesText(lines) == lines[0] + CRLF + LinesText(lines[1..])
  {
    if |lines| > 1 {
      var front := lines[..|lines| - 1];
      LinesTextFront(front);
      assert front[1..] == lines[1..][..|lines| - 2];
    } else {
      assert LinesText(lines[..0]) == "" && LinesText(lines[1..]) == "";
    }
  }

  lemma ReadHeadStep(line: string, tail: string, bareLF: bool)
    requires Unbroken(line, bareLF)
    ensures ReadHead(line + CRLF + tail, bareLF) ==
            if line == "" then Some(Head([], tail))
            else match ReadHead(tail, bareLF) case None => None case Some(h) => Some(Head([line] + h.lines, h.rest))
  {
    hide FirstEnd, WithoutCR, Unbroken;
    FirstLine(line, tail, bareLF);
  }

  lemma HeadTextFront(lines: seq<string>, rest: string)
    ensures HeadText([]) + rest == "" + CRLF + rest
    ensures lines != [] ==> HeadText(lines) + rest == lines[0] + CRLF + (HeadText(lines[1..]) + rest)
  {
    hide LinesText;
    EmptyLinesText();
    if lines != [] {
      LinesTextFront(lines);
    }
  }

  lemma EmptyLinesText()
    ensures LinesText([]) == ""
  {
  }

  lemma {:induction false} CleanLinesReadBack(lines: seq<string>, rest: string, bareLF: bool)
    requires AllClean(lines, bareLF)
    ensures ReadHead(HeadText(lines) + rest, bareLF) == Some(Head(lines, rest))
  {
    hide ReadHead, HeadText, Unbroken;
    HeadTextFront(lines, rest);
    if lines == [] {
      EmptyUnbroken(bareLF);
      ReadHeadStep("", rest, bareLF);
    } else {
      assert lines[0] in lines;
      ReadHeadStep(lines[0], HeadText(lines[1..]) + rest, bareLF);
      CleanLinesReadBack(lines[1..], rest, bareLF);
      assert lines == [lines[0]] + lines[1..];
    }
  }

  lemma EmptyUnbroken(bareLF: bool)
    ensures Unbroken("", bareLF)
  {
  }

  /** A reader never returns an empty or a broken line. */
  lemma {:induction false} LinesReadAreClean(s: string, bareLF: bool)
    requires ReadHead(s, bareLF).Some?
    ensures AllClean(ReadHead(s, bareLF).value.lines, bareLF)
    decreases |s|
  {
    var e := FirstEnd(s, 0, bareLF);
    var line := WithoutCR(s[..e]);
    if line != "" {
      LinesReadAreClean(s[e + 1..], bareLF);
      forall k ensures !EndsLine(line, k, bareLF) {
        assert !EndsLine(s, k, bareLF) || k >= e;
      }
    }
  }

  /** A header block reads back as its lines and what follows it exactly when no line is empty or
      contains a line end of the reader. */
  lemma ReadsBackIff(lines: seq<string>, rest: string, bareLF: bool)
    ensures ReadHead(HeadText(lines) + rest, bareLF) == Some(Head(lines, rest)) <==> AllClean(lines, bareLF)
  {
    hide ReadHead, AllClean;
    if AllClean(lines, bareLF) {
      CleanLinesReadBack(lines, rest, bareLF);
    } else if ReadHead(HeadText(lines) + rest, bareLF).Some? {
      LinesReadAreClean(HeadText(lines) + rest, bareLF);
    }
  }

  // ---------------------------------------------------------------- round trip

  ghost predicate NoLengthLine(lines: seq<string>) {
    forall l :: l in lines ==> !StartsWith(l, LENGTH_NAME)
  }

  lemma {:induction false} LengthIsLast(lines: seq<string>, n: nat)
    requires NoLengthLine(lines)
    ensures ContentLength(lines + [LENGTH_NAME + Decimal(n)]) == Some(n)
    ensures ContentLength(lines) == None
  {
    var all := lines + [LENGTH_NAME + Decimal(n)];
    if lines == [] {
      DecimalRoundTrip(n);
      assert all[0][|LENGTH_NAME|..] == Decimal(n);
    } else {
      assert all[0] == lines[0] && lines[0] in lines;
      assert all[1..] == lines[1..] + [LENGTH_NAME + Decimal(n)];
      LengthIsLast(lines[1..], n);
    }
  }

  lemma LengthLineIsClean(n: nat, bareLF: bool)
    ensures CleanLine(LENGTH_NAME + Decimal(n), bareLF)
  {
    var line := LENGTH_NAME + Decimal(n);
    forall k | 0 <= k < |line| ensures line[k] != '\n' {
      if k >= |LENGTH_NAME| {
        assert line[k] in Decimal(n);
      }
    }
  }

  /** What a reader should get: the header lines, the length if there is a body, and the body. */
  function Sent(lines: seq<string>, chain: seq<Buf>, maxBody: nat): Message {
    var n := CopyLen(chain, maxBody);
    Message(lines + if n == 0 then [] else [LENGTH_NAME + Decimal(n)], BodyOf(chain)[..n])
  }

  /** A reader of the spliced message recovers the header lines, the length and exactly the first
      min(size of the chain, maxBody) body bytes, exactly when the header lines are clean. */
  lemma FramingRoundTripIff(lines: seq<string>, chain: seq<Buf>, maxBody: nat, bareLF: bool)
    requires NoLengthLine(lines)
    ensures |HeadText(lines)| >= 2
    ensures ReadMessage(Framed(HeadText(lines), chain, maxBody), bareLF) == Some(Sent(lines, chain, maxBody))
            <==> AllClean(lines, bareLF)
  {
    hide ReadHead, ContentLength, BodyOf, LinesText, NoLengthLine, CleanLine;
    var n := CopyLen(chain, maxBody);
    var body, all := BodyOf(chain)[..n], Sent(lines, chain, maxBody).lines;
    LengthIsLast(lines, n);
    LengthLineIsClean(n, bareLF);
    assert Framed(HeadText(lines), chain, maxBody) == HeadText(all) + body by {
      if n == 0 {
        assert lines + [] == lines && HeadText(lines) + "" == HeadText(lines);
      } else {
        FramedText(lines, n, body);
      }
    }
    ReadsBackIff(all, body, bareLF);
    assert AllClean(all, bareLF) <==> AllClean(lines, bareLF) by {
      assert forall l :: l in all <==> l in lines || (n > 0 && l == LENGTH_NAME + Decimal(n));
    }
    assert n == 0 ==> all == lines;
    if AllClean(lines, bareLF) {
      assert body[..n] == body;
    } else if ReadHead(HeadText(all) + body, bareLF).Some? {
      LinesReadAreClean(HeadText(all) + body, bareLF);
    }
  }

  lemma FramedText(lines: seq<string>, n: nat, body: string)
    ensures var head := HeadText(lines);
            head[..|head| - 2] + LengthLine(n) + head[|head| - 2..] + body ==
            HeadText(lines + [LENGTH_NAME + Decimal(n)]) + body
  {
    hide Decimal, LinesText;
    var head, line := HeadText(lines), LENGTH_NAME + Decimal(n);
    LinesTextStep(lines, line);
    assert head[..|head| - 2] == LinesText(lines) && head[|head| - 2..] == CRLF;
    assert LengthLine(n) == line + CRLF;
  }

  // ---------------------------------------------------------------- the module's own requests

  ghost predicate UnbrokenIf(value: Option<string>, bareLF: bool) {
    value.Some? ==> Unbroken(value.value, bareLF)
  }

  /** No value of the request contains a line end. The URI is the decoded one. */
  ghost predicate UnbrokenValues(r: RequestInfo, bareLF: bool) {
    && Unbroken(r.methodName, bareLF) && Unbroken(r.uri, bareLF) && Unbroken(r.args, bareLF)
    && Unbroken(r.clientAddr, bareLF)
    && UnbrokenIf(r.host, bareLF) && UnbrokenIf(r.userAgent, bareLF)
    && UnbrokenIf(r.contentType, bareLF) && UnbrokenIf(r.referer, bareLF)
  }

  /** A line end does not straddle two texts of which the first does not end in CR or the second
      does not start with LF. */
  lemma UnbrokenConcat(a: string, b: string, bareLF: bool)
    requires a == "" || b == "" || bareLF || a[|a| - 1] != '\r' || b[0] != '\n'
    ensures Unbroken(a + b, bareLF) <==> Unbroken(a, bareLF) && Unbroken(b, bareLF)
  {
    var s := a + b;
    forall k | EndsLine(a, k, bareLF) ensures EndsLine(s, k, bareLF) {
    }
    forall k | EndsLine(b, k, bareLF) ensures EndsLine(s, |a| + k, bareLF) {
      assert s[|a| + k] == b[k] && (k > 0 ==> s[|a| + k - 1] == b[k - 1]);
    }
    forall k | EndsLine(s, k, bareLF) ensures EndsLine(a, k, bareLF) || EndsLine(b, k - |a|, bareLF) {
      if k >= |a| {
        assert s[k] == b[k - |a|];
      }
    }
  }

  /** The lines in which the module prints the values; `name` ends in a space. */
  lemma NamedLine(name: string, value: string, bareLF: bool)
    requires name != "" && name[|name| - 1] == ' ' && '\n' !in name && name[0] == 'X'
    ensures CleanLine(name + value, bareLF) <==> Unbroken(value, bareLF)
    ensures !StartsWith(name + value, LENGTH_NAME)
  {
    assert forall k :: 0 <= k < |name| ==> name[k] in name;
    assert Unbroken(name, bareLF);
    UnbrokenConcat(name, value, bareLF);
    assert (name + value)[0] == 'X' && LENGTH_NAME[0] == 'C';
  }

  lemma FixedLines(bareLF: bool)
    ensures AllClean(FIXED_LINES, bareLF) && NoLengthLine(FIXED_LINES)
  {
    forall i | 0 <= i < 3 ensures CleanLine(FIXED_LINES[i], bareLF) && !StartsWith(FIXED_LINES[i], LENGTH_NAME) {
      NoLF(FIXED_LINES[i], bareLF);
      assert FIXED_LINES[0][0] == 'G' && FIXED_LINES[1][0] == 'H' && FIXED_LINES[2][3] == 'n';
      assert LENGTH_NAME[0] == 'C' && LENGTH_NAME[3] == 't';
    }
  }

  lemma NoLF(line: string, bareLF: bool)
    requires '\n' !in line
    ensures Unbroken(line, bareLF)
  {
  }

  lemma TargetUnbroken(r: RequestInfo, bareLF: bool)
    ensures Unbroken(Target(r), bareLF) <==> Unbroken(r.uri, bareLF) && Unbroken(r.args, bareLF)
  {
    if r.args == "" {
      assert Target(r) == r.uri;
    } else {
      UnbrokenConcat("?", r.args, bareLF);
      assert Unbroken("?", bareLF);
      UnbrokenConcat(r.uri, "?" + r.args, bareLF);
    }
  }

  lemma MaybeLine(name: string, value: Option<string>, bareLF: bool)
    requires name != "" && name[|name| - 1] == ' ' && '\n' !in name && name[0] == 'X'
    ensures AllClean(Maybe(name, value), bareLF) <==> UnbrokenIf(value, bareLF)
    ensures NoLengthLine(Maybe(name, value))
  {
    hide CleanLine, Unbroken;
    if value.Some? {
      NamedLine(name, value.value, bareLF);
      assert Maybe(name, value) == [name + value.value];
      assert name + value.value in Maybe(name, value);
    }
  }

  lemma CleanConcat(a: seq<string>, b: seq<string>, bareLF: bool)
    ensures AllClean(a + b, bareLF) <==> AllClean(a, bareLF) && AllClean(b, bareLF)
    ensures NoLengthLine(a + b) <==> NoLengthLine(a) && NoLengthLine(b)
  {
    hide CleanLine;
    assert forall l :: l in a + b <==> l in a || l in b;
  }

  lemma OneClean(line: string, bareLF: bool)
    ensures AllClean([line], bareLF) <==> CleanLine(line, bareLF)
    ensures NoLengthLine([line]) <==> !StartsWith(line, LENGTH_NAME)
  {
    hide CleanLine;
    assert line in [line];
  }

  lemma LengthOfRequestLine(r: RequestInfo, bareLF: bool)
    ensures AllClean(LengthHeader(r), bareLF) && NoLengthLine(LengthHeader(r))
  {
    if r.contentLength > 0 {
      NamedLine("X-WN-CL: ", Decimal(r.contentLength), bareLF);
      AllDigits(r.contentLength);
    }
  }

  lemma AllDigits(n: nat)
    ensures forall k :: 0 <= k < |Decimal(n)| ==> IsDigit(Decimal(n)[k])
  {
    forall k | 0 <= k < |Decimal(n)| ensures IsDigit(Decimal(n)[k]) {
      assert Decimal(n)[k] in Decimal(n);
    }
  }

  lemma HeaderLinesClean(r: RequestInfo, bareLF: bool)
    ensures AllClean(HeaderLines(r), bareLF) <==> UnbrokenValues(r, bareLF)
    ensures NoLengthLine(HeaderLines(r))
  {
    hide AllClean, NoLengthLine, CleanLine, Unbroken, UnbrokenIf, Maybe, LengthHeader, Target;
    var address := if r.clientAddr == "" then None else Some(r.clientAddr);
    var m, u := "X-WN-M: " + r.methodName, "X-WN-U: " + Target(r);
    FixedLines(bareLF);
    NamedLine("X-WN-M: ", r.methodName, bareLF);
    NamedLine("X-WN-U: ", Target(r), bareLF);
    TargetUnbroken(r, bareLF);
    OneClean(m, bareLF);
    OneClean(u, bareLF);
    MaybeLine("X-WN-H: ", r.host, bareLF);
    MaybeLine("X-WN-IP: ", address, bareLF);
    MaybeLine("X-WN-UA: ", r.userAgent, bareLF);
    MaybeLine("X-WN-CT: ", r.contentType, bareLF);
    MaybeLine("X-WN-Ref: ", r.referer, bareLF);
    LengthOfRequestLine(r, bareLF);
    AddressUnbroken(r, bareLF);
    var o1 := Maybe("X-WN-H: ", r.host);
    var o2 := o1 + Maybe("X-WN-IP: ", address);
    var o3 := o2 + Maybe("X-WN-UA: ", r.userAgent);
    var o4 := o3 + Maybe("X-WN-CT: ", r.contentType);
    var o5 := o4 + Maybe("X-WN-Ref: ", r.referer);
    CleanConcat(o1, Maybe("X-WN-IP: ", address), bareLF);
    CleanConcat(o2, Maybe("X-WN-UA: ", r.userAgent), bareLF);
    CleanConcat(o3, Maybe("X-WN-CT: ", r.contentType), bareLF);
    CleanConcat(o4, Maybe("X-WN-Ref: ", r.referer), bareLF);
    CleanConcat(o5, LengthHeader(r), bareLF);
    assert OtherLines(r) == o5 + LengthHeader(r);
    CleanConcat(FIXED_LINES, [m], bareLF);
    CleanConcat(FIXED_LINES + [m], [u], bareLF);
    CleanConcat(FIXED_LINES + [m] + [u], OtherLines(r), bareLF);
  }

  lemma AddressUnbroken(r: RequestInfo, bareLF: bool)
    ensures UnbrokenIf(if r.clientAddr == "" then None else Some(r.clientAddr), bareLF) <==>
            Unbroken(r.clientAddr, bareLF)
  {
  }

  /** What the module builds and splices reads back as its own header lines, the length of the copied
      body, and that body, exactly when no value of the request contains a line end of the reader. */
  lemma RequestRoundTripIff(r: RequestInfo, chain: seq<Buf>, maxBody: nat, bareLF: bool)
    ensures |HeadText(HeaderLines(r))| >= 2
    ensures ReadMessage(Framed(HeadText(HeaderLines(r)), chain, maxBody), bareLF) ==
            Some(Sent(HeaderLines(r), chain, maxBody))
            <==> UnbrokenValues(r, bareLF)
  {
    hide ReadMessage, AllClean, UnbrokenValues, Framed, Sent;
    HeaderLinesClean(r, bareLF);
    FramingRoundTripIff(HeaderLines(r), chain, maxBody, bareLF);
  }

  /** A decoded URI with two line ends in a row ends the header block: any reader takes the lines
      before it for the whole block, and the rest of the URI and all other values for the body. */
  lemma UriEndsBlock(r: RequestInfo, before: string, after: string, bareLF: bool)
    requires r.uri == before + "\r\n\r\n" + after
    requires Unbroken(r.methodName, bareLF) && Unbroken(before, bareLF)
    ensures ReadHead(HeadText(HeaderLines(r)), bareLF).Some?
    ensures ReadHead(HeadText(HeaderLines(r)), bareLF).value.lines ==
            FIXED_LINES + ["X-WN-M: " + r.methodName] + ["X-WN-U: " + before]
    ensures !UnbrokenValues(r, bareLF)
  {
    hide AllClean, CleanLine, NoLengthLine, Unbroken, ReadHead;
    var m, u := "X-WN-M: " + r.methodName, "X-WN-U: " + before;
    var seen := FIXED_LINES + [m] + [u];
    FixedLines(bareLF);
    NamedLine("X-WN-M: ", r.methodName, bareLF);
    NamedLine("X-WN-U: ", before, bareLF);
    OneClean(m, bareLF);
    OneClean(u, bareLF);
    CleanConcat(FIXED_LINES, [m], bareLF);
    CleanConcat(FIXED_LINES + [m], [u], bareLF);
    var rest := BlockCutAtUri(r, before, after);
    ReadsBackIff(seen, rest, bareLF);
    BrokenByCRLF(before, after, bareLF);
  }

  lemma BrokenByCRLF(before: string, after: string, bareLF: bool)
    ensures !Unbroken(before + "\r\n\r\n" + after, bareLF)
  {
    assert EndsLine(before + "\r\n\r\n" + after, |before| + 1, bareLF);
  }

  lemma LinesTextStep(lines: seq<string>, line: string)
    ensures LinesText(lines + [line]) == LinesText(lines) + line + CRLF
  {
    assert (lines + [line])[..|lines|] == lines;
  }

  lemma CutBlock(first: seq<string>, line: string, cut: string, behind: string, others: seq<string>)
    requires line + CRLF == cut + CRLF + CRLF + behind
    ensures HeadText(first + [line] + others) == HeadText(first + [cut]) + (behind + LinesText(others) + CRLF)
  {
    hide LinesText;
    LinesTextConcat(first + [line], others);
    LinesTextStep(first, line);
    LinesTextStep(first, cut);
    assert LinesText(first) + line + CRLF == LinesText(first) + (cut + CRLF + CRLF + behind);
  }

  lemma BlockCutAtUri(r: RequestInfo, before: string, after: string) returns (rest: string)
    requires r.uri == before + "\r\n\r\n" + after
    ensures HeadText(HeaderLines(r)) ==
            HeadText(FIXED_LINES + ["X-WN-M: " + r.methodName] + ["X-WN-U: " + before]) + rest
  {
    hide LinesText, OtherLines, HeadText;
    var u, cut := "X-WN-U: " + Target(r), "X-WN-U: " + before;
    var behind := after + (if r.args == "" then "" else "?" + r.args) + CRLF;
    assert u + CRLF == cut + CRLF + CRLF + behind;
    CutBlock(FIXED_LINES + ["X-WN-M: " + r.methodName], u, cut, behind, OtherLines(r));
    rest := behind + LinesText(OtherLines(r)) + CRLF;
  }

  lemma {:induction false} LinesTextConcat(a: seq<string>, b: seq<string>)
    ensures LinesText(a + b) == LinesText(a) + LinesText(b)
  {
    if b == [] {
      assert a + b == a;
    } else {
      LinesTextConcat(a, b[..|b| - 1]);
      assert (a + b)[..|a + b| - 1] == a + b[..|b| - 1];
    }
  }

  function Plain(uri: string, contentLength: int): RequestInfo {
    RequestInfo("GET", uri, "", None, "", None, None, None, contentLength)
  }

  lemma SplitUriNotReadBack(chain: seq<Buf>, maxBody: nat, bareLF: bool)
    ensures var r := Plain("/\r\n\r\nx", 0);
            |HeadText(HeaderLines(r))| >= 2 &&
            ReadMessage(Framed(HeadText(HeaderLines(r)), chain, maxBody), bareLF) !=
            Some(Sent(HeaderLines(r), chain, maxBody))
  {
    hide HeaderLines, HeadText, ReadMessage, Framed, Sent;
    var r := Plain("/\r\n\r\nx", 0);
    assert "/" + "\r\n\r\n" + "x" == r.uri;
    NoLF("/", bareLF);
    NoLF("GET", bareLF);
    UriEndsBlock(r, "/", "x", bareLF);
    RequestRoundTripIff(r, chain, maxBody, bareLF);
  }

  // ---------------------------------------------------------------- room for the body

  /** The header block is accepted, and yet some body of the announced length or less does not fit
      behind it. */
  ghost predicate Overruns(r: RequestInfo, maxBody: nat) {
    && r.contentLength > 0
    && |HeadText(HeaderLines(r))| < BufSize(maxBody)
    && exists chain ::
         && |BodyOf(chain)| <= r.contentLength
         && !HasRoom(BufSize(maxBody), |HeadText(HeaderLines(r))|, chain, maxBody)
  }

  /** The header block is only compared with the whole buffer. Hence a body can run over its end
      exactly when the block takes some of the bytes that the longest body needs. */
  lemma OverrunIff(r: RequestInfo, maxBody: nat)
    requires maxBody > 0 && r.contentLength > 0
    ensures var m := MinNat(r.contentLength, maxBody);
            Overruns(r, maxBody) <==>
            BufSize(maxBody) - m - |LengthLine(m)| < |HeadText(HeaderLines(r))| < BufSize(maxBody)
  {
    hide HeadText, HeaderLines, LengthLine, HasRoom, BodyOf;
    RoomForBodiesIff(BufSize(maxBody), |HeadText(HeaderLines(r))|, r.contentLength, maxBody);
  }

  /** With the default maximum of 65536 body bytes, and a body at least that long, a request whose
      URI has 8192 bytes. */
  lemma LongUriOverruns(uri: string)
    requires |uri| == 8192
    ensures Overruns(Plain(uri, 65536), 65536)
  {
    hide LinesText, LengthLine;
    var r := Plain(uri, 65536);
    var m, u, l := "X-WN-M: GET", "X-WN-U: " + uri, "X-WN-CL: " + Decimal(65536);
    assert Target(r) == uri + "" == uri;
    assert OtherLines(r) == [l];
    assert "X-WN-M: " + r.methodName == m && "X-WN-U: " + Target(r) == u;
    assert HeaderLines(r) == FIXED_LINES + [m] + [u] + [l];
    LinesTextStep(FIXED_LINES + [m] + [u], l);
    LinesTextStep(FIXED_LINES + [m], u);
    LinesTextStep(FIXED_LINES, m);
    FixedLength();
    assert |Decimal(65536)| <= 5 by { FiveDigits(); }
    OverrunIff(r, 65536);
  }

  lemma FiveDigits()
    ensures |Decimal(65536)| <= 5
  {
    assert Power10(5) == 100000;
    DecimalFits(65536, 5);
  }

  lemma FixedLength()
    ensures |LinesText(FIXED_LINES)| <= 100
  {
    hide LinesText;
    EmptyLinesText();
    LinesTextStep([], FIXED_LINES[0]);
    LinesTextStep([FIXED_LINES[0]], FIXED_LINES[1]);
    LinesTextStep([FIXED_LINES[0], FIXED_LINES[1]], FIXED_LINES[2]);
    assert [] + [FIXED_LINES[0]] == [FIXED_LINES[0]];
    assert [FIXED_LINES[0]] + [FIXED_LINES[1]] == [FIXED_LINES[0], FIXED_LINES[1]];
    assert [FIXED_LINES[0], FIXED_LINES[1]] + [FIXED_LINES[2]] == FIXED_LINES;
  }
}
