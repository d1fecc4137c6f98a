/** How the nginx module lays out the request it sends to the sidecar: headers printed into a
    bounded buffer, a Content-Length line spliced in place, body bytes copied from a chain of
    buffers, and what a reader of that message gets back. */
module NginxFraming {
  import opened Text

  type Byte = char

  const CRLF: string := "\r\n"

  // ---------------------------------------------------------------- the body chain

  /** One link of the chain; a buffer whose `last` is not after its `pos` has no data. */
  datatype Buf = NullBuf | Buf(inFile: bool, data: seq<Byte>)

  predicate InMemory(b: Buf) {
    b.Buf? && !b.inFile && b.data != []
  }

  function DataOf(b: Buf): seq<Byte> {
    if InMemory(b) then b.data else []
  }

  /** All body bytes held in memory, in order. */
  function BodyOf(chain: seq<Buf>): seq<Byte> {
    if chain == [] then [] else BodyOf(chain[..|chain| - 1]) + DataOf(chain[|chain| - 1])
  }

  lemma BodyStep(chain: seq<Buf>, i: nat)
    requires i < |chain|
    ensures BodyOf(chain[..i + 1]) == BodyOf(chain[..i]) + DataOf(chain[i])
  {
    assert chain[..i + 1][..i] == chain[..i];
  }

  lemma {:induction false} BodyPrefix(chain: seq<Buf>, i: nat)
    requires i <= |chain|
    ensures BodyOf(chain[..i]) <= BodyOf(chain)
    decreases |chain| - i
  {
    if i < |chain| {
      BodyStep(chain, i);
      BodyPrefix(chain, i + 1);
    } else {
      assert chain[..i] == chain;
    }
  }

  function CopyLen(chain: seq<Buf>, maxBody: nat): nat {
    MinNat(|BodyOf(chain)|, maxBody)
  }

  // ---------------------------------------------------------------- the message

  function LengthLine(n: nat): string {
    "Content-Length: " + Decimal(n) + CRLF
  }

  /** The message for a header block and a body chain. */
  function Framed(headers: seq<Byte>, chain: seq<Buf>, maxBody: nat): string
    requires |headers| >= 2
  {
    var n := CopyLen(chain, maxBody);
    if n == 0 then headers
    else headers[..|headers| - 2] + LengthLine(n) + headers[|headers| - 2..] + BodyOf(chain)[..n]
  }

  lemma BodySnoc(chain: seq<Buf>, b: Buf)
    ensures BodyOf(chain + [b]) == BodyOf(chain) + DataOf(b)
  {
    assert (chain + [b])[..|chain|] == chain;
  }

  lemma Regroup<T>(a: seq<T>, b: seq<T>, c: seq<T>)
    ensures a + (b + c) == a + b + c
  {
  }

  lemma {:induction false} BodyOfConcat(a: seq<Buf>, b: seq<Buf>)
    ensures BodyOf(a + b) == BodyOf(a) + BodyOf(b)
  {
    if b == [] {
      assert a + b == a;
    } else {
      hide BodyOf, DataOf;
      var front, last := b[..|b| - 1], b[|b| - 1];
      assert b == front + [last];
      BodyOfConcat(a, front);
      BodySnoc(front, last);
      BodySnoc(a + front, last);
      Regroup(a, front, [last]);
      Regroup(BodyOf(a), BodyOf(front), DataOf(last));
    }
  }

  /** The body of a chain of chains, and of single links: what a buffer in memory holds, and nothing
      for a buffer in a file or no buffer at all. */
  lemma BodyOfLinks(a: seq<Buf>, b: seq<Buf>, data: seq<Byte>)
    ensures BodyOf(a + b) == BodyOf(a) + BodyOf(b)
    ensures BodyOf([]) == [] && BodyOf([NullBuf]) == [] && BodyOf([Buf(true, data)]) == []
    ensures BodyOf([Buf(false, data)]) == data
  {
    BodyOfConcat(a, b);
    assert [NullBuf][..0] == [] && [Buf(true, data)][..0] == [] && [Buf(false, data)][..0] == [];
  }

  /** How the body is cut into buffers does not matter. */
  lemma ChainingIrrelevant(headers: seq<Byte>, c1: seq<Buf>, c2: seq<Buf>, maxBody: nat)
    requires |headers| >= 2 && BodyOf(c1) == BodyOf(c2)
    ensures Framed(headers, c1, maxBody) == Framed(headers, c2, maxBody)
  {
  }

  // ---------------------------------------------------------------- buffer primitives

  method Memcpy(buf: array<Byte>, at: nat, bytes: seq<Byte>)
    requires at + |bytes| <= buf.Length
    modifies buf
    ensures buf[..] == old(buf[..])[..at] + bytes + old(buf[..])[at + |bytes|..]
  {
    for i := 0 to |bytes|
      invariant buf[..at] == old(buf[..at])
      invariant buf[at..at + i] == bytes[..i]
      invariant buf[at + i..] == old(buf[at + i..])
    {
      buf[at + i] := bytes[i];
    }
    assert buf[..] == buf[..at] + buf[at..at + |bytes|] + buf[at + |bytes|..];
    assert old(buf[..])[..at] == old(buf[..at]) && old(buf[..])[at + |bytes|..] == old(buf[at + |bytes|..]);
  }

  /** Moves `n` bytes within the buffer; source and target may overlap. */
  method Memmove(buf: array<Byte>, to: nat, from: nat, n: nat)
    requires to + n <= buf.Length && from + n <= buf.Length
    modifies buf
    ensures buf[..] == old(buf[..])[..to] + old(buf[..])[from..from + n] + old(buf[..])[to + n..]
  {
    var bytes := buf[from..from + n];
    assert bytes == buf[..][from..from + n];
    Memcpy(buf, to, bytes);
  }

  /** What `ngx_snprintf` writes into `size` bytes: the text, cut off at the end. */
  function Snprintf(size: nat, text: string): string {
    if |text| <= size then text else text[..size]
  }

  lemma LengthLineFits(n: nat)
    requires n < Power10(20)
    ensures Snprintf(64, LengthLine(n)) == LengthLine(n)
  {
    DecimalFits(n, 20);
  }

  // ---------------------------------------------------------------- the body handler

  method BodyLength(chain: seq<Buf>, maxBody: nat) returns (totalBodyLen: nat)
    ensures totalBodyLen == CopyLen(chain, maxBody)
  {
    totalBodyLen := 0;
    var i := 0;
    while i < |chain|
      invariant i <= |chain|
      invariant totalBodyLen == |BodyOf(chain[..i])|
      invariant totalBodyLen == 0 || totalBodyLen < maxBody
    {
      BodyStep(chain, i);
      BodyPrefix(chain, i + 1);
      var b := chain[i];
      if InMemory(b) {
        totalBodyLen := totalBodyLen + |b.data|;
        if totalBodyLen >= maxBody {
          totalBodyLen := maxBody;
          return;
        }
      }
      i := i + 1;
    }
    assert chain[..i] == chain;
  }

  lemma NextPiece(chain: seq<Buf>, i: nat, copyLen: nat)
    requires i < |chain| && |BodyOf(chain[..i])| < copyLen <= |BodyOf(chain)|
    ensures var copied := |BodyOf(chain[..i])|;
            var blen := MinNat(|DataOf(chain[i])|, copyLen - copied);
            && copied + blen == MinNat(|BodyOf(chain[..i + 1])|, copyLen)
            && BodyOf(chain)[..copied] + DataOf(chain[i])[..blen] == BodyOf(chain)[..copied + blen]
  {
    hide BodyOf;
    BodyStep(chain, i);
    BodyPrefix(chain, i + 1);
    CutPiece(BodyOf(chain[..i]), DataOf(chain[i]), BodyOf(chain), copyLen);
  }

  lemma CutPiece(done: seq<Byte>, data: seq<Byte>, body: seq<Byte>, copyLen: nat)
    requires done + data <= body && |done| < copyLen <= |body|
    ensures var blen := MinNat(|data|, copyLen - |done|);
            && |done| + blen == MinNat(|done| + |data|, copyLen)
            && body[..|done|] + data[..blen] == body[..|done| + blen]
  {
    var blen := MinNat(|data|, copyLen - |done|);
    assert forall k :: 0 <= k < blen ==> (done + data)[|done| + k] == data[k];
    assert body[..|done| + blen] == (done + data)[..|done| + blen];
  }

  /** The buffer while the body is being copied: `copied` bytes of it are in place. */
  ghost predicate CopiedSoFar(now: seq<Byte>, before: seq<Byte>, p: nat, body: seq<Byte>, copied: nat) {
    copied <= |body| && p + copied <= |before| && now == before[..p] + body[..copied] + before[p + copied..]
  }

  /** One turn of the copy loop: the data of link `i`, cut off at `copyLen` bytes in all. */
  method CopyLink(buf: array<Byte>, p: nat, chain: seq<Buf>, i: nat, copied: nat, copyLen: nat, ghost before: seq<Byte>)
    returns (now: nat)
    requires i < |chain| && copied == |BodyOf(chain[..i])| < copyLen <= |BodyOf(chain)|
    requires |before| == buf.Length && p + copyLen <= buf.Length
    requires CopiedSoFar(buf[..], before, p, BodyOf(chain), copied)
    modifies buf
    ensures now == MinNat(|BodyOf(chain[..i + 1])|, copyLen)
    ensures CopiedSoFar(buf[..], before, p, BodyOf(chain), now)
  {
    hide BodyOf, CopiedSoFar;
    NextPiece(chain, i, copyLen);
    now := copied;
    ghost var was := buf[..];
    var b := chain[i];
    if InMemory(b) {
      var blen := |b.data|;
      if copied + blen > copyLen {
        blen := copyLen - copied;
      }
      Memcpy(buf, p + copied, b.data[..blen]);
      Spliced(was, buf[..], before, p, BodyOf(chain), copied, b.data[..blen]);
      now := copied + blen;
    }
  }

  /** Copies the first `copyLen` bytes of the chain to `buf` at `p`. */
  method CopyBody(buf: array<Byte>, p: nat, chain: seq<Buf>, copyLen: nat)
    requires copyLen <= |BodyOf(chain)| && p + copyLen <= buf.Length
    modifies buf
    ensures buf[..] == old(buf[..])[..p] + BodyOf(chain)[..copyLen] + old(buf[..])[p + copyLen..]
  {
    hide BodyOf, CopiedSoFar;
    ghost var before, body := buf[..], BodyOf(chain);
    assert BodyOf(chain[..0]) == [] by { EmptyBody(chain); }
    NothingCopied(before, p, body);
    var copied, i := 0, 0;
    while i < |chain| && copied < copyLen
      invariant i <= |chain|
      invariant copied == MinNat(|BodyOf(chain[..i])|, copyLen)
      invariant CopiedSoFar(buf[..], before, p, body, copied)
    {
      copied := CopyLink(buf, p, chain, i, copied, copyLen, before);
      i := i + 1;
    }
    assert i == |chain| ==> chain[..i] == chain;
    AllCopied(buf[..], before, p, body, copyLen);
  }

  lemma NothingCopied(before: seq<Byte>, p: nat, body: seq<Byte>)
    requires p <= |before|
    ensures CopiedSoFar(before, before, p, body, 0)
  {
  }

  lemma AllCopied(now: seq<Byte>, before: seq<Byte>, p: nat, body: seq<Byte>, copyLen: nat)
    requires CopiedSoFar(now, before, p, body, copyLen)
    ensures copyLen <= |body| && p + copyLen <= |before|
    ensures now == before[..p] + body[..copyLen] + before[p + copyLen..]
  {
  }

  lemma EmptyBody(chain: seq<Buf>)
    ensures BodyOf(chain[..0]) == []
  {
  }

  lemma Spliced(was: seq<Byte>, now: seq<Byte>, before: seq<Byte>, p: nat, body: seq<Byte>, copied: nat,
                piece: seq<Byte>)
    requires CopiedSoFar(was, before, p, body, copied)
    requires copied + |piece| <= |body| && p + copied + |piece| <= |before| == |was|
    requires body[..copied] + piece == body[..copied + |piece|]
    requires now == was[..p + copied] + piece + was[p + copied + |piece|..]
    ensures CopiedSoFar(now, before, p, body, copied + |piece|)
  {
    assert was[..p + copied] == before[..p] + body[..copied];
    assert was[p + copied + |piece|..] == before[p + copied + |piece|..];
  }

  /** `line` has been put before the final CRLF of the header block. */
  ghost predicate HasLine(now: seq<Byte>, before: seq<Byte>, headerLen: nat, line: seq<Byte>) {
    && 2 <= headerLen && headerLen + |line| <= |now| == |before|
    && now[..headerLen + |line|] == before[..headerLen - 2] + line + before[headerLen - 2..headerLen]
    && now[headerLen + |line|..] == before[headerLen + |line|..]
  }

  /** Splices the length line before the final CRLF of the header block. */
  method SpliceLength(buf: array<Byte>, headerLen: nat, copyLen: nat) returns (insertLen: nat)
    requires 2 <= headerLen && copyLen < Power10(20) && headerLen + |LengthLine(copyLen)| <= buf.Length
    modifies buf
    ensures insertLen == |LengthLine(copyLen)|
    ensures HasLine(buf[..], old(buf[..]), headerLen, LengthLine(copyLen))
  {
    hide LengthLine, Snprintf, Power10, HasLine;
    ghost var before := buf[..];
    LengthLineFits(copyLen);
    var clHeader := Snprintf(64, LengthLine(copyLen));
    insertLen := |clHeader|;
    Memmove(buf, headerLen - 2 + insertLen, headerLen - 2, 2);
    ghost var moved := buf[..];
    Memcpy(buf, headerLen - 2, clHeader);
    SplicedHeader(before, headerLen, clHeader, moved, buf[..]);
  }

  /** The size of the request buffer. */
  function BufSize(maxBody: nat): nat {
    8192 + maxBody
  }

  /** The whole message fits into a buffer of this size. */
  predicate HasRoom(size: nat, headerLen: nat, chain: seq<Buf>, maxBody: nat) {
    var n := CopyLen(chain, maxBody);
    n > 0 ==> headerLen + |LengthLine(n)| + n <= size
  }

  /** What the handler leaves: a message of this length, or writes past the end of the buffer,
      which the program does not test for. */
  datatype Layout = Written(total: nat) | Overrun

  /** Splices the length line before the final CRLF and appends the body. */
  method BodyHandler(buf: array<Byte>, headerLen: nat, chain: seq<Buf>, maxBody: nat) returns (r: Layout)
    requires 2 <= headerLen <= buf.Length
    requires maxBody < Power10(20)
    modifies buf
    ensures r.Written? <==> HasRoom(buf.Length, headerLen, chain, maxBody)
    ensures r.Written? ==>
              var message := Framed(old(buf[..])[..headerLen], chain, maxBody);
              && r.total == |message| <= buf.Length
              && buf[..r.total] == message
              && buf[r.total..] == old(buf[r.total..])
  {
    hide BodyOf, LengthLine, Power10, HasLine, Framed, CopyLen;
    ghost var before := buf[..];
    FramedIs(before[..headerLen], chain, maxBody);
    var copyLen := BodyLength(chain, maxBody);
    if copyLen == 0 {
      return Written(headerLen);
    }
    // The test belongs to the model: here the program would write past the end of the buffer.
    if headerLen + |LengthLine(copyLen)| + copyLen > buf.Length {
      return Overrun;
    }
    var insertLen := SpliceLength(buf, headerLen, copyLen);
    ghost var spliced := buf[..];
    CopyBody(buf, headerLen + insertLen, chain, copyLen);
    var total := headerLen + insertLen + copyLen;
    WholeMessage(before, headerLen, LengthLine(copyLen), BodyOf(chain)[..copyLen], spliced, buf[..]);
    assert buf[..total] == buf[..][..total] && buf[total..] == buf[..][total..];
    return Written(total);
  }

  lemma FramedIs(headers: seq<Byte>, chain: seq<Buf>, maxBody: nat)
    requires |headers| >= 2
    ensures CopyLen(chain, maxBody) <= |BodyOf(chain)| && CopyLen(chain, maxBody) <= maxBody
    ensures var n := CopyLen(chain, maxBody);
            Framed(headers, chain, maxBody) ==
            if n == 0 then headers
            else headers[..|headers| - 2] + LengthLine(n) + headers[|headers| - 2..] + BodyOf(chain)[..n]
  {
    hide LengthLine, BodyOf;
  }

  lemma WholeMessage(before: seq<Byte>, headerLen: nat, line: seq<Byte>, piece: seq<Byte>, spliced: seq<Byte>,
                     after: seq<Byte>)
    requires HasLine(spliced, before, headerLen, line) && headerLen + |line| + |piece| <= |before|
    requires var p := headerLen + |line|; after == spliced[..p] + piece + spliced[p + |piece|..]
    ensures var headers, total := before[..headerLen], headerLen + |line| + |piece|;
            && |after| == |before|
            && after[..total] == headers[..headerLen - 2] + line + headers[headerLen - 2..] + piece
            && after[total..] == before[total..]
  {
    var headers, total := before[..headerLen], headerLen + |line| + |piece|;
    assert headers[..headerLen - 2] == before[..headerLen - 2];
    assert headers[headerLen - 2..] == before[headerLen - 2..headerLen];
    assert after[total..] == spliced[total..] == before[total..];
  }

  lemma SplicedHeader(before: seq<Byte>, headerLen: nat, line: seq<Byte>, moved: seq<Byte>, spliced: seq<Byte>)
    requires 2 <= headerLen && headerLen + |line| <= |before|
    requires var to := headerLen - 2 + |line|;
             moved == before[..to] + before[headerLen - 2..headerLen] + before[to + 2..]
    requires spliced == moved[..headerLen - 2] + line + moved[headerLen - 2 + |line|..]
    ensures HasLine(spliced, before, headerLen, line)
  {
    var to := headerLen - 2 + |line|;
    assert moved[..headerLen - 2] == before[..headerLen - 2];
    assert moved[to..] == before[headerLen - 2..headerLen] + before[to + 2..];
  }

  // ---------------------------------------------------------------- the access handler's buffer

  /** A buffer has room for every body of at most `longest` bytes exactly when it has room for one
      of `longest` bytes. */
  lemma RoomForBodiesIff(size: nat, headerLen: nat, longest: nat, maxBody: nat)
    requires maxBody > 0 && longest > 0
    ensures var m := MinNat(longest, maxBody);
            (forall chain :: |BodyOf(chain)| <= longest ==> HasRoom(size, headerLen, chain, maxBody))
            <==> headerLen + |LengthLine(m)| + m <= size
  {
    hide BodyOf, LengthLine;
    var m := MinNat(longest, maxBody);
    forall chain | |BodyOf(chain)| <= longest && headerLen + |LengthLine(m)| + m <= size
      ensures HasRoom(size, headerLen, chain, maxBody)
    {
      LengthLineGrows(CopyLen(chain, maxBody), m);
    }
    var full := FullChain(longest);
    assert HasRoom(size, headerLen, full, maxBody) ==> headerLen + |LengthLine(m)| + m <= size;
  }

  lemma LengthLineGrows(m: nat, n: nat)
    requires m <= n
    ensures |LengthLine(m)| <= |LengthLine(n)|
  {
    DecimalLengthGrows(m, n);
  }

  lemma FullChain(n: nat) returns (chain: seq<Buf>)
    ensures |BodyOf(chain)| == n
  {
    chain := [Buf(false, seq(n, i => 'a'))];
    assert chain[..0] == [] && BodyOf([]) == [];
    assert BodyOf(chain) == DataOf(chain[0]);
  }

  /** The buffer of 8192 + maxBody bytes has room for every body chain exactly when the header
      block and the longest length line fit in 8192. */
  lemma RoomForEveryBody(headerLen: nat, maxBody: nat)
    requires maxBody > 0
    ensures (forall chain :: HasRoom(BufSize(maxBody), headerLen, chain, maxBody))
            <==> headerLen + |LengthLine(maxBody)| <= 8192
  {
    hide BodyOf, LengthLine;
    forall chain | headerLen + |LengthLine(maxBody)| <= 8192
      ensures HasRoom(BufSize(maxBody), headerLen, chain, maxBody)
    {
      LengthLineGrows(CopyLen(chain, maxBody), maxBody);
    }
    var full := FullChain(maxBody);
    assert HasRoom(BufSize(maxBody), headerLen, full, maxBody) ==> headerLen + |LengthLine(maxBody)| <= 8192;
  }
}
