/** The exchange between the nginx module and the sidecar socket: partial writes, a fragmented
    response, the status parser and the verdict (status line: section 6.1 of RFC 1945). */
module NginxVerdict {
  import opened Text

  type Byte = char

  datatype Errno = EINTR | EAGAIN | OtherError

  /** What one `send` call does: accept some bytes, or report an error. A call that accepts no
      byte of a non-empty request is an error too. */
  datatype SendResult = Accepted(n: nat) | SendError(errno: Errno)

  /** What one `recv` call does: deliver a fragment of at most `n` bytes (at least one, unless the
      peer has closed), or report an error. */
  datatype RecvResult = Fragment(n: nat) | RecvError(errno: Errno)

  /** What the socket answers at each attempt. */
  type SendScript = nat -> SendResult
  type RecvScript = nat -> RecvResult

  predicate SendRetries(r: SendResult) {
    r.SendError? && (r.errno == EINTR || r.errno == EAGAIN)
  }

  predicate SendFails(r: SendResult) {
    (r.Accepted? && r.n == 0) || (r.SendError? && !SendRetries(r))
  }

  predicate RecvRetries(r: RecvResult) {
    r == RecvError(EINTR)
  }

  predicate RecvFails(r: RecvResult) {
    r.RecvError? && r.errno != EINTR
  }

  // ---------------------------------------------------------------- sending

  /** Interrupts stop at some attempt. */
  ghost predicate SendQuiet(script: SendScript, quiet: nat) {
    forall i: nat :: i >= quiet ==> !SendRetries(script(i))
  }

  /** How many bytes the socket has taken when the send loop stops: `sent` of them before attempt
      `i`. */
  ghost function Delivered(length: nat, script: SendScript, quiet: nat, i: nat, sent: nat): (n: nat)
    requires SendQuiet(script, quiet) && sent <= length
    ensures sent <= n <= length
    decreases length - sent, if i < quiet then quiet - i else 0
  {
    if sent == length then sent
    else if SendRetries(script(i)) then Delivered(length, script, quiet, i + 1, sent)
    else if SendFails(script(i)) then sent
    else Delivered(length, script, quiet, i + 1, sent + MinNat(script(i).n, length - sent))
  }

  /** The bytes that the attempts before `j` accepted, added up. */
  function Taken(script: SendScript, j: nat): nat {
    if j == 0 then 0 else Taken(script, j - 1) + if script(j - 1).Accepted? then script(j - 1).n else 0
  }

  ghost predicate SendsUntil(script: SendScript, j: nat) {
    forall k: nat :: k < j ==> !SendFails(script(k))
  }

  /** The attempts take the whole request before one of them fails. */
  ghost predicate WholeRequestSent(length: nat, script: SendScript) {
    exists j: nat :: SendsUntil(script, j) && Taken(script, j) >= length
  }

  lemma {:induction false} TakenGrows(script: SendScript, i: nat, j: nat)
    requires i <= j
    ensures Taken(script, i) <= Taken(script, j)
  {
    if i < j {
      TakenGrows(script, i, j - 1);
    }
  }

  /** The send loop ends at attempt `j`: everything is taken, or that attempt fails. */
  lemma {:induction false} SendEnds(length: nat, script: SendScript, quiet: nat, i: nat, sent: nat) returns (j: nat)
    requires SendQuiet(script, quiet) && SendsUntil(script, i) && sent == MinNat(length, Taken(script, i))
    ensures SendsUntil(script, j) && (SendFails(script(j)) || Taken(script, j) >= length)
    ensures Delivered(length, script, quiet, i, sent) == MinNat(length, Taken(script, j))
    decreases length - sent, if i < quiet then quiet - i else 0
  {
    if sent == length || SendFails(script(i)) {
      j := i;
    } else if SendRetries(script(i)) {
      j := SendEnds(length, script, quiet, i + 1, sent);
    } else {
      j := SendEnds(length, script, quiet, i + 1, sent + MinNat(script(i).n, length - sent));
    }
  }

  /** The whole request is taken exactly when no attempt fails while bytes are left. */
  lemma DeliveredAllIff(length: nat, script: SendScript, quiet: nat)
    requires SendQuiet(script, quiet)
    ensures Delivered(length, script, quiet, 0, 0) == length <==> WholeRequestSent(length, script)
  {
    var j := SendEnds(length, script, quiet, 0, 0);
    if Taken(script, j) < length {
      forall m: nat | SendsUntil(script, m) ensures Taken(script, m) < length {
        TakenGrows(script, m, j);
      }
    }
  }

  /** Sends the whole request; `wire` is what the socket took, in order. */
  method SendAll(request: seq<Byte>, script: SendScript, ghost quiet: nat) returns (ok: bool, wire: seq<Byte>)
    requires SendQuiet(script, quiet)
    ensures wire == request[..Delivered(|request|, script, quiet, 0, 0)]
    ensures ok <==> wire == request
  {
    var sent, attempts := 0, 0;
    wire := [];
    while sent < |request|
      invariant sent <= |request| && wire == request[..sent]
      invariant Delivered(|request|, script, quiet, 0, 0) == Delivered(|request|, script, quiet, attempts, sent)
      decreases |request| - sent, if attempts < quiet then quiet - attempts else 0
    {
      var r := script(attempts);
      attempts := attempts + 1;
      if SendRetries(r) {
        continue;
      }
      if SendFails(r) {
        return false, wire;
      }
      var n := MinNat(r.n, |request| - sent);
      wire := wire + request[sent..sent + n];
      sent := sent + n;
    }
    ok := true;
  }

  // ---------------------------------------------------------------- receiving

  const RESPONSE_BUF: nat := 8192

  const ENOUGH: nat := 12

  ghost predicate RecvQuiet(script: RecvScript, quiet: nat) {
    forall i: nat :: i >= quiet ==> !RecvRetries(script(i))
  }

  /** How many bytes are in hand when the receive loop stops, None after an error: `got` bytes were
      there before attempt `i` and the peer sends `stream` and closes. */
  ghost function Received(stream: seq<Byte>, script: RecvScript, quiet: nat, i: nat, got: nat): Option<nat>
    requires RecvQuiet(script, quiet) && got <= |stream|
    decreases |stream| - got, if i < quiet then quiet - i else 0
  {
    if got >= RESPONSE_BUF - 1 || got >= ENOUGH then Some(got)
    else if RecvRetries(script(i)) then Received(stream, script, quiet, i + 1, got)
    else if RecvFails(script(i)) then None
    else if got == |stream| then Some(got)
    else
      var n := MinNat(MinNat(if script(i).n == 0 then 1 else script(i).n, |stream| - got), RESPONSE_BUF - 1 - got);
      Received(stream, script, quiet, i + 1, got + n)
  }

  /** `recv` puts the next `n` bytes of the stream behind the ones in hand. */
  method Deliver(stream: seq<Byte>, buf: array<Byte>, got: nat, n: nat)
    requires got + n <= |stream| && got + n <= buf.Length && buf[..got] == stream[..got]
    modifies buf
    ensures buf[..got + n] == stream[..got + n]
  {
    for k := 0 to n
      invariant buf[..got + k] == stream[..got + k]
    {
      buf[got + k] := stream[got + k];
    }
  }

  method Receive(stream: seq<Byte>, script: RecvScript, ghost quiet: nat, buf: array<Byte>) returns (respLen: int)
    requires RecvQuiet(script, quiet) && buf.Length == RESPONSE_BUF
    modifies buf
    ensures match Received(stream, script, quiet, 0, 0)
            case None => respLen == -1
            case Some(n) => respLen == n <= |stream| && n < RESPONSE_BUF && buf[..n] == stream[..n]
  {
    respLen := 0;
    var i := 0;
    while respLen < RESPONSE_BUF - 1
      invariant 0 <= respLen <= |stream| && respLen < ENOUGH
      invariant buf[..respLen] == stream[..respLen]
      invariant Received(stream, script, quiet, 0, 0) == Received(stream, script, quiet, i, respLen)
      decreases |stream| - respLen, if i < quiet then quiet - i else 0
    {
      var r := script(i);
      i := i + 1;
      if RecvRetries(r) {
        continue;
      }
      if RecvFails(r) {
        return -1;
      }
      if respLen == |stream| {
        return;
      }
      var n := MinNat(MinNat(if r.n == 0 then 1 else r.n, |stream| - respLen), RESPONSE_BUF - 1 - respLen);
      Deliver(stream, buf, respLen, n);
      respLen := respLen + n;
      if respLen >= ENOUGH {
        return;
      }
    }
  }

  // ---------------------------------------------------------------- the status and the verdict

  /** The three digits at the fixed position 9 of a response of at least 12 bytes. */
  function ParseStatus(data: seq<Byte>): Option<nat> {
    if |data| < 12 then None
    else if !IsDigit(data[9]) || !IsDigit(data[10]) || !IsDigit(data[11]) then None
    else Some(DigitValue(data[9]) * 100 + DigitValue(data[10]) * 10 + DigitValue(data[11]))
  }

  datatype Rc = NGX_OK | NGX_HTTP_FORBIDDEN

  function OnFailure(failOpen: bool): Rc {
    if failOpen then NGX_OK else NGX_HTTP_FORBIDDEN
  }

  /** The verdict on a response that arrived without an error. */
  function Enforce(stream: seq<Byte>, failOpen: bool): Rc {
    match ParseStatus(stream)
    case None => OnFailure(failOpen)
    case Some(status) => if status == 204 then NGX_OK else NGX_HTTP_FORBIDDEN
  }

  lemma {:induction false} StatusOfReceived(stream: seq<Byte>, script: RecvScript, quiet: nat, i: nat, got: nat)
    requires RecvQuiet(script, quiet) && got <= |stream|
    ensures match Received(stream, script, quiet, i, got)
            case None => true
            case Some(n) => got <= n <= |stream| && ParseStatus(stream[..n]) == ParseStatus(stream)
    decreases |stream| - got, if i < quiet then quiet - i else 0
  {
    if got >= ENOUGH {
    } else if RecvRetries(script(i)) {
      StatusOfReceived(stream, script, quiet, i + 1, got);
    } else if !RecvFails(script(i)) && got < |stream| {
      var n := MinNat(MinNat(if script(i).n == 0 then 1 else script(i).n, |stream| - got), RESPONSE_BUF - 1 - got);
      StatusOfReceived(stream, script, quiet, i + 1, got + n);
    } else {
      assert got == |stream| ==> stream[..got] == stream;
    }
  }

  /** However the response is cut into fragments and interrupted, the status that is parsed is the
      status of the whole stream. */
  lemma ChunkingIrrelevant(stream: seq<Byte>, s1: RecvScript, quiet1: nat, s2: RecvScript, quiet2: nat)
    requires RecvQuiet(s1, quiet1) && RecvQuiet(s2, quiet2)
    requires Received(stream, s1, quiet1, 0, 0).Some? && Received(stream, s2, quiet2, 0, 0).Some?
    ensures var n1, n2 := Received(stream, s1, quiet1, 0, 0).value, Received(stream, s2, quiet2, 0, 0).value;
            n1 <= |stream| && n2 <= |stream| &&
            ParseStatus(stream[..n1]) == ParseStatus(stream[..n2]) == ParseStatus(stream)
  {
    StatusOfReceived(stream, s1, quiet1, 0, 0);
    StatusOfReceived(stream, s2, quiet2, 0, 0);
  }

  /** The bytes that the attempts before `j` offered, added up. */
  function Arrived(script: RecvScript, j: nat): nat {
    if j == 0 then 0
    else
      var r := script(j - 1);
      Arrived(script, j - 1) + if r.Fragment? then (if r.n == 0 then 1 else r.n) else 0
  }

  /** What is in hand before attempt `j` if no attempt fails or finds the end before it. */
  function InHand(stream: seq<Byte>, script: RecvScript, j: nat): nat {
    MinNat(|stream|, Arrived(script, j))
  }

  /** Attempt `k` fails, or finds that the peer has closed. */
  predicate Ends(stream: seq<Byte>, script: RecvScript, k: nat) {
    RecvFails(script(k)) || (script(k).Fragment? && InHand(stream, script, k) == |stream|)
  }

  ghost predicate ReadsUntil(stream: seq<Byte>, script: RecvScript, j: nat) {
    forall k: nat :: k < j ==> !Ends(stream, script, k)
  }

  /** The first attempt that does not bring bytes is a failure and comes before the twelfth byte. */
  ghost predicate ResponseLost(stream: seq<Byte>, script: RecvScript) {
    exists j: nat :: RecvFails(script(j)) && ReadsUntil(stream, script, j) && InHand(stream, script, j) < ENOUGH
  }

  lemma {:induction false} ArrivedGrows(script: RecvScript, i: nat, j: nat)
    requires i <= j
    ensures Arrived(script, i) <= Arrived(script, j)
  {
    if i < j {
      ArrivedGrows(script, i, j - 1);
    }
  }

  /** The receive loop ends at attempt `j`: with enough bytes, at the end of the stream, or with a
      failure. */
  lemma {:induction false} ReceiveEnds(stream: seq<Byte>, script: RecvScript, quiet: nat, i: nat, got: nat)
    returns (j: nat)
    requires RecvQuiet(script, quiet) && got <= |stream| && ReadsUntil(stream, script, i)
    requires got == MinNat(InHand(stream, script, i), RESPONSE_BUF - 1)
    ensures ReadsUntil(stream, script, j) && (InHand(stream, script, j) >= ENOUGH || Ends(stream, script, j))
    ensures Received(stream, script, quiet, i, got) ==
            if InHand(stream, script, j) < ENOUGH && RecvFails(script(j)) then None
            else Some(MinNat(InHand(stream, script, j), RESPONSE_BUF - 1))
    decreases |stream| - got, if i < quiet then quiet - i else 0
  {
    if got >= ENOUGH || Ends(stream, script, i) {
      j := i;
    } else if RecvRetries(script(i)) {
      j := ReceiveEnds(stream, script, quiet, i + 1, got);
    } else {
      var n := MinNat(MinNat(if script(i).n == 0 then 1 else script(i).n, |stream| - got), RESPONSE_BUF - 1 - got);
      j := ReceiveEnds(stream, script, quiet, i + 1, got + n);
    }
  }

  /** The receive loop reports an error exactly when the first attempt that brings nothing is a
      failure and fewer than twelve bytes are in hand. */
  lemma ErrorIff(stream: seq<Byte>, script: RecvScript, quiet: nat)
    requires RecvQuiet(script, quiet)
    ensures Received(stream, script, quiet, 0, 0).None? <==> ResponseLost(stream, script)
  {
    hide Received;
    var j := ReceiveEnds(stream, script, quiet, 0, 0);
    forall m: nat | RecvFails(script(m)) && ReadsUntil(stream, script, m) && InHand(stream, script, m) < ENOUGH
      ensures m == j
    {
      assert Ends(stream, script, m) && m >= j;
      ArrivedGrows(script, j, m);
      assert !Ends(stream, script, j) ==> InHand(stream, script, j) >= ENOUGH;
    }
  }

  /** The status of the response is 204; it does not parse. */
  predicate Says204(stream: seq<Byte>) {
    |stream| >= 12 && stream[9..12] == "204"
  }

  predicate Unparsable(stream: seq<Byte>) {
    |stream| < 12 || !IsDigit(stream[9]) || !IsDigit(stream[10]) || !IsDigit(stream[11])
  }

  /** Only the first 12 bytes of the stream matter, and of those the three status digits. */
  lemma AllowedIff(stream: seq<Byte>, failOpen: bool)
    ensures Enforce(stream, failOpen) == NGX_OK <==> Says204(stream) || (failOpen && Unparsable(stream))
    ensures Enforce(stream, failOpen) == Enforce(if |stream| < 12 then stream else stream[..12], failOpen)
  {
    if |stream| >= 12 {
      assert stream[9..12] == [stream[9], stream[10], stream[11]];
      assert "204" == ['2', '0', '4'];
      if IsDigit(stream[9]) && IsDigit(stream[10]) && IsDigit(stream[11]) {
        DigitsOf204(stream[9], stream[10], stream[11]);
      }
    }
  }

  lemma DigitsOf204(a: char, b: char, c: char)
    requires IsDigit(a) && IsDigit(b) && IsDigit(c)
    ensures DigitValue(a) * 100 + DigitValue(b) * 10 + DigitValue(c) == 204 <==> a == '2' && b == '0' && c == '4'
  {
  }

  // ---------------------------------------------------------------- the exchange

  /** What the socket does decides: a complete exchange that says 204, or any failure, of the
      connection, the request, the response or its status line, when failures are let through. */
  ghost predicate Allowed(connected: bool, length: nat, failOpen: bool, sends: SendScript, stream: seq<Byte>,
                          recvs: RecvScript)
  {
    var complete := connected && WholeRequestSent(length, sends) && !ResponseLost(stream, recvs);
    (complete && Says204(stream)) || (failOpen && (!complete || Unparsable(stream)))
  }

  /** Connects, sends, receives and decides. `wire` is what the sidecar was sent. */
  method SendAndEnforce(connected: bool, request: seq<Byte>, failOpen: bool,
                        sends: SendScript, ghost sendQuiet: nat,
                        stream: seq<Byte>, recvs: RecvScript, ghost recvQuiet: nat)
    returns (rc: Rc, wire: seq<Byte>)
    requires SendQuiet(sends, sendQuiet) && RecvQuiet(recvs, recvQuiet)
    ensures wire == if connected then request[..Delivered(|request|, sends, sendQuiet, 0, 0)] else []
    ensures connected ==> (wire == request <==> WholeRequestSent(|request|, sends))
    ensures rc == NGX_OK <==> Allowed(connected, |request|, failOpen, sends, stream, recvs)
  {
    hide Delivered, Received, WholeRequestSent, ResponseLost, Says204, Unparsable;
    DeliveredAllIff(|request|, sends, sendQuiet);
    ErrorIff(stream, recvs, recvQuiet);
    AllowedIff(stream, failOpen);
    wire := [];
    if !connected {
      return OnFailure(failOpen), wire;
    }
    var sent;
    sent, wire := SendAll(request, sends, sendQuiet);
    if !sent {
      return OnFailure(failOpen), wire;
    }
    var responseBuf := new Byte[RESPONSE_BUF];
    var respLen := Receive(stream, recvs, recvQuiet, responseBuf);
    StatusOfReceived(stream, recvs, recvQuiet, 0, 0);
    if respLen <= 0 {
      return OnFailure(failOpen), wire;
    }
    responseBuf[respLen] := '\0';
    assert responseBuf[..respLen] == stream[..respLen];
    match ParseStatus(responseBuf[..respLen])
    case None => return OnFailure(failOpen), wire;
    case Some(status) =>
      if status == 204 {
        return NGX_OK, wire;
      }
      return NGX_HTTP_FORBIDDEN, wire;
  }
}
