/** The event broker as a protocol: subscribing and unsubscribing hold the write lock, each
    publisher holds a read lock over a loop of single sends, and subscribers receive at any
    time without a lock. Publications and channels are named by numbers. */
module BrokerProtocol {
  import opened Text

  const QUEUE_SIZE: nat := 64

  /** One attempted send and whether the queue took it. */
  datatype Offer = Offer(message: nat, accepted: bool)

  /** A channel, with the history of what was offered to it and received from it. */
  datatype Chan = Chan(queue: seq<nat>, closed: bool, offers: seq<Offer>, received: seq<nat>)

  /** A publication: whom it loops over, and who is still to be offered the message. */
  datatype Publication = Publication(audience: set<nat>, todo: set<nat>, reading: bool)

  datatype Broker = Broker(
    chans: map<nat, Chan>,
    subscribers: set<nat>,
    publications: map<nat, Publication>,
    panicked: bool)

  datatype Step =
    | Subscribe(ch: nat)
    | Unsubscribe(ch: nat)
    | BeginPublish(p: nat)
    | Send(p: nat, ch: nat)
    | EndPublish(p: nat)
    | Receive(ch: nat)

  predicate WriteLockFree(b: Broker) {
    forall p :: p in b.publications ==> !b.publications[p].reading
  }

  /** Each channel is unsubscribed once, by the handler that subscribed it. */
  predicate Enabled(b: Broker, step: Step) {
    match step
    case Subscribe(ch) => ch !in b.chans && WriteLockFree(b)
    case Unsubscribe(ch) => ch in b.chans && !b.chans[ch].closed && WriteLockFree(b)
    case BeginPublish(p) => p !in b.publications
    case Send(p, ch) =>
      p in b.publications && b.publications[p].reading && ch in b.publications[p].todo && ch in b.chans
    case EndPublish(p) => p in b.publications && b.publications[p].reading && b.publications[p].todo == {}
    case Receive(ch) => ch in b.chans && b.chans[ch].queue != []
  }

  /** A send that finds the queue full is dropped. */
  function Enqueued<T>(queue: seq<T>, message: T): seq<T> {
    if |queue| < QUEUE_SIZE then queue + [message] else queue
  }

  function Offered(c: Chan, message: nat): Chan {
    c.(queue := Enqueued(c.queue, message), offers := c.offers + [Offer(message, |c.queue| < QUEUE_SIZE)])
  }

  function Apply(b: Broker, step: Step): Broker
    requires Enabled(b, step)
  {
    match step
    case Subscribe(ch) =>
      b.(chans := b.chans[ch := Chan([], false, [], [])], subscribers := b.subscribers + {ch})
    case Unsubscribe(ch) =>
      b.(chans := b.chans[ch := b.chans[ch].(closed := true)], subscribers := b.subscribers - {ch})
    case BeginPublish(p) =>
      b.(publications := b.publications[p := Publication(b.subscribers, b.subscribers, true)])
    case Send(p, ch) =>
      if b.chans[ch].closed then b.(panicked := true)
      else
        var pub := b.publications[p];
        b.(chans := b.chans[ch := Offered(b.chans[ch], p)],
           publications := b.publications[p := pub.(todo := pub.todo - {ch})])
    case EndPublish(p) =>
      b.(publications := b.publications[p := b.publications[p].(reading := false)])
    case Receive(ch) =>
      var c := b.chans[ch];
      b.(chans := b.chans[ch := c.(queue := c.queue[1..], received := c.received + [c.queue[0]])])
  }

  const EMPTY: Broker := Broker(map[], {}, map[], false)

  function Exec(steps: seq<Step>): Option<Broker> {
    if steps == [] then Some(EMPTY)
    else
      var before := Exec(steps[..|steps| - 1]);
      var step := steps[|steps| - 1];
      if before.Some? && Enabled(before.value, step) then Some(Apply(before.value, step)) else None
  }

  // ---------------------------------------------------------------- histories

  function Accepted(offers: seq<Offer>): seq<nat> {
    if offers == [] then []
    else
      var o := offers[|offers| - 1];
      Accepted(offers[..|offers| - 1]) + if o.accepted then [o.message] else []
  }

  function Dropped(offers: seq<Offer>): nat {
    if offers == [] then 0
    else Dropped(offers[..|offers| - 1]) + if offers[|offers| - 1].accepted then 0 else 1
  }

  ghost predicate OfferedTo(c: Chan, message: nat) {
    exists i :: 0 <= i < |c.offers| && c.offers[i].message == message
  }

  ghost predicate NoRepeats(offers: seq<Offer>) {
    forall i, j :: 0 <= i < j < |offers| ==> offers[i].message != offers[j].message
  }

  lemma AcceptedStep(offers: seq<Offer>, o: Offer)
    ensures Accepted(offers + [o]) == Accepted(offers) + if o.accepted then [o.message] else []
  {
    assert (offers + [o])[..|offers|] == offers;
  }

  lemma {:induction false} EveryOfferCounted(offers: seq<Offer>)
    ensures |offers| == |Accepted(offers)| + Dropped(offers)
  {
    if offers != [] {
      EveryOfferCounted(offers[..|offers| - 1]);
    }
  }

  lemma {:induction false} AcceptedWasOffered(offers: seq<Offer>, k: nat) returns (i: nat)
    requires k < |Accepted(offers)|
    ensures i < |offers| && offers[i] == Offer(Accepted(offers)[k], true)
    ensures k <= i
  {
    var front := offers[..|offers| - 1];
    if k < |Accepted(front)| {
      i := AcceptedWasOffered(front, k);
    } else {
      i := |offers| - 1;
      EveryOfferCounted(front);
    }
  }

  lemma {:induction false} AcceptedDistinct(offers: seq<Offer>)
    requires NoRepeats(offers)
    ensures forall j, k :: 0 <= j < k < |Accepted(offers)| ==> Accepted(offers)[j] != Accepted(offers)[k]
  {
    if offers != [] {
      var front, last := offers[..|offers| - 1], offers[|offers| - 1];
      AcceptedDistinct(front);
      forall j | 0 <= j < |Accepted(front)| ensures Accepted(front)[j] != last.message {
        var i := AcceptedWasOffered(front, j);
        assert offers[i] == front[i];
      }
    }
  }

  // ---------------------------------------------------------------- the invariant

  ghost predicate ChanOk(c: Chan) {
    && |c.queue| <= QUEUE_SIZE
    && Accepted(c.offers) == c.received + c.queue
    && NoRepeats(c.offers)
  }

  /** A publication has reached exactly the audience it has gone through. */
  ghost predicate Reached(b: Broker, p: nat, ch: nat)
    requires p in b.publications && ch in b.chans
  {
    OfferedTo(b.chans[ch], p) <==> ch in b.publications[p].audience - b.publications[p].todo
  }

  ghost predicate PublicationOk(b: Broker, pub: Publication) {
    && pub.todo <= pub.audience <= b.chans.Keys
    && (if pub.reading then pub.audience == b.subscribers else pub.todo == {})
  }

  ghost predicate Inv(b: Broker) {
    && !b.panicked
    && b.subscribers <= b.chans.Keys
    && (forall ch :: ch in b.chans ==> (ch in b.subscribers <==> !b.chans[ch].closed) && ChanOk(b.chans[ch]))
    && (forall p :: p in b.publications ==> PublicationOk(b, b.publications[p]))
    && (forall p, ch :: p in b.publications && ch in b.chans ==> Reached(b, p, ch))
    && (forall p, ch :: p !in b.publications && ch in b.chans ==> !OfferedTo(b.chans[ch], p))
  }

  lemma OfferGrows(c: Chan, o: Offer, c': Chan, m: nat)
    requires c'.offers == c.offers + [o]
    ensures OfferedTo(c', m) <==> m == o.message || OfferedTo(c, m)
  {
    assert c'.offers[|c.offers|] == o;
    if OfferedTo(c, m) {
      var i :| 0 <= i < |c.offers| && c.offers[i].message == m;
      assert c'.offers[i].message == m;
    }
  }

  lemma OfferedOk(c: Chan, message: nat)
    requires ChanOk(c) && !OfferedTo(c, message)
    ensures ChanOk(Offered(c, message))
    ensures forall m :: OfferedTo(Offered(c, message), m) <==> m == message || OfferedTo(c, m)
  {
    hide Accepted;
    var c' := Offered(c, message);
    var o := Offer(message, |c.queue| < QUEUE_SIZE);
    assert c'.offers == c.offers + [o];
    AcceptedStep(c.offers, o);
    assert c.received + c.queue + [] == c.received + c.queue;
    assert NoRepeats(c'.offers);
    forall m ensures OfferedTo(c', m) <==> m == message || OfferedTo(c, m) {
      OfferGrows(c, o, c', m);
    }
  }

  lemma SendKeepsInv(b: Broker, p: nat, ch: nat)
    requires Inv(b) && Enabled(b, Send(p, ch))
    ensures !b.chans[ch].closed
    ensures Inv(Apply(b, Send(p, ch)))
  {
    hide Offered, ChanOk, OfferedTo;
    var b' := Apply(b, Send(p, ch));
    assert PublicationOk(b, b.publications[p]);
    assert Reached(b, p, ch);
    OfferedOk(b.chans[ch], p);
    forall q, d | q in b'.publications && d in b'.chans ensures Reached(b', q, d) {
      assert Reached(b, q, d);
    }
    forall q, d | q !in b'.publications && d in b'.chans ensures !OfferedTo(b'.chans[d], q) {
      assert !OfferedTo(b.chans[d], q);
    }
    OfferedStaysOpen(b.chans[ch], p);
  }

  lemma OfferedStaysOpen(c: Chan, message: nat)
    ensures Offered(c, message).closed == c.closed
  {
  }

  lemma ReceiveKeepsInv(b: Broker, ch: nat)
    requires Inv(b) && Enabled(b, Receive(ch))
    ensures Inv(Apply(b, Receive(ch)))
  {
    var b', c := Apply(b, Receive(ch)), b.chans[ch];
    assert c.received + [c.queue[0]] + c.queue[1..] == c.received + c.queue;
    assert forall m :: OfferedTo(b'.chans[ch], m) <==> OfferedTo(c, m);
    forall q, d | q in b'.publications && d in b'.chans ensures Reached(b', q, d) {
      assert Reached(b, q, d);
    }
  }

  lemma LockedStepKeepsInv(b: Broker, step: Step)
    requires Inv(b) && Enabled(b, step) && !step.Send? && !step.Receive?
    ensures Inv(Apply(b, step))
  {
    hide ChanOk, OfferedTo;
    var b' := Apply(b, step);
    if step.Subscribe? {
      NewChan(step.ch);
    } else if step.Unsubscribe? {
      CloseKeeps(b.chans[step.ch]);
    }
    forall q, d | q in b'.publications && d in b'.chans ensures Reached(b', q, d) {
      if q in b.publications && d in b.chans {
        assert Reached(b, q, d);
      }
      if q in b.publications {
        assert PublicationOk(b, b.publications[q]);
      }
    }
  }

  lemma NewChan(ch: nat)
    ensures ChanOk(Chan([], false, [], [])) && forall m :: !OfferedTo(Chan([], false, [], []), m)
  {
  }

  lemma CloseKeeps(c: Chan)
    ensures ChanOk(c) ==> ChanOk(c.(closed := true))
    ensures forall m :: OfferedTo(c.(closed := true), m) <==> OfferedTo(c, m)
  {
  }

  // ---------------------------------------------------------------- main results

  /** Every interleaving keeps the invariant. */
  lemma {:induction false} RunKeepsInv(steps: seq<Step>)
    requires Exec(steps).Some?
    ensures Inv(Exec(steps).value)
  {
    hide Apply, Enabled;
    if steps == [] {
    } else {
      hide Inv;
      var before, step := steps[..|steps| - 1], steps[|steps| - 1];
      RunKeepsInv(before);
      var b := Exec(before).value;
      match step
      case Send(p, ch) => SendKeepsInv(b, p, ch);
      case Receive(ch) => ReceiveKeepsInv(b, ch);
      case _ => LockedStepKeepsInv(b, step);
    }
  }

  /** In every interleaving and for every channel: nothing is ever sent on a closed channel, the
      queue stays within 64, no message is offered twice, and what was offered is exactly what was
      received, in order, then what is queued, in order, plus what was dropped. */
  lemma BrokerConservation(steps: seq<Step>, ch: nat)
    requires Exec(steps).Some? && ch in Exec(steps).value.chans
    ensures !Exec(steps).value.panicked
    ensures var c := Exec(steps).value.chans[ch];
            && |c.queue| <= QUEUE_SIZE
            && Accepted(c.offers) == c.received + c.queue
            && |c.offers| == |c.received| + |c.queue| + Dropped(c.offers)
            && forall j, k :: 0 <= j < k < |c.received + c.queue| ==>
               (c.received + c.queue)[j] != (c.received + c.queue)[k]
  {
    RunKeepsInv(steps);
    var c := Exec(steps).value.chans[ch];
    EveryOfferCounted(c.offers);
    AcceptedDistinct(c.offers);
  }

  /** A publication that has ended was offered exactly once to each channel that was subscribed when
      it began, and to no other. */
  lemma PublicationReachesAudience(steps: seq<Step>, p: nat, ch: nat)
    requires Exec(steps).Some? && p in Exec(steps).value.publications && ch in Exec(steps).value.chans
    requires !Exec(steps).value.publications[p].reading
    ensures var c := Exec(steps).value.chans[ch];
            if ch in Exec(steps).value.publications[p].audience
            then exists i :: 0 <= i < |c.offers| && c.offers[i].message == p &&
                   forall j :: 0 <= j < |c.offers| && j != i ==> c.offers[j].message != p
            else !OfferedTo(c, p)
  {
    RunKeepsInv(steps);
    var b := Exec(steps).value;
    assert PublicationOk(b, b.publications[p]) && Reached(b, p, ch);
    var c := b.chans[ch];
    assert ChanOk(c);
    if OfferedTo(c, p) {
      var i :| 0 <= i < |c.offers| && c.offers[i].message == p;
      forall j | 0 <= j < |c.offers| && j != i ensures c.offers[j].message != p {
      }
    }
  }

  /** At any reachable moment a send is dropped exactly when 64 messages are waiting, and it never
      meets a closed channel. */
  lemma DropOnlyWhenFull(steps: seq<Step>, p: nat, ch: nat)
    requires Exec(steps).Some? && Enabled(Exec(steps).value, Send(p, ch))
    ensures var b := Exec(steps).value;
            var c, c' := b.chans[ch], Apply(b, Send(p, ch)).chans[ch];
            && !c.closed
            && c'.queue == c.queue + (if |Accepted(c.offers)| - |c.received| == QUEUE_SIZE then [] else [p])
            && Dropped(c'.offers) == Dropped(c.offers) +
               if |Accepted(c.offers)| - |c.received| == QUEUE_SIZE then 1 else 0
  {
    RunKeepsInv(steps);
    var b := Exec(steps).value;
    SendKeepsInv(b, p, ch);
    var c, c' := b.chans[ch], Apply(b, Send(p, ch)).chans[ch];
    assert ChanOk(c);
    assert c'.offers[..|c.offers|] == c.offers;
  }
}
