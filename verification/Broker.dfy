/** The event broker as the program runs it: channel objects in a set. */
module Broker {
  import opened BrokerProtocol
  import opened Text

  class Channel {
    var queue: seq<string>
    var closed: bool

    constructor ()
      ensures queue == [] && !closed
    {
      queue, closed := [], false;
    }

    /** Takes the message unless the queue is full; sending on a closed channel panics. */
    method TrySend(data: string)
      requires !closed
      modifies this`queue
      ensures queue == Enqueued(old(queue), data)
    {
      if |queue| < QUEUE_SIZE {
        queue := queue + [data];
      }
    }

    /** Receives the oldest message, also after the channel was closed. */
    method Receive() returns (data: string)
      requires queue != []
      modifies this`queue
      ensures [data] + queue == old(queue)
    {
      data := queue[0];
      queue := queue[1..];
    }
  }

  class EventBroker {
    var subscribers: set<Channel>

    /** Everyone subscribed can be sent to, within the queue size. */
    ghost predicate Valid()
      reads this, subscribers
    {
      forall ch :: ch in subscribers ==> !ch.closed && |ch.queue| <= QUEUE_SIZE
    }

    constructor ()
      ensures Valid() && subscribers == {}
    {
      subscribers := {};
    }

    method Subscribe() returns (ch: Channel)
      requires Valid()
      modifies this
      ensures Valid() && fresh(ch) && ch.queue == []
      ensures subscribers == old(subscribers) + {ch}
    {
      ch := new Channel();
      subscribers := subscribers + {ch};
    }

    /** Called once for a channel: closing a closed one panics. A channel that is not subscribed is
        closed all the same. */
    method Unsubscribe(ch: Channel)
      requires Valid() && !ch.closed
      modifies this, ch`closed
      ensures Valid() && ch.closed
      ensures subscribers == old(subscribers) - {ch}
    {
      subscribers := subscribers - {ch};
      ch.closed := true;
    }

    /** Offers the encoded event to every subscriber; `encoded` is None when encoding failed. */
    method Publish(encoded: Option<string>)
      requires Valid()
      modifies set ch | ch in subscribers :: ch`queue
      ensures Valid()
      ensures forall ch :: ch in subscribers ==>
        ch.queue == if encoded.Some? then Enqueued(old(ch.queue), encoded.value) else old(ch.queue)
    {
      if encoded.None? {
        return;
      }
      var data, todo := encoded.value, subscribers;
      while todo != {}
        invariant todo <= subscribers && Valid()
        invariant forall ch :: ch in todo ==> ch.queue == old(ch.queue)
        invariant forall ch :: ch in subscribers - todo ==>
          ch.queue == Enqueued(old(ch.queue), data)
      {
        var ch :| ch in todo;
        ch.TrySend(data);
        todo := todo - {ch};
      }
    }
  }
}
