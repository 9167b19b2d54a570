/**
 * The message queue the manager and its worker threads talk through: a
 * double-ended queue used first-in first-out. The lock around each
 * operation only serialises calls, so the model is sequential.
 */
module Queues {
  import opened Wrappers

  class MessageQueue<T> {
    /** Front of the queue first. */
    var queue: seq<T>

    constructor ()
      ensures queue == []
    {
      queue := [];
    }

    /** push: append at the back. */
    method Push(message: T)
      modifies this
      ensures queue == old(queue) + [message]
    {
      queue := queue + [message];
    }

    /** pop: none on an empty queue, otherwise the front message, which leaves the queue. */
    method Pop() returns (r: Option<T>)
      modifies this
      ensures old(queue) == [] ==> r == None && queue == []
      ensures old(queue) != [] ==> r == Some(old(queue)[0]) && queue == old(queue)[1..]
      ensures r.Some? ==> old(queue) == [r.value] + queue
    {
      if |queue| == 0 {
        return None;
      }
      var message := queue[0];
      queue := queue[1..];
      r := Some(message);
    }

    /** empty: whether the queue holds no message. */
    function Empty(): (b: bool)
      reads this
      ensures b <==> |queue| == 0
    {
      queue == []
    }

    /** popAll: the whole contents, front first; the queue is left empty. */
    method PopAll() returns (all: seq<T>)
      modifies this
      ensures all == old(queue) && queue == []
    {
      all := queue;
      queue := [];
    }

    /** pushAll: push each given message in order, after the ones already queued. */
    method PushAll(messages: seq<T>)
      modifies this
      ensures queue == old(queue) + messages
    {
      var i := 0;
      while i < |messages|
        invariant 0 <= i <= |messages|
        invariant queue == old(queue) + messages[..i]
      {
        queue := queue + [messages[i]];
        i := i + 1;
        assert messages[..i] == messages[..i - 1] + [messages[i - 1]];
      }
      assert messages[..i] == messages;
    }
  }

  /**
   * The messages a sequence of pushes leaves behind; the contents popAll
   * hands back after pushing each of them onto the queue q.
   */
  function Pushed<T>(q: seq<T>, messages: seq<T>): (r: seq<T>)
    ensures |r| == |q| + |messages|
    decreases |messages|
  {
    if messages == [] then q else Pushed(q + [messages[0]], messages[1..])
  }

  /** First in, first out: pushing one message at a time and then draining returns them in push order. */
  lemma {:induction false} PushedInOrder<T>(q: seq<T>, messages: seq<T>)
    ensures Pushed(q, messages) == q + messages
    decreases |messages|
  {
    if messages != [] {
      PushedInOrder(q + [messages[0]], messages[1..]);
      assert q + [messages[0]] + messages[1..] == q + messages;
    }
  }

  /** The same FIFO law on the object: pushes followed by popAll give the messages in push order. */
  method PushesThenPopAll<T>(mq: MessageQueue<T>, messages: seq<T>) returns (all: seq<T>)
    modifies mq
    ensures all == old(mq.queue) + messages && mq.queue == []
  {
    var i := 0;
    while i < |messages|
      invariant 0 <= i <= |messages|
      invariant mq.queue == old(mq.queue) + messages[..i]
    {
      mq.Push(messages[i]);
      i := i + 1;
      assert messages[..i] == messages[..i - 1] + [messages[i - 1]];
    }
    assert messages[..i] == messages;
    all := mq.PopAll();
  }
}
