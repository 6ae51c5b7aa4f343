/** The base communicator: an optional callback handler and the message
    queues of the handlers it may post to.

    Posting a message to a handler appends it to that handler's queue (the
    Android message queue is first-in first-out); the looper later takes
    messages off the front. With no handler set, a callback message is
    silently dropped. */
module Communicator {
  import opened Wrappers
  import opened Devices

  /** Identity of an Android Handler. */
  type HandlerId = nat

  /** The `obj` of a message: null, a received text or a found device. */
  datatype Payload = Null | Text(text: string) | Device(device: PeerDevice)

  /** A message obtained from a handler: its `what` code and its object. */
  datatype Message = Message(what: int, obj: Payload)

  /** The handler for callbacks, if any, and every handler's pending queue. */
  datatype CommunicatorState = CommunicatorState(handler: Option<HandlerId>, queues: map<HandlerId, seq<Message>>)

  /** The messages waiting in handler `h`'s queue, oldest first. */
  function Queue(c: CommunicatorState, h: HandlerId): seq<Message>
  {
    if h in c.queues then c.queues[h] else []
  }

  /** The no-argument constructor: no handler, nothing queued. */
  function NewCommunicator(): (c: CommunicatorState)
    ensures c.handler == None
    ensures forall h: HandlerId :: Queue(c, h) == []
  {
    CommunicatorState(None, map[])
  }

  /** The constructor taking a (possibly null) handler. */
  function NewCommunicatorWith(handler: Option<HandlerId>): (c: CommunicatorState)
    ensures c.handler == handler
    ensures forall h: HandlerId :: Queue(c, h) == []
  {
    CommunicatorState(handler, map[])
  }

  /** Posts `Message(what, obj)` to the current handler; drops it if there is none. */
  function SendCallbackMessage(c: CommunicatorState, what: int, obj: Payload): (r: CommunicatorState)
    ensures r.handler == c.handler
    ensures c.handler.None? ==> r == c
    ensures c.handler.Some? ==>
      Queue(r, c.handler.value) == Queue(c, c.handler.value) + [Message(what, obj)]
    ensures forall h: HandlerId :: (c.handler != Some(h)) ==> Queue(r, h) == Queue(c, h)
  {
    match c.handler
    case None => c
    case Some(h) => c.(queues := c.queues[h := Queue(c, h) + [Message(what, obj)]])
  }

  /** The handler callbacks go to. */
  function GetHandlerForCallback(c: CommunicatorState): Option<HandlerId>
  {
    c.handler
  }

  /** Replaces the handler; messages already queued stay where they are. */
  function SetHandlerForCallback(c: CommunicatorState, handler: Option<HandlerId>): (r: CommunicatorState)
    ensures GetHandlerForCallback(r) == handler
    ensures forall h: HandlerId :: Queue(r, h) == Queue(c, h)
  {
    c.(handler := handler)
  }

  /** Setting a handler and reading it back gives the handler set. */
  lemma SetThenGet(c: CommunicatorState, handler: Option<HandlerId>)
    ensures GetHandlerForCallback(SetHandlerForCallback(c, handler)) == handler
    ensures SetHandlerForCallback(SetHandlerForCallback(c, handler), c.handler) == c
  {
  }

  /** The looper taking the oldest message off handler `h`'s queue. */
  function TakeNext(c: CommunicatorState, h: HandlerId): (r: Option<(Message, CommunicatorState)>)
    ensures r.None? <==> Queue(c, h) == []
    ensures r.Some? ==>
      && [r.value.0] + Queue(r.value.1, h) == Queue(c, h)
      && r.value.1.handler == c.handler
      && forall g: HandlerId :: g != h ==> Queue(r.value.1, g) == Queue(c, g)
  {
    var q := Queue(c, h);
    if q == [] then None
    else
      assert q == [q[0]] + q[1..];
      Some((q[0], c.(queues := c.queues[h := q[1..]])))
  }

  /** Posting several messages one after the other. */
  function SendAll(c: CommunicatorState, messages: seq<Message>): CommunicatorState
    decreases |messages|
  {
    if |messages| == 0 then c
    else SendAll(SendCallbackMessage(c, messages[0].what, messages[0].obj), messages[1..])
  }

  /** Posting is order-preserving: with a handler set, its queue grows by
      exactly the posted messages in posting order; with none, nothing changes. */
  lemma {:induction false} SendAllAppends(c: CommunicatorState, messages: seq<Message>)
    ensures SendAll(c, messages).handler == c.handler
    ensures c.handler.None? ==> SendAll(c, messages) == c
    ensures c.handler.Some? ==>
      Queue(SendAll(c, messages), c.handler.value) == Queue(c, c.handler.value) + messages
    decreases |messages|
  {
    if |messages| == 0 {
      assert messages == [];
    } else {
      var m := messages[0];
      var c1 := SendCallbackMessage(c, m.what, m.obj);
      SendAllAppends(c1, messages[1..]);
      if c.handler.Some? {
        var h := c.handler.value;
        assert messages == [m] + messages[1..];
        assert Queue(c, h) + [m] + messages[1..] == Queue(c, h) + messages;
      }
    }
  }
}
