/** The actor framework of examples/actor/actor_framework.hpp: an actor
    keeps a list of message handlers, each a member function for one
    message type; a message is delivered to every handler of its type.
    `std::type_info` becomes a datatype that tells a message type from the
    type of the handler interface for it. */
module ActorFramework {
  import ThreadPool

  /** The message types of the example: actor addresses and tokens. */
  datatype MessageType = AddressMessage | TokenMessage

  /** A `typeid`: of a message type `M`, or of `Message_handler<M>`. */
  datatype TypeId = TypeOf(message: MessageType) | HandlerTypeOf(handled: MessageType)

  /** The member functions registered in the example. */
  datatype MemberFunction = InitFn | TokenFn | ReceiveFn

  /** A `Member_function_message_handler`: the message type it handles,
      the member function, and the actor it calls it on. */
  datatype Handler = Handler(message: MessageType, member: MemberFunction, who: nat)

  datatype Message = Address(address: nat) | Token(token: nat)

  function TypeOfMessage(m: Message): MessageType
  {
    if m.Address? then AddressMessage else TokenMessage
  }

  /** `message_id`: the `typeid` of the message type. */
  function MessageId(h: Handler): TypeId
  {
    TypeOf(h.message)
  }

  /** `is_this_function`. */
  predicate IsThisFunction(h: Handler, f: MemberFunction)
  {
    h.member == f
  }

  /** The handlers whose `message_id` is `id`, in registration order. */
  function Matching(hs: seq<Handler>, id: TypeId): (r: seq<Handler>)
    ensures |r| <= |hs|
  {
    if hs == [] then []
    else (if MessageId(hs[0]) == id then [hs[0]] else []) + Matching(hs[1..], id)
  }

  /** Every handler of the message's type is among the matching ones as
      often as it is registered, and no other handler is. */
  lemma {:induction false} MatchingExact(hs: seq<Handler>, t: MessageType, h: Handler)
    ensures multiset(Matching(hs, TypeOf(t)))[h] == if h.message == t then multiset(hs)[h] else 0
  {
    if hs != [] {
      MatchingExact(hs[1..], t, h);
      assert hs == [hs[0]] + hs[1..];
    }
  }

  /** The entry `deregister_handler` looks for. */
  predicate Erasable(h: Handler, id: TypeId, f: MemberFunction)
  {
    MessageId(h) == id && IsThisFunction(h, f)
  }

  /** The list with the first entry whose `message_id` is `id` and whose
      function is `f` erased. */
  function RemoveFirst(hs: seq<Handler>, id: TypeId, f: MemberFunction): seq<Handler>
  {
    if hs == [] then []
    else if Erasable(hs[0], id, f) then hs[1..]
    else [hs[0]] + RemoveFirst(hs[1..], id, f)
  }

  /** The first matching entry, and only it, is erased. */
  lemma {:induction false} RemoveFirstErasesFirst(hs: seq<Handler>, i: nat, id: TypeId, f: MemberFunction)
    requires i < |hs| && Erasable(hs[i], id, f)
    requires forall j :: 0 <= j < i ==> !Erasable(hs[j], id, f)
    ensures RemoveFirst(hs, id, f) == hs[..i] + hs[i + 1..]
  {
    if i > 0 {
      var tail := hs[1..];
      assert !Erasable(hs[0], id, f);
      assert forall j :: 0 <= j < i - 1 ==> tail[j] == hs[j + 1];
      assert tail[i - 1] == hs[i];
      RemoveFirstErasesFirst(tail, i - 1, id, f);
      assert hs[..i] == [hs[0]] + tail[..i - 1];
      assert hs[i + 1..] == tail[i..];
    }
  }

  /** When no entry matches, nothing is erased. */
  lemma {:induction false} RemoveFirstKeepsAll(hs: seq<Handler>, id: TypeId, f: MemberFunction)
    requires forall i :: 0 <= i < |hs| ==> !Erasable(hs[i], id, f)
    ensures RemoveFirst(hs, id, f) == hs
  {
    if hs != [] {
      assert !Erasable(hs[0], id, f);
      assert forall i :: 0 <= i < |hs[1..]| ==> hs[1..][i] == hs[i + 1];
      RemoveFirstKeepsAll(hs[1..], id, f);
    }
  }

  /** One iteration of the erase loop: entry `i` is erased, or the search
      goes on behind it. */
  lemma RemoveFirstStep(hs: seq<Handler>, i: nat, id: TypeId, f: MemberFunction)
    requires i < |hs|
    ensures hs[..i] + RemoveFirst(hs[i..], id, f) ==
      if Erasable(hs[i], id, f) then hs[..i] + hs[i + 1..]
      else hs[..i + 1] + RemoveFirst(hs[i + 1..], id, f)
  {
    assert hs[i..][0] == hs[i];
    assert hs[i..][1..] == hs[i + 1..];
    assert hs[..i + 1] == hs[..i] + [hs[i]];
  }

  /** As written, `deregister_handler` looks for `typeid(Message_handler<M>)`
      while every handler reports `typeid(M)`: nothing is ever erased. */
  lemma {:induction false} AsWrittenNeverRemoves(hs: seq<Handler>, m: MessageType, f: MemberFunction)
    ensures RemoveFirst(hs, HandlerTypeOf(m), f) == hs
  {
    if hs != [] {
      AsWrittenNeverRemoves(hs[1..], m, f);
    }
  }

  /** Comparing with `typeid(M)`, registering and then deregistering a
      member function that was not registered before gives the old list
      back. */
  lemma {:induction false} RegisterThenDeregister(hs: seq<Handler>, m: MessageType, f: MemberFunction, who: nat)
    requires forall i :: 0 <= i < |hs| ==> !(hs[i].message == m && hs[i].member == f)
    ensures RemoveFirst(hs + [Handler(m, f, who)], TypeOf(m), f) == hs
  {
    if hs != [] {
      assert (hs + [Handler(m, f, who)])[1..] == hs[1..] + [Handler(m, f, who)];
      assert hs[0] == (hs + [Handler(m, f, who)])[0];
      RegisterThenDeregister(hs[1..], m, f, who);
    }
  }

  /** `send` requires `blocking.never` of the receiver's pool executor and
      leaves the fork relationship, so it never runs the handler in the
      sender: the function always goes to the shared list. */
  function SendRoute(onOwnWorker: bool): (route: ThreadPool.Route)
    ensures route == ThreadPool.SharedList
  {
    ThreadPool.RouteOf(ThreadPool.Never, ThreadPool.Fork, onOwnWorker)
  }

  /** `defer_send` also prefers `relationship.continuation`: from a worker
      of the receiver's own pool it goes to that worker's private queue,
      from anywhere else to the shared list. */
  function DeferSendRoute(onOwnWorker: bool): (route: ThreadPool.Route)
    ensures route == if onOwnWorker then ThreadPool.PrivateQueue else ThreadPool.SharedList
  {
    ThreadPool.RouteOf(ThreadPool.Never, ThreadPool.Continuation, onOwnWorker)
  }

  class Actor {
    const address: nat
    var handlers: seq<Handler>

    constructor (address: nat)
      ensures this.address == address && handlers == []
    {
      this.address := address;
      handlers := [];
    }

    /** `register_handler`: one entry more, at the end. */
    method RegisterHandler(m: MessageType, f: MemberFunction)
      modifies this
      ensures handlers == old(handlers) + [Handler(m, f, address)]
    {
      handlers := handlers + [Handler(m, f, address)];
    }

    /** The loop of `deregister_handler`, comparing each handler's
        `message_id` with `id`: the first entry with that id and function
        `f` is erased. */
    method DeregisterById(id: TypeId, f: MemberFunction)
      modifies this
      ensures handlers == RemoveFirst(old(handlers), id, f)
    {
      ghost var hs := handlers;
      var i := 0;
      while i < |handlers|
        invariant i <= |handlers| && handlers == hs
        invariant RemoveFirst(hs, id, f) == hs[..i] + RemoveFirst(hs[i..], id, f)
      {
        var h := handlers[i];
        RemoveFirstStep(hs, i, id, f);
        if MessageId(h) != id {
          i := i + 1;
          continue;
        }
        if !IsThisFunction(h, f) {
          i := i + 1;
          continue;
        }
        handlers := handlers[..i] + handlers[i + 1..];
        return;
      }
      assert hs[i..] == [];
    }

    /** `deregister_handler` as written: it looks for
        `typeid(Message_handler<M>)`, so the list never changes. */
    method DeregisterHandlerAsWritten(m: MessageType, f: MemberFunction)
      modifies this
      ensures handlers == old(handlers)
    {
      AsWrittenNeverRemoves(handlers, m, f);
      DeregisterById(HandlerTypeOf(m), f);
    }

    /** `deregister_handler` comparing with `typeid(M)`, the id handlers
        report: the first registration of `f` for `M` is erased. */
    method DeregisterHandler(m: MessageType, f: MemberFunction)
      modifies this
      ensures handlers == RemoveFirst(old(handlers), TypeOf(m), f)
    {
      DeregisterById(TypeOf(m), f);
    }

    /** `call_handler`: the handlers invoked, in order. */
    method CallHandler(msg: Message) returns (invoked: seq<Handler>)
      ensures invoked == Matching(handlers, TypeOf(TypeOfMessage(msg)))
    {
      var id := TypeOf(TypeOfMessage(msg));
      invoked := [];
      for i := 0 to |handlers|
        invariant Matching(handlers, id) == invoked + Matching(handlers[i..], id)
      {
        assert handlers[i..][1..] == handlers[i + 1..];
        if MessageId(handlers[i]) != id {
          continue;
        }
        invoked := invoked + [handlers[i]];
      }
      assert handlers[|handlers|..] == [];
    }
  }

  /** `Receiver`: an actor on a pool of its own whose only handler queues
      the received tokens. */
  class Receiver {
    const actor: Actor
    var messages: seq<nat>

    constructor (address: nat)
      ensures fresh(actor) && actor.address == address
      ensures actor.handlers == [Handler(TokenMessage, ReceiveFn, address)] && messages == []
    {
      actor := new Actor(address);
      messages := [];
      new;
      actor.RegisterHandler(TokenMessage, ReceiveFn);
    }

    /** `message_handler`: at the back. */
    method MessageHandler(token: nat)
      modifies this
      ensures messages == old(messages) + [token]
    {
      messages := messages + [token];
    }

    /** `wait(count)`: `count` messages are taken from the front; when
        fewer are queued, the wait for the rest would block, and `missing`
        says how many are still awaited. */
    method Wait(count: nat) returns (missing: nat)
      modifies this
      ensures count <= |old(messages)| ==> missing == 0 && messages == old(messages)[count..]
      ensures count > |old(messages)| ==> missing == count - |old(messages)| && messages == []
    {
      missing := count;
      while missing > 0
        invariant missing <= count && count - missing <= |old(messages)|
        invariant messages == old(messages)[count - missing..]
      {
        if messages == [] {
          return;
        }
        messages := messages[1..];
        missing := missing - 1;
      }
    }
  }
}
