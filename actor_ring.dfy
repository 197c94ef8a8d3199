/** The token ring of examples/actor/actor.cpp.  Each member first gets an
    init message carrying an address from the receiver, and then passes
    tokens along the ring.  A `defer_send` is logged in the member's
    `outbox` as the message and its destination. */
module ActorRing {
  import opened ActorFramework

  /** The destination index in the ring construction loop: member `i`'s
      address is sent to member `i + 1`, and the last member's address is
      sent to member 0. */
  function RingNext(i: nat, n: nat): (j: nat)
    requires i < n
    ensures j < n
  {
    if i + 1 == n then 0 else i + 1
  }

  /** The `_next` member `j` ends up with: the member whose address it
      received, which is the one before it. */
  function RingPrev(j: nat, n: nat): (i: nat)
    requires j < n
    ensures i < n
  {
    if j == 0 then n - 1 else j - 1
  }

  /** The address member `j` receives is the one of `RingPrev(j)`, and no
      other member's: so the tokens travel backwards around the ring. */
  lemma RingInit(i: nat, j: nat, n: nat)
    requires i < n && j < n
    ensures RingNext(i, n) == j <==> i == RingPrev(j, n)
    ensures RingPrev(j, n) == (j + n - 1) % n
  {
  }

  /** What `token_handler` sends, and to whom: a positive token goes down
      by one (0 stays 0); a nonzero token goes to `next`, zero to
      `final`. */
  function TokenStep(token: nat, next: nat, final: nat): (r: (nat, nat))
    ensures token > 0 ==> r.0 == token - 1
    ensures token == 0 ==> r.0 == 0
    ensures r.1 == if r.0 == 0 then final else next
  {
    var t := if token > 0 then token - 1 else 0;
    (t, if t != 0 then next else final)
  }

  /** A token arriving at member `j` of an `n`-member ring: how many
      `token_handler` calls it takes until a member sends it to the final
      actor, and which member does. */
  function Trip(j: nat, token: nat, n: nat): (nat, nat)
    requires j < n
    decreases token
  {
    var (t, _) := TokenStep(token, 0, 0);
    if t == 0 then (1, j)
    else
      var (hops, last) := Trip(RingPrev(j, n), t, n);
      (hops + 1, last)
  }

  /** The member `k` places behind member `j`. */
  function Back(j: nat, k: nat, n: nat): (i: nat)
    requires j < n
    ensures i < n
  {
    if k == 0 then j else RingPrev(Back(j, k - 1, n), n)
  }

  /** Less than a full turn back from `j` is `j - k`, wrapping past 0. */
  lemma {:induction false} BackWithinTurn(j: nat, k: nat, n: nat)
    requires j < n && k < n
    ensures Back(j, k, n) == if k <= j then j - k else j + n - k
  {
    if k > 0 {
      BackWithinTurn(j, k - 1, n);
    }
  }

  /** A full turn comes back to the start. */
  lemma FullTurn(j: nat, n: nat)
    requires j < n
    ensures Back(j, n, n) == j
  {
    BackWithinTurn(j, n - 1, n);
  }

  /** A token starting at T >= 1 reaches the final actor after exactly T
      handler calls, sent by the member T - 1 places behind where it
      started. */
  lemma {:induction false} TripLength(j: nat, token: nat, n: nat)
    requires j < n && token >= 1
    ensures Trip(j, token, n) == (token, Back(j, token - 1, n))
    decreases token
  {
    if token > 1 {
      TripLength(RingPrev(j, n), token - 1, n);
      BackShift(j, token - 2, n);
    }
  }

  /** Going `k + 1` back is going one back and then `k` more. */
  lemma {:induction false} BackShift(j: nat, k: nat, n: nat)
    requires j < n
    ensures Back(RingPrev(j, n), k, n) == Back(j, k + 1, n)
  {
    if k > 0 {
      BackShift(j, k - 1, n);
    }
  }

  class Member {
    const actor: Actor
    var next: nat
    var final: nat
    var outbox: seq<(Message, nat)>

    /** `Member(pool)`: `init_handler` is registered. */
    constructor (address: nat)
      ensures fresh(actor) && actor.address == address
      ensures actor.handlers == [Handler(AddressMessage, InitFn, address)] && outbox == []
    {
      actor := new Actor(address);
      outbox := [];
      new;
      actor.RegisterHandler(AddressMessage, InitFn);
    }

    /** `init_handler`: `_final` from the sender and `_next` from the
        message; a zero token is sent to `_final` to say the member is
        ready; `token_handler` is registered, and the deregistration of
        `init_handler` as written erases nothing, so both stay. */
    method InitHandler(nextAddress: nat, from: nat)
      modifies this, actor
      ensures final == from && next == nextAddress
      ensures outbox == old(outbox) + [(Token(0), from)]
      ensures actor.handlers == old(actor.handlers) + [Handler(TokenMessage, TokenFn, actor.address)]
    {
      final := from;
      next := nextAddress;
      outbox := outbox + [(Token(0), final)];
      actor.RegisterHandler(TokenMessage, TokenFn);
      actor.DeregisterHandlerAsWritten(AddressMessage, InitFn);
    }

    /** `token_handler`. */
    method TokenHandler(token: nat)
      modifies this
      ensures next == old(next) && final == old(final)
      ensures var (t, to) := TokenStep(token, next, final);
        outbox == old(outbox) + [(Token(t), to)]
    {
      var t := token;
      if t > 0 {
        t := t - 1;
      }
      var to := if t != 0 then next else final;
      outbox := outbox + [(Token(t), to)];
    }
  }

  /** After `init_handler` the member's table is `[init_handler,
      token_handler]`: a token still reaches only `token_handler`, and only
      a second address message would run `init_handler` again. */
  lemma InitLeftover(address: nat, msg: Message)
    ensures var hs := [Handler(AddressMessage, InitFn, address), Handler(TokenMessage, TokenFn, address)];
      Matching(hs, TypeOf(TypeOfMessage(msg))) ==
        if msg.Token? then [Handler(TokenMessage, TokenFn, address)] else [Handler(AddressMessage, InitFn, address)]
  {
    var hs := [Handler(AddressMessage, InitFn, address), Handler(TokenMessage, TokenFn, address)];
    assert hs[1..][1..] == [];
  }
}
