/**
 * A publish/subscribe bus for zero-payload notifications. Handlers are
 * identified by opaque ids: removal is by identity, and emission invokes the
 * handlers registered when it starts, in registration order.
 */
module EventBusService {

  /** The identity of a subscribed callback. */
  type Handler = nat

  /**
   * What a handler, when invoked, does to the bus: nothing, subscribe some
   * handler, or call the unsubscribe function some earlier `Subscribe` of
   * a handler returned.
   */
  datatype Reaction = Idle | Subscribes(added: Handler) | Unsubscribes(removed: Handler)

  /**
   * `handlers.filter(x => x !== h)`: every entry equal to `h` removed, each
   * other handler kept as often as it occurs (`WithoutMultiplicity`), in
   * order (`WithoutConcat`).
   */
  function Without(handlers: seq<Handler>, h: Handler): (r: seq<Handler>)
    ensures |r| <= |handlers|
    ensures forall x :: x in r <==> x in handlers && x != h
  {
    if handlers == [] then []
    else if handlers[0] == h then Without(handlers[1..], h)
    else [handlers[0]] + Without(handlers[1..], h)
  }

  /** The handler list after one reaction. */
  function Apply(handlers: seq<Handler>, reaction: Reaction): (r: seq<Handler>)
  {
    match reaction
    case Idle => handlers
    case Subscribes(g) => handlers + [g]
    case Unsubscribes(g) => Without(handlers, g)
  }

  /** The handler list after a run of reactions, in order. */
  function ApplyAll(handlers: seq<Handler>, reactions: seq<Reaction>): (r: seq<Handler>)
  {
    if reactions == [] then handlers
    else Apply(ApplyAll(handlers, reactions[..|reactions| - 1]), reactions[|reactions| - 1])
  }

  /** The reactions of the handlers `invoked`, in the order they are invoked. */
  function ReactionsOf(invoked: seq<Handler>, react: Handler -> Reaction): (r: seq<Reaction>)
    ensures |r| == |invoked|
    ensures forall i | 0 <= i < |r| :: r[i] == react(invoked[i])
  {
    seq(|invoked|, i requires 0 <= i < |invoked| => react(invoked[i]))
  }

  class EventBus {
    /** The registered handlers, oldest first. */
    var handlers: seq<Handler>

    /** A new bus has no handlers. */
    constructor ()
      ensures handlers == []
    {
      handlers := [];
    }

    /** Registers `h` at the end; earlier handlers keep their order. */
    method Subscribe(h: Handler)
      modifies this
      ensures handlers == old(handlers) + [h]
    {
      handlers := handlers + [h];
    }

    /** The unsubscribe function `Subscribe(h)` returns: drops every entry equal to `h`. */
    method Unsubscribe(h: Handler)
      modifies this
      ensures handlers == Without(old(handlers), h)
    {
      handlers := Without(handlers, h);
    }

    /**
     * Invokes, once each and in order, the handlers registered when the call
     * starts. A handler may subscribe or unsubscribe during the pass (as
     * `react` says); that changes the list but not who is invoked in this pass.
     */
    method Emit(react: Handler -> Reaction) returns (invoked: seq<Handler>)
      modifies this
      ensures invoked == old(handlers)
      ensures handlers == ApplyAll(old(handlers), ReactionsOf(invoked, react))
    {
      var snapshot := handlers;
      invoked := [];
      var i := 0;
      while i < |snapshot|
        invariant 0 <= i <= |snapshot|
        invariant invoked == snapshot[..i]
        invariant handlers == ApplyAll(snapshot, ReactionsOf(invoked, react))
      {
        var h := snapshot[i];
        match react(h) {
          case Idle =>
          case Subscribes(g) => Subscribe(g);
          case Unsubscribes(g) => Unsubscribe(g);
        }
        invoked := invoked + [h];
        assert ReactionsOf(invoked, react)[..i] == ReactionsOf(invoked[..i], react);
        i := i + 1;
      }
      assert snapshot[..i] == snapshot;
    }
  }

  /** Removal keeps each other handler exactly as often as it was registered. */
  lemma {:induction false} WithoutMultiplicity(s: seq<Handler>, h: Handler)
    ensures forall x :: multiset(Without(s, h))[x] == if x == h then 0 else multiset(s)[x]
  {
    if s != [] {
      WithoutMultiplicity(s[1..], h);
      assert s == [s[0]] + s[1..];
      assert multiset(s) == multiset{s[0]} + multiset(s[1..]);
      if s[0] != h {
        assert multiset(Without(s, h)) == multiset{s[0]} + multiset(Without(s[1..], h));
      }
    }
  }

  /** Filtering distributes over concatenation, so the kept handlers stay in order. */
  lemma {:induction false} WithoutConcat(s: seq<Handler>, t: seq<Handler>, h: Handler)
    ensures Without(s + t, h) == Without(s, h) + Without(t, h)
  {
    if s == [] {
      assert s + t == t;
    } else {
      assert (s + t)[0] == s[0];
      assert (s + t)[1..] == s[1..] + t;
      WithoutConcat(s[1..], t, h);
    }
  }

  /** Removing a handler that is not registered changes nothing. */
  lemma {:induction false} WithoutAbsent(s: seq<Handler>, h: Handler)
    requires h !in s
    ensures Without(s, h) == s
  {
    if s != [] {
      assert s[1..] + [] == s[1..];
      WithoutAbsent(s[1..], h);
      assert s == [s[0]] + s[1..];
    }
  }

  /** Unsubscribing twice is the same as unsubscribing once. */
  lemma UnsubscribeIdempotent(s: seq<Handler>, h: Handler)
    ensures Without(Without(s, h), h) == Without(s, h)
  {
    WithoutAbsent(Without(s, h), h);
  }

  /**
   * Subscribing then unsubscribing a new handler restores the list; a handler
   * subscribed twice loses both entries at its unsubscribe.
   */
  lemma SubscribeThenUnsubscribe(s: seq<Handler>, h: Handler)
    ensures h !in s ==> Without(s + [h], h) == s
    ensures Without(s + [h] + [h], h) == Without(s, h)
  {
    WithoutConcat(s, [h], h);
    WithoutConcat(s + [h], [h], h);
    assert Without([h], h) == [];
    if h !in s {
      WithoutAbsent(s, h);
    }
  }

  /** An emission whose handlers leave the bus alone leaves the handler list as it was. */
  lemma {:induction false} IdleReactionsKeepHandlers(s: seq<Handler>, reactions: seq<Reaction>)
    requires forall i | 0 <= i < |reactions| :: reactions[i] == Idle
    ensures ApplyAll(s, reactions) == s
  {
    if reactions != [] {
      IdleReactionsKeepHandlers(s, reactions[..|reactions| - 1]);
    }
  }
}
