// Listener ids, the listener stream that tags each transport event with
// its listener's id (volans-swarm/src/listener.rs), and the set of listen
// addresses a behaviour keeps (volans-swarm/src/behavior/listen_addresses.rs).
// The close receiver, the listener and its `poll_close` are inputs: what
// each would give if polled at this call.
module SwarmListener {
  import opened Wrappers
  import opened Transport
  import SwarmConnection

  // ---------------------------------------------------------------------
  // Listener ids

  /// `ListenerId(usize)`.
  datatype ListenerId = ListenerId(value: nat)

  /// The first id `NEXT_LISTENER_ID` hands out.
  const FIRST_LISTENER_ID: nat := 1

  /// The process-wide counter behind `ListenerId::next`.
  class ListenerIdCounter {
    var next: nat

    ghost predicate Valid()
      reads this
    {
      next < SwarmConnection.USIZE_MOD
    }

    constructor()
      ensures Valid() && next == FIRST_LISTENER_ID
    {
      next := FIRST_LISTENER_ID;
    }

    /// `ListenerId::next`: the current value, and the counter moves on,
    /// wrapping like a `usize`.
    method Next() returns (id: ListenerId)
      requires Valid()
      modifies this
      ensures Valid()
      ensures id == ListenerId(old(next)) && next == SwarmConnection.Successor(old(next))
    {
      id := ListenerId(next);
      next := SwarmConnection.Successor(next);
    }
  }

  /// `ListenOpts`: an address to listen on and the id given to it.
  datatype ListenOpts<A> = ListenOpts(id: ListenerId, addr: A)

  /// `ListenOpts::new`: the address with a fresh id.
  method NewListenOpts<A>(c: ListenerIdCounter, addr: A) returns (opts: ListenOpts<A>)
    requires c.Valid()
    modifies c
    ensures c.Valid()
    ensures opts == ListenOpts(ListenerId(old(c.next)), addr) && c.next == SwarmConnection.Successor(old(c.next))
  {
    var id := c.Next();
    opts := ListenOpts(id, addr);
  }

  /// Two sets of options made one after the other get distinct,
  /// increasing ids, until the counter wraps around.
  method SequentialListenersDistinct<A>(c: ListenerIdCounter, a: A, b: A) returns (x: ListenOpts<A>, y: ListenOpts<A>)
    requires c.Valid() && c.next + 1 < SwarmConnection.USIZE_MOD
    modifies c
    ensures x.id.value < y.id.value && x.addr == a && y.addr == b
  {
    x := NewListenOpts(c, a);
    y := NewListenOpts(c, b);
  }

  // ---------------------------------------------------------------------
  // The tagged listener

  datatype ListenerState = Active | Closing | Done

  /// What the listener's parts give at this poll: whether the close
  /// sender was dropped (its receiver can never yield a value), the
  /// listener's next event, and the outcome of closing it.
  datatype PollInput<U, E, A> = PollInput(cancelled: bool, event: Poll<ListenerEvent<U, E, A>>,
                                          close: Poll<Result<(), E>>)

  function Rank(s: ListenerState): nat
  {
    match s
    case Active => 2
    case Closing => 1
    case Done => 0
  }

  /// One pass of the loop of `poll_next`: the next state and, unless the
  /// loop goes round again, what `poll_next` returns.
  function Pass<U, E, A>(s: ListenerState, input: PollInput<U, E, A>)
    : (r: (ListenerState, Option<Poll<Option<ListenerEvent<U, E, A>>>>))
    ensures r.1.None? ==> s == Active && r.0 == Closing
  {
    match s
    case Active =>
      if input.cancelled then (Closing, None)
      else if input.event.Ready? then (Active, Some(Ready(Some(input.event.value))))
      else (Active, Some(Pending))
    case Closing =>
      if input.close.Ready? then (Done, Some(Ready(Some(Closed(input.close.value)))))
      else (Closing, Some(Pending))
    case Done => (Done, Some(Ready(None)))
  }

  /// The whole of `poll_next`: passes until one returns.
  function PollNextOf<U, E, A>(s: ListenerState, input: PollInput<U, E, A>)
    : (r: (ListenerState, Poll<Option<ListenerEvent<U, E, A>>>))
    decreases Rank(s)
  {
    var p := Pass(s, input);
    if p.1.Some? then (p.0, p.1.value) else PollNextOf(p.0, input)
  }

  /// `TaggedListener`: a listener and its id.
  class TaggedListener<U, E, A> {
    const id: ListenerId
    var state: ListenerState

    /// `TaggedListener::new`: a listener starts active.
    constructor(id: ListenerId)
      ensures this.id == id && state == Active
    {
      this.id := id;
      state := Active;
    }

    /// `poll_next`: the event returned is tagged with this listener's id.
    method PollNext(input: PollInput<U, E, A>) returns (r: Poll<Option<(ListenerId, ListenerEvent<U, E, A>)>>)
      modifies this
      ensures state == PollNextOf(old(state), input).0
      ensures var out := PollNextOf(old(state), input).1;
              r == (if out.Ready? && out.value.Some? then Ready(Some((id, out.value.value)))
                    else if out.Ready? then Ready(None) else Pending)
    {
      var s := state;
      var out: Option<Poll<Option<ListenerEvent<U, E, A>>>> := None;
      while out.None?
        invariant out.None? ==> PollNextOf(s, input) == PollNextOf(old(state), input)
        invariant out.Some? ==> (s, out.value) == PollNextOf(old(state), input)
        decreases Rank(s), if out.None? then 1 else 0
      {
        var p := Pass(s, input);
        s, out := p.0, p.1;
      }
      state := s;
      var o := out.value;
      if o.Ready? && o.value.Some? {
        r := Ready(Some((id, o.value.value)));
      } else if o.Ready? {
        r := Ready(None);
      } else {
        r := Pending;
      }
    }
  }

  /// An active listener whose close sender is still held returns its
  /// listener's events, and stays active.
  lemma ActiveForwardsEvents<U, E, A>(input: PollInput<U, E, A>)
    requires !input.cancelled
    ensures PollNextOf(Active, input).0 == Active
    ensures input.event.Ready? ==> PollNextOf(Active, input).1 == Ready(Some(input.event.value))
    ensures input.event.Pending? ==> PollNextOf(Active, input).1 == Pending
  {
  }

  /// Dropping the close sender starts closing within the same poll.
  lemma CancelStartsClosing<U, E, A>(input: PollInput<U, E, A>)
    requires input.cancelled
    ensures PollNextOf(Active, input) == PollNextOf(Closing, input)
    ensures PollNextOf(Active, input).0 != Active
  {
  }

  /// Once done, the stream is over.
  lemma DoneIsFinal<U, E, A>(input: PollInput<U, E, A>)
    ensures PollNextOf(Done, input) == (Done, Ready(None))
  {
  }

  /// Whether one poll yields the listener's own Closed event, the one
  /// made from the outcome of `poll_close` (a Closed event the transport
  /// listener itself hands up is forwarded as any other event).
  predicate YieldsOwnClosed<U, E, A>(s: ListenerState, input: PollInput<U, E, A>)
  {
    (s == Closing || (s == Active && input.cancelled)) && input.close.Ready?
  }

  /// The number of own Closed events over a sequence of polls.
  function OwnClosedCount<U, E, A>(s: ListenerState, inputs: seq<PollInput<U, E, A>>): nat
    decreases |inputs|
  {
    if inputs == [] then 0
    else (if YieldsOwnClosed(s, inputs[0]) then 1 else 0) + OwnClosedCount(PollNextOf(s, inputs[0]).0, inputs[1..])
  }

  /// A poll yields its own Closed event exactly when it ends in Done from
  /// a state that was not.
  lemma OwnClosedIsTheMoveToDone<U, E, A>(s: ListenerState, input: PollInput<U, E, A>)
    ensures YieldsOwnClosed(s, input) <==> s != Done && PollNextOf(s, input).0 == Done
    ensures YieldsOwnClosed(s, input) ==> PollNextOf(s, input).1 == Ready(Some(Closed(input.close.value)))
  {
  }

  /// However the listener is polled, it reports its closing at most
  /// once, and never after it is done.
  lemma {:induction false} ClosedAtMostOnce<U, E, A>(s: ListenerState, inputs: seq<PollInput<U, E, A>>)
    ensures OwnClosedCount(s, inputs) <= (if s == Done then 0 else 1)
    decreases |inputs|
  {
    if inputs != [] {
      var next := PollNextOf(s, inputs[0]).0;
      OwnClosedIsTheMoveToDone(s, inputs[0]);
      ClosedAtMostOnce(next, inputs[1..]);
      if !YieldsOwnClosed(s, inputs[0]) && s == Done {
        assert next == Done;
      }
    }
  }

  // ---------------------------------------------------------------------
  // Listen addresses

  /// The listener events a behaviour is told about
  /// (`behavior::ListenerEvent`); the error itself is a parameter.
  datatype SwarmListenerEvent<A, X> =
    | NewListener(listenerId: ListenerId)
    | NewListenAddr(listenerId: ListenerId, addr: A)
    | ExpiredListenAddr(listenerId: ListenerId, addr: A)
    | ListenerError(listenerId: ListenerId, error: X)
    | ListenerClosed(listenerId: ListenerId, reason: Result<(), X>)

  /// The address set after an event, and whether it changed: a new
  /// address is inserted, an expired one removed, and every other event
  /// is ignored.
  function AddressesAfter<A(==), X>(addresses: set<A>, ev: SwarmListenerEvent<A, X>): (r: (set<A>, bool))
    ensures r.1 <==> r.0 != addresses
    ensures ev.NewListenAddr? ==> r.0 == addresses + {ev.addr}
    ensures ev.ExpiredListenAddr? ==> r.0 == addresses - {ev.addr}
    ensures !ev.NewListenAddr? && !ev.ExpiredListenAddr? ==> r.0 == addresses
  {
    match ev
    case NewListenAddr(_, a) => (addresses + {a}, a !in addresses)
    case ExpiredListenAddr(_, a) =>
      assert a in addresses ==> a !in addresses - {a};
      (addresses - {a}, a in addresses)
    case _ => (addresses, false)
  }

  /// Announcing an address twice changes the set only the first time.
  lemma NewAddressIdempotent<A, X>(addresses: set<A>, id: ListenerId, a: A)
    ensures var once := AddressesAfter<A, X>(addresses, NewListenAddr(id, a)).0;
            AddressesAfter<A, X>(once, NewListenAddr(id, a)) == (once, false)
  {
  }

  /// Announcing a fresh address and then expiring it restores the set.
  lemma ExpireUndoesNew<A, X>(addresses: set<A>, id: ListenerId, a: A)
    requires a !in addresses
    ensures var once := AddressesAfter<A, X>(addresses, NewListenAddr(id, a)).0;
            AddressesAfter<A, X>(once, ExpiredListenAddr(id, a)) == (addresses, true)
  {
  }

  /// `ListenAddresses`.
  class ListenAddresses<A(==)> {
    var addresses: set<A>

    constructor()
      ensures addresses == {}
    {
      addresses := {};
    }

    /// `on_listener_event`.
    method OnListenerEvent<X>(ev: SwarmListenerEvent<A, X>) returns (changed: bool)
      modifies this
      ensures (addresses, changed) == AddressesAfter(old(addresses), ev)
    {
      var r := AddressesAfter(addresses, ev);
      addresses, changed := r.0, r.1;
    }

    /// `iter`: every current address once, in some order.
    method Iter() returns (r: seq<A>)
      ensures |r| == |addresses|
      ensures forall a :: a in r <==> a in addresses
    {
      r := Enumerate(addresses);
    }
  }

  /// The elements of a finite set, each once, in some order.
  method Enumerate<A(==)>(s: set<A>) returns (r: seq<A>)
    ensures |r| == |s|
    ensures forall a :: a in r <==> a in s
  {
    r := [];
    var rest := s;
    while rest != {}
      invariant rest <= s
      invariant forall a :: a in r <==> a in s - rest
      invariant |r| + |rest| == |s|
      decreases |rest|
    {
      var a :| a in rest;
      assert a !in r;
      r := r + [a];
      rest := rest - {a};
    }
  }
}
