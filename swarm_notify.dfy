// Delivering a handler action to one connection or to any of several
// connections (volans-swarm/src/lib.rs), and the handling of behaviour
// events both swarms share. The readiness of each established
// connection's action channel at this poll is an input: the map holds
// the established connections only, and a missing id is one the pool no
// longer knows.
module SwarmNotify {
  import opened Wrappers
  import opened SwarmConnection
  import opened SwarmPool
  import SwarmListener

  /// What `poll_ready` on a connection's action channel gives.
  datatype Readiness = Busy | Gone | Open

  /// What became of an action offered to a connection.
  datatype Notified<A> = Notified(back: Option<A>, sent: Option<A>)

  /// `notify_one`: a busy channel gives the action back, a closed one
  /// drops it, and an open one sends it.
  function NotifyOne<A>(readiness: Readiness, action: A): (r: Notified<A>)
    ensures r.back.Some? <==> readiness == Busy
    ensures r.sent.Some? <==> readiness == Open
    ensures r.back.Some? ==> r.back.value == action
    ensures r.sent.Some? ==> r.sent.value == action
  {
    match readiness
    case Busy => Notified(Some(action), None)
    case Gone => Notified(None, None)
    case Open => Notified(None, Some(action))
  }

  /// The position of the first id whose connection is established and
  /// ready, if any.
  function FirstOpen(ids: seq<ConnectionId>, status: map<ConnectionId, Readiness>): (r: Option<nat>)
    ensures r.Some? ==> r.value < |ids| && ids[r.value] in status && status[ids[r.value]] == Open
    ensures r.Some? ==> forall j :: 0 <= j < r.value ==> !(ids[j] in status && status[ids[j]] == Open)
    ensures r.None? ==> forall j :: 0 <= j < |ids| ==> !(ids[j] in status && status[ids[j]] == Open)
  {
    if ids == [] then None
    else if ids[0] in status && status[ids[0]] == Open then Some(0)
    else
      var rest := FirstOpen(ids[1..], status);
      assert forall j :: 1 <= j < |ids| ==> ids[j] == ids[1..][j - 1];
      if rest.Some? then Some(rest.value + 1) else None
  }

  /// The established connections among `ids` whose channel is busy, in
  /// order.
  function BusyOf(ids: seq<ConnectionId>, status: map<ConnectionId, Readiness>): seq<ConnectionId>
    decreases |ids|
  {
    if ids == [] then []
    else
      var rest := BusyOf(ids[..|ids| - 1], status);
      var last := ids[|ids| - 1];
      if last in status && status[last] == Busy then rest + [last] else rest
  }

  /// The ids returned are exactly the busy established connections among
  /// the ids, and there are no more of them than ids.
  lemma {:induction false} BusyOfMembers(ids: seq<ConnectionId>, status: map<ConnectionId, Readiness>)
    ensures |BusyOf(ids, status)| <= |ids|
    ensures forall c :: c in BusyOf(ids, status) <==> c in ids && c in status && status[c] == Busy
    decreases |ids|
  {
    if ids != [] {
      var init := ids[..|ids| - 1];
      BusyOfMembers(init, status);
      assert ids == init + [ids[|ids| - 1]];
    }
  }

  /// Order is kept: the busy ids of two runs of ids are those of the
  /// first followed by those of the second.
  lemma {:induction false} BusyOfAppend(a: seq<ConnectionId>, b: seq<ConnectionId>, status: map<ConnectionId, Readiness>)
    ensures BusyOf(a + b, status) == BusyOf(a, status) + BusyOf(b, status)
    decreases |b|
  {
    if b == [] {
      assert a + b == a;
    } else {
      var b' := b[..|b| - 1];
      assert (a + b)[..|a + b| - 1] == a + b';
      assert (a + b)[|a + b| - 1] == b[|b| - 1];
      BusyOfAppend(a, b', status);
    }
  }

  /// The outcome of one call of `notify_any`: the connection the action
  /// was sent to, and what is handed back for a later attempt.
  datatype AnyOutcome<A> = AnyOutcome(sentTo: Option<ConnectionId>, retry: Option<(seq<ConnectionId>, A)>)

  /// `notify_any`: the ids are tried in order; the action goes to the
  /// first ready connection and the scan stops there; busy connections
  /// are remembered, missing and closed ones forgotten. When the action
  /// was not sent it is handed back with the busy ids, unless there are
  /// none, in which case it is dropped.
  method NotifyAny<A>(ids: seq<ConnectionId>, status: map<ConnectionId, Readiness>, action: A)
    returns (r: AnyOutcome<A>)
    ensures r.sentTo == (var k := FirstOpen(ids, status); if k.Some? then Some(ids[k.value]) else None)
    ensures r.retry.Some? <==> r.sentTo.None? && BusyOf(ids, status) != []
    ensures r.retry.Some? ==> r.retry.value == (BusyOf(ids, status), action)
  {
    var pending: seq<ConnectionId> := [];
    var held: Option<A> := Some(action);
    var sentTo: Option<ConnectionId> := None;
    var i := 0;
    while i < |ids|
      invariant 0 <= i <= |ids|
      invariant held == Some(action) && sentTo.None?
      invariant pending == BusyOf(ids[..i], status)
      invariant forall j :: 0 <= j < i ==> !(ids[j] in status && status[ids[j]] == Open)
    {
      assert ids[..i + 1][..i] == ids[..i];
      var id := ids[i];
      if id in status {
        match status[id]
        case Busy =>
          pending := pending + [id];
        case Gone =>
        case Open =>
          held, sentTo := None, Some(id);
          break;
      }
      i := i + 1;
    }
    if sentTo.None? {
      assert ids[..|ids|] == ids;
      FirstOpenNone(ids, status);
    } else {
      FirstOpenAt(ids, status, i);
    }
    if held.Some? && pending != [] {
      r := AnyOutcome(sentTo, Some((pending, held.value)));
    } else {
      r := AnyOutcome(sentTo, None);
    }
  }

  lemma FirstOpenNone(ids: seq<ConnectionId>, status: map<ConnectionId, Readiness>)
    requires forall j :: 0 <= j < |ids| ==> !(ids[j] in status && status[ids[j]] == Open)
    ensures FirstOpen(ids, status).None?
  {
  }

  lemma FirstOpenAt(ids: seq<ConnectionId>, status: map<ConnectionId, Readiness>, i: nat)
    requires i < |ids| && ids[i] in status && status[ids[i]] == Open
    requires forall j :: 0 <= j < i ==> !(ids[j] in status && status[ids[j]] == Open)
    ensures FirstOpen(ids, status) == Some(i)
  {
  }

  // ---------------------------------------------------------------------
  // Behaviour events and the pending handler action

  /// `behavior::NotifyHandler`: to one given connection, or to any of the
  /// peer's connections.
  datatype NotifyHandler = ToOne(id: ConnectionId) | ToAny

  /// `behavior::CloseConnection`.
  datatype CloseTarget = CloseOne(id: ConnectionId) | CloseEvery

  /// `BehaviorEvent`: an event for the swarm's user, an action for a
  /// handler, or a request to close connections.
  datatype BehaviorEvent<Ev, A> =
    | BehaviorOut(event: Ev)
    | HandlerAction(peer: PeerId, handler: NotifyHandler, action: A)
    | CloseRequest(peer: PeerId, target: CloseTarget)

  /// `PendingNotifyHandler`: the connection, or the connections still to
  /// try, in order.
  datatype PendingNotify = PendingOne(id: ConnectionId) | PendingAny(ids: seq<ConnectionId>)

  /// The swarm's `pending_handler_action`.
  datatype PendingAction<A> = PendingAction(peer: PeerId, handler: PendingNotify, action: A)

  /// The readiness input describes the pool's established connections.
  ghost predicate Describes<A>(pool: Pool<A>, status: map<ConnectionId, Readiness>)
    reads pool
  {
    status.Keys == pool.established.Keys
  }

  /// The pending-action part of `poll_next_event`: the action is offered
  /// as `notify_one` or `notify_any` would, and is handed back to be kept
  /// when it could not be delivered yet. A connection that is gone drops
  /// it. The loop of `poll_next_event` goes round again exactly when
  /// nothing is handed back.
  method DeliverPending<A>(pool: Pool<A>, p: PendingAction<A>, status: map<ConnectionId, Readiness>)
    returns (back: Option<PendingAction<A>>, sentTo: Option<ConnectionId>)
    requires pool.Valid() && Describes(pool, status)
    modifies pool
    ensures pool.Valid()
    ensures p.handler.PendingOne? ==>
              var id := p.handler.id;
              && sentTo == (if id in status && status[id] == Open then Some(id) else None)
              && back == (if id in status && status[id] == Busy then Some(p) else None)
    ensures p.handler.PendingAny? ==>
              var ids := p.handler.ids;
              var k := FirstOpen(ids, status);
              && sentTo == (if k.Some? then Some(ids[k.value]) else None)
              && back == (if k.None? && BusyOf(ids, status) != [] then Some(p.(handler := PendingAny(BusyOf(ids, status))))
                          else None)
    ensures sentTo.Some? ==>
              && sentTo.value in old(pool.established)
              && pool.established == old(pool.established)[sentTo.value := old(pool.established)[sentTo.value].(
                                     commands := old(pool.established)[sentTo.value].commands + [Action(p.action)])]
    ensures sentTo.None? ==> pool.established == old(pool.established)
    ensures pool.pending == old(pool.pending) && pool.pendingPeer == old(pool.pendingPeer)
    ensures pool.establishedPeer == old(pool.establishedPeer) && pool.owner == old(pool.owner)
    ensures pool.spawned == old(pool.spawned) && pool.aborted == old(pool.aborted)
    ensures pool.noEstablishedWaker == old(pool.noEstablishedWaker)
  {
    match p.handler {
      case PendingOne(id) =>
        if id !in status {
          back, sentTo := None, None;
        } else {
          var n := NotifyOne(status[id], p.action);
          if n.sent.Some? {
            pool.Enqueue(id, Action(p.action));
          }
          back := if n.back.Some? then Some(p) else None;
          sentTo := if n.sent.Some? then Some(id) else None;
        }
      case PendingAny(ids) =>
        var o := NotifyAny(ids, status, p.action);
        if o.sentTo.Some? {
          FirstOpenInStatus(ids, status);
          pool.Enqueue(o.sentTo.value, Action(p.action));
        }
        sentTo := o.sentTo;
        back := if o.retry.Some? then Some(PendingAction(p.peer, PendingAny(o.retry.value.0), o.retry.value.1)) else None;
    }
  }

  lemma FirstOpenInStatus(ids: seq<ConnectionId>, status: map<ConnectionId, Readiness>)
    requires FirstOpen(ids, status).Some?
    ensures ids[FirstOpen(ids, status).value] in status
  {
  }

  /// `handle_behavior_event`, shared by both swarms: an event for the
  /// user is handed back to be queued, an action becomes the pending
  /// action (there must be none already: an `assert!`), addressed either
  /// to the connection named or to every established connection of the
  /// peer, and a close request starts closing the connection named, if
  /// it is still established, or disconnects the peer.
  method HandleBehaviorEvent<A, Ev>(pool: Pool<A>, pendingAction: Option<PendingAction<A>>, ev: BehaviorEvent<Ev, A>)
    returns (out: Option<Ev>, action: Option<PendingAction<A>>)
    requires pool.Valid()
    requires ev.HandlerAction? ==> pendingAction.None?
    modifies pool
    ensures pool.Valid()
    ensures out == (if ev.BehaviorOut? then Some(ev.event) else None)
    ensures !ev.HandlerAction? ==> action == pendingAction
    ensures ev.HandlerAction? && ev.handler.ToOne? ==> action == Some(PendingAction(ev.peer, PendingOne(ev.handler.id), ev.action))
    ensures ev.HandlerAction? && ev.handler.ToAny? ==>
              action.Some? && action.value.peer == ev.peer && action.value.action == ev.action
              && action.value.handler.PendingAny?
              && |action.value.handler.ids| == |old(pool.EstablishedOf(ev.peer))|
              && forall c :: c in action.value.handler.ids <==> c in old(pool.owner) && old(pool.owner)[c] == ev.peer
    ensures !ev.CloseRequest? ==> pool.established == old(pool.established) && pool.pending == old(pool.pending)
    ensures ev.CloseRequest? && ev.target.CloseOne? ==>
              pool.pending == old(pool.pending)
              && pool.established == (if ev.target.id in old(pool.established)
                                      then old(pool.established)[ev.target.id := StartClose(old(pool.established)[ev.target.id])]
                                      else old(pool.established))
    ensures ev.CloseRequest? && ev.target.CloseEvery? ==>
              pool.pending == old(pool.pending) - old(pool.PendingOf(ev.peer))
              && pool.established == CloseAll(old(pool.established), old(pool.EstablishedOf(ev.peer)))
    ensures pool.establishedPeer == old(pool.establishedPeer) && pool.owner == old(pool.owner)
    ensures pool.spawned == old(pool.spawned)
  {
    out, action := None, pendingAction;
    match ev {
      case BehaviorOut(e) =>
        out := Some(e);
      case HandlerAction(peer, handler, a) =>
        match handler {
          case ToOne(id) =>
            action := Some(PendingAction(peer, PendingOne(id), a));
          case ToAny =>
            var ids := SwarmListener.Enumerate(pool.EstablishedConnectionsOf(peer));
            action := Some(PendingAction(peer, PendingAny(ids), a));
        }
      case CloseRequest(peer, target) =>
        match target {
          case CloseOne(id) =>
            if id in pool.established {
              pool.Enqueue(id, Close);
            }
          case CloseEvery =>
            pool.Disconnect(peer);
        }
    }
  }
}
