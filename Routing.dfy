/**
 * The delivery decisions of the server endpoint, as values. `E` is the
 * endpoint type; a registry is a map from client name to endpoint, and a
 * delivery is one `sendText` that reached an endpoint's session. `faults` is
 * the set of endpoints whose `sendText` throws during the step (an I/O error
 * or a session that is gone); the source catches those exceptions, so such a
 * send simply delivers nothing.
 */
module Routing {
  import opened Wrappers
  import opened Messages

  datatype Delivery<E> = Delivery(target: E, msg: WsMessage)

  /** One guarded `session.getBasicRemote().sendText(msg)` on `target`. */
  function Send<E(==)>(target: E, msg: WsMessage, faults: set<E>): seq<Delivery<E>> {
    if target in faults then [] else [Delivery(target, msg)]
  }

  /**
   * `appointSending(name, msg)` called on endpoint `self`. A null name makes
   * `ConcurrentHashMap.get` throw, which is caught: nothing is sent. An
   * unregistered name turns the message into an offline notice for `self`.
   */
  function Appoint<E(==)>(sockets: map<string, E>, self: E, name: Option<string>, msg: WsMessage, faults: set<E>): seq<Delivery<E>> {
    match name
    case None => []
    case Some(n) =>
      if n in sockets then Send(sockets[n], msg, faults)
      else Send(self, OfflineNotice(msg, n), faults)
  }

  /** A registered recipient receives the message verbatim, and no one else receives anything. */
  lemma AppointRegistered<E>(sockets: map<string, E>, self: E, n: string, msg: WsMessage, faults: set<E>)
    requires n in sockets
    ensures var r := Appoint(sockets, self, Some(n), msg, faults);
            && (sockets[n] !in faults ==> r == [Delivery(sockets[n], msg)])
            && (sockets[n] in faults ==> r == [])
  {
  }

  /**
   * An unregistered recipient receives nothing; the caller's own session gets
   * the message back with the same id, sender and time, `to` set to the
   * missing name and the offline text as content.
   */
  lemma AppointOffline<E>(sockets: map<string, E>, self: E, n: string, msg: WsMessage, faults: set<E>)
    requires n !in sockets
    ensures var r := Appoint(sockets, self, Some(n), msg, faults);
            && (forall d | d in r :: d.target == self)
            && (self !in faults ==>
                  && |r| == 1
                  && r[0].msg.id == msg.id && r[0].msg.from == msg.from && r[0].msg.sendTime == msg.sendTime
                  && r[0].msg.to == Some(n) && r[0].msg.content == RecipientOfflineContent)
            && (self in faults ==> r == [])
  {
  }

  /** A system notice addressed to a null name is never delivered. */
  lemma NullNameNoticeIsLost<E>(sockets: map<string, E>, self: E, id: Option<string>, text: string, faults: set<E>, now: Timestamp, uuid: string)
    ensures Appoint(sockets, self, None, SystemMessage(None, id, text, uuid, now), faults) == []
  {
  }

  /** No key occurs twice in `order`. */
  ghost predicate Distinct(order: seq<string>) {
    forall i, j :: 0 <= i < j < |order| ==> order[i] != order[j]
  }

  /** `order` is one iteration order of the key set `keys`: each key exactly once. */
  ghost predicate Enumerates(order: seq<string>, keys: set<string>) {
    Distinct(order) && forall k :: k in order <==> k in keys
  }

  /** No endpoint is registered under two names. */
  ghost predicate Injective<E>(sockets: map<string, E>) {
    forall a, b :: a in sockets && b in sockets && a != b ==> sockets[a] != sockets[b]
  }

  /** The sends of `groupSend(msg)` when the keys are visited in `order`; a failed send does not stop the loop. */
  function FanOut<E(==)>(sockets: map<string, E>, order: seq<string>, msg: WsMessage, faults: set<E>): seq<Delivery<E>>
    requires forall k | k in order :: k in sockets
  {
    if order == [] then []
    else FanOut(sockets, order[..|order| - 1], msg, faults) + Send(sockets[order[|order| - 1]], msg, faults)
  }

  /** One more visited key appends that key's send to the fan-out. */
  lemma FanOutSnoc<E>(sockets: map<string, E>, order: seq<string>, n: string, msg: WsMessage, faults: set<E>)
    requires forall k | k in order :: k in sockets
    requires n in sockets
    ensures FanOut(sockets, order + [n], msg, faults) == FanOut(sockets, order, msg, faults) + Send(sockets[n], msg, faults)
  {
    assert (order + [n])[..|order|] == order;
  }

  /** Every broadcast delivery carries the message to a registered endpoint whose send did not fail. */
  lemma {:induction false} FanOutTargets<E>(sockets: map<string, E>, order: seq<string>, msg: WsMessage, faults: set<E>)
    requires forall k | k in order :: k in sockets
    ensures forall d | d in FanOut(sockets, order, msg, faults) ::
              d.msg == msg && d.target !in faults && exists k :: k in order && sockets[k] == d.target
  {
    if order != [] {
      var prefix, last := order[..|order| - 1], order[|order| - 1];
      FanOutTargets(sockets, prefix, msg, faults);
      forall d | d in FanOut(sockets, order, msg, faults)
        ensures d.msg == msg && d.target !in faults && exists k :: k in order && sockets[k] == d.target
      {
        if d in FanOut(sockets, prefix, msg, faults) {
          var k :| k in prefix && sockets[k] == d.target;
          assert k in order;
        } else {
          assert d in Send(sockets[last], msg, faults);
          assert last in order;
        }
      }
    }
  }

  /**
   * With distinct keys and an injective registry, an endpoint receives the
   * broadcast message once if it is registered under a visited key and its
   * send succeeds, and never otherwise.
   */
  lemma {:induction false} FanOutCount<E>(sockets: map<string, E>, order: seq<string>, msg: WsMessage, faults: set<E>, e: E)
    requires forall k | k in order :: k in sockets
    requires Distinct(order) && Injective(sockets)
    ensures multiset(FanOut(sockets, order, msg, faults))[Delivery(e, msg)] ==
              if e !in faults && exists k :: k in order && sockets[k] == e then 1 else 0
  {
    if order != [] {
      var prefix, last := order[..|order| - 1], order[|order| - 1];
      assert Distinct(prefix);
      FanOutCount(sockets, prefix, msg, faults, e);
      var here := multiset(Send(sockets[last], msg, faults))[Delivery(e, msg)];
      assert multiset(FanOut(sockets, order, msg, faults))[Delivery(e, msg)]
          == multiset(FanOut(sockets, prefix, msg, faults))[Delivery(e, msg)] + here;
      if sockets[last] == e {
        forall k | k in prefix ensures sockets[k] != e {
          var i :| 0 <= i < |prefix| && prefix[i] == k;
          assert order[i] == k && order[|order| - 1] == last;
        }
        assert last in order;
      } else {
        assert here == 0;
        if exists k :: k in order && sockets[k] == e {
          var k :| k in order && sockets[k] == e;
          assert k != last;
          var i :| 0 <= i < |order| && order[i] == k;
          assert i < |order| - 1 && prefix[i] == k;
        }
      }
    }
  }

  /**
   * `groupSend(msg)`, whatever order it visits the keys in: every registered
   * endpoint whose send succeeds (the sender included) receives `msg` exactly
   * once, and nothing else is delivered.
   */
  lemma BroadcastExactlyOnce<E>(sockets: map<string, E>, order: seq<string>, msg: WsMessage, faults: set<E>)
    requires Enumerates(order, sockets.Keys) && Injective(sockets)
    ensures forall n | n in sockets && sockets[n] !in faults ::
              multiset(FanOut(sockets, order, msg, faults))[Delivery(sockets[n], msg)] == 1
    ensures forall d | d in FanOut(sockets, order, msg, faults) ::
              d.msg == msg && d.target !in faults && d.target in sockets.Values
  {
    forall n | n in sockets && sockets[n] !in faults
      ensures multiset(FanOut(sockets, order, msg, faults))[Delivery(sockets[n], msg)] == 1
    {
      FanOutCount(sockets, order, msg, faults, sockets[n]);
      assert n in order;
    }
    FanOutTargets(sockets, order, msg, faults);
  }

  /** The outcome of `onOpen`: whether the endpoint was registered, the new registry, what was sent. */
  datatype Admission<E> = Admission(accepted: bool, sockets: map<string, E>, deliveries: seq<Delivery<E>>)

  /**
   * `onOpen` for endpoint `self` whose name field holds `name`: a null name
   * is refused, a name already present is refused (`putIfAbsent`), any other
   * name is registered. Each branch ends in one system notice addressed by name.
   */
  function Admit<E(==)>(sockets: map<string, E>, self: E, name: Option<string>, faults: set<E>, now: Timestamp, uuid: string): (r: Admission<E>)
    ensures r.accepted <==> name.Some? && name.value !in sockets
    ensures forall k | k in sockets :: k in r.sockets && r.sockets[k] == sockets[k]
    ensures r.sockets.Keys == if r.accepted then sockets.Keys + {name.value} else sockets.Keys
    ensures r.accepted ==> r.sockets[name.value] == self
    ensures name.None? ==> r.deliveries == []
    ensures name.Some? && name.value in sockets ==>
              r.deliveries == Send(sockets[name.value], SystemMessage(name, None, DuplicateNameNotice, uuid, now), faults)
    ensures r.accepted ==> r.deliveries == Send(self, SystemMessage(name, None, ConnectedNotice, uuid, now), faults)
    ensures Injective(sockets) && self !in sockets.Values ==> Injective(r.sockets)
  {
    match name
    case None =>
      Admission(false, sockets, Appoint(sockets, self, None, SystemMessage(None, None, NamingRuleNotice, uuid, now), faults))
    case Some(n) =>
      if n in sockets then
        Admission(false, sockets, Appoint(sockets, self, name, SystemMessage(name, None, DuplicateNameNotice, uuid, now), faults))
      else
        var registered := sockets[n := self];
        Admission(true, registered, Appoint(registered, self, name, SystemMessage(name, None, ConnectedNotice, uuid, now), faults))
  }

  /**
   * `onClose`: `remove(name)` drops the key whatever endpoint it maps to; a
   * null name makes `remove` throw before the map is touched.
   */
  function Unregister<E>(sockets: map<string, E>, name: Option<string>): (r: map<string, E>)
    ensures name.None? ==> r == sockets
    ensures name.Some? ==> r.Keys == sockets.Keys - {name.value}
    ensures forall k | k in r :: k in sockets && r[k] == sockets[k]
  {
    match name
    case None => sockets
    case Some(n) => sockets - {n}
  }

  /** What `onMessage` sends for a verdict; `order` is the key order of the broadcast loop. */
  function React<E(==)>(sockets: map<string, E>, self: E, name: Option<string>, v: Verdict, order: seq<string>,
                        faults: set<E>, now: Timestamp, uuid: string): seq<Delivery<E>>
    requires v.Broadcast? ==> Enumerates(order, sockets.Keys)
  {
    match v
    case Reject(id, text) => Appoint(sockets, self, name, SystemMessage(name, id, text, uuid, now), faults)
    case Direct(to, msg) => Appoint(sockets, self, Some(to), msg, faults)
    case Broadcast(msg) => FanOut(sockets, order, msg, faults)
  }

  /**
   * A rejected frame routes nothing: at most one envelope is sent, it comes
   * from "system", and it goes to the endpoint registered under the caller's
   * name, carrying the verdict's notice text and id. When that name is not
   * registered the notice comes back to the caller with the offline text in
   * place of the notice text; when it is null nothing is sent.
   */
  lemma RejectRoutesNothing<E>(sockets: map<string, E>, self: E, name: Option<string>, v: Verdict, order: seq<string>,
                              faults: set<E>, now: Timestamp, uuid: string)
    requires v.Reject?
    ensures var r := React(sockets, self, name, v, order, faults, now, uuid);
            && |r| <= 1
            && (forall d | d in r :: d.msg.from == SystemSender)
            && (forall d | d in r :: if name.value in sockets then d.target == sockets[name.value] else d.target == self)
            && (name.None? ==> r == [])
            && (name.Some? && name.value in sockets && sockets[name.value] !in faults ==>
                  r == [Delivery(sockets[name.value], SystemMessage(name, v.noticeId, v.notice, uuid, now))])
            && (name.Some? && name.value !in sockets && self !in faults ==>
                  r == [Delivery(self, SystemMessage(name, v.noticeId, v.notice, uuid, now).(content := RecipientOfflineContent))])
  {
  }
}
