/**
 * The server endpoint: one `WebSocket` object per connection, and the
 * process-wide `Registry` (the static `webSocketSet`) together with the log of
 * what was written to each session. Every container callback is one atomic,
 * sequential step.
 */
module WebSocketServer {
  import opened Wrappers
  import opened Messages
  import opened Routing
  import opened Corrections

  /** The endpoint's `session` field: not yet assigned, open, or closed. */
  datatype SessionState = NoSession | Open | Closed

  class Registry {
    /** `webSocketSet`: client name to endpoint. */
    var sockets: map<string, WebSocket>
    /** Every `sendText` that succeeded, in order. */
    var sent: seq<Delivery<WebSocket>>

    /** Each registered endpoint is registered under its own name, and its session is open. */
    ghost predicate Valid()
      reads this`sockets, sockets.Values
    {
      forall n | n in sockets :: sockets[n].name == Some(n) && sockets[n].session == Open
    }

    lemma ValidIsInjective()
      requires Valid()
      ensures Injective(sockets)
    {
    }

    constructor ()
      ensures Valid() && sockets == map[] && sent == []
    {
      sockets := map[];
      sent := [];
    }

    /** `ConcurrentHashMap.putIfAbsent`: the endpoint already stored under `n`, if any. */
    method PutIfAbsent(n: string, e: WebSocket) returns (existing: Option<WebSocket>)
      modifies this`sockets
      ensures existing == if n in old(sockets) then Some(old(sockets)[n]) else None
      ensures sockets == if n in old(sockets) then old(sockets) else old(sockets)[n := e]
    {
      if n in sockets {
        existing := Some(sockets[n]);
      } else {
        existing := None;
        sockets := sockets[n := e];
      }
    }

    /** `ConcurrentHashMap.remove(n)`. */
    method Remove(n: string)
      modifies this`sockets
      ensures sockets == old(sockets) - {n}
    {
      sockets := sockets - {n};
    }

    /** `ConcurrentHashMap.remove(n, e)`: remove the key only while it maps to `e`. */
    method RemoveIfMapped(n: string, e: WebSocket)
      modifies this`sockets
      ensures sockets == if n in old(sockets) && old(sockets)[n] == e then old(sockets) - {n} else old(sockets)
    {
      if n in sockets && sockets[n] == e {
        sockets := sockets - {n};
      }
    }

    /** `sendText(msg)` on `target`'s session inside a try block: a failing send is swallowed. */
    method SendText(target: WebSocket, msg: WsMessage, faults: set<WebSocket>)
      modifies this`sent
      ensures sent == old(sent) + Send(target, msg, faults)
    {
      if target !in faults {
        sent := sent + [Delivery(target, msg)];
      }
    }
  }

  class WebSocket {
    var session: SessionState
    /** The client name. No statement of the endpoint ever assigns it. */
    var name: Option<string>

    /** The container creates endpoints with a null name; the parameter gives the field's value. */
    constructor (name: Option<string>)
      ensures this.name == name && session == NoSession
    {
      this.name := name;
      session := NoSession;
    }

    /**
     * `onOpen`: the path parameter `pathName` is only logged; the test is on
     * the name field. Refused endpoints have their session closed.
     */
    method OnOpen(reg: Registry, pathName: string, faults: set<WebSocket>, now: Timestamp, uuid: string)
      requires reg.Valid() && session == NoSession
      modifies this`session, reg
      ensures reg.Valid()
      ensures var r := Admit(old(reg.sockets), this, name, faults, now, uuid);
              && reg.sockets == r.sockets
              && reg.sent == old(reg.sent) + r.deliveries
              && session == if r.accepted then Open else Closed
    {
      session := Open;
      if name == None {
        session := Closed;
        SendSystemMessageToUser(reg, None, None, NamingRuleNotice, faults, now, uuid);
        return;
      }
      var existing := reg.PutIfAbsent(name.value, this);
      if existing != None {
        session := Closed;
        SendSystemMessageToUser(reg, name, None, DuplicateNameNotice, faults, now, uuid);
        return;
      }
      SendSystemMessageToUser(reg, name, None, ConnectedNotice, faults, now, uuid);
    }

    /** `onClose`: the container has closed the session; the key `name` is removed. */
    method OnClose(reg: Registry)
      requires reg.Valid()
      modifies this`session, reg`sockets
      ensures reg.Valid() && session == Closed
      ensures reg.sockets == Unregister(old(reg.sockets), name)
    {
      session := Closed;
      if name != None {
        reg.Remove(name.value);
      }
    }

    /** `onOpen` as evidently intended: the name field is set from the path parameter when it obeys the naming rule. */
    method OnOpenNamed(reg: Registry, pathName: string, faults: set<WebSocket>, now: Timestamp, uuid: string)
      requires reg.Valid() && session == NoSession
      modifies this`session, this`name, reg
      ensures reg.Valid() && name == NameFromPath(pathName)
      ensures var r := AdmitPath(old(reg.sockets), this, pathName, faults, now, uuid);
              && reg.sockets == r.sockets
              && reg.sent == old(reg.sent) + r.deliveries
              && session == if r.accepted then Open else Closed
    {
      name := NameFromPath(pathName);
      OnOpen(reg, pathName, faults, now, uuid);
    }

    /** `onClose` as evidently intended: `remove(name, this)` leaves another endpoint's entry alone. */
    method OnCloseOwn(reg: Registry)
      requires reg.Valid()
      modifies this`session, reg`sockets
      ensures reg.Valid() && session == Closed
      ensures reg.sockets == UnregisterOwn(old(reg.sockets), this, name)
      ensures reg.sockets == map k | k in old(reg.sockets) && old(reg.sockets)[k] != this :: old(reg.sockets)[k]
    {
      CloseOwnRemovesOnlySelf(reg.sockets, this, name);
      session := Closed;
      if name != None {
        reg.RemoveIfMapped(name.value, this);
      }
    }

    /** `onMessage`: validate the frame, then reply with a notice, send directly, or broadcast. */
    method OnMessage(reg: Registry, message: Option<string>, parse: string -> Option<JsonObject>,
                     faults: set<WebSocket>, now: Timestamp, uuid: string) returns (ghost order: seq<string>)
      modifies reg`sent
      ensures Classify(message, parse, now).Broadcast? ==> Enumerates(order, reg.sockets.Keys)
      ensures reg.sent == old(reg.sent) + React(reg.sockets, this, name, Classify(message, parse, now), order, faults, now, uuid)
    {
      order := [];
      if message == None || message.value == "" {
        SendSystemMessageToUser(reg, name, None, EmptyMessageNotice, faults, now, uuid);
        return;
      }
      var parsed := parse(message.value);
      if parsed == None {
        SendSystemMessageToUser(reg, name, None, UnparsableNotice, faults, now, uuid);
        return;
      }
      var json := parsed.value;
      var id, from, content := OptString(json, "id"), OptString(json, "from"), OptString(json, "content");
      if id == "" || from == "" || content == "" {
        SendSystemMessageToUser(reg, name, Some(id), MissingFieldNotice, faults, now, uuid);
        return;
      }
      if JavaStrings.Trim(id) == "" || JavaStrings.Trim(from) == "" || JavaStrings.Trim(content) == "" {
        SendSystemMessageToUser(reg, name, Some(id), MissingFieldNotice, faults, now, uuid);
        return;
      }
      var msg := WsMessage(id, from, Some(OptString(json, "to")), content, now);
      if msg.to != None && msg.to.value != "" {
        AppointSending(reg, msg.to, msg, faults);
      } else {
        order := GroupSend(reg, msg, faults);
      }
    }

    /** `sendSystemMessageToUser(toUserName, messageId, text)`. */
    method SendSystemMessageToUser(reg: Registry, toUserName: Option<string>, messageId: Option<string>, text: string,
                                   faults: set<WebSocket>, now: Timestamp, uuid: string)
      modifies reg`sent
      ensures reg.sent == old(reg.sent) + Appoint(reg.sockets, this, toUserName, SystemMessage(toUserName, messageId, text, uuid, now), faults)
    {
      var id := messageId;
      if id == None || id.value == "" {
        id := Some(uuid);
      }
      var msg := WsMessage(id.value, SystemSender, toUserName, text, now);
      AppointSending(reg, toUserName, msg, faults);
    }

    /** `groupSend(msg)`: one send per key of the registry, in the order the loop visits them. */
    method GroupSend(reg: Registry, msg: WsMessage, faults: set<WebSocket>) returns (ghost order: seq<string>)
      modifies reg`sent
      ensures Enumerates(order, reg.sockets.Keys)
      ensures reg.sent == old(reg.sent) + FanOut(reg.sockets, order, msg, faults)
    {
      var sockets := reg.sockets;
      var pending := sockets.Keys;
      order := [];
      while pending != {}
        invariant reg.sockets == sockets && pending <= sockets.Keys
        invariant forall k | k in order :: k in sockets && k !in pending
        invariant forall k | k in sockets :: k in pending || k in order
        invariant Distinct(order)
        invariant reg.sent == old(reg.sent) + FanOut(sockets, order, msg, faults)
        decreases pending
      {
        var n :| n in pending;
        var client := sockets[n];
        reg.SendText(client, msg, faults);
        FanOutSnoc(sockets, order, n, msg, faults);
        order := order + [n];
        pending := pending - {n};
      }
    }

    /** `appointSending(name, msg)`. */
    method AppointSending(reg: Registry, name: Option<string>, msg: WsMessage, faults: set<WebSocket>)
      modifies reg`sent
      ensures reg.sent == old(reg.sent) + Appoint(reg.sockets, this, name, msg, faults)
    {
      if name == None {
        return;
      }
      if name.value !in reg.sockets {
        var notice := msg.(to := name, content := RecipientOfflineContent);
        SendToSelf(reg, notice, faults);
        return;
      }
      var client := reg.sockets[name.value];
      reg.SendText(client, msg, faults);
    }

    /** `sendToSelf(msg)`: write to this endpoint's own session. */
    method SendToSelf(reg: Registry, msg: WsMessage, faults: set<WebSocket>)
      modifies reg`sent
      ensures reg.sent == old(reg.sent) + Send(this, msg, faults)
    {
      reg.SendText(this, msg, faults);
    }
  }
}
