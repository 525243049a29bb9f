# Connection registry and message router of the relay server

This project models the server endpoint `WebSocket` of the chat relay: each client connection is
a `WebSocket` object with a `session` and a `name` field, and the process-wide `webSocketSet`
maps client names to endpoints. `onOpen` registers an endpoint with `putIfAbsent`, and `onClose`
removes its name. `onMessage` validates an inbound JSON text frame. A valid frame is sent to one
named recipient with `appointSending`, or to every registered endpoint with `groupSend`.
Every problem is answered with a system notice built by `sendSystemMessageToUser`.

The model follows the code as written, including where it departs from what the source's own comments and notice texts describe (the comment at `WebSocket.java:54` and the naming-rule notice at `WebSocket.java:61`):

- `onOpen` tests the field `name`, which no statement assigns. The path parameter is only logged,
  and there is no character-class check. Every endpoint the container creates is refused (see
  Findings).
- A notice addressed to a null name is lost: `ConcurrentHashMap.get(null)` throws inside
  `appointSending`, and the exception is swallowed. The naming-rule notice is therefore never
  delivered.
- The "name already in use" notice is routed by name. It reaches the endpoint already registered
  under that name, not the refused connection.
- `onClose` removes the key `name` whatever endpoint it maps to. A null name makes `remove` throw,
  and the map is left as it was.
- `to` is tested with `isEmpty`, not trimmed. A `to` made of spaces is sent directly.
- The offline notice is the original message with `to` and `content` overwritten. It keeps the
  sender's `id` and `from`, so `from` is not `"system"`.

## Layout

- `Wrappers.dfy`: `Option`, standing for a nullable Java reference.
- `JavaStrings.dfy`: `String.trim` and the proof that `trim().isEmpty()` means "only characters at
  or below U+0020".
- `Messages.dfy`: the `WsMessage` envelope, the notice texts, `SystemMessage`, `OfflineNotice`, and
  `Classify`, the validation and routing decision of `onMessage`.
- `Routing.dfy`: the deliveries of each operation, as values over a registry `map<string, E>`:
  `Send`, `Appoint`, `FanOut`, `Admit`, `Unregister`, `React`, and the lemmas about them.
- `Corrections.dfy`: the evidently intended `onOpen` and `onClose`, beside counterexamples for the
  code as written.
- `WebSocketServer.dfy`: the classes. `Registry` holds `sockets` (the `webSocketSet`) and `sent`
  (every successful `sendText`, in order). `WebSocket` holds `session` and `name` and has one
  method per source method. Each callback method's `ensures` ties the new state to a function of
  the old state: `Routing.Admit`, `Unregister`, `React`, `Appoint`, `FanOut` or `Send` for the
  code as written, and `Corrections.AdmitPath` or `UnregisterOwn` for the corrected callbacks.
  The `Registry` primitives state their effect on the map and the log directly.
- `Scenario.dfy`: the two-client run. Alice and bob connect. Alice then sends a direct message, a
  broadcast, and a message to the absent carol. A second alice is refused. These are proved as
  assertions.

Inputs that the source takes from its environment become parameters:

- `parse` stands for `new JSONObject(text)`.
- `now` stands for `LocalDateTime.now()`.
- `uuid` stands for `UUID.randomUUID()`.
- `faults` is the set of endpoints whose `sendText` throws during the step.

## Model

| member | source | states |
|---|---|---|
| `JavaStrings.TrimEmptyIffBlank` | websocket-server/src/main/java/cn/liuj/websocketserver/config/WebSocket.java:119 | `s.trim().isEmpty()` holds exactly when every character of `s` is at or below U+0020 |
| `Messages.SystemMessageFields` | websocket-server/src/main/java/cn/liuj/websocketserver/config/WebSocket.java:153-164 | a system notice has `from = "system"`, `to` = the addressee, `content` = the text and the current time; it keeps the given id when that id is non-null and non-empty, and uses the fresh uuid otherwise |
| `Messages.Classify` | websocket-server/src/main/java/cn/liuj/websocketserver/config/WebSocket.java:96-141 | a frame is rejected iff it is null or empty, unparsable, or its `id`, `from` or `content` is blank; each rejection carries its notice text and id; a valid frame is sent directly iff its `to` is non-empty, else broadcast; the routed message carries the frame's fields and the current time |
| `Messages.WhitespaceRecipientIsDirect` | websocket-server/src/main/java/cn/liuj/websocketserver/config/WebSocket.java:128-135 | a valid frame whose `to` is `" "` is sent directly to `" "`, not broadcast |
| `Routing.AppointRegistered` | websocket-server/src/main/java/cn/liuj/websocketserver/config/WebSocket.java:194-208 | a registered recipient receives the message verbatim, and nothing else is sent; a failed send sends nothing |
| `Routing.AppointOffline` | websocket-server/src/main/java/cn/liuj/websocketserver/config/WebSocket.java:196-203 | for an unregistered name, only the caller's own session receives anything: the message with the same id, sender and time, `to` set to the name, and the offline text as content |
| `Routing.NullNameNoticeIsLost` | websocket-server/src/main/java/cn/liuj/websocketserver/config/WebSocket.java:153-165 | a system notice addressed to a null name delivers nothing |
| `Routing.FanOutTargets` | websocket-server/src/main/java/cn/liuj/websocketserver/config/WebSocket.java:174-186 | every broadcast delivery carries the message to an endpoint registered under a visited key whose send did not fail |
| `Routing.FanOutCount` | websocket-server/src/main/java/cn/liuj/websocketserver/config/WebSocket.java:174-186 | with distinct keys and an injective registry, an endpoint receives the broadcast once if it is registered under a visited key and its send succeeds, and zero times otherwise |
| `Routing.BroadcastExactlyOnce` | websocket-server/src/main/java/cn/liuj/websocketserver/config/WebSocket.java:174-186 | for any visiting order of the keys, every registered endpoint whose send succeeds, the sender included, receives the message exactly once; a failed send does not stop the others; nothing else is delivered |
| `Routing.Admit` | websocket-server/src/main/java/cn/liuj/websocketserver/config/WebSocket.java:51-78 | registration happens iff the name field is non-null and absent; an existing entry is never displaced; a null name changes nothing and sends nothing; a taken name sends the duplicate notice to the endpoint already registered; a new name maps to this endpoint, which gets one "connected" notice; injectivity is preserved |
| `Routing.Unregister` | websocket-server/src/main/java/cn/liuj/websocketserver/config/WebSocket.java:85-88 | the key `name` is removed whatever endpoint it maps to; every other entry is unchanged; an absent key or a null name leaves the map as it was |
| `Routing.RejectRoutesNothing` | websocket-server/src/main/java/cn/liuj/websocketserver/config/WebSocket.java:98-147 | a rejected frame sends at most one envelope, from "system"; when the caller's name is registered and the send succeeds, exactly the system notice with the verdict's text and id reaches that endpoint; when the name is unregistered, the caller gets that notice back with the offline text in place of the notice text; with a null name nothing is sent |
| `Corrections.AdmitPath` | websocket-server/src/main/java/cn/liuj/websocketserver/config/WebSocket.java:51-61 | with the name taken from the path: accepted iff the name follows the naming rule and is free; then the registry gains exactly that entry and the endpoint gets the "connected" notice; otherwise the registry is unchanged |
| `Corrections.AliceIsRefusedAsWritten` | websocket-server/src/main/java/cn/liuj/websocketserver/config/WebSocket.java:51-62 | as written, the endpoint for "alice" is refused on an empty registry and nothing is sent; read from the path, "alice" is accepted |
| `Corrections.UnregisterOwn` | websocket-server/src/main/java/cn/liuj/websocketserver/config/WebSocket.java:86 | `remove(name, this)` keeps every entry that maps to another endpoint and drops the closing endpoint's own entry |
| `Corrections.DuplicateCloseEvictsOriginal` | websocket-server/src/main/java/cn/liuj/websocketserver/config/WebSocket.java:64-75 | when a second "alice" is refused and then closed, `remove(name)` evicts the first alice; `remove(name, this)` leaves her registered |
| `Corrections.CloseOwnRemovesOnlySelf` | websocket-server/src/main/java/cn/liuj/websocketserver/config/WebSocket.java:86 | when every endpoint is registered under its own name, `remove(name, this)` removes exactly the closing endpoint's entries |
| `WebSocketServer.Registry.ValidIsInjective` | websocket-server/src/main/java/cn/liuj/websocketserver/config/WebSocket.java:42 | while every entry is registered under its own name, no endpoint is registered under two names |
| `WebSocketServer.Registry.constructor` | websocket-server/src/main/java/cn/liuj/websocketserver/config/WebSocket.java:42 | the registry starts empty, and nothing has been sent |
| `WebSocketServer.Registry.PutIfAbsent` | websocket-server/src/main/java/cn/liuj/websocketserver/config/WebSocket.java:64 | returns the endpoint already stored under the name, if any; inserts only when the name is absent |
| `WebSocketServer.Registry.Remove` | websocket-server/src/main/java/cn/liuj/websocketserver/config/WebSocket.java:86 | removes the key and nothing else |
| `WebSocketServer.Registry.RemoveIfMapped` | websocket-server/src/main/java/cn/liuj/websocketserver/config/WebSocket.java:86 | removes the key only while it maps to the given endpoint |
| `WebSocketServer.Registry.SendText` | websocket-server/src/main/java/cn/liuj/websocketserver/config/WebSocket.java:205-210 | a send appends one delivery to the log unless it fails; a failure is swallowed |
| `WebSocketServer.WebSocket.constructor` | websocket-server/src/main/java/cn/liuj/websocketserver/config/WebSocket.java:32-37 | a new endpoint has no session and holds the given name field |
| `WebSocketServer.WebSocket.OnOpen` | websocket-server/src/main/java/cn/liuj/websocketserver/config/WebSocket.java:51-78 | the registry and the send log become those of `Admit`; the session stays open iff the endpoint was registered; the registry invariant is kept |
| `WebSocketServer.WebSocket.OnOpenNamed` | websocket-server/src/main/java/cn/liuj/websocketserver/config/WebSocket.java:51-53 | sets the name field from a path name that follows the naming rule, then behaves as `AdmitPath` |
| `WebSocketServer.WebSocket.OnClose` | websocket-server/src/main/java/cn/liuj/websocketserver/config/WebSocket.java:85-88 | the session is closed and the registry becomes `Unregister(old, name)`; the registry invariant is kept |
| `WebSocketServer.WebSocket.OnCloseOwn` | websocket-server/src/main/java/cn/liuj/websocketserver/config/WebSocket.java:85-88 | the session is closed and exactly this endpoint's registration is removed; the registry invariant is kept |
| `WebSocketServer.WebSocket.OnMessage` | websocket-server/src/main/java/cn/liuj/websocketserver/config/WebSocket.java:96-148 | the send log grows by exactly what `Classify`'s verdict routes: a notice to this endpoint's name, one direct send, or a broadcast over some enumeration of the registry's keys |
| `WebSocketServer.WebSocket.SendSystemMessageToUser` | websocket-server/src/main/java/cn/liuj/websocketserver/config/WebSocket.java:153-166 | sends `SystemMessage(to, id, text)` through `appointSending(to, …)` |
| `WebSocketServer.WebSocket.GroupSend` | websocket-server/src/main/java/cn/liuj/websocketserver/config/WebSocket.java:174-186 | visits each registry key exactly once, in some order; the send log grows by `FanOut` over that order |
| `WebSocketServer.WebSocket.AppointSending` | websocket-server/src/main/java/cn/liuj/websocketserver/config/WebSocket.java:194-212 | the send log grows by `Appoint`: nothing for a null name, the message to a registered name, or the offline notice to this endpoint |
| `WebSocketServer.WebSocket.SendToSelf` | websocket-server/src/main/java/cn/liuj/websocketserver/config/WebSocket.java:219-228 | one send on this endpoint's own session, unless it fails |

## Left out

- Concurrency: `synchronized` blocks, the thread safety of `ConcurrentHashMap`, and its weakly consistent iterator. Each container callback is one atomic sequential step.
- JSON serialisation with Jackson (`WsMessage.toJSONString` and `fromJSONString`). This is foreign library code.
    - The send log records the envelope value whose JSON text was written.
    - The offline path's `fromJSONString(toJSONString(m))` is taken to be `m`.
    - Serialisation exceptions are not modelled.
- org.json parsing is the parameter `parse`. A parsed object is reduced to its string-valued members. The coercion of non-string values by `optString` is not modelled.
- Logging, `LocalDateTime.now()` and `UUID.randomUUID()` are opaque inputs (`now`, `uuid`). Each callback reads each of them at most once.
- A failing `sendText` is any endpoint in `faults`. The model does not say why a send fails (an I/O error, or a closed or missing session).
- WebSocketServer.WebSocket.OnOpen: `session.close()` is modelled as the session becoming closed.
    - The container's `onClose` callback that follows it is the separate `OnClose` step. A container may run it synchronously inside `close()`; the model does not capture that.
    - An `IOException` from `close()` is not modelled.
- WebSocketServer.WebSocket.constructor: the model takes the value of the name field as a parameter. The source's endpoints always hold null, because nothing assigns the field. The parameter keeps the registration branches reachable.
- WebSocketServer.WebSocket.GroupSend: the iteration order of the key set is not modelled. The method returns a ghost enumeration of the keys that it visited.
- The client side (`WebSocketClientFactory`) is a network client.
    - It is driven by library callbacks and a wall-clock wait with a 5-second limit.
    - Its `getOutCallWebSocketClientHolder` and `retryOutCallWebSocketClient` call each other whenever the held client is null or not open, so there is no terminating reconnect behaviour to state.
- `MyWebSocketHandler` (an `"Echo: " + payload` reply), `MyWebSocketClient`, `WsConfig`, `WebSocketConfig`, `WebsocketClientApplication` and `OpenAiController` are framework wiring, bootstrap, and a passthrough to an external completion service.

## Findings

| source | as written | input that shows it | evidently intended | confidence | as-written member | corrected member |
|---|---|---|---|---|---|---|
| websocket-server/src/main/java/cn/liuj/websocketserver/config/WebSocket.java:51-53 | `onOpen` tests the field `name`, which nothing assigns; the path parameter is only logged, so every connection is refused | connecting to "/websocket/alice" on an empty registry: refused, nothing registered, nothing sent | set the name from the path parameter when it consists of letters, digits, `_` or `-` (the rule the refusal notice states) | high; not executed | `Corrections.AliceIsRefusedAsWritten`, `Routing.Admit` | `Corrections.AdmitPath`, `WebSocketServer.WebSocket.OnOpenNamed` |
| websocket-server/src/main/java/cn/liuj/websocketserver/config/WebSocket.java:86 | `onClose` calls `remove(name)`, which drops the key whatever endpoint holds it; latent as written, because the name field is never set (first row), so nothing is registered and every `onClose` throws on `remove(null)`; it becomes reachable once the first row is corrected | with names read from the path (first row corrected): "alice" is registered; a second "alice" is refused and closed; its close evicts the first alice, whose connection is still open | `remove(name, this)`: drop the key only while it maps to the closing endpoint | medium; not executed | `Corrections.DuplicateCloseEvictsOriginal`, `Routing.Unregister` | `Corrections.UnregisterOwn`, `WebSocketServer.WebSocket.OnCloseOwn` |

The scenarios in `Scenario.dfy` connect through `OnOpenNamed` and close through `OnCloseOwn`.
