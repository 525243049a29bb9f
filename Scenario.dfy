/**
 * The end-to-end runs of the relay: "alice" and "bob" connect through the
 * corrected `onOpen`; alice sends a direct message, a broadcast, and a message
 * to the absent "carol"; a second "alice" is refused and its close leaves the
 * first one registered.
 */
module Scenario {
  import opened Wrappers
  import opened Messages
  import opened Routing
  import opened Corrections
  import opened WebSocketServer

  /** The JSON parser on the three frames alice sends; any other text is unparsable. */
  function Frames(text: string): Option<JsonObject> {
    if text == "m1" then Some(map["id" := "1", "from" := "alice", "to" := "bob", "content" := "hi"])
    else if text == "m2" then Some(map["id" := "2", "from" := "alice", "to" := "", "content" := "hello all"])
    else if text == "m3" then Some(map["id" := "3", "from" := "alice", "to" := "carol", "content" := "hey"])
    else None
  }

  /** Opens "alice" and "bob" on a fresh registry. */
  method Connect() returns (reg: Registry, alice: WebSocket, bob: WebSocket)
    ensures fresh(reg) && fresh(alice) && fresh(bob)
    ensures reg.Valid() && reg.sockets == map["alice" := alice, "bob" := bob]
    ensures alice.name == Some("alice") && bob.name == Some("bob")
  {
    assert ValidName("alice") by {
      forall i | 0 <= i < |"alice"| ensures NameChar("alice"[i]) {}
    }
    assert ValidName("bob") by {
      forall i | 0 <= i < |"bob"| ensures NameChar("bob"[i]) {}
    }
    reg := new Registry();
    alice := new WebSocket(None);
    bob := new WebSocket(None);
    alice.OnOpenNamed(reg, "alice", {}, 0, "u1");
    assert reg.sent == [Delivery(alice, SystemMessage(Some("alice"), None, ConnectedNotice, "u1", 0))];
    bob.OnOpenNamed(reg, "bob", {}, 0, "u2");
  }

  /** A direct message reaches exactly bob, verbatim. */
  method DirectMessage() {
    var reg, alice, bob := Connect();
    assert "1"[0] > ' ' && "alice"[0] > ' ' && "hi"[0] > ' ';
    var before := reg.sent;
    ghost var order := alice.OnMessage(reg, Some("m1"), Frames, {}, 1, "u3");
    assert reg.sent == before + [Delivery(bob, WsMessage("1", "alice", Some("bob"), "hi", 1))];
  }

  /** A broadcast reaches alice and bob once each, in whatever order the keys are visited. */
  method BroadcastMessage() {
    var reg, alice, bob := Connect();
    assert "2"[0] > ' ' && "alice"[0] > ' ' && "hello all"[0] > ' ';
    var hello := WsMessage("2", "alice", Some(""), "hello all", 2);
    assert Classify(Some("m2"), Frames, 2) == Broadcast(hello);
    reg.ValidIsInjective();
    var before := reg.sent;
    ghost var order := alice.OnMessage(reg, Some("m2"), Frames, {}, 2, "u4");
    ghost var fanOut := FanOut(reg.sockets, order, hello, {});
    assert reg.sent == before + fanOut;
    BroadcastExactlyOnce(reg.sockets, order, hello, {});
    assert reg.sockets["alice"] == alice && reg.sockets["bob"] == bob;
    assert multiset(fanOut)[Delivery(alice, hello)] == 1;
    assert multiset(fanOut)[Delivery(bob, hello)] == 1;
  }

  /** A message to the absent carol reaches no one but alice, as an offline notice addressed to carol. */
  method OfflineRecipient() {
    var reg, alice, bob := Connect();
    assert "3"[0] > ' ' && "alice"[0] > ' ' && "hey"[0] > ' ';
    var before := reg.sent;
    ghost var order := alice.OnMessage(reg, Some("m3"), Frames, {}, 3, "u5");
    assert reg.sent == before + [Delivery(alice, WsMessage("3", "alice", Some("carol"), RecipientOfflineContent, 3))];
  }

  /** A second "alice" is refused, its notice reaches the first alice, and its close keeps the first registered. */
  method DuplicateName() {
    var reg, alice, bob := Connect();
    var again := new WebSocket(None);
    var before := reg.sent;
    again.OnOpenNamed(reg, "alice", {}, 4, "u6");
    assert again.session == Closed;
    assert reg.sent == before + [Delivery(alice, SystemMessage(Some("alice"), None, DuplicateNameNotice, "u6", 4))];
    again.OnCloseOwn(reg);
    assert reg.sockets == map["alice" := alice, "bob" := bob];
  }
}
