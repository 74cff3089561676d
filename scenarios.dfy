/** A client of the server's contracts: the life of two participants, from
    admission through relayed and refused messages to one of them leaving. */
module Scenarios {
  import opened Wire
  import opened Transport
  import opened Channels
  import opened Registry
  import opened Server

  const Hi: Json := Object([("type", Str("chat")), ("text", Str("hi")), ("timestamp", Str("2024-01-01T00:00:00Z"))])
  const NoPositionY: Json := Object([("type", Str("drawing")), ("positionX", Number(1.0)), ("color", Str("red"))])
  const MissingPositionY: string := "data must have required property 'positionY'"

  const Root: seq<Channel> := [Channel("root", "/")]
  /** The URL a browser opens: the endpoint path and the identity in the query. */
  const QueryUrl: string := "/?username=ann&color=red"

  /** A validator that accepts only `Hi`, on the root channel. */
  function RootValidator(id: string, m: Json, channel: Option<string>, op: string): Outcome {
    if channel == Some("root") && m == Hi then Pass else Fail(MissingPositionY)
  }

  /** A decoder that knows two frames; every other frame is not JSON. */
  function TwoFrames(p: Payload): Option<Json> {
    if p == [1] then Some(Hi) else if p == [2] then Some(NoPositionY) else None
  }

  lemma RoutingFacts()
    ensures StripQuery(QueryUrl) == "/"
    ensures FindChannel(Root, "/") == Some("root")
    ensures HookOutcome(Root, RootValidator, QueryUrl, Hi) == Pass
    ensures HookOutcome(Root, RootValidator, QueryUrl, NoPositionY) == Fail(MissingPositionY)
    ensures TwoFrames([1]) == Some(Hi) && TwoFrames([2]) == Some(NoPositionY) && TwoFrames([]) == None
  {
    assert NoPositionY != Hi;
  }

  /** Admits `a` and then `b`, who differ from `a` in name and color, on a
      fresh server; each acknowledgment counts the newcomer. */
  method TwoAdmitted(a: User, b: User, now: Timestamp)
    requires !SameColor(a, b) && !SameName(a, b)
  {
    var server := new Endpoint(Root, RootValidator, TwoFrames);
    var ann := new Socket();
    assert server.manager.Values() == [] && FirstClash([], a) == None;
    server.HandleConnection(ann, Request(QueryUrl, a), now);
    assert |server.manager.connections| == 1 && server.manager.Values() == [a];
    assert ann.sent == [Joined(1, JoinedStatus)];
    assert FirstClash([a], b) == None by { assert NoClashBefore([a], b, 1); }
    var bob := new Socket();
    server.HandleConnection(bob, Request(QueryUrl, b), now);
    assert |server.manager.connections| == 2;
    assert bob.sent == [Joined(2, JoinedStatus)];
  }

  /** A newcomer whose name matches, in another case, and whose color does
      not, is refused with the name error and closed; the registry keeps
      only the first participant. */
  method SameNameRefused(server: Endpoint, ann: Socket, a: User, b: User, now: Timestamp)
    requires server.Valid() && server.manager.connections == map[ann := a] && server.manager.order == [ann]
    requires !SameColor(a, b) && SameName(a, b)
    modifies server.manager
  {
    assert server.manager.Values() == [a];
    assert FirstClash([a], b) == Some(NameTaken) by { FirstClashAt([a], b, 0); }
    var ann2 := new Socket();
    server.HandleConnection(ann2, Request(QueryUrl, b), now);
    assert ann2.sent == [Error(MessageKey, NameTakenText, now)];
    assert ann2.readyState == Closing;
    assert server.manager.connections == map[ann := a];
  }

  /** ann/red and ANN/blue differ in color and match in name, ignoring case. */
  lemma AnnAndAnn()
    ensures !SameColor(User("ann", "red"), User("ANN", "blue")) && SameName(User("ann", "red"), User("ANN", "blue"))
  {
    assert Lower("red")[0] != Lower("blue")[0];
  }

  /** With ann/red registered, ANN/blue is refused with the name error. */
  method AnnThenAnnRefused(server: Endpoint, ann: Socket, now: Timestamp)
    requires server.Valid() && server.manager.connections == map[ann := User("ann", "red")]
    requires server.manager.order == [ann]
    modifies server.manager
  {
    AnnAndAnn();
    SameNameRefused(server, ann, User("ann", "red"), User("ANN", "blue"), now);
  }

  /** Two registered participants, `bob` open: the state the message methods below start from. */
  ghost predicate TwoConnected(server: Endpoint, ann: Socket, bob: Socket)
    reads server, server.manager, bob
  {
    && server.Valid() && server.channels == Root
    && server.validator == RootValidator && server.decode == TwoFrames
    && ann != bob && ann in server.manager.connections && bob in server.manager.connections
    && bob.readyState == Open
  }

  /** A valid chat reaches the other participant and not its sender. */
  method ChatRelayed(server: Endpoint, ann: Socket, bob: Socket, now: Timestamp)
    requires TwoConnected(server, ann, bob)
    modifies ann, server.manager.connections.Keys
  {
    var annBefore, bobBefore := ann.sent, bob.sent;
    RoutingFacts();
    server.HandleMessage(ann, Request(QueryUrl, User("ann", "red")), [1], now);
    assert bob.sent == bobBefore + [Relay(Hi)];
    assert ann.sent == annBefore;
  }

  /** A drawing without positionY comes back to the sender as one error and
      reaches nobody else. */
  method DrawingRefused(server: Endpoint, ann: Socket, bob: Socket, now: Timestamp)
    requires TwoConnected(server, ann, bob)
    modifies ann, server.manager.connections.Keys
  {
    var annBefore, bobBefore := ann.sent, bob.sent;
    RoutingFacts();
    server.HandleMessage(ann, Request(QueryUrl, User("ann", "red")), [2], now);
    assert ann.sent == annBefore + [Error(TextKey, MissingPositionY, now)];
    assert bob.sent == bobBefore;
  }

  /** A frame that is not JSON is answered with the generic error, to the sender only. */
  method UndecodableRefused(server: Endpoint, ann: Socket, bob: Socket, now: Timestamp)
    requires TwoConnected(server, ann, bob)
    modifies ann, server.manager.connections.Keys
  {
    var annBefore, bobBefore := ann.sent, bob.sent;
    RoutingFacts();
    server.HandleMessage(ann, Request(QueryUrl, User("ann", "red")), [], now);
    assert ann.sent == annBefore + [Error(TextKey, InternalErrorText, now)];
    assert bob.sent == bobBefore;
  }

  /** Bob's channel closes; handling the close twice removes him once, and a
      later message from ann does not reach him. */
  method LeaveThenBroadcast(server: Endpoint, ann: Socket, bob: Socket, now: Timestamp)
    requires TwoConnected(server, ann, bob)
    modifies server.manager, ann, server.manager.connections.Keys
  {
    var size := |server.manager.connections|;
    var order := server.manager.order;
    server.HandleClose(bob);
    assert |server.manager.connections| == size - 1;
    assert server.manager.order == Without(order, bob);
    server.HandleClose(bob);
    assert |server.manager.connections| == size - 1;
    assert server.manager.order == Without(order, bob);
    var bobBefore := bob.sent;
    RoutingFacts();
    server.HandleMessage(ann, Request(QueryUrl, User("ann", "red")), [1], now);
    assert bob.sent == bobBefore;
  }
}
