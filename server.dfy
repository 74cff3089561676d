/** The websocket route: each connection is admitted through the registry,
    each inbound frame is decoded and checked against the API document before
    it is broadcast, and a closed connection is taken out of the registry. */
module Server {
  import opened Wire
  import opened Transport
  import opened Channels
  import opened Registry

  /** What the schema validator makes of a message: it passes, or it throws
      an error carrying this message. */
  datatype Outcome = Pass | Fail(message: string)

  /** The schema validator of the API document, applied to a message id, a
      message, the channel id (none when no channel has the path) and an operation. */
  type Validator = (string, Json, Option<string>, string) -> Outcome

  /** Every inbound message is checked as the `chat` message of the `send` operation. */
  const ChatMessageId: string := "chat"
  const SendOperation: string := "send"

  /** The upgrade request of a connection: its URL and its parsed query. */
  datatype Request = Request(url: string, query: User)

  /** The validator's verdict on `message` for a connection opened at `url`. */
  function HookOutcome(channels: seq<Channel>, validator: Validator, url: string, message: Json): Outcome {
    validator(ChatMessageId, message, FindChannel(channels, StripQuery(url)), SendOperation)
  }

  /** The query string plays no part in the verdict: a connection opened at
      `path?query` is checked on the same channel as one opened at `path`. */
  lemma HookIgnoresQuery(channels: seq<Channel>, validator: Validator, path: string, query: string, message: Json)
    requires '?' !in path
    ensures HookOutcome(channels, validator, path + "?" + query, message) == HookOutcome(channels, validator, path, message)
  {
    var url := path + "?" + query;
    assert url[|path|] == '?';
    assert path <= url;
    StripQueryUnique(url, path);
    StripQueryUnique(path, path);
  }

  /** The running server: the registry, the channels of the API document, the
      schema validator, and the decoding of a frame (its bytes read as UTF-8
      text, then parsed as JSON), which fails exactly when the JSON parser throws. */
  class Endpoint {
    const manager: WebsocketManager
    const channels: seq<Channel>
    const validator: Validator
    const decode: Payload -> Option<Json>

    ghost predicate Valid()
      reads this, manager
    {
      manager.Valid()
    }

    constructor (channels: seq<Channel>, validator: Validator, decode: Payload -> Option<Json>)
      ensures Valid() && fresh(manager)
      ensures manager.connections == map[] && manager.order == []
      ensures this.channels == channels && this.validator == validator && this.decode == decode
    {
      this.channels := channels;
      this.validator := validator;
      this.decode := decode;
      manager := new WebsocketManager();
    }

    /** A new connection claims the identity in its query string. */
    method HandleConnection(socket: Socket, request: Request, now: Timestamp)
      requires Valid()
      modifies manager, socket
      ensures Valid()
      ensures var verdict := FirstClash(old(manager.Values()), request.query);
        && manager.connections == (if verdict.None? then old(manager.connections)[socket := request.query]
                                   else old(manager.connections))
        && manager.order == (if verdict.None? && socket !in old(manager.connections) then old(manager.order) + [socket]
                             else old(manager.order))
        && socket.sent == old(socket.sent) + [if verdict.None? then Joined(|manager.connections|, JoinedStatus)
                                               else RejectionFrame(verdict.value, now)]
        && socket.readyState == (if verdict.None? then old(socket.readyState) else AfterClose(old(socket.readyState)))
        && (verdict.None? && socket !in old(manager.connections) ==>
              && |manager.connections| == |old(manager.connections)| + 1
              && manager.Values() == old(manager.Values()) + [request.query])
    {
      manager.AddConnections(socket, request.query, now);
    }

    /** The per-connection validation hook: resolve the channel from the
        request path, run the validator, and on failure tell the sender why. */
    method ValidateHook(socket: Socket, message: Json, request: Request, now: Timestamp) returns (isValid: bool)
      modifies socket
      ensures isValid <==> HookOutcome(channels, validator, request.url, message).Pass?
      ensures socket.sent == old(socket.sent)
        + (if isValid then [] else [Error(TextKey, HookOutcome(channels, validator, request.url, message).message, now)])
      ensures socket.readyState == old(socket.readyState)
    {
      var pathname := request.url;
      var channel := GetChannelByAddress(channels, StripQuery(pathname));
      var outcome := validator(ChatMessageId, message, channel, SendOperation);
      if outcome.Pass? {
        isValid := true;
      } else {
        socket.Send(Error(TextKey, outcome.message, now));
        isValid := false;
      }
    }

    /** An inbound frame on `socket`. Only a frame that decodes and validates
        is broadcast; otherwise the sender alone gets one error frame. No path
        changes the registry or any ready state. */
    method HandleMessage(socket: Socket, request: Request, payload: Payload, now: Timestamp)
      requires Valid()
      modifies socket, manager.connections.Keys
      ensures Valid()
      ensures manager.connections == old(manager.connections) && manager.order == old(manager.order)
      ensures socket.readyState == old(socket.readyState)
      ensures forall s :: s in manager.connections ==> s.readyState == old(s.readyState)
      ensures decode(payload).None? ==>
        && socket.sent == old(socket.sent) + [Error(TextKey, InternalErrorText, now)]
        && forall s :: s in manager.connections && s != socket ==> s.sent == old(s.sent)
      ensures decode(payload).Some? ==>
        var outcome := HookOutcome(channels, validator, request.url, decode(payload).value);
        && (outcome.Fail? ==>
              && socket.sent == old(socket.sent) + [Error(TextKey, outcome.message, now)]
              && forall s :: s in manager.connections && s != socket ==> s.sent == old(s.sent))
        && (outcome.Pass? ==>
              && socket.sent == old(socket.sent)
              && forall s :: s in manager.connections && s != socket ==>
                   s.sent == old(s.sent) + (if old(s.readyState) == Open then [Relay(decode(payload).value)] else []))
    {
      var message := decode(payload);
      if message.None? {
        socket.Send(Error(TextKey, InternalErrorText, now));
        return;
      }
      var isValid := ValidateHook(socket, message.value, request, now);
      if isValid {
        // The source parses the frame a second time here; parsing is deterministic.
        manager.Broadcast(message.value, socket);
      }
    }

    /** The connection went away: forget it. */
    method HandleClose(socket: Socket)
      requires Valid()
      modifies manager
      ensures Valid()
      ensures manager.connections == old(manager.connections) - {socket}
      ensures manager.order == Without(old(manager.order), socket)
      ensures |manager.connections| == |old(manager.connections)| - (if socket in old(manager.connections) then 1 else 0)
    {
      manager.RemoveConnection(socket);
    }
  }
}
