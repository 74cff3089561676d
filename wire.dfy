/** Values that travel over a websocket: decoded JSON messages and the frames
    the server hands to a socket's `send`. */
module Wire {

  datatype Option<T> = None | Some(value: T)

  /** A decoded JSON value. The core never looks inside a chat or drawing
      message; it only validates it and relays it unchanged. */
  datatype Json =
    | Null
    | Bool(b: bool)
    | Number(x: real)
    | Str(s: string)
    | Array(items: seq<Json>)
    | Object(fields: seq<(string, Json)>)

  /** The raw bytes of an inbound websocket frame. */
  type Payload = seq<bv8>

  /** An ISO-8601 timestamp, as produced by the clock at the moment a frame is built. */
  type Timestamp = string

  /** The JSON key under which an error frame carries its human-readable reason.
      The duplicate-name error uses `message`; every other error uses `text`. */
  datatype ReasonKey = TextKey | MessageKey

  /** A frame the server sends. `Error` is `{type: "error", <key>: reason, timestamp}`,
      `Joined` is `{num_connections, status}`, `Relay` is a broadcast message re-serialized. */
  datatype Frame =
    | Error(key: ReasonKey, reason: string, timestamp: Timestamp)
    | Joined(numConnections: nat, status: int)
    | Relay(message: Json)

  const ColorTakenText: string := "user with this color already exists"
  const NameTakenText: string := "user with this name already exists"
  const InternalErrorText: string := "Internal Server Error"

  /** The status carried by every join acknowledgment. */
  const JoinedStatus: int := 1
}
