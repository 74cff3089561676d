# Collaborative chat and drawing server: websocket core

A model of the server half of a small real-time collaboration app (a shared
chat and a shared drawing canvas). Browsers connect to one websocket
endpoint and claim a user name and a color in the URL query. The server:

- keeps a registry of the admitted connections, and turns away a newcomer
  whose name or color an admitted participant already uses, ignoring case;
- checks every inbound message against the AsyncAPI document of the app, as
  the `chat` message of the `send` operation on the channel served at the
  request path;
- relays each valid message to every other open connection;
- answers an invalid or undecodable message with an error frame sent back to
  its sender only.

## Modules

| file | module | what it holds |
|---|---|---|
| `wire.dfy` | `Wire` | JSON values, inbound payload bytes, and the frames the server sends (`Error`, `Joined`, `Relay`), with their fixed texts |
| `transport.dfy` | `Transport` | `Socket`: the ready state and the outbox of frames handed to `send` |
| `channels.dfy` | `Channels` | stripping the query string from a URL, and the channel lookup by address |
| `registry.dfy` | `Registry` | identities and their case-insensitive comparison, the admission scan, the invariant that no two registered identities share a lowered name or color, and the `WebsocketManager` class |
| `server.dfy` | `Server` | the validation hook and the route handler, as the `Endpoint` class: connection, message and close events |
| `scenarios.dfy` | `Scenarios` | methods that drive the endpoint through admission, refusal, relay and departure, and assert what each participant receives |

## How the model represents the code

- **The registry.** The JavaScript `Map` from socket to identity becomes two
  fields:
  - `connections: map<Socket, User>`, the entries;
  - `order: seq<Socket>`, the map's insertion order, which is also its
    iteration order.

  Overwriting the entry of a key already registered keeps that key's place.
  Deleting a key removes it from `order`.
- **Invariant I1.** `WebsocketManager.Valid()` includes `Unique`: no two
  registered sockets share a lowered name or a lowered color. Every
  operation preserves it.
- **Sockets.** A socket is a class. Frames handed to `send` are appended to
  its `sent` field. `close()` moves it to `Closing`, or leaves it `Closed`.
- **Frames.** The JSON text of a sent frame is represented by its `Frame`
  value. An error frame records the key its reason sits under: `text`, or
  `message` for the duplicate-name error.
- **Parameters.** Clock readings (the `timestamp` field) are a `now`
  parameter. Decoding a frame (its bytes read as UTF-8 text, then
  `JSON.parse`) is the endpoint's `decode` function, which returns `None`
  exactly where `JSON.parse` would throw. The AsyncAPI validator is the endpoint's `validator` function,
  which returns `Pass`, or `Fail` with the message of the error it would
  throw.
- **Lowering.** `toLowerCase` is modelled as ASCII lowering.

## Model

| member | source | states |
|---|---|---|
| Channels.StripQuery | server/index.js:133-134 | the path is a prefix of the URL, contains no `?`, and ends at the URL's first `?` or at its end |
| Channels.StripQueryUnique | server/index.js:134 | those three properties single out one string: any prefix that meets them equals `StripQuery(url)` |
| Server.HookIgnoresQuery | server/index.js:133-135 | a connection opened at `path?query` gets the same validator verdict as one opened at `path`: only the path selects the channel that `va.validate('chat', message, channel, 'send')` is run on |
| Channels.FindChannel | server/index.js:34-41 | no result exactly when no channel's address is the path; otherwise the result is the id of a channel at that address with no such channel before it |
| Channels.FindChannelAt | server/index.js:36-38 | when position k holds the first channel at the path, the lookup returns that channel's id |
| Channels.GetChannelByAddress | server/index.js:34-41 | the index loop that returns at the first address match computes `FindChannel` |
| Registry.LowerChar | server/index.js:74 | `toLowerCase` on one character: a capital letter becomes the matching small letter, no capital remains, and every other character is kept |
| Registry.Lower | server/index.js:74-82 | the lowered string has the same length, contains no capital letter, and keeps every character that is not a capital |
| Registry.LowerIdempotent | server/index.js:74-82 | lowering a lowered string changes nothing |
| Registry.ClashWith | server/index.js:74-89 | one existing entry reports a color clash exactly when the lowered colors are equal, a name clash exactly when only the lowered names are equal, and nothing otherwise |
| Registry.RejectionFrame | server/index.js:75-88 | the refusal is an error frame stamped with the current time. Its reason sits under `message` exactly for the name clash and under `text` for the color clash, and its text names the clash |
| Registry.FirstClash | server/index.js:71-90 | no verdict exactly when no existing identity shares the newcomer's lowered color or lowered name; otherwise the verdict is the clash of an entry that clashes, with no clashing entry before it |
| Registry.FirstClashAt | server/index.js:73-89 | when entry k is the first that clashes, the verdict is k's clash: a color match is reported before a name match on the same entry |
| Registry.RejectedIffSomeMatch | server/index.js:69-91 | a newcomer is turned away if and only if some registered identity matches its color or its name, ignoring case |
| Registry.AdmitPreservesUnique | server/index.js:69-93 | registering a newcomer the scan found no clash for keeps invariant I1, for a new socket and for a re-registered one |
| Registry.Without | server/index.js:105-107 | the iteration order after a delete lists exactly the other sockets, still without repeats, and is unchanged when the socket was absent |
| Registry.ValuesAfterAppend | server/index.js:93 | a new key's identity comes after every earlier identity in iteration order |
| Registry.SizeIsOrderLength | server/index.js:95 | the map's size equals the length of its iteration order |
| Registry.WebsocketManager.constructor | server/index.js:56-61 | the registry starts empty and valid |
| Registry.WebsocketManager.FindClash | server/index.js:70-91 | the `size > 0` guard and the loop over `values()`, which returns at the first color or name match, compute `FirstClash` of the identities in iteration order |
| Registry.WebsocketManager.AddConnections | server/index.js:69-99 | on a clash: the registry is unchanged, the clash's error frame is sent, and the socket is closed. Otherwise: the socket is registered, a new socket goes to the end of the order, the acknowledgment carries the new size with status 1, and the size grows by one for a new socket. I1 holds throughout |
| Registry.WebsocketManager.RemoveConnection | server/index.js:105-107 | the entry is deleted, the other sockets keep their order, the size drops by one exactly when the socket was registered, and I1 holds |
| Registry.WebsocketManager.Broadcast | server/index.js:114-120 | every registered socket other than the sender that was open receives the message exactly once; every other socket, the sender included, receives nothing; no ready state changes |
| Server.Endpoint.constructor | server/index.js:158 | the server starts with an empty, valid registry |
| Server.Endpoint.HandleConnection | server/index.js:174-176 | the connection is admitted or refused with the query's identity, as `AddConnections` states, with the verdict computed on the identities registered before the connection |
| Server.Endpoint.ValidateHook | server/index.js:129-146 | the message is valid exactly when the validator passes it for the channel at the URL's path. On failure the sender alone receives a `text` error carrying the validator's message. No ready state changes |
| Server.Endpoint.HandleMessage | server/index.js:180-195 | an undecodable frame earns the sender an `Internal Server Error` frame; an invalid message earns it the validator's error; in both cases no other socket receives anything. A valid message reaches every other open registered socket and is not echoed. The registry and every ready state are unchanged |
| Server.Endpoint.HandleClose | server/index.js:198-200 | the socket's entry is removed and the other sockets keep their iteration order (a second close changes nothing), the size drops by one exactly when the socket was registered, and I1 holds |

## Behaviour of the code worth knowing

- The admission scan checks color, then name, entry by entry, in iteration
  order. So the reason a newcomer is given depends on which clashing entry
  comes first: a name match on an earlier entry is reported even when a
  later entry shares the newcomer's color.
- The duplicate-name error carries its reason under the key `message`. Every
  other error uses `text`. `RejectionFrame` keeps the two keys apart. The
  browser client reads `text`, so it shows no reason for a name clash.
- A refused socket is closed, but the handler still attaches the message
  and close listeners to it. `HandleMessage` therefore does not require its
  socket to be registered or open. A valid message from a refused socket
  is broadcast like any other.
- "Internal Server Error" is sent only when decoding fails. A validator
  failure is caught inside the hook and answered with the validator's own
  message.

## Left out

- Server start-up: the Fastify instance, the plugin registration, the route
  table and `listen`. These are framework configuration.
- `preValidation` and `validatePayload`: the Ajv check of the query against
  the channel's binding. Its failure branch refers to an undefined `reply`
  and so throws instead of answering 401. The model takes the query as
  already parsed into a `User`.
- Parsing and loading the AsyncAPI document, and the validator built from
  it. The validator is an arbitrary function; the channel list is a
  parameter.
- The byte-level decoding: reading the frame's bytes as UTF-8 text and
  parsing it as JSON. It is an arbitrary `decode` function. The
  `Buffer.from(payload, 'base64')` call copies the Buffer it is given and
  ignores the encoding argument.
- The handler parses the frame a second time before broadcasting. Parsing
  is deterministic, so the model decodes once.
- Reading the clock.
- Server.Endpoint.HandleConnection: does not model a query whose `username`
  or `color` is missing or not a string. In the source, `toLowerCase`
  throws on such an entry.
- Registry.Lower: lowers ASCII letters only. It does not model the full
  Unicode case mapping of `toLowerCase`.
- Registry.WebsocketManager.Broadcast: does not model the case where the
  runtime has no global `WebSocket`. `WebSocket` is not imported, so
  comparing a socket to `WebSocket.OPEN` would then throw, and the route's
  catch would answer the sender with "Internal Server Error". The model
  reads `WebSocket.OPEN` as the `Open` ready state.
- Transitions the transport makes on its own: the handshake completing
  after a `close()`, or the peer dropping. A `close` event is handled when
  `HandleClose` is called.
- Transport errors of `send` on a socket that is not open. The frame is
  recorded in `sent` either way.
- Concurrency. Each handler runs to completion, as on the JavaScript event
  loop, where the awaited validation resolves before the broadcast.
- Logging to the console.
- The browser client (React components). It is context, not core.
