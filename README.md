# NightOwl Chat relay, modelled in Dafny

NightOwl Chat is a small FastAPI chat server (main.py). Its core has three parts:

- **`ConnectionManager`** is a table from client id to the open WebSocket
  of that client.
  - `connect` registers a socket and silently replaces an earlier socket
    under the same id.
  - `disconnect` removes an id if it is registered.
  - `send_personal_message` sends a text to one client.
  - `broadcast` sends a text to every registered socket in the dict's order.
  - `add_to_history` stores a message with MongoDB's `insert_one`.
- **`websocket_endpoint`** is the handler of one connection. It registers the
  socket, then loops: it receives a text, wraps it in a `Message` (sender
  id, content, server clock), stores it, and broadcasts the message's JSON.
  A `WebSocketDisconnect` ends the loop and unregisters the id.
- **The page script** the server sends to browsers contains three pure
  helpers:
  - `formatTime`, a 24-hour to 12-hour clock with two-digit minutes and
    AM/PM;
  - the trim-and-non-empty check on the name in `connectWebSocket`;
  - the trim-and-non-empty check on the message in `sendMessage`.

The model has five modules:

- `Wrappers` holds `Option`.
- `Delivery` models `send_text` over opaque socket handles.
  - What each socket has been sent is its *outbox*.
  - A run of sends over a list of handles stops at the first handle that
    raises.
- `Registry` models `Message` and `ConnectionManager`.
  - `ConnectionManager` is a class with the dict, the dict's key order, and
    ghost outboxes and a ghost store history. Its methods are proved equal to
    pure functions over a `Manager` value.
  - The lemmas about the registry are stated on those functions.
- `Endpoint` models the handler loop as a method, and the same loop as the
  pure function `Session`.
- `PageScript` models the page-script helpers as functions.

Failures follow main.py:

- A `send_text` or `insert_one` that raises is not caught inside
  `ConnectionManager`.
  - A failing store skips the broadcast.
  - A failing send ends the broadcast: the sockets after it in dict order
    get nothing.
- The handler catches only `WebSocketDisconnect`.
  - That exception also arrives when it comes from a *peer's* socket during
    `broadcast`. The handler then unregisters the *sender*
    (`Endpoint.SenderDroppedByPeerDisconnect`).
  - Any other exception escapes the handler and leaves the id registered
    (`Endpoint.RunEscapedStaysRegistered`).

A fail-open relay, one that isolates the failure of one recipient or of the
store, is not what main.py does, and the model follows the code.

A Python dict iterates in insertion order; `del` keeps the order of the other
keys, and re-inserting a deleted key puts it last. The model keeps that order
explicitly (`Manager.order`), because it decides which sockets a failing
`broadcast` has already reached.

## Model

| member | source | states |
|---|---|---|
| `Registry.ConnectionManager.constructor` | main.py:44-45 | A new manager has no connections, and nothing is sent or stored. |
| `Registry.Connected` | main.py:47-49 | After `connect(id, ws)`, `id` maps to `ws`. Every other id keeps its entry, and no other id appears. An already registered id keeps its place in the key order; a new id goes last. Outboxes and the store are untouched. |
| `Registry.ConnectionManager.Connect` | main.py:47-49 | The method's new state is exactly `Connected` of the old state. The key-order invariant is kept. |
| `Registry.ConnectionManager.Disconnect` | main.py:51-53 | The method's new state is exactly `Disconnected` of the old state. The key-order invariant is kept. |
| `Registry.Without` | main.py:53 | `del` removes the key from the key order and keeps the other keys, each once. An absent key leaves the order as it was. |
| `Registry.WithoutKeepsOrder` | main.py:53 | In a key order without duplicates, removing the key at position `p` gives exactly the keys before `p` followed by the keys after it. |
| `Registry.Disconnected` | main.py:51-53 | After `disconnect(id)`, `id` is absent. Every other id keeps its entry. A registered id is removed from the key order by `Without`. An absent id leaves the whole state unchanged. |
| `Registry.DisconnectKeepsOrder` | main.py:51-53 | Disconnecting the id at position `p` of the key order leaves the keys before `p`, then the keys after `p`, in their old order. |
| `Registry.DisconnectIdempotent` | main.py:51-53 | Disconnecting twice is the same as disconnecting once. |
| `Registry.PersonalSent` | main.py:55-58 | The text reaches exactly the socket registered for `id` and no other. An unregistered id sends nothing and raises nothing. A faulted socket raises its fault and receives nothing. The registry and the store are unchanged. |
| `Registry.ConnectionManager.SendPersonalMessage` | main.py:55-58 | The method's new state and raised exception are exactly those of `PersonalSent`. |
| `Registry.Snapshot` | main.py:61 | `active_connections.values()` has one handle per key, in key order: the handle registered under that key. |
| `Registry.Broadcasted` | main.py:60-62 | `broadcast` never changes the table, the key order or the store. |
| `Registry.ConnectionManager.Broadcast` | main.py:60-62 | The `for` loop's final outboxes and raised exception are those of `Broadcasted`. It returns at the first socket that raises. |
| `Registry.BroadcastExactlyOnce` | main.py:60-62 | Suppose no registered socket is faulted and no socket is registered under two ids. Then nothing is raised, every registered socket's outbox gains the text exactly once, and every other socket's outbox is unchanged. |
| `Registry.BroadcastReachesBefore` | main.py:60-62 | Suppose the `k`-th socket in key order is the first faulted one. Then each socket at a position `i < k` gains the text exactly once. |
| `Registry.BroadcastSkipsFrom` | main.py:60-62 | Suppose the `k`-th socket in key order is the first faulted one. Then the socket at each position `i >= k` gains nothing. |
| `Registry.BroadcastStopsAtFault` | main.py:60-62 | Suppose the `k`-th socket in key order is the first faulted one. Then `broadcast` raises that socket's fault, the sockets before it have been sent the text, and it and the sockets after it have not. |
| `Registry.ConnectKeepsInjective` | main.py:47-49 | `connect` with a socket not yet registered keeps every socket under at most one id, and registers the new socket. |
| `Registry.ReconnectDisplaces` | main.py:47-49 | Re-`connect` of a registered id with a new socket drops the old socket from the table's values. |
| `Registry.BroadcastSkipsDisplaced` | main.py:47-62 | After a re-`connect` with a new socket, a `broadcast` that meets no fault sends nothing to the socket the id had before. |
| `Registry.Recorded` | main.py:64-65 | `add_to_history` raises exactly when `insert_one` fails, and what it raises is an ordinary exception (`Failure`), never `WebSocketDisconnect`. It appends the message to the store exactly when it does not raise. Outboxes and the table are unchanged. |
| `Registry.ConnectionManager.AddToHistory` | main.py:64-65 | The method's new state and raised exception are exactly those of `Recorded`. |
| `Delivery.SendAll` | main.py:61-62 | The `for` loop of `broadcast` as a recursive run of sends that stops at the first handle that raises. Its meaning is given by `SendAllRaises`, `SendAllDelivers`, `ReachedPrefix`, `SendAllEffect`, `SendAllStopsAt` and `SendAllHealthy`. |
| `Delivery.Send` | main.py:62 | One `send_text` appends the text to that socket's outbox and changes no other outbox. |
| `Delivery.FirstFault` | main.py:61-62 | The position where a run of sends stops: no earlier handle is faulted, and the handle there is. |
| `Delivery.SendAllRaises` | main.py:61-62 | A run of sends raises exactly when some handle is faulted, and it raises the first faulted handle's fault. |
| `Delivery.SendAllDelivers` | main.py:61-62 | A run of sends appends the text to a handle's outbox once for each time the run reaches that handle. |
| `Delivery.ReachedPrefix` | main.py:61-62 | The handles a run reaches are exactly the handles before its first faulted one. |
| `Delivery.SendAllEffect` | main.py:61-62 | A handle's outbox gains the text once per occurrence of the handle before the first faulted handle. |
| `Delivery.SendAllStopsAt` | main.py:61-62 | A run that stops at position `k` delivers to each handle once per occurrence among the first `k` handles. |
| `Delivery.SendAllHealthy` | main.py:61-62 | With no faulted handle, nothing is raised, and each handle gets the text once per occurrence. |
| `Endpoint.MessageOf` | main.py:304 | The `Message` built for one received text. `StepRelays` states that it carries the sender's id, the received content and that iteration's timestamp, and that it is what is stored and broadcast. |
| `Endpoint.Messages` | main.py:304 | A session's messages are, position by position, the `Message` of the sender's id, the received text and that iteration's clock reading. |
| `Endpoint.Step` | main.py:303-306 | One iteration never changes the table or the key order. The store gains the message exactly when `insert_one` succeeds. A failed store raises and broadcasts nothing. |
| `Endpoint.Session` | main.py:302-308 | The loop ends in one of two ways. By a disconnect: the id is unregistered. By another exception: the table is as it was. Either way, every other id keeps its socket. |
| `Endpoint.Run` | main.py:298-308 | The whole handler, `connect` then the loop, keeps the key-order invariant. |
| `Endpoint.RunClosedUnregisters` | main.py:307-308 | A handler that ends by a disconnect leaves the table as it was before `connect`, minus the id. |
| `Endpoint.RunEscapedStaysRegistered` | main.py:300-308 | A handler that another exception escapes leaves its socket registered under its id, and every other entry as before. |
| `Endpoint.StepRelays` | main.py:303-306 | A text that is stored and meets no fault adds one message to the store. That message carries the sender's id, the received content and the timestamp. Its JSON text reaches every registered socket exactly once and no other socket. |
| `Endpoint.SessionAfterStep` | main.py:302-306 | An iteration that goes right lets the loop continue with the rest of the session, from the state that iteration left. |
| `Endpoint.SessionStoresAll` | main.py:302-305 | In a session where every iteration goes right, the loop ends by a disconnect, and the store gains exactly the session's messages, in order. |
| `Endpoint.SessionDeliversInOrder` | main.py:302-306 | In such a session, each registered socket receives the session's texts exactly once each, in receiving order. |
| `Endpoint.SessionSkipsUnregistered` | main.py:302-306 | In such a session, a socket that is not registered receives nothing. |
| `Endpoint.RunRelaysAll` | main.py:298-308 | Take a new socket and a session where every text is stored and no socket fails. The handler ends by a disconnect that removes only its id. The store gains the session's messages in order. The sender's own socket and every other registered socket receive each text once, in order. |
| `Endpoint.SenderDroppedByPeerDisconnect` | main.py:306-308 | Suppose the sender is registered and its own socket is not faulted. A `WebSocketDisconnect` raised by a peer's socket during the sender's broadcast still ends the sender's loop and unregisters the sender. |
| `Endpoint.Receive` | main.py:303-306 | The method's new state and raised exception are exactly those of `Step`. |
| `Endpoint.WebSocketEndpoint` | main.py:298-308 | The `while` loop's final state and way of ending are exactly those of `Run`. |
| `PageScript.Decimal` | main.py:270 | `toString()` of a non-negative integer gives at least one digit, with no leading zero. Numbers below 10 get one digit, and numbers from 10 to 99 get two. |
| `PageScript.ValueOfDecimal` | main.py:270 | Reading back the digits `toString()` writes gives the number again. |
| `PageScript.PadStart` | main.py:270 | `padStart` keeps the string as its suffix. It fills the front with the fill character up to the width, and never shortens. |
| `PageScript.MinuteField` | main.py:270 | `minutes.toString().padStart(2, '0')`. `MinuteFieldTwoDigits` states that it is two digits that spell the minutes. |
| `PageScript.MinuteFieldTwoDigits` | main.py:270 | The minutes field is always exactly two digits, and they spell the minutes. |
| `PageScript.Hour12` | main.py:272-273 | The displayed hour is in 1..12 and agrees with the 24-hour hour modulo 12. So 0 and 12 show as 12. |
| `PageScript.Meridiem` | main.py:271 | The suffix is "PM" exactly when the hour is 12 or more, and "AM" otherwise. |
| `PageScript.Hour12Back` | main.py:271-273 | The displayed hour and the suffix together give back the 24-hour hour. |
| `PageScript.FormatTime` | main.py:268-275 | `formatTime` itself: the 12-hour hour, a colon, the minutes field, a space and the suffix. `FormatTimeFields`, `FormatTimeRoundTrip` and `FormatTimeExamples` give its meaning. |
| `PageScript.ParseFields` | main.py:274 | How the string `h:mm AM/PM` built by the template literal is split back into its fields. |
| `PageScript.FormatTimeRoundTrip` | main.py:268-275 | `formatTime` loses nothing: parsing its output gives back the hours and minutes. |
| `PageScript.FieldsAt` | main.py:274 | Where the hour, colon, minutes, space and suffix stand in the template literal's output. |
| `PageScript.FormatTimeFields` | main.py:268-275 | The output is 7 or 8 characters: an hour 1..12 that is 12 at midnight and noon, a colon, two digits spelling the minutes, a space, and "PM" exactly from noon on. |
| `PageScript.FormatTimeExamples` | main.py:268-275 | 00:05 shows as "12:05 AM", 09:30 as "9:30 AM", 12:00 as "12:00 PM" and 23:59 as "11:59 PM". |
| `PageScript.TrimStart` | main.py:261 | The result is a suffix of the input, the part dropped is white space, and the result does not start with white space. |
| `PageScript.TrimEnd` | main.py:261 | The result is a prefix of the input, the part dropped is white space, and the result does not end with white space. |
| `PageScript.Trim` | main.py:261 | `.trim()`, used at main.py:229 and main.py:261: `TrimStart` then `TrimEnd`. `TrimShape`, `TrimUnique` and `TrimIdempotent` give its meaning. |
| `PageScript.TrimShape` | main.py:261 | `trim()` is empty exactly when the input is all white space. Otherwise it neither starts nor ends with white space. |
| `PageScript.TrimUnique` | main.py:261 | White space, then a core without white space at its ends, then white space, trims to exactly that core. An empty core gives the empty string. |
| `PageScript.TrimIdempotent` | main.py:261 | Trimming twice is the same as trimming once. |
| `PageScript.JoinName` | main.py:228-233 | A name that is all white space is rejected, and no socket is opened. Otherwise the trimmed name is the client id. |
| `PageScript.SendMessage` | main.py:259-265 | The trimmed text is sent exactly when it is not empty and the socket exists and is open. The field is then cleared. Otherwise nothing is sent and the field keeps its text. |
| `PageScript.GuardsPassTrimmedText` | main.py:228-265 | A name that joins and a text that is sent are never empty and carry no white space at either end. |

## Left out

- FastAPI app creation, the static directory, CORS middleware and logging (main.py:14-30) are framework set-up with no logic of their own.
- The MongoDB client and `get_message_history` (main.py:38-41, main.py:67-69) are a foreign database query. `insert_one` is an append to a ghost store history, plus a flag saying whether it fails.
- `websocket.accept()` (main.py:48) is network I/O, as are any exceptions it raises; `connect` only registers the socket.
- `receive_text()` (main.py:303) is network I/O. A session is the finite sequence of texts it returns before it raises `WebSocketDisconnect`.
- Which exception Starlette raises when a send fails is not visible in main.py, so it is a parameter: a map from faulted sockets to `Disconnect` or `Failure`.
- `json.dumps(message.dict())` (main.py:306) is a library call and is a parameter `dumps`.
- `datetime.now()` (main.py:304) is a clock read and is an opaque timestamp string carried by each received text.
- `send_personal_message` tests `if websocket:`. A registered WebSocket object is always truthy, so the model tests only whether the id is registered.
- asyncio interleaving of several connection handlers is concurrency and is not modelled; each handler runs alone. This includes a `connect` or `disconnect` that changes the dict while another handler's `broadcast` iterates over it.
- The HTML/CSS template, `displayMessage`, the DOM updates and the browser `WebSocket` callbacks (main.py:74-227, main.py:277-288) are user interface.
- `encodeURIComponent` of the name and the server's URL decoding of it are not modelled; the trimmed name is the client id.
- `formatTime` is modelled on `getHours()` and `getMinutes()` as integers in 0..23 and 0..59. The `Date` object, time zones and parsing of the timestamp string are browser library code.
- The white-space test used by `trim()` lists the BMP code points that JavaScript's `trim()` removes. Strings are sequences of characters, not UTF-16 code units.
- In `sendMessage`, `socket && socket.readyState === WebSocket.OPEN` is one boolean input, because the socket's state is browser state.
- The `alert` shown for an empty name is UI output; the model only records that no socket is opened.
