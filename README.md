# WebXR streaming demo: signaling relay and H.264 preference, in Dafny

This project models the two pieces of real logic in a WebXR streaming demo.
In the demo, a streamer page renders a scene and sends it over WebRTC to a
headset page.

- **The signaling relay** of the streaming server (`image_server/server.js`).
  The relay has two role slots, `streamerSocket` and `headsetSocket`. Each
  slot is empty or holds one WebSocket connection. A message whose `role` is
  `"streamer"` or `"headset"` rebinds that slot to its sender; the last writer
  wins. The relay then forwards the message by its `type`:
  - an `offer` goes to the headset;
  - an `answer` goes to the streamer;
  - a `candidate` goes to the side opposite its sender.

  Closing a connection empties the slots that hold it. The module
  `SignalingRelay` (relay.dfy) has:
  - pure transition functions (`Register`, `Forwarded`, `HandleMessage`,
    `HandleClose`);
  - an independent routing table (`Destination`) that `Forwarded` is proved
    to agree with;
  - the class `Relay`, with the two slots and the send log as fields, whose
    `OnMessage` and `OnClose` methods are proved against those functions;
  - runs over event sequences, with lemmas about all runs and about the
    message shapes the two pages send.
- **`getLocalIp`** (same file). It is a first-match search over the
  interface table, with an early return from a nested loop. The module
  `LocalAddress` (local_ip.dfy) models it as a method with two loops. The
  operating system's table is an input.
- **`preferH264`** (`image_server/public/client.js`). It rewrites an SDP offer
  so that the H.264 payload type comes first among the formats of the first
  `m=video` line. Under section 5.1 of RFC 3264, the first format is the
  preferred one. The module `Sdp` (sdp.dfy) models the rewrite as a function
  over the CRLF-separated lines, with a sequence update at the media line.
  The module `Strings` (strings.dfy) models the JavaScript built-ins the
  rewrite uses (`split`, `join`, `includes`, `startsWith`) and proves that
  `split` and `join` are inverse to each other.

Sends are modelled as entries `Delivery(to, data)` appended to a log. A
delivery carries the parsed message itself, which stands for its
re-serialisation.

The relay keeps no offer queue. An offer that arrives while no headset is
bound is never delivered, not even once a headset registers
(`OfferBeforeHeadsetIsLost`). A frame that is not JSON is not dropped: it makes
the handler throw before any binding or send. So does the JSON value `null`,
because reading `data.role` on it raises a TypeError.

## Model

| member | source | states |
|---|---|---|
| SignalingRelay.Parse | image_server/server.js:35-36 | `Parse` succeeds exactly for non-null JSON values, and yields the message itself. A frame that is not JSON fails with a SyntaxError. The JSON value `null` fails with a TypeError, raised by the first property read. |
| SignalingRelay.Register | image_server/server.js:36-42 | `role === "streamer"` binds the sender as streamer and leaves the headset slot alone. `"headset"` is symmetric. Any other or absent role leaves the state unchanged. Nothing is sent. |
| SignalingRelay.Forwarded | image_server/server.js:44-57 | The handler's three independent `if`s produce exactly one delivery, of the message itself, to the destination named by the routing table `Destination`. They produce none when the table names no destination. |
| SignalingRelay.Destination | image_server/server.js:44-57 | The routing table only ever names a connection that holds the streamer or the headset slot. |
| SignalingRelay.HandleMessage | image_server/server.js:34-58 | Fails exactly when the frame does not parse to a value. Otherwise the old log is kept as a prefix and at most one delivery is added. |
| SignalingRelay.MessageSends | image_server/server.js:44-57 | A delivery made by one message carries that message itself. It goes to a connection that holds a slot once role binding is done. |
| SignalingRelay.HandleClose | image_server/server.js:60-63 | Afterwards the closing connection holds no slot. A slot it did not hold keeps its binding. Each slot either keeps its binding or is emptied. The log is unchanged. |
| SignalingRelay.Relay.constructor | image_server/server.js:28-29 | Both slots start empty and nothing has been sent. |
| SignalingRelay.Relay.OnMessage | image_server/server.js:34-58 | The callback's new fields equal `HandleMessage` of the old ones. On a parse failure it returns the error and leaves every field unchanged. |
| SignalingRelay.Relay.OnClose | image_server/server.js:60-63 | The callback's new fields equal `HandleClose` of the old ones. |
| SignalingRelay.Relay.Send | image_server/server.js:46 | `send` appends exactly one delivery to the log. |
| SignalingRelay.RunSendsAtMostOnePerEvent | image_server/server.js:45-57 | Over any run, each event causes at most one send, and earlier sends are never altered. |
| SignalingRelay.RunSendsOnlyReceived | image_server/server.js:46-55 | Every message the relay sends during a run is one it received during that run. |
| SignalingRelay.UnboundReceivesNothing | image_server/server.js:36-63 | A connection that holds no slot and sends no role-bearing message is sent nothing and stays unbound. This covers a closed connection and one displaced by a later registration of the same role. |
| SignalingRelay.RunAppend | image_server/server.js:31-64 | Running two event sequences one after the other equals running their concatenation. |
| SignalingRelay.CandidateWithStreamerRole | image_server/server.js:36-53 | A `candidate` carrying `role: "streamer"` first binds its sender as streamer. It then goes to the bound headset, or nowhere if no headset is bound. |
| SignalingRelay.Pairing | image_server/server.js:36-42 | The registrations `{role: "streamer"}` and `{role: "headset"}` from two connections bind both slots and send nothing. |
| SignalingRelay.OfferAnswer | image_server/server.js:45-50 | For any two connections bound as streamer and headset, the streamer's offer reaches the headset and the headset's answer reaches the streamer, in that order, whatever was sent before. |
| SignalingRelay.CandidatesCross | image_server/server.js:51-57 | For any two connections bound as streamer and headset, the streamer's candidate reaches the headset and the headset's candidate reaches the streamer. |
| SignalingRelay.Exchange | image_server/server.js:45-57 | With connection 1 bound as streamer and connection 2 as headset, and nothing sent yet, the offer reaches the headset and the answer reaches the streamer. Each side's candidate reaches the other side. |
| SignalingRelay.Handshake | image_server/server.js:34-58 | The whole session, from both registrations to the last candidate, sends exactly four deliveries, in order. |
| SignalingRelay.OfferBeforeHeadsetIsLost | image_server/server.js:45-47 | In a run from the initial state, an offer from connection 1 sent before any headset registers is neither sent nor stored. The later headset registration by connection 2 delivers nothing. |
| SignalingRelay.LastStreamerWins | image_server/server.js:36-38 | In a run from the initial state in which connections 1 and then 3 register as streamer, an answer from connection 2 goes to connection 3 only. |
| LocalAddress.GetLocalIp | image_server/server.js:67-77 | Returns the address of the first interface, in nested iteration order, whose family is `"IPv4"` and that is not internal. No earlier interface qualifies. Returns `"localhost"` when no interface qualifies. |
| Strings.Find | image_server/public/client.js:391 | The first occurrence of a pattern: it occurs there, and nowhere before. None exactly when the pattern does not occur. |
| Strings.Split | image_server/public/client.js:391 | `split` yields at least one piece, and no piece contains the separator. |
| Strings.Join | image_server/public/client.js:402-403 | `join` of a single piece is that piece. What `join` means in general is stated by the round trips `JoinSplit` and `SplitJoin`. |
| Strings.JoinSplit | image_server/public/client.js:391-403 | Joining the pieces of a split with the same separator gives back the input. |
| Strings.SplitJoin | image_server/public/client.js:401-403 | Splitting a join gives back the pieces, for pieces that do not contain the separator and a separator that does not overlap itself (CRLF and the space both qualify). |
| Sdp.FindIndex | image_server/public/client.js:392 | `findIndex` returns the first index whose line satisfies the test, or None when no line does. |
| Sdp.FirstMatchFrom | image_server/public/client.js:397 | The regular expression's search: the result is a position where the expression matches, with no match between the start position and it. None means there is no match from the start position on. |
| Sdp.CapturedPayload | image_server/public/client.js:397 | `match(/:(\d+) H264\/90000/)[1]` is a non-empty run of digits, and a line that matches mentions `H264/90000`. None exactly when no position matches. |
| Sdp.CaptureIsLeftmost | image_server/public/client.js:397 | Whenever the expression matches at some position and nowhere before it, the capture is the greedy digit run that follows the colon at that position. |
| Sdp.H264Payloads | image_server/public/client.js:395-397 | The filter/map fails exactly when some line mentions `H264/90000` without matching the pattern. It is empty exactly when no line mentions it. Otherwise its first element is the capture from the first line that mentions it. |
| Sdp.Without | image_server/public/client.js:402 | The filter removes every occurrence of the payload. It keeps every other field as often as it occurred, and keeps the fields in their original order (a subsequence of the input). Together, these fix the result. |
| Sdp.Reorder | image_server/public/client.js:401-402 | The first (up to three) fields are kept and the payload comes next. After it come exactly the remaining original formats without the payload, in their original order. Every field of the result is the payload or an original field. |
| Sdp.RewriteMLine | image_server/public/client.js:401-402 | When the payload has no space in it, splitting the rewritten m-line by spaces gives back exactly the reordered fields. |
| Sdp.ReorderCounts | image_server/public/client.js:402 | Among the formats after the rewrite, the payload occurs exactly once. As a multiset, the remaining formats are the original formats without the payload. |
| Sdp.ReorderPermutes | image_server/public/client.js:402 | When the original formats list the payload exactly once, the rewrite is a permutation of the fields. When they do not list it, the rewrite adds it once. |
| Sdp.ReorderIdempotent | image_server/public/client.js:402 | For a line with at least three fields, reordering twice equals reordering once. |
| Sdp.PreferH264 | image_server/public/client.js:390-404 | Without an `m=video` line, the input is returned unchanged. When no line mentions `H264/90000`, the input is returned unchanged. It throws exactly when there is an `m=video` line and some line mentions `H264/90000` without matching the pattern. |
| Sdp.PreferH264Lines | image_server/public/client.js:391-403 | The output has as many lines as the input. Every line except the first `m=video` line is identical. That line's fields are the reordered fields, with the first line's capture as the first format. The other formats follow in their original order, and the capture occurs exactly once among the formats. |
| Sdp.PreferH264Idempotent | image_server/public/client.js:390-404 | Applying `preferH264` to its own output returns that output, provided the first `m=video` line has at least three fields and does not itself mention `H264/90000`. |

## Left out

- The HTTPS server, `express` static serving, TLS certificate loading and the `puppeteer` launch (image_server/server.js:1-26, 78-99) are I/O and foreign libraries. `getLocalIp` takes the interface table as input instead of calling `os.networkInterfaces()`.
- After a handler throws, the real server's process ends: nothing catches the exception, so no later event is handled. `Step` instead lets a run go on with the state unchanged. Runs that continue past a failed parse therefore go beyond anything the real server does. The run lemmas also hold for every prefix of a run, so they cover the sequences the real server does process.
- `send` to a connection that is no longer open is recorded like any other send. Whether the WebSocket library reports or swallows the failure is not modelled.
- JSON is not parsed or serialised. A frame is given as its parse result. A message keeps only `role` and `type`, plus an opaque remainder. A non-string `role` or `type` is represented as absent, since comparing it with a string literal is false either way.
- Console logging is left out.
- All of image_server/public/client.js other than `preferH264` is left out. That is scene setup, rendering, controller input and the WebRTC peer connection. The other client pages, the shaders, app.py, server.js and 3.js are left out too: they are rendering or browser glue.
- Strings are sequences of UTF-16 code units in JavaScript and of characters here. `split`, `includes`, `startsWith` and the regular expression only compare units, so nothing depends on the encoding.
