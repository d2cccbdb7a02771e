# Relay server model

A Dafny model of `server.js`, a TCP relay that clients talk to in newline-delimited JSON.

- Each connection gets an id, the decimal spelling of a counter that starts at 1. The connection is told its id (`welcome`), and every other registered client is told it joined (`join`).
- Data from a connection is appended to that connection's buffer, and every complete line is cut off and handled in turn:
  - the line is trimmed;
  - a blank line, a line that is not JSON, or a message of any other type is ignored;
  - an `update` is relayed, with the sender's id and a timestamp, to every other registered client;
  - a `ping` is answered to the sender with a `pong`.
- When a connection closes, it is removed from the registry and every remaining client is told it left (`leave`).

The relay is a class, `Server.Relay`, with the fields the server updates:
- the counter `nextId`;
- the registry `clients`, mapping each id to its receive buffer;
- `sent`, everything ever written to each accepted socket.

Its methods are the three socket events (`Connect`, `Receive`, `Close`) and the writes and fan-out loops they are built from. Each method is proved against pure specification functions in `Protocol`. Those functions are:
- `Fanout`: one event written to a set of sockets;
- `Decode`: what a line asks for;
- `Handle` and `HandleAll`: the effect of one request, and of a sequence of requests, on the outboxes.

The receive loop is proved to handle exactly the lines that `Framing.Split` cuts from the buffer. The properties of the protocol are proved as lemmas about these functions.

Modules:
- `Wrappers`: `Option`.
- `Text`: `String(n)`, `indexOf` and `trim` over `seq<char>`.
- `Framing`: cutting a buffer into lines, and the way chunks add up.
- `Json`: parsed values and property reads, both as written and as intended.
- `Protocol`: ids, events, requests, and their effect on the outboxes.
- `Server`: the relay state and its event handlers.

## Model

| member | source | states |
|---|---|---|
| Text.Decimal | server.js:18 | `String(n)` spells a non-negative counter with digits only and no leading zero |
| Text.ReadDecimalOfDecimal | server.js:18 | reading the spelling of `n` back as a number gives `n` |
| Text.DecimalInjective | server.js:18 | two counter values with the same spelling are equal |
| Text.IndexOf | server.js:37 | the result is the first position holding the character, and it is -1 exactly when the character does not occur |
| Text.Trim | server.js:38 | the result is a slice of the input, with only white space cut off on each side and none left at either end; it is empty exactly when the input is all white space |
| Framing.Split | server.js:36-39 | the loop's cut of a buffer into complete lines and the tail left after the last line feed; its meaning is given by SplitJoin and JoinSplit (Join inverts it both ways) and SplitClean (nothing it returns holds a line feed) |
| Framing.SplitClean | server.js:37-39 | no line cut from a buffer, and not the tail left behind, contains a line feed |
| Framing.SplitAtFirst | server.js:37-39 | one turn of the loop takes everything before the first line feed as the next line and continues after it |
| Framing.SplitJoin | server.js:37-39 | the lines, each followed by a line feed, then the tail, give back the buffer: nothing is lost or reordered |
| Framing.JoinSplit | server.js:37-39 | any cut into lines and a tail without line feeds is recovered by splitting its join, so the cut is unique |
| Framing.SplitCons | server.js:37-39 | a line without a line feed, followed by a line feed, is cut off as the first line |
| Framing.JoinAppend | server.js:33 | text appended after a buffer ends up in its tail |
| Framing.JoinConcat | server.js:37-39 | joining two groups of lines is joining the first in front of the join of the second |
| Framing.SplitAppend | server.js:33-39 | the lines of a buffer plus a chunk are the buffer's lines, then the lines of its tail plus the chunk; the final tail is the same |
| Framing.Feed | server.js:30-39 | chunk after chunk delivered to one connection, each appended and cut; FeedIsSplit proves it equal to one Split of the whole stream |
| Framing.FeedIsSplit | server.js:30-39 | from a buffer without a line feed, delivering chunks one by one cuts the same lines, in the same order, and leaves the same buffer as delivering their concatenation at once |
| Json.GetAgreesAwayFromNull | server.js:52 | the intended read and the read as written agree on every value except `null` |
| Protocol.IdOf | server.js:18 | `String(n)` for the counter value `n`; IdsDistinct proves distinct values give distinct ids |
| Protocol.Issued | server.js:6-18 | the ids handed out so far; IssuedSpelled characterises it and FreshId proves the next id is not among them |
| Protocol.IssuedSpelled | server.js:6 | the issued ids are exactly the spellings of the counter values from 1 up to the current one, exclusive |
| Protocol.IdsDistinct | server.js:18 | distinct counter values give distinct ids |
| Protocol.FreshId | server.js:18 | the id spelled from the current counter, or any later value, has never been issued |
| Protocol.Fanout | server.js:25-28 | a fan-out keeps every socket's outbox and adds no other |
| Protocol.FanoutOne | server.js:9-15 | a fan-out to one socket appends the event to that socket's outbox only |
| Protocol.FanoutAdd | server.js:25-28 | one more recipient in a fan-out appends the event to that recipient's outbox only |
| Protocol.FanoutSkips | server.js:25-27 | replacing the outbox of a socket the fan-out skips commutes with the fan-out |
| Protocol.Decode | server.js:38-67 | the request a line makes, read as intended; UpdateRelayed, PingAnswered and SkippedLineWritesNothing give its effect case by case, and NullLineSkipped covers the `null` line |
| Protocol.DecodeAsWritten | server.js:38-67 | the request a line makes, read as the code is written, crash included; NullLineCrashes and DecodeAgreesAwayFromNull relate it to Decode |
| Protocol.NullLineCrashes | server.js:44-52 | as written, a line whose JSON is `null` raises an error that nothing catches |
| Protocol.NullLineSkipped | server.js:40-52 | in the corrected reading, a line whose JSON is `null` is skipped and writes nothing, like any message without a known type |
| Protocol.DecodeAgreesAwayFromNull | server.js:38-67 | on every line that does not parse to `null`, the corrected reading is the one written |
| Protocol.Requests | server.js:37-69 | there is one request per complete line |
| Protocol.RequestsAppend | server.js:37-69 | the requests of two groups of lines are those of the first group, then those of the second |
| Protocol.Handle | server.js:52-67 | handling a request keeps every socket's outbox and adds none |
| Protocol.HandleAll | server.js:37-69 | the effect of all lines of one delivery, in order; HandleAllAppend, HandleAllOnlyPeers, NoEchoToSender and SkippedLineDoesNotStop are proved about it, and Receive is proved equal to it |
| Protocol.SkippedLineWritesNothing | server.js:40-48 | a blank line, a line that is not JSON, or a message of another type is skipped and writes nothing |
| Protocol.UpdateRelayed | server.js:52-64 | an update adds exactly one `update` event, with the sender's id, its `pos` and `vel` and the timestamp, to every registered outbox except the sender's; every other outbox is unchanged |
| Protocol.PingAnswered | server.js:65-66 | a ping adds exactly one `pong` with the timestamp to the sender's outbox, and nothing anywhere else |
| Protocol.StepLine | server.js:37-69 | handling a line in front of others is handling it first, then the others with the clock one line further on |
| Protocol.HandleFirstLine | server.js:37-69 | one turn of the receive loop leaves the same remaining work in the end, and the same tail |
| Protocol.HandleAllAppend | server.js:37-69 | handling two runs of requests in sequence is handling their concatenation |
| Protocol.HandleAllOnlyPeers | server.js:61-66 | any requests from a registered sender leave every unregistered socket's outbox unchanged, and add or remove no outbox |
| Protocol.NoEchoToSender | server.js:61-66 | whatever the sender sends, its own outbox only grows, and only by `pong` events: its updates never come back to it |
| Protocol.SkippedLineDoesNotStop | server.js:40-48 | a skipped line does not stop the lines after it, which are handled as if it were not there |
| Protocol.HandleLinesAppend | server.js:30-69 | lines handled in two groups, the second with the clock moved on, have the effect of all of them handled at once |
| Protocol.ChunkingDoesNotMatter | server.js:30-69 | two chunks delivered one after the other cut the same lines, leave the same buffer and write the same events as their concatenation delivered at once |
| Server.Targets | server.js:25-26 | a fan-out loop writes only to registered clients |
| Server.Consistent | server.js:6-39 | the state kept between two socket events: every issued id has an outbox and no other id has one, registered ids are issued, and no buffer holds a line feed; FanoutKeeps, ConnectKeeps, ReceiveKeeps and CloseKeeps prove every event preserves it |
| Server.FanoutKeeps | server.js:25-28 | writing to registered clients keeps the relay state consistent: every issued id has an outbox, every registered client is issued, and no buffer holds a line feed |
| Server.ConnectKeeps | server.js:18-19 | the new id has no outbox yet, and registering it keeps the state consistent |
| Server.ReceiveKeeps | server.js:33-39 | a buffer left without a line feed keeps the state consistent |
| Server.CloseKeeps | server.js:72-77 | removing a client and telling the others it left keeps the state consistent |
| Server.Relay.constructor | server.js:6-7 | the counter starts at 1, with nobody registered and nothing written |
| Server.Relay.Send | server.js:9-15 | a write appends one event to that socket's outbox and changes nothing else |
| Server.Relay.Broadcast | server.js:25-28 | the loop over the registry writes the event exactly once to every registered client except the skipped one, and to no other socket |
| Server.Relay.Accept | server.js:18-22 | the id is the spelling of the old counter, which moves on by one; the id was never issued before; the client is registered with an empty buffer and its outbox holds just its `welcome` |
| Server.Relay.Connect | server.js:17-28 | as for Accept, and every client registered before is sent one `join` with the new id; sockets that are no longer registered are not written to; consistency is kept |
| Server.Relay.HandleLine | server.js:38-67 | the outboxes change exactly as `Handle` says for the request the line makes; the registry and the counter are unchanged |
| Server.Relay.Receive | server.js:30-70 | data for an unregistered id changes nothing. Otherwise the buffer becomes the tail that `Split` leaves of the old buffer plus the chunk, and the outboxes change exactly as `HandleAll` says for the lines cut from it, in order, with the n-th line stamped `clock(n)`. Unregistered sockets are not written to, and consistency is kept, so no line feed is left buffered |
| Server.Relay.Close | server.js:72-78 | the client is removed; every client still registered is sent one `leave` with its id; sockets that are no longer registered are not written to; consistency is kept |

## Left out

- The TCP listener, the port constant, `console.log` and the socket `error` handler (server.js:80-87): they are I/O with no effect on the relay's state.
- `JSON.parse` is a parameter `parse`, mapping a line to a value, or to nothing where parsing throws. `JSON.stringify` is not modelled: a write is the `Event` it would serialise.
- `Date.now()` is a parameter `clock`, indexed by the ordinal of the line within one delivery. Received data is a `string`: decoding each chunk as UTF-8 on its own, which can split a multi-byte character across chunks, is not modelled.
- Server.Relay.Send: a write that throws is swallowed and otherwise has no effect on the relay, so the model appends to the outbox every time. Buffering in the socket and a peer that never reads are not modelled.
- Server.Relay.Broadcast: iterates over the registered ids in an unspecified order. A JavaScript `Map` iterates in insertion order. Each recipient gets one event either way, so no outbox depends on the order.
- Server.Relay.Receive and Server.Relay.Close can be called for any id. On a real socket, `data` and `close` events come only from accepted connections, and `close` comes once. Close on an id that is not registered still tells every registered client it left, as the code would.
- Protocol.IdOf: the counter is an unbounded natural number, so every id is fresh. In the code the counter is a JavaScript number: once it reaches 2^53, `nextId++` no longer changes it, every later connection gets the same id, and `clients.set` replaces the entry of the earlier connection with that id. FreshId holds for the code only below that bound. `String(n)` also switches to exponent notation from 10^21 on.
- Protocol.Decode: the relay model reads a message whose JSON is `null` as the corrected reading does (see Findings). DecodeAsWritten models the crash the code as written has.

## Findings

| source | as written | input that shows it | evidently intended | confidence | as-written member | corrected member |
|---|---|---|---|---|---|---|
| server.js:52 | `msg.type` is read outside the `try` around `JSON.parse`, so a line whose JSON is `null` throws a TypeError that no handler catches, and the process exits | a client sends the line `null` | a message without a type is ignored, like any other unknown message | not executed | Protocol.NullLineCrashes | Protocol.NullLineSkipped |
