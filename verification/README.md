# A verified model of gost-plugin's tunnel

gost-plugin carries shadowsocks traffic over websocket, HTTP/2, gRPC or multiplexed streams. This project models the
parts of it that hold state, loop over shared data or transform bytes, and proves what they keep, in Dafny 4.11
(`dafny verify dfyconfig.toml`).

Four components are covered.

1. **The mux session pool** (`mux/mux.go`). `SessionPool` is a step system: dials, cleaner passes and cancellation hold
   the lock and walk over the session map one entry at a time, while streams close, sessions die and time passes between
   any two of their actions. Results about every run: a cap on the streams of a session, a bound on the number of
   sessions against the peak load, custody of every session, and (in `Reaping`) reaping within a bounded delay. `MuxPool`
   is the code: a class whose methods update the session map in place and record a run of the step system.
2. **The byte-stream adapters and early data** (websocket, gun, delayed dial). `Residue` is the buffer that turns messages
   back into a stream, `Websocket` and `Gun` are the connection classes, `Base64` the encoding of section 4 of RFC 4648,
   `EarlyData` the delayed dial and the header that carries the first write, and `EndToEnd` composes them with the two
   relay copiers into one machine with failures at every point. `PlainTunnel` is the tunnel without early data (gun in
   both directions, websocket from server to client), shown to be simulated by that machine.
3. **The plugin-option codec** (`args/args.go`). `ArgsScan` is the escaping layer, `ArgsCodec` parser, encoder and
   multimap for an arbitrary separator, `Grammar` the strings that are accepted and the pairs they stand for, `Separators`
   the code's own pair of separators, `Order` the key sorting, `Numbers` decimal numbers, `Settings` what the SIP003
   environment resolves to, `Options` the code that resolves it.
4. **The accept queue and the life of a connection** (`gost/proxy/tcp.go`, the gun, h2 and websocket listeners,
   `handler.go`). `Lifetime` is a step system of producers, the bounded queue, the consumer and the relays; `Gateway` is
   the code of the goroutines over shared state, each recording a run of that system; `WsListener` and `Http` are the
   upgrade handler and the HTTP/2 connection.

## How to read it

- Code that changes state is a class or a method with loops, and its `ensures` equates the new state with a function of
  the old one. Those functions are what the lemmas are about.
- Concurrency: a run is a sequence of labelled atomic steps, `Legal` says that each was enabled, `After` gives the state.
  In `Gateway`, `MuxPool` and `Http` a goroutine passes a point of preemption (`Preempted`, `PreemptedRelay`, `Drift`)
  between its own actions. These methods do nothing themselves; what matters is that the caller knows no more than their
  contract afterwards. Each module has a lemma (`PreemptionCovers`, `RelayPreemptionCovers`, `DriftCovers`) proving that
  the contract holds of every run of the other goroutines, so nothing that can happen is ruled out.
- Outcomes that depend on the network, a library or the clock are parameters: whether a dial or a send succeeds, after how
  many bytes reading a message fails, which random id is drawn, what `Accept` returns.
- A call that blocks is not a call that returns, so `Read` on an empty healthy connection, `Read` before the dial and
  `AcceptConn` on an empty queue are excluded by their preconditions; `Tun` and `RelayConn` report whether they have
  returned or are still waiting. A mutex is modelled from the moment it has been acquired.
- `close` of a closed channel panics in Go; here it is a precondition of `Close`. `Gateway.CloseConnection` carries it, and
  both of its callers, the producer that drops a connection and the relay, are proved to meet it.

## Where the code and its documentation differ

- `args/args.go:223-228` tests SS_LOCAL_HOST twice and never SS_LOCAL_PORT. "Ignored when any of the four variables is
  unset" holds of all environments but those in which SS_LOCAL_PORT alone is missing (`Options.EnvIgnored`); there,
  resolution succeeds exactly when the plugin options give the port and nothing else is wrong (`Options.MissingLocalPort`),
  and `Options.MissingLocalPortFails` is an environment in which it fails.
- The encoder joins with `,` and the parser splits at `;`. The parser reads back what the encoder wrote exactly for
  well-formed multimaps with at most one pair and no `;` in it (`Separators.SourceRoundTrip`,
  `Separators.SourceSeparatorsDiffer`). The other round trips are about one separator used on both sides.
- `HttpConnection.Write` checks `done` only at its start, and a relay closes the connection when one of its copiers has
  ended, also while the other is writing to it (`Lifetime.CopierOutlivesClose`). The response writer is used after Close
  exactly when a Close falls between the check and a use by the same Write (`Http.LateIffCloseBetween`, `Http.LateWrite`).
- `int(p.concurrency)` and `int(d.ed)` wrap for values above 2^63 - 1. The session bound holds of every run exactly when
  the concurrency fits an int (`Reaping.BoundIffFits`); the stream cap holds in any case.
- The random session id is not checked before it is used; a collision with a live session loses that session
  (`Reaping.CollisionLosesSession`, and `SessionPool.InsertCustody` for the exact condition).
- `websocketConn.Write` reports `n = len(b)` together with an error; only writes without an error count as accepted.
- When early data does not decode, `Upgrade` logs the error and keeps what was decoded before it.

## Model

| member | source | states |
|---|---|---|
| ArgsScan.IndexUnescaped | args/args.go:72-91 | the index-driven loop computes Scan: same stop, same unescaped text, same failure |
| ArgsScan.ScanMeaning | args/args.go:69-91 | scanning stops at the first terminator preceded by an even number of backslashes (or the end) with exactly the unescaped bytes before it, and fails exactly when a dangling backslash comes before any such terminator |
| ArgsScan.BackslashEscape | args/args.go:300-310 | the loop computes Escape |
| ArgsScan.EscapeMeaning | args/args.go:300-310 | in the escaped text exactly the backslashes and the given bytes have a backslash before them, and without those backslashes it is the string |
| ArgsScan.ScanEscaped | args/args.go:72-91 | scanning an escaped string followed by a terminator and anything else returns the string and the escaped length |
| ArgsCodec.CollectMeaning | args/args.go:64-67 | repeated Add keeps for each key exactly its values in order and never leaves an empty list |
| ArgsCodec.SelectMeaning | args/args.go:64-67 | the values of a key are those of exactly its pairs, in order |
| ArgsCodec.ParsePluginOptions | args/args.go:254-298 | the parser's loop, whose index strictly increases within the string, computes Parse with byte 59 (`;`), including which error comes first |
| ArgsCodec.ParseWellFormed | args/args.go:273-276 | an accepted string yields no empty key and no key without a value |
| ArgsCodec.EncodeSmethodArgs | args/args.go:317-340 | whatever order the map iteration yields the keys in, the result is the one encoding with keys in ascending order and byte 44 (`,`) |
| ArgsCodec.EncodeMeaning | args/args.go:317-340 | that encoding is, with commas between, one text key=value for every pair of the multimap, keys ascending and values of a key in order, in which exactly the equal signs, commas and backslashes of key and value are escaped |
| Order.AscendingUnique | args/args.go:322-326 | a key set has only one sorted enumeration, so the encoding does not depend on map iteration order |
| Order.LeqMeaning | args/args.go:322-326 | the order is that of Go's strings: a prefix, or smaller at the first difference |
| ArgsCodec.ParseJoined | args/args.go:254-298 | parsing joined encoded pairs gives the list of pairs back, or the empty-key error exactly when some key is empty |
| ArgsCodec.RoundTrip | args/args.go:317-340 | for every separator other than `=` and `\` and every visiting order of the keys: parsing the encoded multimap returns it, values in order, if and only if no key is empty and no value list is empty |
| ArgsCodec.EncodeRoundTrip | args/args.go:317-340 | the same for the sorted encoding |
| ArgsCodec.EncodeInjective | args/args.go:317-340 | equal encodings come from equal multimaps, even across different visiting orders |
| ArgsCodec.Normalisation | args/args.go:254-340 | re-encoding the result of any accepted string and parsing again gives the same multimap, and normalising a second time changes nothing |
| Separators.SourceRoundTrip | args/args.go:317-340 | with the code's own separators, `,` in the encoder and `;` in the parser, a multimap survives if and only if it is well formed, has at most one pair, and no key or value of it contains a `;` |
| Separators.SourceSeparatorsDiffer | args/args.go:329-339 | a well-formed multimap that does not survive |
| Grammar.ParseAccepts | args/args.go:254-298 | cut at its unescaped separators, a string is accepted if and only if no segment has an empty key and no backslash dangles at its end; with both faults the empty key is the one reported |
| Grammar.ParseReads | args/args.go:254-298 | the pairs of an accepted string are its segments in order: the key is the unescaped text before the first unescaped `=`, the value the unescaped text behind it, or the text "1" when there is none |
| ArgsCodec.ParseComposes | args/args.go:254-298 | for accepted non-empty s1, s1 + separator + s2 is accepted if and only if s1 does not end in an unescaped separator and s2 is accepted, and then each key holds its values from s1 followed by those from s2 |
| Options.ParseEnv | args/args.go:210-246 | the environment resolves to ResolveEnv: nothing if one of the three tested variables is unset, else the SS values overridden by plugin options in any range order |
| Settings.EnvLookup | args/args.go:53-62 | a lookup gives the first value of a repeated plugin option, else the SS value of the four address keys, else nothing |
| Options.Options.ApplyOptions | args/args.go:93-208 | the fields, updated in place, and the success flag end as Resolve says, also when an error leaves them half updated; an ignored environment changes nothing; otherwise it succeeds if and only if the options are accepted and there are field values as they should be, and then each of the twenty fields is the first plugin value of its name, else the SS value, else what it was, with local and remote exchanged exactly when the final `server` is true |
| Settings.ResolveMeans | args/args.go:93-208 | the same of Resolve |
| Numbers.NumberMeaning | args/args.go:110-115 | a text is read as n below the limit if and only if it is the printed form of n behind any number of zeros |
| Options.RoleMirror | args/args.go:126-169 | for one environment, server mode and client mode both succeed or both fail; without a `server` option the server's result is the client's with local and remote address and port exchanged, whatever addresses the options held before, and with one both end as the same server |
| Settings.ResolveOk | args/args.go:93-246 | resolution succeeds if and only if the environment is ignored, or the plugin options are accepted and both ports (options before environment) and every given `mux`, `logLevel` and `ed` are numbers in range |
| Options.EnvIgnored | args/args.go:210-228 | the environment is ignored if and only if one of the three tested variables is unset; "ignored when any of the four is unset" fails exactly when SS_LOCAL_PORT alone is unset |
| Options.MissingLocalPort | args/args.go:223-228 | with SS_LOCAL_PORT alone unset, resolution succeeds if and only if the plugin options are accepted, give localPort as a number, and the other numbers are in range |
| Options.MissingLocalPortFails | args/args.go:223-228 | an environment without SS_LOCAL_PORT that is not ignored and does not resolve |
| Base64.RoundTrip | gost/proxy/client/ws.go:172-174 | decoding undoes encoding for every byte string, and only the empty string encodes to the empty header |
| Base64.Alphabet | gost/proxy/client/ws.go:172-174 | the 64 characters are those of table 1 of RFC 4648 |
| Base64.EncodeMeaning | gost/proxy/client/ws.go:172-174 | every three bytes, the last group possibly incomplete, become four digits to base 64, those of missing bytes replaced by `=` (section 4 of RFC 4648) |
| Base64.DecodeStops | gost/proxy/server/ws.go:58-66 | a fault behind whole groups makes decoding fail with exactly those groups decoded |
| Residue.ReadsConserve | gost/protocol/websocket/conn.go:15-22 | for every schedule of buffer sizes, delivered bytes followed by residue and unread messages are what was pending |
| Residue.ChunkingIndependent | gost/protocol/gun/conn.go:53-66 | two schedules that deliver the same number of bytes deliver the same bytes and leave the same remainder |
| Residue.DrainBound | gost/protocol/gun/conn.go:53-66 | with non-empty buffers at most (unread bytes + unread empty hunks) reads return, and that many drain everything |
| Websocket.ReadIsPrefix | gost/protocol/websocket/conn.go:15-22 | a successful read loses nothing; a failing one hands out only a prefix of what was pending, and failure is final |
| Websocket.WebsocketConn.Read | gost/protocol/websocket/conn.go:15-22 | the bytes copied, the error and the new residue are those of ReadStep, partial data with an error included, and the rest of the caller's buffer is untouched |
| Websocket.ReadMeaning | gost/protocol/websocket/conn.go:15-22 | a read fails if and only if it needs the next message and that fails; it fills the buffer or uses up the residue or message it has taken, and what it returns followed by the new residue is that |
| Websocket.WebsocketConn.Write | gost/protocol/websocket/conn.go:24-28 | reports len(b) even on error; the message is sent exactly when there is no error |
| Gun.GunConnection.Read | gost/protocol/gun/conn.go:53-66 | a successful read is Residue.Read on the hunks: it fills the buffer or uses up the residue or hunk, of which the rest is the new residue; a failing Recv changes nothing |
| Gun.ReadsLikeWebsocket | gost/protocol/gun/conn.go:53-66 | data and residue are those of a websocket read, and a failing Recv is a read that fails before the first byte |
| Gun.GunConnection.Write | gost/protocol/gun/conn.go:69-76 | one hunk per successful write, n is zero on error |
| Gun.GunConnection.Close | gost/protocol/gun/conn.go:79-82 | closes `done`; demands that it was open |
| EarlyData.StreamWebsocketConn | gost/proxy/client/ws.go:148-182 | the header set step by step carries the encoded early data exactly when there is some, the user agent, and the host name if there is one, and nothing has been sent as a message |
| EarlyData.WebsocketClientConn | gost/proxy/client/ws.go:77-92 | with ed > 0 an undialled connection, otherwise one whose handshake carries no data, or the failure of the dial |
| EarlyData.DelayDialConn.Write | gost/proxy/client/ws.go:104-126 | the state and result are those of WriteStep; the first write goes into the header if it is a non-nil slice of at most int(ed) bytes, else it is a message like every later one; the count is the whole length on success and when only sending fails, and zero when closed or when the dial fails, which closes; `dialed` is closed at most once |
| EarlyData.WriteCounts | gost/proxy/client/ws.go:104-126 | the same about the count for WriteStep |
| EarlyData.DelayDialConn.Read | gost/proxy/client/ws.go:128-136 | once dialled, fails when closed and otherwise is the read of the inner connection |
| EarlyData.DelayDialConn.Close | gost/proxy/client/ws.go:138-146 | marks the connection closed and closes the inner one if there is one |
| EarlyData.DelayAlways | gost/proxy/client/ws.go:104-146 | after every history of calls `dialed` has been closed at most once, and exactly when there is an inner connection, so no read is forwarded to nil |
| EarlyData.ClosedStaysClosed | gost/proxy/client/ws.go:105-107 | after closing, no history of calls gets a byte accepted or changes anything |
| EarlyData.Transparent | gost/proxy/client/ws.go:77-126 | for every `ed`, history of client calls and schedule of server reads: delivered bytes, residue and messages in flight are exactly the accepted writes |
| EarlyData.FirstWriteOnce | gost/proxy/client/ws.go:104-126 | for every history of calls, failed dials, failed sends, reads and closes included, the header and the messages are exactly the accepted writes, one entry each and in order; the header is used if and only if ed > 0 and the first call that is not a read is a write of a non-nil slice of at most int(ed) bytes whose dial succeeds |
| EarlyData.WithoutFailures | gost/proxy/client/ws.go:109-122 | without failures every write is accepted, and all but an early first one are one message each |
| EarlyData.SameStream | gost/proxy/server/ws.go:58-66 | whatever two values of `ed`, the same writes deliver the same byte stream |
| WsListener.WSListener.Upgrade | gost/proxy/server/ws.go:45-71 | which of the four outcomes occurs; a queued connection is open and starts with the decoded header as residue, which for an encoded header is the encoded data; a dropped one is closed |
| EndToEnd.EndToEndPrefix | handler.go:51-60 | client to server over websocket: in every reachable state the bytes written at the far end are a prefix of the bytes read at the near end, and without an error the missing part is exactly what sits in copy buffers, header or residue, and messages in flight |
| EndToEnd.NeverStuck | handler.go:51-60 | without an error, undelivered bytes always leave some party an enabled step that brings delivery closer |
| EndToEnd.CanComplete | gost/proxy/client/ws.go:104-126 | every error-free run extends, without reading more, to one in which everything read has been written at the far end |
| PlainTunnel.Simulates | gost/protocol/gun/conn.go:53-76 | every run of a tunnel without early data (gun in either direction, websocket from server to client) is step by step a run of the end-to-end machine |
| PlainTunnel.PlainPrefix | handler.go:51-60 | the prefix property and the exact account of the missing bytes for those tunnels |
| PlainTunnel.CanComplete | handler.go:51-60 | every error-free run of those tunnels extends, without reading more, to complete delivery |
| Lifetime.Conservation | gost/proxy/tcp.go:129-134 | every accepted connection is in exactly one place: its producer's hand, the queue, delivered, or dropped and closed; the queue never exceeds 1024 |
| Lifetime.PerProducerOrder | gost/proxy/tcp.go:110-136 | per producer, delivered followed by queued is its accept order with exactly the dropped ones (and the one in hand) removed |
| Lifetime.ClosedOnce | gost/proxy/server/gun.go:40-52 | in every run a connection is closed at most once, by the producer that dropped it or by its relay and never by both; a queued one is open; a handler has returned only after the close |
| Lifetime.RelayCompletes | handler.go:40-64 | a finished copier never blocks on the two-slot channel although one result is received; an ended relay closed inbound once, and outbound once if it was dialled |
| Lifetime.CopierOutlivesClose | handler.go:40-64 | a run in which the connection has been closed and its server handler has returned while one of its copiers still runs |
| Gateway.Gateway.CloseConnection | gost/protocol/gun/conn.go:79-82 | demands that the connection has not been closed before; called by OfferOne and CloseInboundOf |
| Gateway.Gateway.KeepAccepting | gost/proxy/tcp.go:110-136 | for every sequence of accept outcomes and any interference: the connections taken are exactly those before the first failure that is "closed" or comes after the context is done, all of them if there is none, and each is offered; the run is legal |
| Gateway.Gateway.ServeMux | gost/proxy/tcp.go:161-192 | the streams taken and offered are exactly those before the first failure of any kind, all of them if there is none |
| Gateway.Gateway.Tun | gost/proxy/server/gun.go:40-52 | returns only when its connection has been closed exactly once, and otherwise is waiting on an open one |
| Gateway.Gateway.ServeHTTP | gost/proxy/server/h2.go:37-60 | another path is answered 404 and changes nothing; else as Tun |
| Gateway.Gateway.OfferOne | gost/proxy/tcp.go:129-134 | enqueue when there is room, else close for the first time and count as dropped |
| Gateway.Gateway.AcceptConn | gost/proxy/tcp.go:43-46 | takes the oldest queued connection and its relay begins |
| Gateway.Gateway.RelayConn | handler.go:40-64 | under any interference: finished with inbound closed once and outbound closed once iff dialled, or waiting with both copiers running |
| Gateway.PreemptionCovers | gost/proxy/tcp.go:110-136 | what a preempted producer may rely on holds of every run in which it takes no step |
| Gateway.RelayPreemptionCovers | handler.go:40-64 | the same for the handler of a relay |
| Http.HttpConnection.Write | gost/protocol/http/conn.go:34-49 | check, write and flush as three actions with a possible Close before the second and the third: a Write that starts after Close uses nothing, one during which no Close comes uses nothing late, a successful one is flushed completely |
| Http.LateIffCloseBetween | gost/protocol/http/conn.go:34-49 | in every run the response writer is used after Close if and only if a Close falls between the check of a Write and a use of the writer by that Write |
| Http.LateWrite | gost/protocol/http/conn.go:34-49 | an interleaving in which everything a Write was given reaches the response writer after Close |
| Http.PreemptionCovers | gost/protocol/http/conn.go:52-56 | what the writing goroutine may rely on between its actions holds of every run of closes |
| Http.HttpConnection.Close | gost/protocol/http/conn.go:52-56 | closes the body, then `done`, which must be open |
| SessionPool.StreamCap | mux/mux.go:59-60 | with concurrency above zero no session ever has more open streams than that, in every run |
| SessionPool.SessionBound | mux/mux.go:51-78 | in every run (sessions in the pool - 1) * c never exceeds the peak number of open streams so far, for 0 < c fitting an int; with c = 0 there is at most one session |
| Reaping.PeakReached | mux/mux.go:51-78 | the peak in the session bound is the open-stream total of some state of the run, and no state exceeds it |
| Reaping.BoundIffFits | mux/mux.go:59 | for c > 0 the bound holds of every run if and only if c < 2^63, that is, fits an int |
| SessionPool.SessionCustody | mux/mux.go:76-78 | given fresh ids, in every state of every run each session ever created is in the map under its own id or closed |
| SessionPool.InsertCustody | mux/mux.go:64-77 | inserting keeps custody if and only if the random id is not in the map or its session is closed already |
| Reaping.CollisionLosesSession | mux/mux.go:64-77 | a run in which a repeated id leaves a live session outside the map |
| SessionPool.CancelClosesAll | mux/mux.go:101-108 | the cancel branch leaves the map empty and, given fresh ids, all sessions created so far closed |
| SessionPool.CleanerSparesBusy | mux/mux.go:90-98 | at the moment a cleaner pass closes a session it has no open stream, and a live one has been inactive longer than the timeout |
| Reaping.Reaped | mux/mux.go:87-100 | one complete pass that starts after an idle session has expired takes it out of the pool for good |
| Reaping.TimedReaping | mux/mux.go:81-100 | with passes at most G apart, a session idle from time t on is out of the pool after max(t, lastActiveTime + timeout) + G |
| MuxPool.MuxPool.DialMux | mux/mux.go:37-79 | under any interference: it fails if opening does; with newConn and opening succeeding and no session dying it returns a stream, on a pooled session, without a new one, if some session had room and stays alive; a new session is created only if every session kept was full when the lock was taken; the returned stream belongs to a live pooled session, other sessions change only by interference, and what left the map is closed |
| MuxPool.MuxPool.OpenNewStream | mux/mux.go:38-49 | it fails if and only if opening does or the session is closed or dies meanwhile; a stream more on the session with its activity time set, or the session closed and deleted |
| MuxPool.MuxPool.CleanPass | mux/mux.go:87-100 | whatever was dead or expired when the pass began is gone, whatever went is closed; a live session that does not die meanwhile stays if it has open streams and loses none, exactly as it was, or if it has been active within the timeout |
| MuxPool.MuxPool.CancelPass | mux/mux.go:101-108 | the map is empty and every session that was in it is closed |
| MuxPool.DriftCovers | mux/mux.go:51-79 | what the holder of the lock may rely on holds of every run of steps that do not need the lock: sessions only get emptier, one is closed only by its own death, undisturbed busy ones stay as they are |

## Left out

- gost/proxy/tcp.go:138-159 (KeepMuxAccepting): its loop only starts one ServeMux per connection; the step system has any number of producers.
- gost/proxy/tcp.go:161-172: a session that smux.Server refuses is ServeMux with no streams; closing the session at the end is not tracked.
- TLS, uTLS fingerprints, gRPC credentials, QUIC and the dialling code: thin wrappers over libraries.
- smux, gorilla/websocket, gRPC and io.Copy internals: represented by the contracts named above (ordered reliable messages, sticky read errors, stream counts that only OpenNewStream raises, a copier that writes all it has read before reading again and stops at a write that fails or reports fewer bytes).
- mux/mux.go:70-74: a failing smux.Client and a failing newConn are one outcome; the connection the former leaves open is not a session and is not tracked.
- Base64.Decode: does not skip carriage returns and newlines, which cannot occur in a header value.
- A dial in progress while another goroutine calls Close on the delayed connection, and waking a Read that waits for a dial that never succeeds.
- EarlyData.DelayDialConn.Write: passes on no host name and user agent; the URL is not tracked.
- fixAddr, GetLocalAddr and GetRemoteAddr: address formatting that no result above depends on.
- Errors are told apart only where the code does; the substring tests of errors/error.go are the `closed` flag of an accept failure.
