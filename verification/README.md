# gnar relay core, modelled in Dafny

gnar (also called pipe) is a reverse-tunnel relay. A client behind NAT logs in to a public
server and asks it to open a public port, optionally under a sub-domain. The server listens on
that port. Each user connection that arrives is parked in a pending-connection table under a
fresh id, and the client is told the id. The client then opens a data connection and
presents the id. The server pairs the two connections and relays bytes between them.

The repository carries several generations of this design side by side. This project models
the decision logic of all of them as pure functions over immutable data:

- the length-prefixed frame codec shared by `proto/`, `protocol/`, `layer/` and `packet/`
  (`frame.dfy`, `proto.dfy`, `protocol.dfy`, `layer.dfy`);
- the unframed 6-byte block protocol of `client/client.go` and `server/server.go` (`legacy.dfy`);
- the login credential and the authenticators (`auth.dfy`, `proxyserver.dfy`);
- the server's proxy and forward registries and port marks (`registry.dfy`);
- the pending-connection maps with their expiry sweeps (`pending.dfy`);
- the request handlers of the newest server and of the forward server
  (`proxyserver.dfy`, `forwardserver.dfy`);
- the rate-limit helpers (`limit.dfy`);
- the client's control dialers (`dialer.dfy`);
- the `local:remote` argument and the command-line overrides of `LoadConfig` (`clientconfig.dfy`);
- the terminal link for a proxy's address (`link.dfy`);
- the retry loop (`backoff.dfy`).

Go-specific helpers live in `gotext.dfy`: `strconv.Atoi`/`Itoa`, `strings.Split`, 64-bit
wrap-around and ASCII string/byte conversion. `Option` and `Result` are in `wrappers.dfy`.

Byte streams are `seq<byte>`. A read follows `bytes.Reader`: one `Read` returns as many bytes
as are available, up to the buffer size, and fails only on an empty stream. `io.ReadFull`
fails with `EOF` or `UnexpectedEOF`.

Collaborators the code calls but does not define are parameters:

- the JSON codec is a `Serializer` pair of functions, and round trips assume only that it is
  `Faithful`;
- hex(md5(·)) is `digest`;
- clock readings are integer nanoseconds or Unix seconds;
- UUIDs and random host prefixes are strings;
- listen, dial and stream outcomes are booleans;
- accepted user connections are a sequence;
- the styling of terminal text is a function.

A Go panic is either a `requires` (the caller must not reach it) or an explicit `Panicked`
result, where the point is to show that the panic happens.

## Model

| member | source | states |
|---|---|---|
| Frame.Packet0 | proto/packet.go:50-60 | a payload of more than 65535 bytes is `ErrMsgLength`; otherwise the frame is the tag, the big-endian 16-bit length and the payload, in that order |
| Frame.ReadFull | proto/packet.go:87-90 | `io.ReadFull` succeeds exactly when enough bytes remain, returning a prefix; otherwise `EOF` on an empty stream and `UnexpectedEOF` on a short one |
| Frame.Body | proto/packet.go:86-97 | a decoded body has the header's tag and exactly the announced length, and the stream is the payload followed by the rest |
| Frame.Read0AsWritten | proto/packet.go:70-98 | `read0` as written: an empty stream is `EOF`, and a stream ending after the tag is `ErrMsgRead` |
| Frame.Read0 | proto/packet.go:70-98 | `read0` as intended: any accepted stream is exactly one well-formed `packet0` frame followed by the unread rest; short headers are `EOF` or `ErrMsgRead` |
| Frame.FrameRoundTrip | proto/packet.go:50-98 | a stream starting with `packet0(typ, payload)` reads back as `(typ, payload)`, leaving exactly the bytes after the frame, under both readers |
| Frame.TruncatedFrameFails | proto/packet.go:79-95 | a stream cut anywhere inside a frame is an error, never a frame |
| Frame.AsWrittenAgreesOffTwoBytes | protocol/packet.go:73-101 | the as-written and corrected readers agree on every stream except a two-byte one |
| Frame.ShortLengthReadAccepted | layer/msg.go:81-87 | as written, the first two bytes of any frame with a payload under 256 bytes decode as a complete empty frame, which the corrected reader rejects with `ErrMsgRead` |
| Frame.Read | proto/packet.go:62-98 | `read` over `read0` as written, which `Read` of proto/msg.go, `readMsg` of protocol/packet.go and `ReadMsg` of layer/msg.go repeat: any read error comes back as tag `Unknown` with a nil payload; a success is one well-formed frame followed by the unread rest, or else the two-byte stream `[t, 0]` taken as tag t with an empty payload |
| Frame.ReadFrameAndShortStream | proto/packet.go:62-98 | every frame reads back through `read` with the rest of the stream after it, and the cut stream `[t, 0]` is read as a frame with an empty payload |
| Proto.Name | proto/packet.go:21-40 | the name is "unknown" exactly for tags outside 0x01..0x07 |
| Proto.NamesDistinct | proto/packet.go:21-40 | distinct known tags have distinct names |
| Proto.TypeIdentifiesKind | proto/msg.go:48-157 | two messages have the same `Type()` exactly when they are of the same Go type |
| Proto.Type | proto/msg.go:50-155 | every message's tag is one of the seven known tags |
| Proto.Send | proto/msg.go:18-25 | a marshal failure is an error; otherwise the bytes written are `packet0` of the message's own tag around its serialisation |
| Proto.Recv | proto/msg.go:27-42 | a read error is returned unchanged; a tag other than the target's is `ErrInvalidMsg` whatever the payload; a success is the payload of a frame with the target's tag, decoded into the target's kind, and the stream after that frame |
| Proto.SendRecvRoundTrip | proto/msg.go:18-42 | what `Send` writes, `Recv` into a message of the same kind reads back, leaving the stream right after the frame |
| Proto.RecvRejectsOtherKind | proto/msg.go:33-35 | receiving a sent message into a different kind is `ErrInvalidMsg` |
| Proto.NewMsgLogin | proto/msg.go:68-78 | the login carries the clock reading, the build version and the credential digest(token ‖ decimal timestamp) |
| Proto.NewMsgProxy | proto/msg.go:91-98 | the request carries exactly the given name, sub-domain, type and port |
| Proto.NewMsgCancel | proto/msg.go:121-126 | the cancel message carries the name and port |
| Proto.CancelIgnoresToken | proto/msg.go:121-126 | the token passed to `NewMsgCancel` never reaches the message |
| Proto.NewMsgExchange | proto/msg.go:141-146 | the exchange message carries the connection id and the proxy type |
| Proto.NewMsgHeartbeat | proto/msg.go:54-56 | a heartbeat is tagged `PacketHeartbeat` |
| Proto.NewMsgProxyResp | proto/msg.go:109-114 | the response carries exactly the given domain and status |
| Proto.NewMsgUDPDatagram | proto/msg.go:157-162 | the datagram carries the sender address and the payload |
| Auth.VerifyLogin | internal/auth/auth.go:22-32 | `Nop` accepts every login; the token authenticator accepts exactly when the presented token is digest(secret ‖ decimal timestamp) |
| Auth.IssuedLoginVerifies | internal/auth/auth.go:22-26 | a login built by `NewMsgLogin` with the server's own secret is accepted |
| Auth.VersionIgnored | internal/auth/auth.go:22-26 | the version field never affects the verdict |
| Auth.ForeignSecretRejected | internal/auth/auth.go:22-26 | with an injective digest, a login built from any other secret is rejected |
| Protocol.Name | protocol/packet.go:19-32 | the name is "unknown" exactly outside the four declared tags |
| Protocol.NamesDistinct | protocol/packet.go:19-32 | distinct declared tags have distinct names |
| Protocol.NewMetaMsg | protocol/msg.go:41-46 | the header carries the token and protocol version "0.0.1" |
| Protocol.NewMsgHeartbeat | protocol/msg.go:22-26 | the heartbeat carries the standard header for the token |
| Protocol.NewMsgForward | protocol/msg.go:64-71 | the request carries the standard header, the name, sub-domain and port, and an empty type |
| Protocol.NewMsgForwardResp | protocol/msg.go:79-85 | the response carries the standard header, the domain and the status |
| Protocol.NewMsgExchange | protocol/msg.go:108-113 | the exchange carries the standard header and the connection id |
| Protocol.NewMsgCancel | protocol/msg.go:121-129 | unlike the other constructors, the cancel header has an empty version |
| Protocol.ExtractMsgType | protocol/msg.go:178-193 | a foreign message type is exactly the one mapped to `Unknown` |
| Protocol.MsgTypeIdentifiesKind | protocol/msg.go:178-193 | the five message types get five distinct tags |
| Protocol.ExtractMetaMsg | protocol/msg.go:195-210 | the embedded header of the five types, and `ErrInvalidMsg` exactly for any other |
| Protocol.Check | protocol/msg.go:222-236 | an empty configured token accepts everything; otherwise exactly the equal token passes |
| Protocol.SendWith | protocol/msg.go:143-150 | the frame tag is `extractMsgType` of the message |
| Protocol.RecvInto | protocol/msg.go:152-176 | read errors pass through, a wrong tag is `ErrInvalidMsg`, and an accepted message is of a known type and its token passes `Check` |
| Protocol.SendRecvRoundTrip | protocol/msg.go:143-176 | a sent message comes back intact when its token passes `Check` and is refused with `ErrInvalidToken` when it does not |
| Layer.BuildMsg | layer/packet.go:7-34 | each tag's positional arguments are type-asserted: the message is built exactly when enough arguments of the right types are present, any other tag gives a nil message, and everything else panics |
| Layer.Send | layer/packet.go:7-37 | a panicking argument list is `Panicked`; a successful send is a frame tagged with the receiver that `read0` decodes to the serialised message |
| Layer.Read | layer/packet.go:39-47 | one read into a zeroed 6-byte block: fails exactly on an empty stream, otherwise the tag is the first byte, and a full block is the first six bytes |
| Layer.ClientArgs | client/handle.go:111-119 | `buildMsg` gives four arguments for a registration, three for a cancel and none otherwise |
| Layer.ClientArgsLandInPlace | client/handle.go:111-119 | the arguments `buildMsg` lays out are exactly those `Send` reads, so the client's registration and cancel never panic |
| Layer.ClientOnFrame | client/handle.go:47-67 | a read error or a tag other than `ExchangeMsg` stops the client's loop; `Relay` means the client goes on to dial for the id |
| Layer.ClientServesMatchingExchange | client/handle.go:58-67 | an exchange notice is served exactly when the client has no token or the tokens match, and then for the id the notice carried |
| Legacy.GoByte | client/client.go:53-54 | Go's `byte(x)` keeps x mod 256, negative x included |
| Legacy.PortBlock | client/client.go:50-72 | a block is six bytes: the tag, the port's two low bytes big-endian, then zeros |
| Legacy.ParsePort | server/server.go:126-132 | the decoded port lies in 0..65535 and its two bytes are the block's second and third |
| Legacy.PortRoundTrip | server/server.go:126-140 | the server reads back the port modulo 65536, and exactly the port whenever the port is valid |
| Legacy.DecodedPortNeverInvalid | server/server.go:138-140 | no port decoded from a block fails `isInvaliedPort`, so the server's range check never fires |
| Legacy.ParseExchange | server/server.go:134-136 | the id is the bytes after the tag, one character each |
| Legacy.GenUuid | server/server.go:118-124 | the id is the first n characters of the UUID |
| Legacy.Handle | server/server.go:31-44 | an empty read does nothing; a registration listens on the port decoded from the block (a short block zero-padded); an exchange relays the id in bytes 1..5; a cancellation is a no-op; unknown tags do nothing |
| Legacy.RegisterReachesServer | server/server.go:52-58 | a client's registration for a valid port makes the server listen on that port |
| Legacy.ClientReadExchange | client/client.go:74-84 | the client gets a block exactly when six bytes are available, and it is those six bytes |
| Legacy.ExchangeBlockAsWritten | server/server.go:95-98 | as written, the notice starts with six zero bytes before the tag |
| Legacy.ExchangeAsWrittenEchoesTwice | client/client.go:21-47 | as written, one notice makes the client echo twice: first six zeros, which the server ignores, then the tag and the id, which pair |
| Legacy.ExchangeBlock | server/server.go:95-98 | corrected, the notice is the tag followed by the id, and `parseExchangePacket` recovers the id |
| Legacy.ExchangePairs | server/server.go:83-98 | corrected, one notice makes exactly one echo, and the server relays the id it stored |
| Legacy.Handshake | client/client.go:21-47 | the client echoes one block for every six bytes it can read, stopping at the first short read, and the server acts on each echo in turn |
| Legacy.HandshakeConcat | client/client.go:21-26 | a stream cut at a block boundary is echoed as its two parts, one after the other |
| Legacy.ExchangeBlockPairs | server/server.go:31-44 | the echo of a block holding the tag and a five-character id pairs with that id |
| Legacy.Notices | server/server.go:95-107 | the server writes twelve bytes per notice as written and six corrected |
| Legacy.AsWrittenDoublesEchoes | client/client.go:21-47 | over a session, as written, the k-th user connection costs echo 2k, which is ignored, and echo 2k+1, which pairs with its id |
| Legacy.CorrectedPairsEach | client/client.go:21-47 | corrected, the echoes pair one to one with the user connections, in order |
| Registry.AvailablePort | server/serve.go:387-392 | a port is available exactly when strictly between 0 and 65535 and not marked in use |
| Registry.RouteId | server/serve.go:425 | the route id is the host, a dot, then the port |
| Registry.StoredSubdomain | server/serve.go:405-410 | outside domain-tunnel mode the requested host is kept; inside it, the random prefix or the request, followed by "." and the domain |
| Registry.AddProxy | server/serve.go:401-416 | the entry is appended with its final host name and its port marked; no other port mark changes; a route is requested exactly in domain-tunnel mode |
| Registry.FirstIndex | server/serve.go:421-422 | the first position holding the port, or none exactly when no entry holds it |
| Registry.FindFirst | server/serve.go:421-422 | the forward scan finds the same position as the first-hit description |
| Registry.FirstIndexUnique | server/serve.go:421-422 | the first-hit description has only one solution |
| Registry.RemoveFirst | server/serve.go:418-433 | nothing is removed exactly when no entry holds the port; otherwise the first such entry is removed and closed, and its route is deleted in domain-tunnel mode |
| Registry.DelProxy | server/serve.go:418-433 | with no proxy on the port nothing changes; otherwise exactly the first proxy on it is removed and closed, the others keep their order, its route is deleted in domain-tunnel mode, and that port's mark is cleared and no other |
| Registry.DistinctRemoveAt | server/serve.go:427 | removing one entry from a list with distinct ports keeps them distinct and frees exactly that port |
| Registry.DelProxyPreservesConsistent | server/serve.go:418-433 | removal keeps one proxy per port and the marks equal to the ports in use |
| Registry.AddProxyPreservesConsistent | server/serve.go:387-416 | adding on an available port keeps the registry consistent |
| Registry.AddThenDelProxy | server/serve.go:387-433 | add then delete on an available port restores the list and frees the port |
| Registry.AddForward | server/handle.go:52-63 | in domain-tunnel mode the stored host is always the random prefix under the domain; otherwise the forward is appended unchanged |
| Registry.AddForwardIgnoresRequest | server/handle.go:56-58 | a requested sub-domain never survives `addForward` in domain-tunnel mode |
| Registry.DelForward | server/handle.go:65-79 | nothing is removed exactly when no forward holds the port; otherwise the first forward on it is removed and closed, the others kept in order, and its route deleted in domain-tunnel mode |
| Registry.AddThenDelForward | server/handle.go:52-79 | adding a forward on a port no forward holds and then cancelling that port restores the list, closes the forward added and deletes the route added |
| Pending.NewUuid | server/conn/constant.go:9-11 | an id is the first eight characters of the UUID |
| Pending.Get | server/conn/tcp.go:35-40 | found exactly when the id is present, with its connection |
| Pending.Add | server/conn/tcp.go:26-33 | the id now maps to the connection stamped `now`; every other id is unchanged |
| Pending.Del | server/conn/tcp.go:42-46 | the id is gone and every other entry is unchanged |
| Pending.DelClosing | server/conn.go:38-43 | the stored connection is the one closed, and the map is as after `Del` |
| Pending.Sweep | server/conn/tcp.go:49-57 | exactly the entries no older than the age limit survive, unchanged |
| Pending.SurvivesTicks | server/conn/tcp.go:48-63 | an entry survives n ticks exactly when it is young enough at the last tick |
| Pending.Ticks | server/conn/tcp.go:48-63 | ticking only removes entries and never changes the ones it keeps; after at least one tick every entry kept is young enough at the last tick |
| Pending.ExpiredWithinTwoPeriods | server/conn/tcp.go:48-63 | an unclaimed connection is swept at the first tick more than ten seconds after it was stored, at most twenty seconds after, and survives every earlier tick |
| Pending.OneShotExpire | server/conns.go:44-54 | the one-shot sweep only removes entries |
| Pending.OneShotSparesLater | server/conns.go:44-54 | it removes exactly the entries stamped before the sweep was scheduled |
| Pending.Claim | server/handle.go:188-197 | a claim returns what `Get` returns; the table is unchanged while the relay runs and loses the entry once it has ended |
| Pending.ClaimedOnce | server/handle.go:188-197 | while the relay runs a second claim on the id finds the same connection, once it has ended nothing; a claim right after `Add` finds the connection added |
| Pending.StoreAllFinds | server/serve.go:347-361 | each accepted connection is found under its id unless a later one reused the id |
| Pending.StoreAll | server/serve.go:347-361 | every accepted id ends up pending, and nothing already pending is lost |
| Pending.UdpGet | internal/server/conn/udp.go:25-30 | found exactly when present |
| Pending.UdpAdd | internal/server/conn/udp.go:19-23 | the id now maps to the listener, and every other id is unchanged |
| Pending.UdpDel | internal/server/conn/udp.go:32-37 | the stored listener is the one closed, the id is gone, and every other id is unchanged |
| Pending.UdpAddDel | internal/server/conn/udp.go:19-37 | add then delete of a fresh id restores the map and closes exactly what was added |
| ProxyServer.NewServer | server/serve.go:33-47 | empty tables; the `Nop` authenticator exactly when no token is configured |
| ProxyServer.PlainLoginOk | server/serve.go:179-186 | a plain connection's login passes exactly when its credential is the one `NewMsgLogin` builds from the configured token at the login's timestamp |
| ProxyServer.MuxLoginOk | server/serve.go:103-107 | a session accepts every login when no token is configured, and otherwise exactly the credential `NewMsgLogin` builds from the token |
| ProxyServer.LoginChecksAgreeWithToken | server/serve.go:179-186 | the inline check of plain connections is the token authenticator for the configured token, and agrees with the session check whenever a token is set |
| ProxyServer.LoginChecksDifferWithoutToken | server/serve.go:103-107 | with no token, a session accepts every login while a plain connection still requires digest(timestamp) |
| ProxyServer.RespDomainAsWritten | server/serve.go:275-278 | as written, no domain is reported outside domain-tunnel mode |
| ProxyServer.RespDomain | server/serve.go:324-327 | corrected, the reported domain is the host name the registry stored |
| ProxyServer.RespDomainDiscrepancy | server/serve.go:324-327 | the two agree when a sub-domain was requested; without one, the as-written response names ".domain", not the stored host |
| ProxyServer.Announce | server/serve.go:353-360 | one exchange message per accepted connection, in order, with its id |
| ProxyServer.HandleProxy | server/serve.go:244-363 | a refused request changes nothing and sends only "failed"; an accepted one registers the proxy and marks the port; if the "success" write then fails, nothing is stored or announced and only "failed" is sent; otherwise "success" comes first, with the requested name under the domain, as written; every path ends with "failed" |
| ProxyServer.FailedResponseKeepsPort | server/serve.go:304-333 | after a failed "success" write the client is told "failed", yet the proxy stays registered and a later request for the same port is refused |
| ProxyServer.HandleProxyCorrected | server/serve.go:314-329 | corrected, the same state and the same messages, except that "success" names the host the registry stored |
| ProxyServer.ProxyResponseMisnamesHost | server/serve.go:314-329 | as written, a domain-tunnel client that asked for no sub-domain is told ".domain", which is not the corrected response and not the host registered for its port |
| ProxyServer.HandleProxyPreservesConsistent | server/serve.go:244-319 | handling a request keeps the registry consistent |
| ProxyServer.ResponseNamesRoutedHost | server/serve.go:314-329 | with the corrected response, the client is told the host the registry stored and the route requested |
| ProxyServer.HandleExchange | server/serve.go:365-385 | the connection is looked up in the UDP or TCP table by proxy type; the tables are unchanged while the relay runs and lose the entry once it has ended; an unknown id or type pairs nothing |
| ProxyServer.UdpExchangePairs | server/serve.go:298-302 | the announced UDP id pairs with the listener, again for an echo while the relay runs, and no more once it has ended |
| ProxyServer.TcpExchangePairs | server/serve.go:347-383 | each announced TCP id pairs with its user connection, again while the relay runs, and no more once it has ended |
| ProxyServer.HandleCancel | server/serve.go:239-242 | a cancel removes and closes the first proxy on the requested port, keeps the others in order and frees the port; with none on it nothing changes |
| ProxyServer.CancelReleasesPort | server/serve.go:239-433 | opening then cancelling a proxy makes its port available again and restores the list |
| ProxyServer.Dispatch | server/serve.go:125-169 | a read error drops the request; a proxy request is handled, or answered "failed" when it does not decode; an exchange or a cancel is handled, or dropped when it does not decode; other tags are ignored |
| ProxyServer.HandleConn | server/serve.go:171-237 | a connection whose first frame is not a login is dropped with that error, a login failing the inline check with `ErrInvalidToken`; otherwise the next frame is dispatched |
| ProxyServer.DispatchSentRequest | server/serve.go:195-218 | a proxy request framed as the client sends it is handed to `handleProxy` as decoded |
| ProxyServer.LoginThenProxy | server/serve.go:171-237 | a client logging in with the server's token and then asking for an available port gets exactly the `handleProxy` outcome |
| ProxyServer.ShortProxyRequestAnsweredFailed | server/serve.go:195-217 | the cut stream `[3, 0]` is read as a proxy request with an empty payload, which does not decode, so the client is answered "failed" where the corrected reader reports a short read |
| ForwardServer.NewServer | server/handle.go:87-94 | no forwards and no pending connections |
| ForwardServer.ConnId | server/handle.go:181 | the id is the first five characters of the UUID |
| ForwardServer.ExchangeNoticeAsWritten | server/handle.go:183 | as written, the notice is `Send` with the id as its only argument |
| ForwardServer.ExchangeNoticePanics | server/handle.go:183 | as written, that send panics for every id |
| ForwardServer.ExchangeNotice | server/handle.go:183 | corrected, the notice never panics and is a frame tagged `ExchangeMsg` |
| ForwardServer.ExchangeNoticeServed | client/handle.go:58-67 | corrected, a client without a token serves the notice for the id the server stored |
| ForwardServer.HandleForward | server/handle.go:154-186 | as written: a failed listen changes nothing; otherwise the forward is appended on the decoded port, every accepted connection is pending under its id, and every notice panics |
| ForwardServer.HandleForwardCorrected | server/handle.go:154-186 | corrected, the same state, with one non-panicking exchange frame per accepted connection |
| ForwardServer.HandleMessage | server/handle.go:188-197 | the claimed connection is the one stored under the id; the table is unchanged while the relay runs and the id is gone once it has ended |
| ForwardServer.ForwardExchangePairs | server/handle.go:176-197 | with corrected notices, the client's echo for each accepted id claims that id's user connection, again while the relay runs, and no more once it has ended |
| ForwardServer.HandleCancel | server/handle.go:149-152 | nothing is cancelled exactly when no forward holds the port; otherwise the first forward on it is removed and returned, and nothing else changes |
| ForwardServer.ForwardThenCancel | server/handle.go:149-175 | registering a forward on a port no forward holds and then cancelling it restores the forward list and closes exactly that forward |
| ForwardServer.Handle | server/handle.go:132-147 | an empty read or an unknown tag does nothing; a registration crashes the server exactly when the listen succeeded and a user connection arrived, and is otherwise `handleForward`; an exchange is `handleMessage`; a cancel is `handleCancel` of the decoded port, removing the first forward on it exactly when one holds it |
| ForwardServer.FramedRegistrationMisread | server/handle.go:132-155 | a framed registration from client/handle.go is taken as a registration (or crashes the server) on a port equal to the length of its serialised request; this records that the two sides speak different layouts, not a bug in either, since the code does not show which side was meant to change |
| Limit.LimitTransferAsWritten | pio/limit.go:217-240 | as written, no trailing 'b' means no limit, and an unparsable number before the last two characters means no limit |
| Limit.LimitTransfer | pio/limit.go:217-240 | corrected, same results on empty input and without the trailing 'b' |
| Limit.LimitTransferBytes | pio/limit.go:237-238 | corrected, "<n>b" is n bytes for every 64-bit n |
| Limit.LimitTransferUnits | pio/limit.go:225-236 | "<n>kb", "<n>mb" and "<n>gb" are n times the unit, wrapped to 64 bits, in both versions |
| Limit.OneDigitBytesUnlimited | pio/limit.go:225-228 | as written, a one-digit byte count such as "5b" means no limit, while the corrected parser gives the digit |
| Limit.AsWrittenBytesFromTen | pio/limit.go:225-238 | as written, byte counts of two or more digits come out right |
| Limit.NewLimiter | pio/limit.go:30-53 | every constructor sets the rate and the burst to the limit |
| Limit.ChunksPartition | pio/limit.go:75-90 | the pieces cover the buffer exactly, in order, each non-empty and at most a burst |
| Limit.RunChunksCalls | pio/limit.go:83-87 | the pieces handed over are a prefix of the buffer's pieces, and all of them when no step fails |
| Limit.LimitedTransfer | pio/limit.go:55-91 | no limiter or a buffer shorter than the burst is one call on the whole buffer; otherwise it is the chunk loop, counting the failing piece and stopping there |
| Limit.ChunkLoop | pio/limit.go:75-90 | the loop over offsets in steps of the burst does exactly what the piece-by-piece reference does: the same byte count, failure and pieces |
| Limit.RunFromChunks | pio/limit.go:76-81 | stepping by offset, with the last piece cut at the end of the buffer, is stepping through the burst-sized pieces of the rest of the buffer |
| Limit.SuccessfulTransferCoversBuffer | pio/limit.go:75-90 | a transfer that does not fail hands over every byte once, in order, at most a burst at a time |
| Dialer.LoginFrame | internal/client/control/auth_dialer.go:32 | the login frame decodes as a frame tagged `PacketLogin` |
| Dialer.DialAndLogin | internal/client/control/auth_dialer.go:27-34 | the setup succeeds exactly when the dial, the marshal and the write do, and a failed dial is reported as such |
| Dialer.TcpOpen | internal/client/control/auth_dialer.go:26-37 | a connection is returned exactly when dial and login succeed; a login is written exactly when the dial succeeded and the message marshalled |
| Dialer.TcpOpenAllConns | internal/client/control/auth_dialer.go:26-37 | over k calls, the i-th returns a connection exactly when its own dial, login and write succeed |
| Dialer.NewMuxDialer | internal/client/control/auth_dialer.go:45-50 | a new dialer has no session |
| Dialer.MuxOpen | internal/client/control/auth_dialer.go:52-72 | with a session, no dial and no login, just a stream; without one, a session exists afterwards exactly when every setup step succeeded; a returned connection is a stream of the stored session |
| Dialer.MuxKeepsSession | client/control/transport.go:52-72 | once a session exists, no later call dials or logs in, the session is kept even after failed stream opens, and a call returns a connection exactly when its stream opens, always a stream of that session |
| Dialer.TcpLoginPerDial | client/control/transport.go:26-37 | the TCP dialer writes one login per successful dial |
| Dialer.MuxLogsInOnce | internal/client/control/auth_dialer.go:26-72 | over k calls on a healthy network, the TCP dialer logs in k times and the multiplexing dialer once, every stream belonging to the one session |
| ClientConfig.ParseProxyArg | client/config.go:63-84 | an error exactly when the split does not give two parts, or the local part, or else the remote part, is not an integer; otherwise just the two ports with type "tcp" |
| ClientConfig.ParseProxyArgRoundTrip | internal/client/config.go:73-94 | "<local>:<remote>" spelled from two 64-bit ports parses back to them |
| ClientConfig.Unmarshal | client/config.go:56 | the server address and multiplex flag always come from the settings, and the token and proxies do when set |
| ClientConfig.LoadConfigAsWritten | client/config.go:27-57 | as written, a failed read, then a bad port argument, then a failed decode are the errors, in that order; a command-line proxy survives only when the file lists none, and the token comes from the settings |
| ClientConfig.ArgsOverriddenAsWritten | client/config.go:45-58 | as written, the command-line address is always replaced by the configured one, and the command-line proxy gives way to a configured list |
| ClientConfig.Override | internal/client/config.go:55-68 | the arguments replace the address and the proxy list, or fail with the parse error |
| ClientConfig.LoadConfig | client/config.go:27-61 | corrected, a failed file read is an error, and a loaded configuration is the decoded one with the arguments applied on top |
| ClientConfig.ArgsTakeEffect | client/config.go:45-54 | corrected, the command-line address and ports are what the client uses |
| ClientConfig.SameFailures | client/config.go:27-61 | the as-written and corrected versions fail on the same inputs with the same error |
| ClientConfig.LoadConfigInternal | internal/client/config.go:27-71 | the address comes from the arguments when given; there is exactly one proxy, named from the top-level keys, and its ports come from the port argument when one is given and are zero otherwise |
| ClientConfig.InternalArgsTakeEffect | internal/client/config.go:55-68 | with an address and a port pair, the later `LoadConfig` connects there and forwards those ports |
| Link.CreateClickableLink | terminal/click_link.go:10-12 | the link opens with the OSC 8 sequence and has the length of its parts |
| Link.LinkRoundTrip | terminal/click_link.go:10-12 | a link whose target has no escape character reads back as that target and the styled text |
| Link.WithScheme | terminal/click_link.go:15-18 | the URL always starts with "https://" or "http://"; an address that already does is kept, and any other gets "https://" in front |
| Link.WithSchemeIdempotent | terminal/click_link.go:14-18 | adding the scheme twice is adding it once, and the address always ends the URL |
| Link.CreateProxyLink | terminal/click_link.go:14-20 | the proxy link opens on the address with a scheme and has the length of its parts |
| Link.ProxyLinkTargetAndText | terminal/click_link.go:14-20 | the proxy link points at the address with a scheme and shows the address as given |
| Backoff.AttemptsFrom | backoff/retry.go:20 | the number of calls never exceeds `max` |
| Backoff.AttemptsAtFirstSuccess | backoff/retry.go:20-23 | when the first success is call k, there are exactly k + 1 calls |
| Backoff.AttemptsWithoutSuccess | backoff/retry.go:20-25 | when no call succeeds, there are exactly `max` calls |
| Backoff.Do | backoff/retry.go:19-27 | the result is always nil; the number of calls is the reference count, zero when `max` ≤ 0, and every call before the last failed |

## Left out

- Sockets, goroutines, yamux and the relay loops are not modelled. This covers the accept
  loops, `proxy.P`, `proxy.Stream`, the UDP datagram relay and the heartbeat ticker. Each
  handler is modelled for one request, given the outcomes of its I/O.
- The mutexes only serialise operations. The model applies operations one at a time, and
  claims nothing about concurrent callers, such as an `availablePort` check racing an
  `addProxy`.
- ProxyServer.HandleProxy: a failed "success" write is modelled (`ProxyEnv.respOk`): the
  proxy stays registered, the TCP listener is closed by the deferred `Close`, and the
  client is sent "failed". Other failed writes (exchange notices, heartbeats, the
  "failed" response itself) are logged and ignored by the Go code and are not modelled.
- Layer.ClientOnFrame: the dials that follow a `Relay` are not modelled. The loop returns
  when the server dial fails, and sends `CancelForward` first when the local dial fails
  (client/handle.go:70-83).
- Dialer.TcpOpenAll and Dialer.MuxOpenAll: one login frame stands for every call. The Go
  code builds a fresh login message, with its own clock reading, on each `Open`.
- A listener or connection whose setup failed after the dial is left open, as in the Go code.
  The model does not track it.
- JSON, md5/hex, UUID generation, the clock and the styling library are parameters.
  Round trips assume the serializer decodes what it encoded (`Proto.Faithful`,
  `Layer.DecodesExchange`).
- The token-bucket timing of `golang.org/x/time/rate` is not modelled. One underlying read
  or write plus its wait is an abstract `Step`.
- Limit.LimitedTransfer: a burst of zero or less on a buffer at least that long is
  excluded by a `requires`. The Go loop runs forever for a zero burst and slices out of
  range for a negative one.
- Limit.LimitTransferAsWritten: the empty string, and the string "b", are excluded by a
  `requires`, because indexing or slicing them panics.
- Pending.DelClosing and Pending.UdpDel: an absent id is excluded by a `requires`, because
  closing the missing entry panics.
- Auth.VerifyLogin: requires a login message, because the Go method only takes one.
- The `ParseRegisterPacket`, `ParseCancelPacket` and `ParseExchangePacket` helpers of the
  layer package are not part of this model. The forward server decodes blocks as
  server/server.go does.
- `packet/msg.go` repeats the code of `layer/msg.go` and `layer/packet.go` under other
  constant names. client/control/transport.go repeats internal/client/control/auth_dialer.go.
  Each is modelled once and cited under one path.
- `protocol/msg.go` uses `ForwardResp` and `Heartbeat` tags that `protocol/packet.go` does
  not declare. The model gives them tags of their own, distinct from the declared four.
- ClientConfig.Unmarshal: a configured proxy list is taken whole. mapstructure decodes it
  element by element over the slice already there, so fields a configured entry leaves out
  could keep the command-line values; that merge is not modelled.
- The relay that follows a pairing is not modelled. `during` in `Pending.Claimed`,
  `ProxyServer.Exchanged` and `ForwardServer.Exchanged` stands for any moment while it runs,
  and `after` for the moment the deferred removal has run.
- Viper itself is not modelled: its defaults, environment binding and file parsing. What it
  has gathered arrives as one `Settings` value.
- Bandwidth and traffic figures (floating point), the admin dashboard, the reverse-proxy
  HTTP calls (only the route id is kept), encryption, logging and the command-line front
  ends are outside this model.

## Findings

The handlers are modelled as the code is written: `Frame.Read` and everything built on it use
`read0` as written, `ProxyServer.HandleProxy` sends the as-written domain, and
`ForwardServer.HandleForward` sends the panicking notice. Each corrected definition sits next
to them (`Frame.Read0`, `ProxyServer.HandleProxyCorrected`,
`ForwardServer.HandleForwardCorrected`, `Legacy.ExchangeBlock`, `ClientConfig.LoadConfig`,
`Limit.LimitTransfer`) with its property proved.

| source | as written | input that shows it | evidently intended | confidence | as-written member | corrected member |
|---|---|---|---|---|---|---|
| proto/packet.go:79-84 (also protocol/packet.go:82-87, layer/msg.go:81-86, packet/msg.go) | the two length bytes are fetched by one `r.Read` into a zeroed buffer, so a stream ending after the first length byte is accepted | the stream `[t, 0]` decodes as tag t with an empty payload; after a login, `[3, 0]` is answered "failed" | a length that cannot be read in full is `ErrMsgRead` | high, not executed | Frame.Read0AsWritten (Frame.ShortLengthReadAccepted, ProxyServer.ShortProxyRequestAnsweredFailed) | Frame.Read0 (Frame.TruncatedFrameFails, Frame.FrameRoundTrip) |
| server/server.go:95-98 | `make([]byte, Len)` followed by `append` puts six zero bytes before the tag, so one notice is two of the client's blocks | any five-character id: the client echoes six zeros first, which the server ignores, leaving that data connection and the local-service connection dialled for it open and idle; the id pairs only on the second echo | `make([]byte, 0, Len)`, giving the tag and then the id | high, not executed | Legacy.ExchangeBlockAsWritten (Legacy.ExchangeAsWrittenEchoesTwice, Legacy.AsWrittenDoublesEchoes) | Legacy.ExchangeBlock (Legacy.ExchangePairs, Legacy.CorrectedPairsEach) |
| server/handle.go:183 | `ExchangeMsg.Send(commuConn, cid)` passes one argument where `Send` reads `payloads[1]` | any accepted user connection: index out of range, and the goroutine's panic ends the server | a token argument before the id | high, not executed | ForwardServer.ExchangeNoticeAsWritten (ForwardServer.ExchangeNoticePanics, ForwardServer.Handle) | ForwardServer.ExchangeNotice (ForwardServer.ExchangeNoticeServed, ForwardServer.ForwardExchangePairs) |
| server/serve.go:275-278, 324-327 | the success response names `subdomain + "." + domain` from the request, but `addProxy` stores a random prefix when none was requested | domain-tunnel mode with no requested sub-domain: the client is told ".domain" | the host name the registry stored and routed | high, not executed | ProxyServer.RespDomainAsWritten (ProxyServer.RespDomainDiscrepancy, ProxyServer.ProxyResponseMisnamesHost) | ProxyServer.RespDomain (ProxyServer.HandleProxyCorrected, ProxyServer.ResponseNamesRoutedHost) |
| client/config.go:45-57 | the arguments are written into the struct before `viper.Unmarshal`, which overwrites the server address with its default | `LoadConfig("", ["relay:9000", "80:8080"])` yields server address "localhost:8910" | apply the arguments after decoding, as internal/client/config.go does | high, not executed | ClientConfig.LoadConfigAsWritten (ClientConfig.ArgsOverriddenAsWritten) | ClientConfig.LoadConfig (ClientConfig.ArgsTakeEffect) |
| pio/limit.go:225-238 | the number is parsed from everything before the last two characters, so a one-digit plain byte count leaves nothing to parse | "5b" yields 1 GiB, no limit | "<n>b" means n bytes | medium, not executed | Limit.LimitTransferAsWritten (Limit.OneDigitBytesUnlimited) | Limit.LimitTransfer (Limit.LimitTransferBytes) |
