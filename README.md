# QUIC server gatekeeper, in Dafny

This project models the server side of a small QUIC streaming server written
in C++ against the quiche library and Winsock (`src/quic_server.cpp`,
`src/quic_server.h`). The server does three things, and the model covers each:

- **Retry tokens.** `mint_token` builds a stateless retry token: the marker
  `"quiche"`, then the peer's `sockaddr_in` bytes, then the client's original
  destination connection id (dcid). `validate_mint_token` checks the marker
  and the address, then recovers the dcid. This is the address-validation
  token of section 8.1 of RFC 9000, without integrity protection. Module
  `RetryToken`.
- **Registry keys.** `hexStr` turns a dcid into the `std::string` key of the
  `clientRefs` registry. On MSVC `char` is signed, so bytes 0x80-0xFF print
  as eight digits (`ffffff80` ... `ffffffff`) and the others as two. Module
  `HexKey` proves that the encoding is still injective. Module `KeyOrder`
  models the key order of `std::map`.
- **The `tick` of `QUICServer`.** Module `Server` holds class `QuicServer`,
  with the registry, `pBuffer` and `pSendBuffer` as fields. `tick` has two
  halves:
  - Egress: for every client in key order, force stream sends while the
    connection is handshaking, then `quiche_conn_send`/`sendto` until
    QUICHE_ERR_DONE.
  - Ingress: at most one `recvfrom`; a retry when the packet has no token;
    token validation; lookup-then-insert in the registry; delivery to the
    connection.

  The specification functions of the two halves are in `Egress` and
  `Gatekeeper`. The registry invariant is in `Registry`.

The quiche library is the class `Quiche.Engine`. Per connection it holds the
packets `quiche_conn_send` will still hand out, the state behind
`quiche_conn_is_established`/`quiche_conn_is_in_early_data`, and the stream
ids `quiche_conn_writable` enumerates. The reply of `quiche_retry` and the
packets a `quiche_conn_stream_send` adds to its connection's queue are fixed
functions. What `quiche_conn_recv` does to its own connection is left open.
A counter gives fresh `quiche_accept` handles. Every call whose
effect inside the library is not modelled is recorded in a log. The UDP
socket is the list `wire` of `sendto` calls. The datagram that `recvfrom`
finds is the `Inbound` parameter of `Tick`. The out-parameters of
`quiche_header_info` are the `HeaderInfo` parameter.

The model keeps the code's behaviour as written:

- A token-less packet gets a retry, and processing goes on. The minted token
  then validates, so the client is registered in the same tick.
- On the new-client path the local `ClientRef client` shadows the iterator,
  so `quiche_conn_recv` dereferences `clientRefs.end()`. This is the outcome
  `IngestOnMissingEntry`, and no `quiche_conn_recv` is recorded for it.
- A failed read that is not WSAEWOULDBLOCK falls through with length -1.
  That length reaches `quiche_conn_recv` as the `size_t` 2^64-1. A datagram
  too large for BUFFER_LEN fails with WSAEMSGSIZE: it goes on with the real
  sender's address and the first BUFFER_LEN bytes in `pBuffer`, so it can
  reach `quiche_conn_recv` with that length. Any other failed read wrote no
  address, and the peer address stays all zeroes.
- The return code of `quiche_header_info` is never consulted.
- Only QUICHE_ERR_DONE ends the send loop. Any other negative result becomes
  a `sendto` with that negative length.
- `frameData` is never read.
- The forced stream sends pass `&finish` where quiche expects the `bool`
  `fin`. A non-null pointer converts to true, so every forced send has
  `fin` set.

Constants: QUICHE_MAX_CONN_ID_LEN is 20 (quiche.h is not part of this model),
and `sizeof(struct sockaddr_storage)` is 128, which makes MAX_TOKEN_LEN 154.

## Model

| member | source | states |
|---|---|---|
| RetryToken.MintToken | src/quic_server.cpp:75-82 | the token is the six marker bytes, then the address bytes, then the dcid, and its length is 6 + addr_len + dcid_len |
| RetryToken.ValidateMintToken | src/quic_server.cpp:84-110 | validation succeeds exactly when the token has the marker, then the given address, then at most `odcidCap` bytes; on success the odcid is those trailing bytes (possibly none) |
| RetryToken.RoundTrip | src/quic_server.cpp:75-110 | a token minted for (dcid, addr) validates against addr with any capacity of at least dcid_len, and yields dcid back |
| RetryToken.ValidatedIsMinted | src/quic_server.cpp:84-110 | every token that validates is exactly the token minted for the recovered odcid and that address |
| RetryToken.ValidateIffMinted | src/quic_server.cpp:75-110 | validation yields `odcid` if and only if the token is the one minted for (odcid, addr) and odcid fits the capacity |
| RetryToken.RejectsShortToken | src/quic_server.cpp:87-90 | a token shorter than the marker is refused |
| RetryToken.RejectsWrongMarker | src/quic_server.cpp:87-90 | a token not starting with `"quiche"` is refused |
| RetryToken.RejectsTruncatedAddress | src/quic_server.cpp:95-97 | a token with fewer than addr_len bytes after the marker is refused |
| RetryToken.RejectsOtherAddress | src/quic_server.cpp:95-97 | a token whose embedded address differs from the peer's is refused |
| RetryToken.RejectsOversizedOdcid | src/quic_server.cpp:102-104 | a leftover longer than the odcid capacity is refused |
| RetryToken.MintedRejectsOtherAddress | src/quic_server.cpp:95-97 | a token minted for one address never validates against another address of the same length |
| RetryToken.MintedTokenFits | src/quic_server.h:64-67 | a token minted for an address of at most `sockaddr_storage` size and a dcid of at most QUICHE_MAX_CONN_ID_LEN fits MAX_TOKEN_LEN |
| Limits.SizeT | src/quic_server.cpp:217 | an `int` passed as `size_t` keeps non-negative values and wraps negative ones modulo 2^64 |
| HexKey.SignedChar | src/quic_server.cpp:62 | `(int)(char)b` on signed `char` lies in -128..127 and has the bit pattern of `b` |
| HexKey.Unsigned32 | src/quic_server.cpp:59-62 | `std::hex` prints the 32-bit two's complement, congruent to the value modulo 2^32 |
| HexKey.HexDigit | src/quic_server.cpp:59-62 | the digit is a lowercase hex character, and one of 0-7 exactly for values below 8 |
| HexKey.Hex | src/quic_server.cpp:59-62 | `std::hex` prints at least one digit |
| HexKey.HexAppend | src/quic_server.cpp:59-62 | the digits of 16q + d are those of q followed by the digit of d |
| HexKey.PadLeft | src/quic_server.cpp:62 | `setw`/`setfill` pad on the left up to the width, keep the text as its suffix, and pad only with the fill character |
| HexKey.ByteHex | src/quic_server.cpp:62 | one iteration of the loop appends at least two characters, the width `setw(2)` asks for |
| HexKey.Chunk | src/quic_server.cpp:61-62 | the written-out chunk is 2 characters below 0x80 and 8 from 0x80 |
| HexKey.ByteHexShape | src/quic_server.cpp:61-62 | a byte below 0x80 prints as its two hex digits; a byte from 0x80 prints as `ffffff` and its two hex digits |
| HexKey.ChunkInjective | src/quic_server.cpp:62 | the written-out chunks of two distinct bytes differ |
| HexKey.ChunkFirstChar | src/quic_server.cpp:62 | a written-out chunk starts with 0-7 exactly when the byte is below 0x80, and with `f` otherwise |
| HexKey.ByteHexInjective | src/quic_server.cpp:62 | distinct bytes print as distinct chunks |
| HexKey.ByteHexFirstChar | src/quic_server.cpp:62 | a chunk is 2 or 8 characters; it starts with 0-7 exactly when short and with `f` exactly when long, so the code is prefix-free |
| HexKey.HexStr | src/quic_server.cpp:57-65 | a key is between 2 and 8 characters per dcid byte |
| HexKey.HexStrInjective | src/quic_server.cpp:57-65 | distinct dcids give distinct keys |
| HexKey.HexStrAlphabet | src/quic_server.cpp:57-65 | every character of a key is a lowercase hex digit |
| HexKey.AllLowerHexAppend | src/quic_server.cpp:57-65 | two runs of lowercase hex digits concatenate to one |
| HexKey.ChunkAlphabet | src/quic_server.cpp:62 | every character of a written-out chunk is a lowercase hex digit |
| HexKey.ByteHexAlphabet | src/quic_server.cpp:62 | every character one loop iteration appends is a lowercase hex digit |
| KeyOrder.Less | src/quic_server.h:43 | the `std::string` order of the map's keys: nothing is below the empty key, and a proper prefix is below the longer key |
| KeyOrder.LessIrreflexive | src/quic_server.h:43 | no key of the `std::map` is below itself |
| KeyOrder.LessTransitive | src/quic_server.h:43 | the `std::string` order is transitive |
| KeyOrder.LessTotal | src/quic_server.h:43 | any two distinct keys are ordered |
| KeyOrder.LeastExists | src/quic_server.h:43 | every non-empty set of keys has a least key |
| KeyOrder.LeastKey | src/quic_server.cpp:114 | the key the iterator visits next is in the set and below every other key in it |
| KeyOrder.ChainAscending | src/quic_server.cpp:114 | a visit order that rises step by step is strictly ascending throughout |
| KeyOrder.TakeLeast | src/quic_server.cpp:114 | visiting the least remaining key keeps the order rising and below every key still to come |
| KeyOrder.AscendingUnique | src/quic_server.h:43 | two strictly ascending enumerations of the same keys are equal, so the traversal order of the map is determined |
| Registry.Insert | src/quic_server.cpp:211 | `insert` adds the key, keeps every existing entry, never overwrites, and grows the map by one exactly when the key was absent |
| Registry.DistinctConnsOwned | src/quic_server.cpp:204-211 | registry entries with pairwise distinct handles give every handle an owning key |
| Registry.OwnedConnsDistinct | src/quic_server.cpp:204-211 | handles with one owning key each are pairwise distinct |
| Registry.LookupByDcid | src/quic_server.cpp:201-203 | in a registry keyed by `hexStr`, finding `hexStr(dcid)` is finding an entry with that raw dcid, and it is that entry |
| Registry.InsertFreshKeepsConsistent | src/quic_server.cpp:204-211 | registering an accepted client keeps entries under their own keys, dcids within the QUICHE_MAX_CONN_ID_LEN array, and handles distinct |
| Registry.InsertFreshKeepsOwned | src/quic_server.cpp:204-211 | the fresh handle from `quiche_accept` gets the new key as its only owner |
| Quiche.Drained | src/quic_server.cpp:132-136 | after draining, the drained connections have empty queues and every other connection keeps its queue |
| Quiche.DrainedSingle | src/quic_server.cpp:132-136 | draining one connection is emptying its queue |
| Quiche.DrainedOverwrite | src/quic_server.cpp:132-136 | whatever a connection's queue held, once it is drained the result is the same |
| Quiche.Enqueue | src/quic_server.cpp:126 | packets a stream send produces go to the end of that connection's queue; every other queue is unchanged |
| Quiche.EnqueueTwice | src/quic_server.cpp:124-127 | two stream sends in a row queue their packets in call order |
| Quiche.EnqueueKeepsPending | src/quic_server.cpp:126 | queuing packets that fit MAX_DATAGRAM_SIZE keeps every queued packet within it |
| Quiche.DrainedEnqueue | src/quic_server.cpp:124-136 | packets queued on a connection before it is drained are drained with it and touch no other queue |
| Quiche.AllPendingAppend | src/quic_server.cpp:126-133 | two runs of packets that fit MAX_DATAGRAM_SIZE concatenate to one |
| Quiche.DrainedOneMore | src/quic_server.cpp:114-145 | draining one more connection after a set is draining the enlarged set |
| Quiche.Engine.ConnSend | src/quic_server.cpp:133 | `quiche_conn_send` hands out the head of the connection's queue into the buffer, or QUICHE_ERR_DONE once the queue is empty |
| Quiche.Engine.StreamSend | src/quic_server.cpp:126 | `quiche_conn_stream_send` is recorded with its stream, length and fin flag, and appends the engine's packets for that stream, each fitting MAX_DATAGRAM_SIZE, to that connection's queue only; which of that connection's streams stay writable after a send is left open, and no other connection's writable set, no state and no handle changes |
| Quiche.Engine.Retry | src/quic_server.cpp:256-260 | `quiche_retry` writes its reply into the buffer or returns a negative code, and is recorded |
| Quiche.Engine.Accept | src/quic_server.cpp:204 | `quiche_accept` returns a handle distinct from every earlier one, and is recorded |
| Quiche.Engine.Recv | src/quic_server.cpp:217 | `quiche_conn_recv` is recorded with its handle and `size_t` length; it may change that connection's queue, state and writable streams, but no other connection's, and creates no handle |
| Egress.WireCall | src/quic_server.cpp:139-141 | a `sendto` to the given address; a packet becomes a datagram carrying exactly that packet, and an error code a write of that negative length |
| Egress.EgressWire | src/quic_server.cpp:132-144 | the send loop makes one `sendto` per handed-out result |
| Egress.EgressWirePointwise | src/quic_server.cpp:132-144 | the i-th `sendto` goes to the client's address and carries the i-th packet unchanged, or the i-th error code as its length |
| Egress.EgressWireStep | src/quic_server.cpp:132-144 | one more turn of the send loop appends exactly one `sendto`, for the next result |
| Egress.StreamSends | src/quic_server.cpp:124-127 | one full-buffer send with fin set per writable stream, in iterator order |
| Egress.ForceCalls | src/quic_server.cpp:117-129 | an established or early-data connection gets no forced stream sends |
| Egress.ForcedPackets | src/quic_server.cpp:117-129 | an established or early-data connection gets no forced packets from the stream loop |
| Egress.StreamSendStep | src/quic_server.cpp:124-127 | one more stream send adds one call and that stream's packets after the earlier ones |
| Egress.StreamPacketsPending | src/quic_server.cpp:124-127 | packets forced from writable streams fit MAX_DATAGRAM_SIZE |
| Egress.OutgoingIn | src/quic_server.cpp:114-145 | during a sweep a client's connection hands out its queued packets first, then those its forced stream sends add |
| Egress.OutgoingPending | src/quic_server.cpp:114-145 | every packet a sweep can hand out, forced ones included, fits MAX_DATAGRAM_SIZE |
| Egress.SweepWire | src/quic_server.cpp:114-145 | the sweep's `sendto` calls are each visited client's send loop, in visit order |
| Egress.SweepCalls | src/quic_server.cpp:114-145 | the sweep's engine calls are each visited client's forced stream sends, in visit order |
| Egress.SweepWireAppend | src/quic_server.cpp:114-145 | visiting one more client appends exactly that client's send loop to the sweep's `sendto` calls |
| Egress.SweepCallsAppend | src/quic_server.cpp:114-145 | visiting one more client appends exactly that client's stream sends to the sweep's engine calls |
| Egress.SweepWireTargets | src/quic_server.cpp:139-141 | every datagram of the sweep goes to the stored address of a visited client |
| Egress.SweepWireIdle | src/quic_server.cpp:132-136 | a sweep over clients with nothing pending sends nothing |
| Egress.SweepOutgoingIdle | src/quic_server.cpp:114-145 | a sweep whose clients have nothing queued and nothing to force makes no socket write |
| Egress.SweepWireOfClient | src/quic_server.cpp:139-141 | when no other visited client shares its address, every datagram sent to a client carries one of that client's packets |
| Egress.SweepWireFits | src/quic_server.cpp:132-144 | every datagram of the sweep is at most MAX_DATAGRAM_SIZE bytes |
| Egress.SweepProgressStart | src/quic_server.cpp:114 | before the sweep no key has been visited and no queue drained |
| Egress.SweepProgressStep | src/quic_server.cpp:114-145 | the next key visited has a handle not yet drained, and after it the visited keys still rise and the drained handles are exactly theirs |
| Egress.SweepProgressEnd | src/quic_server.cpp:114-145 | at the end every key was visited once, in ascending order, and every registered handle was drained |
| Gatekeeper.RecvLength | src/quic_server.cpp:153 | `recvfrom` returns the datagram length, at most BUFFER_LEN, or SOCKET_ERROR for a failed read or a datagram that does not fit |
| Gatekeeper.RecvErrorCode | src/quic_server.cpp:154 | `WSAGetLastError()` after a failed read: WSAEMSGSIZE for a datagram that did not fit, the socket's own error otherwise |
| Gatekeeper.WouldBlock | src/quic_server.cpp:153-158 | the tick ends early exactly when `recvfrom` fails with WSAEWOULDBLOCK; an oversized datagram does not end it |
| Gatekeeper.PeerOf | src/quic_server.cpp:149-153 | `peer_addr` is the sender's address, or all zeroes when no datagram was read |
| Gatekeeper.ReceiveBuffer | src/quic_server.cpp:153 | after a successful read the buffer starts with the datagram; an oversized one fills it with its first BUFFER_LEN bytes; a read that returned no datagram leaves it as it was |
| Gatekeeper.HeaderFits | src/quic_server.cpp:170-184 | the ids and token `quiche_header_info` writes fit the QUICHE_MAX_CONN_ID_LEN and MAX_TOKEN_LEN arrays it is given |
| Gatekeeper.CheckedToken | src/quic_server.cpp:187-195 | the token checked is the packet's own when it carried one; for a token-less packet it is the minted one, which validates to the packet's dcid |
| Gatekeeper.Validation | src/quic_server.cpp:194-198 | a validated token is the one minted for the recovered odcid and the sender's address, with odcid within QUICHE_MAX_CONN_ID_LEN; a token-less packet always validates to its own dcid |
| Gatekeeper.Outcome | src/quic_server.cpp:153-217 | the tick ends at a would-block read, then at an invalid token, and otherwise ingests under `hexStr(dcid)`, into an existing entry exactly when the key is registered |
| Gatekeeper.RegistryAfter | src/quic_server.cpp:200-214 | the registry keeps every entry; only a new client adds one entry, under `hexStr(dcid)`, with the dcid, the accepted handle and the peer address; otherwise it is unchanged |
| Gatekeeper.RetryWire | src/quic_server.cpp:187-192 | at most one retry datagram, to the sender, exactly when the read did not block and the packet had no token |
| Gatekeeper.RetryCalls | src/quic_server.cpp:256-260 | at most one `quiche_retry`, exactly when the read did not block and the packet had no token; it reuses the dcid as new source id and carries a token that validates to that dcid |
| Gatekeeper.DeliveryCalls | src/quic_server.cpp:200-217 | at most one delivery call, made exactly when the token validated: `quiche_accept` with the dcid, the validated odcid and the next handle, or `quiche_conn_recv` on the registered client's connection |
| Gatekeeper.IngressCalls | src/quic_server.cpp:187-217 | the ingress half makes at most two engine calls: none for a would-block read, and when there are two, a `quiche_retry` followed by a delivery call |
| Gatekeeper.RecvTargets | src/quic_server.cpp:216-217 | `quiche_conn_recv` reaches a registered connection exactly when the datagram is ingested into an existing entry |
| Gatekeeper.NewConns | src/quic_server.cpp:203-204 | `quiche_accept` creates one connection exactly for a new client, none otherwise |
| Gatekeeper.Undelivered | src/quic_server.cpp:153-198 | a would-block read or an invalid token leaves the registry and every connection alone and makes no accept or recv call |
| Gatekeeper.WouldBlockChangesNothing | src/quic_server.cpp:153-159 | a would-block read leaves the registry as it was, sends no retry and calls no engine function |
| Gatekeeper.EmptyTokenRegistersSameTick | src/quic_server.cpp:187-214 | a token-less packet gets one retry to its sender carrying the token minted for it, that token validates, and the client is in the registry after the same tick |
| Gatekeeper.InvalidTokenChangesNothing | src/quic_server.cpp:194-198 | an invalid token leaves the registry as it was and reaches neither accept nor recv |
| Gatekeeper.ForeignTokenRefused | src/quic_server.cpp:194-198 | a token minted for another address is refused with no entry and no engine call |
| Gatekeeper.ResendReusesEntry | src/quic_server.cpp:200-217 | a registered client echoing its token goes to its own connection, with no new entry and no second accept |
| Gatekeeper.RegistryAfterConsistent | src/quic_server.cpp:200-214 | the tick keeps the registry invariant, with the handle bound raised by one when a client was added |
| Gatekeeper.DistinctIdsDistinctKeys | src/quic_server.cpp:201 | packets with different dcids never share a registry entry |
| Server.QuicServer.constructor | src/quic_server.h:29-43 | a new server has an empty registry, freshly allocated buffers of BUFFER_LEN and MAX_DATAGRAM_SIZE bytes, and a consistent state |
| Server.QuicServer.SendDatagram | src/quic_server.cpp:139-141 | one `sendto` of the first `written` bytes of `pSendBuffer`, or of a negative length |
| Server.QuicServer.ForceStreams | src/quic_server.cpp:117-129 | the stream loop makes exactly the forced stream sends of the connection's state, queues their packets on that connection, and changes nothing else; only that connection's writable set may change, and only when it was handshaking |
| Server.QuicServer.SendNext | src/quic_server.cpp:133-141 | one turn of the send loop either meets QUICHE_ERR_DONE with the queue empty, or sends the next queued result to the client's address; other queues stay as they were |
| Server.QuicServer.DrainQueue | src/quic_server.cpp:132-144 | the send loop empties the client's queue and sends its results, in order, to the client's address |
| Server.QuicServer.EgressClient | src/quic_server.cpp:115-144 | one client's egress: its stream sends, then its queue followed by the packets those sends queued, all to its address; only its queue is drained and only its writable set may change |
| Server.QuicServer.SweepVisit | src/quic_server.cpp:114-145 | serving the next key extends the sweep's `sendto` calls, engine calls and drained set by that client; no state changes, and only the writable sets of visited clients may |
| Server.QuicServer.SweepRest | src/quic_server.cpp:114-145 | the rest of the map is served least key first, to the end; afterwards every key was visited once, in ascending order, and every handle drained; writable sets change only on visited clients |
| Server.QuicServer.EgressSweep | src/quic_server.cpp:114-145 | every client is served once, in ascending key order; each queue, with the packets its forced stream sends add, is drained into `sendto` calls to the client's address; no state changes, and writable sets change only on registered connections |
| Server.QuicServer.ReadDatagram | src/quic_server.cpp:147-164 | `recvfrom` into `pBuffer` with `peer_addr` zeroed first; the returned length, error and peer are those of the inbound datagram |
| Server.QuicServer.CreateToken | src/quic_server.cpp:246-268 | the token minted for (dcid, peer) is written into the token buffer, `quiche_retry` is called with the dcid as new scid, and its reply goes to the peer |
| Server.QuicServer.AdmitToken | src/quic_server.cpp:179-198 | the checked token is the packet's own, or the freshly minted one when it had none, and validation is against the sender's address |
| Server.QuicServer.Deliver | src/quic_server.cpp:200-217 | a new client is accepted, registered and given the next handle; a known one gets the datagram through `quiche_conn_recv`, which may change only that client's connection |
| Server.QuicServer.Ingress | src/quic_server.cpp:147-217 | the ingress half ends as `Outcome` says, leaves the registry as `RegistryAfter` says, keeps the registry invariant, creates a handle only for a new client and touches only the connection it delivers to |
| Server.QuicServer.Tick | src/quic_server.cpp:112-243 | egress over every client in key order, forced packets included, then ingress of at most one datagram; every `sendto`, engine call, registry change and new handle is the one the specification functions give, outside the datagram's target every registered queue ends drained and every other one unchanged, only that target's state may change, and writable sets change only on registered connections |

## Left out

- Winsock setup (`initialize`), `cleanup`, the client, the capture code and `main` are not part of this model. They are I/O plumbing.
- `printf` diagnostics are left out, including the `hexStr` of the token in the two log lines.
- `negotiateVersion` has an empty body and is not modelled.
- Server.QuicServer.Tick: `frameData` is accepted and never read, as in the code; there is no frame fan-out to model.
- Quiche internals are not modelled: header parsing, QUIC wire formats, crypto and congestion control. The header parse result is an input, so LOCAL_CONN_ID_LEN, which only the parser reads, does not appear.
- Quiche.Engine.StreamSend: the packets a stream send queues are a fixed function of the connection and the stream id, each fitting MAX_DATAGRAM_SIZE. How quiche slices the data into packets is not modelled.
- Quiche.Engine.Recv: what `quiche_conn_recv` does to its own connection (its queue, state and writable streams) is left open. The model only says that no other connection changes and no handle is created. The recorded call carries the handle and the length but not the bytes of `pBuffer` handed over.
- Quiche.Engine.Accept: `quiche_accept` never fails in the model. A null handle is not represented.
- Quiche.Engine.ConnSend: each queue is finite, so an engine that never reports QUICHE_ERR_DONE, which would make the send loop spin, is not captured.
- Quiche.Engine.StreamSend: records the stream id, length and fin flag but not the bytes of `pSendBuffer` that go with it. Which streams of the connection stay writable after a send with `fin` set is left open, as quiche decides it.
- Gatekeeper.Outcome: the dereference of `end()` on the new-client path is undefined behaviour in C++. The model records it as the outcome `IngestOnMissingEntry`, with no `quiche_conn_recv` call. It does not say what that call would do.
- Registry.Insert: `memcpy` copies `dcid_len` bytes into `ClientRef.dcid`. The model keeps exactly those bytes, not the uninitialised rest of the 20-byte array.
- Server.QuicServer.SendDatagram: a negative length reaching `sendto` is recorded as such. What Winsock does with it is not modelled.
- Server.QuicServer.CreateToken: the address is the 16-byte `sockaddr_in` that `recvfrom` fills in. IPv6 peers are not modelled.
- The return values of `sendto`, `quiche_conn_stream_send` and `quiche_conn_recv` are ignored by the code and are not modelled.
