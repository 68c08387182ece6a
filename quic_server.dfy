/**
 * `QUICServer` of quic_server.h / quic_server.cpp: the registry and the two
 * buffers it updates in place, and the `tick` that sweeps egress for every
 * client, reads at most one datagram and runs it through the stateless
 * retry and the registry. The UDP socket is the list `wire` of `sendto`
 * calls made on it; the quiche library is the `Engine` object.
 */
module Server {
  import opened Types
  import opened Limits
  import opened RetryToken
  import opened HexKey
  import opened KeyOrder
  import opened Quiche
  import opened Registry
  import opened Egress
  import opened Gatekeeper

  class QuicServer {
    const engine: Engine
    /** `char pBuffer[BUFFER_LEN]`: where `recvfrom` writes. */
    const pBuffer: array<byte>
    /** `uint8_t pSendBuffer[MAX_DATAGRAM_SIZE]`: where every outgoing packet is built. */
    const pSendBuffer: array<byte>
    /** `std::map<std::string, ClientRef> clientRefs`. */
    var clientRefs: map<string, ClientRef>
    /** Every `sendto` made on the server socket, oldest first. */
    var wire: seq<SendToCall>

    ghost predicate Valid()
      reads this, engine
    {
      && engine.Valid()
      && pBuffer.Length == BufferLen
      && pSendBuffer.Length == MaxDatagramSize
      && Consistent(clientRefs, engine.nextConn)
    }

    constructor (engine: Engine)
      requires engine.Valid() && engine.nextConn == 0
      ensures Valid() && this.engine == engine
      ensures fresh(pBuffer) && fresh(pSendBuffer)
      ensures clientRefs == map[] && wire == []
    {
      this.engine := engine;
      pBuffer := new byte[BufferLen];
      pSendBuffer := new byte[MaxDatagramSize];
      clientRefs := map[];
      wire := [];
      assert OwnedBy(map[], map[]);
    }

    /** `sendto(pServerSocket, pSendBuffer, written, 0, to, ...)` for a length the engine returned. */
    method SendDatagram(to: Addr, written: int)
      requires written <= pSendBuffer.Length
      modifies this`wire
      ensures wire == old(wire) + [if 0 <= written then SendTo(to, pSendBuffer[..written])
                                   else SendToNegativeLength(to, written)]
    {
      var call := if 0 <= written then SendTo(to, pSendBuffer[..written]) else SendToNegativeLength(to, written);
      wire := wire + [call];
    }

    /**
     * The first half of the egress loop body for one client: while the
     * connection is still handshaking, a FIN-flagged `quiche_conn_stream_send`
     * of a full datagram on every writable stream. Each send makes the engine
     * queue packets on the client's connection.
     */
    method ForceStreams(ref: ClientRef)
      requires engine.Valid() && pSendBuffer.Length == MaxDatagramSize
      modifies engine
      ensures engine.Valid()
      ensures engine.states == old(engine.states)
      ensures AgreeOutside(engine.writable, old(engine.writable), {ref.conn})
      ensures StateIn(old(engine.states), ref.conn) != Handshaking ==> engine.writable == old(engine.writable)
      ensures engine.nextConn == old(engine.nextConn)
      ensures engine.queues == Enqueue(old(engine.queues), ref.conn,
        ForcedPackets(ref.conn, StateIn(old(engine.states), ref.conn), WritableIn(old(engine.writable), ref.conn),
                      engine.streamReply))
      ensures engine.log == old(engine.log) +
        ForceCalls(ref.conn, StateIn(old(engine.states), ref.conn), WritableIn(old(engine.writable), ref.conn))
    {
      if StateIn(engine.states, ref.conn) == Handshaking {
        var ids := WritableIn(engine.writable, ref.conn);
        ghost var queues0 := engine.queues;
        var i := 0;
        while i < |ids|
          invariant 0 <= i <= |ids|
          invariant engine.Valid()
          invariant engine.states == old(engine.states)
          invariant AgreeOutside(engine.writable, old(engine.writable), {ref.conn})
          invariant engine.nextConn == old(engine.nextConn)
          invariant engine.queues == Enqueue(queues0, ref.conn, StreamPackets(ref.conn, ids[..i], engine.streamReply))
          invariant engine.log == old(engine.log) + StreamSends(ref.conn, ids[..i])
        {
          EnqueueTwice(queues0, ref.conn, StreamPackets(ref.conn, ids[..i], engine.streamReply),
                       engine.streamReply(ref.conn, ids[i]));
          StreamSendStep(ref.conn, ids, i, engine.streamReply);
          ghost var writable1 := engine.writable;
          engine.StreamSend(ref.conn, ids[i], pSendBuffer, true);
          AgreeOutsideTrans(engine.writable, writable1, old(engine.writable), {ref.conn}, {ref.conn}, {ref.conn});
          i := i + 1;
        }
        assert ids[..i] == ids;
      }
    }

    /**
     * One turn of the send loop, with the first `n` results of the client's
     * queue `pending` already sent: `quiche_conn_send` either reports
     * QUICHE_ERR_DONE, which ends the loop, or hands out the next result,
     * whose length goes to `sendto` the client's stored address. `queues0`
     * are the queues when the loop began.
     */
    method SendNext(ref: ClientRef, ghost queues0: map<Conn, seq<SendResult>>, ghost pending: seq<SendResult>,
                    ghost n: nat) returns (finished: bool)
      requires engine.Valid() && pSendBuffer.Length == MaxDatagramSize && n <= |pending|
      requires QueueIn(engine.queues, ref.conn) == pending[n..]
      requires Drained(engine.queues, {ref.conn}) == Drained(queues0, {ref.conn})
      modifies this`wire, engine, pSendBuffer
      ensures engine.Valid()
      ensures engine.states == old(engine.states) && engine.writable == old(engine.writable)
      ensures engine.nextConn == old(engine.nextConn) && engine.log == old(engine.log)
      ensures finished ==> n == |pending| && engine.queues == Drained(queues0, {ref.conn}) && wire == old(wire)
      ensures !finished ==> n < |pending| && wire == old(wire) + [WireCall(ref.addr, pending[n])]
      ensures !finished ==> QueueIn(engine.queues, ref.conn) == pending[n + 1..]
      ensures !finished ==> Drained(engine.queues, {ref.conn}) == Drained(queues0, {ref.conn})
    {
      ghost var before := engine.queues;
      var written := engine.ConnSend(ref.conn, pSendBuffer);
      if written == QuicheErrDone {
        assert pending[n..] == [];
        DrainedSingle(before, ref.conn);
        return true;
      }
      assert Pending(pending[n]) by { assert pending[n] == before[ref.conn][0]; }
      SendDatagram(ref.addr, written);
      assert pending[n..][1..] == pending[n + 1..];
      DrainedOverwrite(before, ref.conn, pending[n + 1..]);
      return false;
    }

    /**
     * The second half: `quiche_conn_send` into `pSendBuffer` and `sendto` the
     * client's stored address until the engine answers QUICHE_ERR_DONE.
     */
    method DrainQueue(ref: ClientRef)
      requires engine.Valid() && pSendBuffer.Length == MaxDatagramSize
      modifies this`wire, engine, pSendBuffer
      ensures engine.Valid()
      ensures engine.states == old(engine.states) && engine.writable == old(engine.writable)
      ensures engine.nextConn == old(engine.nextConn) && engine.log == old(engine.log)
      ensures engine.queues == Drained(old(engine.queues), {ref.conn})
      ensures wire == old(wire) + EgressWire(QueueIn(old(engine.queues), ref.conn), ref.addr)
    {
      ghost var queues0 := engine.queues;
      ghost var pending := QueueIn(engine.queues, ref.conn);
      ghost var n := 0;
      assert pending[0..] == pending;
      while true
        invariant engine.Valid()
        invariant engine.states == old(engine.states) && engine.writable == old(engine.writable)
        invariant engine.nextConn == old(engine.nextConn) && engine.log == old(engine.log)
        invariant 0 <= n <= |pending|
        invariant QueueIn(engine.queues, ref.conn) == pending[n..]
        invariant Drained(engine.queues, {ref.conn}) == Drained(queues0, {ref.conn})
        invariant wire == old(wire) + EgressWire(pending[..n], ref.addr)
        decreases |pending| - n
      {
        var finished := SendNext(ref, queues0, pending, n);
        if finished {
          break;
        }
        EgressWireStep(pending, n, ref.addr);
        n := n + 1;
      }
      assert pending[..n] == pending;
    }

    /**
     * The body of the egress loop for one client: its forced stream sends,
     * then every result its queue holds after them.
     */
    method EgressClient(ref: ClientRef)
      requires engine.Valid() && pSendBuffer.Length == MaxDatagramSize
      modifies this`wire, engine, pSendBuffer
      ensures engine.Valid()
      ensures engine.states == old(engine.states)
      ensures AgreeOutside(engine.writable, old(engine.writable), {ref.conn})
      ensures engine.nextConn == old(engine.nextConn)
      ensures engine.queues == Drained(old(engine.queues), {ref.conn})
      ensures wire == old(wire) + EgressWire(QueueIn(old(engine.queues), ref.conn) +
        ForcedPackets(ref.conn, StateIn(old(engine.states), ref.conn), WritableIn(old(engine.writable), ref.conn),
                      engine.streamReply), ref.addr)
      ensures engine.log == old(engine.log) +
        ForceCalls(ref.conn, StateIn(old(engine.states), ref.conn), WritableIn(old(engine.writable), ref.conn))
    {
      ghost var queues0 := engine.queues;
      ForceStreams(ref);
      DrainQueue(ref);
      DrainedEnqueue(queues0, ref.conn,
        ForcedPackets(ref.conn, StateIn(old(engine.states), ref.conn), WritableIn(old(engine.writable), ref.conn),
                      engine.streamReply));
    }

    /**
     * One pass of the egress loop in the sweep: serve the client under `key`,
     * whose handle has not been drained yet, after the clients in `visited`.
     * The ghost parameters are the engine state and the logs when the sweep
     * began, and `out`, what every connection of `refs` hands out in the sweep.
     */
    method SweepVisit(refs: map<string, ClientRef>, key: string, ghost visited: seq<string>, ghost done: set<Conn>,
                      ghost queues0: map<Conn, seq<SendResult>>, ghost states0: map<Conn, ConnState>,
                      ghost writable0: map<Conn, seq<nat>>, ghost out: map<Conn, seq<SendResult>>,
                      ghost wire0: seq<SendToCall>, ghost log0: seq<EngineCall>)
      requires engine.Valid() && pSendBuffer.Length == MaxDatagramSize
      requires forall i :: 0 <= i < |visited| ==> visited[i] in refs
      requires key in refs && refs[key].conn !in done
      requires engine.queues == Drained(queues0, done)
      requires engine.states == states0 && AgreeOutside(engine.writable, writable0, done)
      requires out == Outgoing(queues0, states0, writable0, engine.streamReply, ConnsOf(refs))
      requires wire == wire0 + SweepWire(visited, refs, out)
      requires engine.log == log0 + SweepCalls(visited, refs, states0, writable0)
      modifies this`wire, engine, pSendBuffer
      ensures engine.Valid()
      ensures engine.states == states0 && engine.nextConn == old(engine.nextConn)
      ensures AgreeOutside(engine.writable, writable0, done + {refs[key].conn})
      ensures engine.queues == Drained(queues0, done + {refs[key].conn})
      ensures forall i :: 0 <= i < |visited + [key]| ==> (visited + [key])[i] in refs
      ensures wire == wire0 + SweepWire(visited + [key], refs, out)
      ensures engine.log == log0 + SweepCalls(visited + [key], refs, states0, writable0)
    {
      var ref := refs[key];
      ghost var sent := SweepWire(visited, refs, out);
      ghost var called := SweepCalls(visited, refs, states0, writable0);
      ghost var mine := EgressWire(QueueIn(out, ref.conn), ref.addr);
      ghost var forced := ForceCalls(ref.conn, StateIn(states0, ref.conn), WritableIn(writable0, ref.conn));
      assert ref.conn in ConnsOf(refs);
      OutgoingIn(queues0, states0, writable0, engine.streamReply, ConnsOf(refs), ref.conn);
      assert QueueIn(engine.queues, ref.conn) == QueueIn(queues0, ref.conn);
      AgreeOutsideWritable(engine.writable, writable0, done, ref.conn);
      ghost var writable1 := engine.writable;
      EgressClient(ref);
      AgreeOutsideTrans(engine.writable, writable1, writable0, {ref.conn}, done, done + {ref.conn});
      DrainedOneMore(queues0, done, ref.conn);
      SweepWireAppend(visited, key, refs, out);
      SweepCallsAppend(visited, key, refs, states0, writable0);
      AppendAssoc(wire0, sent, mine);
      AppendAssoc(log0, called, forced);
    }

    /**
     * The rest of the sweep once the clients in `visited0` were served: the
     * clients under `remaining0`, least key first, to the end of the map.
     * The ghost parameters are as for `SweepVisit`.
     */
    method SweepRest(refs: map<string, ClientRef>, ghost owner: map<Conn, string>, visited0: seq<string>,
                     remaining0: set<string>, ghost done0: set<Conn>,
                     ghost queues0: map<Conn, seq<SendResult>>, ghost states0: map<Conn, ConnState>,
                     ghost writable0: map<Conn, seq<nat>>, ghost out: map<Conn, seq<SendResult>>,
                     ghost wire0: seq<SendToCall>, ghost log0: seq<EngineCall>)
      returns (visited: seq<string>, ghost done: set<Conn>)
      requires SweepProgress(refs, owner, visited0, remaining0, done0)
      requires engine.Valid() && pSendBuffer.Length == MaxDatagramSize
      requires engine.states == states0 && AgreeOutside(engine.writable, writable0, done0)
      requires out == Outgoing(queues0, states0, writable0, engine.streamReply, ConnsOf(refs))
      requires engine.queues == Drained(queues0, done0)
      requires wire == wire0 + SweepWire(visited0, refs, out)
      requires engine.log == log0 + SweepCalls(visited0, refs, states0, writable0)
      modifies this`wire, engine, pSendBuffer
      ensures Ascending(visited) && (forall k :: k in visited <==> k in refs) && done == ConnsOf(refs)
      ensures engine.Valid()
      ensures engine.states == states0 && engine.nextConn == old(engine.nextConn)
      ensures AgreeOutside(engine.writable, writable0, done)
      ensures engine.queues == Drained(queues0, done)
      ensures wire == wire0 + SweepWire(visited, refs, out)
      ensures engine.log == log0 + SweepCalls(visited, refs, states0, writable0)
    {
      visited, done := visited0, done0;
      var remaining := remaining0;
      while remaining != {}
        invariant SweepProgress(refs, owner, visited, remaining, done)
        invariant engine.Valid()
        invariant engine.states == states0 && engine.nextConn == old(engine.nextConn)
        invariant AgreeOutside(engine.writable, writable0, done)
        invariant engine.queues == Drained(queues0, done)
        invariant wire == wire0 + SweepWire(visited, refs, out)
        invariant engine.log == log0 + SweepCalls(visited, refs, states0, writable0)
        decreases remaining
      {
        var key := LeastKey(remaining);
        SweepProgressStep(refs, owner, visited, remaining, done, key);
        SweepVisit(refs, key, visited, done, queues0, states0, writable0, out, wire0, log0);
        visited := visited + [key];
        remaining := remaining - {key};
        done := done + {refs[key].conn};
      }
      SweepProgressEnd(refs, owner, visited, done);
    }

    /**
     * The `for` loop over `clientRefs` at the top of `tick`: every entry once,
     * in ascending key order, as `std::map` iterates. Returns the keys in the
     * order visited.
     */
    method EgressSweep() returns (visited: seq<string>)
      requires engine.Valid() && pSendBuffer.Length == MaxDatagramSize && OwnedConns(clientRefs)
      modifies this`wire, engine, pSendBuffer
      ensures engine.Valid()
      ensures Ascending(visited) && forall k :: k in visited <==> k in clientRefs
      ensures engine.states == old(engine.states)
      ensures AgreeOutside(engine.writable, old(engine.writable), ConnsOf(clientRefs))
      ensures engine.nextConn == old(engine.nextConn)
      ensures engine.queues == Drained(old(engine.queues), ConnsOf(clientRefs))
      ensures wire == old(wire) + SweepWire(visited, clientRefs,
        Outgoing(old(engine.queues), old(engine.states), old(engine.writable), engine.streamReply, ConnsOf(clientRefs)))
      ensures engine.log == old(engine.log) + SweepCalls(visited, clientRefs, old(engine.states), old(engine.writable))
    {
      ghost var queues0, states0, writable0 := engine.queues, engine.states, engine.writable;
      var refs := clientRefs;
      ghost var owner :| OwnedBy(refs, owner);
      SweepProgressStart(refs, owner);
      ghost var done;
      visited, done := SweepRest(refs, owner, [], refs.Keys, {}, queues0, states0, writable0,
                                 Outgoing(queues0, states0, writable0, engine.streamReply, ConnsOf(refs)),
                                 wire, engine.log);
    }

    /**
     * `recvfrom(pServerSocket, pBuffer, BUFFER_LEN, 0, &peer_addr, ...)`
     * after `peer_addr` was zeroed, with `WSAGetLastError()` when it fails.
     */
    method ReadDatagram(inbound: Inbound) returns (recvLength: int, error: int, peer: Addr)
      requires Valid()
      modifies pBuffer
      ensures recvLength == RecvLength(inbound) && recvLength <= BufferLen
      ensures recvLength == SocketError ==> error == RecvErrorCode(inbound)
      ensures peer == PeerOf(inbound)
      ensures pBuffer[..] == ReceiveBuffer(old(pBuffer[..]), inbound)
    {
      peer := ZeroAddr;
      error := 0;
      match inbound
      case Arrived(p, from) =>
        peer := from;
        if |p| <= pBuffer.Length {
          forall i | 0 <= i < |p| {
            pBuffer[i] := p[i];
          }
          recvLength := |p|;
        } else {
          forall i | 0 <= i < pBuffer.Length {
            pBuffer[i] := p[i];
          }
          recvLength := SocketError;
          error := WsaEMsgSize;
        }
      case RecvFailed(e) =>
        recvLength := SocketError;
        error := e;
    }

    /**
     * `createToken`: mint the token for `(dcid, peer)` into the caller's
     * MAX_TOKEN_LEN buffer, have the engine write a Retry packet carrying it
     * (the new source id is the client's `dcid`), and send that to the peer.
     */
    method CreateToken(scid: seq<byte>, dcid: seq<byte>, peer: Addr, token: array<byte>) returns (tokenLen: nat)
      requires Valid() && token.Length == MaxTokenLen && |dcid| <= MaxConnIdLen
      requires token != pSendBuffer && token != pBuffer
      modifies this`wire, engine, pSendBuffer, token
      ensures Valid()
      ensures tokenLen == |MintToken(dcid, peer)| <= token.Length
      ensures token[..tokenLen] == MintToken(dcid, peer)
      ensures engine.queues == old(engine.queues) && engine.states == old(engine.states)
      ensures engine.writable == old(engine.writable) && engine.nextConn == old(engine.nextConn)
      ensures engine.log == old(engine.log) + [RetryCall(scid, dcid, dcid, MintToken(dcid, peer))]
      ensures wire == old(wire) + [WireCall(peer, engine.retryReply(scid, dcid, dcid, MintToken(dcid, peer)))]
    {
      var minted := MintToken(dcid, peer);
      MintedTokenFits(dcid, peer);
      forall i | 0 <= i < |minted| {
        token[i] := minted[i];
      }
      tokenLen := |minted|;
      assert token[..tokenLen] == minted;
      var written := engine.Retry(scid, dcid, dcid, token[..tokenLen], pSendBuffer);
      SendDatagram(peer, written);
    }

    /**
     * The token stage of `tick` after a read that did not block: the
     * header's token is copied into a MAX_TOKEN_LEN buffer; when it is empty
     * `createToken` mints one and sends the retry (processing goes on); then
     * `validate_mint_token` checks the token against the sender's address.
     */
    method AdmitToken(inbound: Inbound, header: HeaderInfo, peer: Addr) returns (odcid: Option<seq<byte>>)
      requires Valid() && HeaderFits(header)
      requires !WouldBlock(inbound) && peer == PeerOf(inbound)
      modifies this`wire, engine, pSendBuffer
      ensures Valid()
      ensures odcid == Validation(inbound, header)
      ensures wire == old(wire) + RetryWire(inbound, header, engine.retryReply)
      ensures engine.log == old(engine.log) + RetryCalls(inbound, header)
      ensures engine.queues == old(engine.queues) && engine.states == old(engine.states)
      ensures engine.writable == old(engine.writable) && engine.nextConn == old(engine.nextConn)
    {
      var token := new byte[MaxTokenLen];
      forall i | 0 <= i < |header.token| {
        token[i] := header.token[i];
      }
      var tokenLen := |header.token|;
      assert token[..tokenLen] == header.token;
      if tokenLen == 0 {
        tokenLen := CreateToken(header.scid, header.dcid, peer, token);
      }
      odcid := ValidateMintToken(token[..tokenLen], peer, MaxConnIdLen);
    }

    /**
     * The delivery stage of `tick` for a validated token: a new client is
     * accepted and registered under the hex of its `dcid`; a known one gets
     * the datagram through `quiche_conn_recv`.
     */
    method Deliver(inbound: Inbound, header: HeaderInfo, recvLength: int, peer: Addr, odcid: seq<byte>)
      returns (outcome: TickOutcome)
      requires Valid() && HeaderFits(header)
      requires !WouldBlock(inbound) && peer == PeerOf(inbound) && recvLength == RecvLength(inbound)
      requires Validation(inbound, header) == Some(odcid)
      modifies this`clientRefs, engine
      ensures Valid()
      ensures outcome == Outcome(old(clientRefs), inbound, header)
      ensures clientRefs == RegistryAfter(old(clientRefs), inbound, header, old(engine.nextConn))
      ensures engine.log == old(engine.log) + DeliveryCalls(old(clientRefs), inbound, header, old(engine.nextConn))
      ensures engine.nextConn == old(engine.nextConn) + NewConns(old(clientRefs), inbound, header)
      ensures AgreeOutside(engine.queues, old(engine.queues), RecvTargets(old(clientRefs), inbound, header))
      ensures AgreeOutside(engine.states, old(engine.states), RecvTargets(old(clientRefs), inbound, header))
      ensures AgreeOutside(engine.writable, old(engine.writable), RecvTargets(old(clientRefs), inbound, header))
    {
      var clientKey := HexStr(header.dcid);
      if clientKey !in clientRefs {
        var ref := engine.Accept(header.dcid, odcid);
        RegistryAfterConsistent(clientRefs, inbound, header, ref);
        clientRefs := Insert(clientRefs, clientKey, ClientRef(header.dcid, ref, peer));
        // The inner `ClientRef client` shadows the iterator, which still equals
        // `clientRefs.end()` when `quiche_conn_recv` dereferences it.
        outcome := IngestOnMissingEntry(clientKey);
      } else {
        engine.Recv(clientRefs[clientKey].conn, SizeT(recvLength));
        outcome := Ingested(clientKey);
      }
    }

    /**
     * The second half of `tick`: one read; a would-block read ends the tick.
     * Otherwise the token is admitted and, when it validates, the datagram
     * is delivered.
     */
    method Ingress(inbound: Inbound, header: HeaderInfo) returns (outcome: TickOutcome)
      requires Valid() && HeaderFits(header)
      modifies this`clientRefs, this`wire, engine, pBuffer, pSendBuffer
      ensures Valid()
      ensures outcome == Outcome(old(clientRefs), inbound, header)
      ensures clientRefs == RegistryAfter(old(clientRefs), inbound, header, old(engine.nextConn))
      ensures wire == old(wire) + RetryWire(inbound, header, engine.retryReply)
      ensures engine.log == old(engine.log) + IngressCalls(old(clientRefs), inbound, header, old(engine.nextConn))
      ensures engine.nextConn == old(engine.nextConn) + NewConns(old(clientRefs), inbound, header)
      ensures AgreeOutside(engine.queues, old(engine.queues), RecvTargets(old(clientRefs), inbound, header))
      ensures AgreeOutside(engine.states, old(engine.states), RecvTargets(old(clientRefs), inbound, header))
      ensures AgreeOutside(engine.writable, old(engine.writable), RecvTargets(old(clientRefs), inbound, header))
      ensures pBuffer[..] == ReceiveBuffer(old(pBuffer[..]), inbound)
    {
      ghost var log0 := engine.log;
      var recvLength, error, peer := ReadDatagram(inbound);
      if recvLength == SocketError && error == WsaEWouldBlock {
        Undelivered(clientRefs, inbound, header, engine.nextConn);
        return NoDatagram;
      }
      var odcid := AdmitToken(inbound, header, peer);
      if odcid.None? {
        Undelivered(clientRefs, inbound, header, engine.nextConn);
        return InvalidToken;
      }
      ghost var log1 := engine.log;
      outcome := Deliver(inbound, header, recvLength, peer, odcid.value);
      AppendAssoc(log0, RetryCalls(inbound, header), DeliveryCalls(old(clientRefs), inbound, header, old(engine.nextConn)));
    }

    /**
     * `tick`: egress for every client, in key order, then the ingress of at
     * most one datagram. `frameData` is never read.
     */
    method Tick(frameData: seq<seq<byte>>, inbound: Inbound, header: HeaderInfo)
      returns (visited: seq<string>, outcome: TickOutcome)
      requires Valid() && HeaderFits(header)
      modifies this`clientRefs, this`wire, engine, pBuffer, pSendBuffer
      ensures Valid()
      ensures Ascending(visited) && forall k :: k in visited <==> k in old(clientRefs)
      ensures outcome == Outcome(old(clientRefs), inbound, header)
      ensures clientRefs == RegistryAfter(old(clientRefs), inbound, header, old(engine.nextConn))
      ensures wire == old(wire) + SweepWire(visited, old(clientRefs), Outgoing(old(engine.queues), old(engine.states),
                                    old(engine.writable), engine.streamReply, ConnsOf(old(clientRefs))))
                                + RetryWire(inbound, header, engine.retryReply)
      ensures engine.log == old(engine.log)
                            + SweepCalls(visited, old(clientRefs), old(engine.states), old(engine.writable))
                            + IngressCalls(old(clientRefs), inbound, header, old(engine.nextConn))
      ensures engine.nextConn == old(engine.nextConn) + NewConns(old(clientRefs), inbound, header)
      ensures AgreeOutside(engine.queues, Drained(old(engine.queues), ConnsOf(old(clientRefs))),
                           RecvTargets(old(clientRefs), inbound, header))
      ensures AgreeOutside(engine.states, old(engine.states), RecvTargets(old(clientRefs), inbound, header))
      ensures AgreeOutside(engine.writable, old(engine.writable), ConnsOf(old(clientRefs)))
      ensures pBuffer[..] == ReceiveBuffer(old(pBuffer[..]), inbound)
    {
      visited := EgressSweep();
      ghost var writable1 := engine.writable;
      outcome := Ingress(inbound, header);
      AgreeOutsideTrans(engine.writable, writable1, old(engine.writable), RecvTargets(old(clientRefs), inbound, header),
                        ConnsOf(old(clientRefs)), ConnsOf(old(clientRefs)));
    }
  }
}
