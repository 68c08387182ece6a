/**
 * The ingress half of `QUICServer::tick` as functions of its inputs: the one
 * `recvfrom`, the header fields `quiche_header_info` wrote, the retry for a
 * token-less packet, token validation, and lookup-then-insert in the registry.
 */
module Gatekeeper {
  import opened Types
  import opened Limits
  import opened RetryToken
  import opened HexKey
  import opened Quiche
  import opened Registry
  import opened Egress

  /** What the non-blocking socket has for this tick: a datagram from a peer, or a Winsock error code. */
  datatype Inbound = Arrived(payload: seq<byte>, from: Addr) | RecvFailed(error: int)

  /**
   * The out-parameters of `quiche_header_info` after the call. `rc` is its
   * return value; the server never reads it. On a failed parse quiche leaves
   * the out-parameters as they were, with their lengths at the buffer sizes.
   */
  datatype HeaderInfo = HeaderInfo(rc: int, version: int, ty: byte,
                                   scid: seq<byte>, dcid: seq<byte>, token: seq<byte>)

  /** The header parser writes no more than the buffers it is given. */
  predicate HeaderFits(h: HeaderInfo)
  {
    |h.scid| <= MaxConnIdLen && |h.dcid| <= MaxConnIdLen && |h.token| <= MaxTokenLen
  }

  /**
   * The return value of `recvfrom(sock, pBuffer, BUFFER_LEN, ...)`: the
   * datagram's length, or SOCKET_ERROR when nothing arrived or the datagram
   * did not fit the buffer (WSAEMSGSIZE).
   */
  function RecvLength(inbound: Inbound): (n: int)
    ensures n == SocketError || 0 <= n <= BufferLen
    ensures n >= 0 <==> inbound.Arrived? && |inbound.payload| <= BufferLen
    ensures n >= 0 ==> n == |inbound.payload|
  {
    match inbound
    case Arrived(p, _) => if |p| <= BufferLen then |p| else SocketError
    case RecvFailed(_) => SocketError
  }

  /** `WSAGetLastError()` after a failed `recvfrom`. */
  function RecvErrorCode(inbound: Inbound): (e: int)
    ensures inbound.Arrived? ==> e == WsaEMsgSize
    ensures inbound.RecvFailed? ==> e == inbound.error
  {
    match inbound
    case Arrived(_, _) => WsaEMsgSize
    case RecvFailed(e) => e
  }

  /** The only condition that ends the tick after egress: a would-block read. */
  predicate WouldBlock(inbound: Inbound)
    ensures WouldBlock(inbound) <==> inbound == RecvFailed(WsaEWouldBlock)
  {
    RecvLength(inbound) == SocketError && RecvErrorCode(inbound) == WsaEWouldBlock
  }

  /** `peer_addr` after `recvfrom`: the sender's address, or the zeroes of the `memset` if none was written. */
  function PeerOf(inbound: Inbound): (a: Addr)
    ensures inbound.Arrived? ==> a == inbound.from
    ensures inbound.RecvFailed? ==> a == ZeroAddr
  {
    match inbound
    case Arrived(_, from) => from
    case RecvFailed(_) => ZeroAddr
  }

  /** `pBuffer` after `recvfrom`: the datagram over the old contents, cut at BUFFER_LEN. */
  function ReceiveBuffer(buf: seq<byte>, inbound: Inbound): (r: seq<byte>)
    requires |buf| == BufferLen
    ensures |r| == BufferLen
    ensures RecvLength(inbound) >= 0 ==> r[..RecvLength(inbound)] == inbound.payload
    ensures inbound.RecvFailed? ==> r == buf
    ensures inbound.Arrived? && |inbound.payload| > BufferLen ==> r == inbound.payload[..BufferLen]
  {
    match inbound
    case Arrived(p, _) => if |p| <= |buf| then p + buf[|p|..] else p[..|buf|]
    case RecvFailed(_) => buf
  }

  /** The token validated: the one the peer sent, or, when it sent none, the one just minted for it. */
  function CheckedToken(inbound: Inbound, h: HeaderInfo): (t: seq<byte>)
    ensures |h.token| > 0 ==> t == h.token
    ensures |h.token| == 0 && |h.dcid| <= MaxConnIdLen ==>
      ValidateMintToken(t, PeerOf(inbound), MaxConnIdLen) == Some(h.dcid)
  {
    if |h.token| == 0 then MintToken(h.dcid, PeerOf(inbound)) else h.token
  }

  /** `validate_mint_token` against `peer_addr` with the QUICHE_MAX_CONN_ID_LEN `odcid` buffer. */
  function Validation(inbound: Inbound, h: HeaderInfo): (v: Option<seq<byte>>)
    ensures v.Some? ==> |v.value| <= MaxConnIdLen && CheckedToken(inbound, h) == MintToken(v.value, PeerOf(inbound))
    ensures |h.token| == 0 && |h.dcid| <= MaxConnIdLen ==> v == Some(h.dcid)
  {
    var v := ValidateMintToken(CheckedToken(inbound, h), PeerOf(inbound), MaxConnIdLen);
    if v.Some? then
      ValidatedIsMinted(CheckedToken(inbound, h), PeerOf(inbound), MaxConnIdLen);
      v
    else v
  }

  /** How a tick ends. */
  datatype TickOutcome =
    | NoDatagram                          // would-block: return after egress
    | InvalidToken                        // `validate_mint_token` failed: return
    | Ingested(key: string)               // known client: datagram handed to its connection
    | IngestOnMissingEntry(key: string)   // new client registered; the shadowed iterator is `end()` and is dereferenced

  /** The outcome of a tick on registry `refs`. */
  function Outcome(refs: map<string, ClientRef>, inbound: Inbound, h: HeaderInfo): (o: TickOutcome)
    ensures o.NoDatagram? <==> WouldBlock(inbound)
    ensures o.InvalidToken? <==> !WouldBlock(inbound) && Validation(inbound, h).None?
    ensures o.Ingested? <==> !WouldBlock(inbound) && Validation(inbound, h).Some? && HexStr(h.dcid) in refs
    ensures (o.Ingested? || o.IngestOnMissingEntry?) ==> o.key == HexStr(h.dcid)
  {
    if WouldBlock(inbound) then NoDatagram
    else if Validation(inbound, h).None? then InvalidToken
    else
      var key := HexStr(h.dcid);
      if key in refs then Ingested(key) else IngestOnMissingEntry(key)
  }

  /** `clientRefs` after the tick; `conn` is the handle the next `quiche_accept` returns. */
  function RegistryAfter(refs: map<string, ClientRef>, inbound: Inbound, h: HeaderInfo, conn: Conn)
    : (r: map<string, ClientRef>)
    ensures forall k :: k in refs ==> k in r && r[k] == refs[k]
    ensures r.Keys <= refs.Keys + {HexStr(h.dcid)}
    ensures Outcome(refs, inbound, h).IngestOnMissingEntry? <==> |r| == |refs| + 1
    ensures !Outcome(refs, inbound, h).IngestOnMissingEntry? ==> r == refs
    ensures Outcome(refs, inbound, h).IngestOnMissingEntry? ==>
      r == refs[HexStr(h.dcid) := ClientRef(h.dcid, conn, PeerOf(inbound))]
  {
    match Outcome(refs, inbound, h)
    case IngestOnMissingEntry(key) => Insert(refs, key, ClientRef(h.dcid, conn, PeerOf(inbound)))
    case _ => refs
  }

  /** The retry of `createToken`: one `sendto` to the peer when the packet carried no token. */
  function RetryWire(inbound: Inbound, h: HeaderInfo,
                     reply: (seq<byte>, seq<byte>, seq<byte>, seq<byte>) -> SendResult): (w: seq<SendToCall>)
    ensures |w| <= 1 && forall c :: c in w ==> c.to == PeerOf(inbound)
    ensures w != [] <==> !WouldBlock(inbound) && |h.token| == 0
  {
    if !WouldBlock(inbound) && |h.token| == 0 then
      var peer := PeerOf(inbound);
      [WireCall(peer, reply(h.scid, h.dcid, h.dcid, MintToken(h.dcid, peer)))]
    else []
  }

  /**
   * The connection `quiche_conn_recv` is called on: the registered client's
   * when the datagram is ingested into an existing entry, none otherwise.
   */
  function RecvTargets(refs: map<string, ClientRef>, inbound: Inbound, h: HeaderInfo): (s: set<Conn>)
    ensures s != {} <==> Outcome(refs, inbound, h).Ingested?
    ensures forall c :: c in s ==> c in ConnsOf(refs)
  {
    match Outcome(refs, inbound, h)
    case Ingested(key) => {refs[key].conn}
    case _ => {}
  }

  /** The connections `quiche_accept` creates for one datagram: one for a new client, none otherwise. */
  function NewConns(refs: map<string, ClientRef>, inbound: Inbound, h: HeaderInfo): (n: nat)
    ensures n <= 1 && (n == 1 <==> Outcome(refs, inbound, h).IngestOnMissingEntry?)
  {
    if Outcome(refs, inbound, h).IngestOnMissingEntry? then 1 else 0
  }

  /** The `quiche_retry` of `createToken`, made when the packet carried no token. */
  function RetryCalls(inbound: Inbound, h: HeaderInfo): (calls: seq<EngineCall>)
    ensures |calls| <= 1 && (calls != [] <==> !WouldBlock(inbound) && |h.token| == 0)
    ensures forall c :: c in calls ==> c.RetryCall? && c.newScid == c.dcid == h.dcid && c.scid == h.scid
    ensures forall c :: c in calls ==> ValidateMintToken(c.token, PeerOf(inbound), |h.dcid|) == Some(h.dcid)
  {
    if !WouldBlock(inbound) && |h.token| == 0
    then [RetryCall(h.scid, h.dcid, h.dcid, MintToken(h.dcid, PeerOf(inbound)))]
    else []
  }

  /** The engine call that hands the datagram over: `quiche_accept` for a new client, `quiche_conn_recv` for a known one. */
  function DeliveryCalls(refs: map<string, ClientRef>, inbound: Inbound, h: HeaderInfo, conn: Conn)
    : (calls: seq<EngineCall>)
    ensures |calls| <= 1
    ensures calls != [] <==> Outcome(refs, inbound, h).Ingested? || Outcome(refs, inbound, h).IngestOnMissingEntry?
    ensures forall c :: c in calls && c.AcceptCall? ==> c.conn == conn && c.dcid == h.dcid
    ensures forall c :: c in calls && c.AcceptCall? ==> Validation(inbound, h) == Some(c.odcid)
    ensures forall c :: c in calls && c.RecvCall? ==> c.conn in RecvTargets(refs, inbound, h)
  {
    match Outcome(refs, inbound, h)
    case IngestOnMissingEntry(_) => [AcceptCall(h.dcid, Validation(inbound, h).value, conn)]
    case Ingested(key) => [RecvCall(refs[key].conn, SizeT(RecvLength(inbound)))]
    case _ => []
  }

  /** The engine calls after egress: `quiche_retry`, then `quiche_accept` or `quiche_conn_recv`. */
  function IngressCalls(refs: map<string, ClientRef>, inbound: Inbound, h: HeaderInfo, conn: Conn)
    : (calls: seq<EngineCall>)
    ensures |calls| <= 2
    ensures WouldBlock(inbound) ==> calls == []
    ensures |calls| == 2 ==> calls[0].RetryCall? && !calls[1].RetryCall?
  {
    RetryCalls(inbound, h) + DeliveryCalls(refs, inbound, h, conn)
  }

  /** A datagram that is not delivered leaves the registry and every connection alone. */
  lemma Undelivered(refs: map<string, ClientRef>, inbound: Inbound, h: HeaderInfo, conn: Conn)
    requires WouldBlock(inbound) || Validation(inbound, h).None?
    ensures RegistryAfter(refs, inbound, h, conn) == refs && DeliveryCalls(refs, inbound, h, conn) == []
    ensures RecvTargets(refs, inbound, h) == {} && NewConns(refs, inbound, h) == 0
  {
  }

  /** A would-block read ends the tick before header parsing: nothing is sent, called or registered. */
  lemma WouldBlockChangesNothing(refs: map<string, ClientRef>, inbound: Inbound, h: HeaderInfo, conn: Conn,
                                 reply: (seq<byte>, seq<byte>, seq<byte>, seq<byte>) -> SendResult)
    requires WouldBlock(inbound)
    ensures RegistryAfter(refs, inbound, h, conn) == refs
    ensures RetryWire(inbound, h, reply) == [] && IngressCalls(refs, inbound, h, conn) == []
  {
  }

  /**
   * A token-less packet gets exactly one retry to its sender, carrying the
   * token minted for its id and address; processing goes on, the minted
   * token validates, and the client is registered in the same tick.
   */
  lemma EmptyTokenRegistersSameTick(refs: map<string, ClientRef>, inbound: Inbound, h: HeaderInfo, conn: Conn,
                                    reply: (seq<byte>, seq<byte>, seq<byte>, seq<byte>) -> SendResult)
    requires !WouldBlock(inbound) && |h.token| == 0 && HeaderFits(h)
    ensures var peer := PeerOf(inbound);
      && RetryWire(inbound, h, reply) == [WireCall(peer, reply(h.scid, h.dcid, h.dcid, MintToken(h.dcid, peer)))]
      && RetryWire(inbound, h, reply)[0].to == peer
      && IngressCalls(refs, inbound, h, conn)[0] == RetryCall(h.scid, h.dcid, h.dcid, MintToken(h.dcid, peer))
      && Validation(inbound, h) == Some(h.dcid)
      && HexStr(h.dcid) in RegistryAfter(refs, inbound, h, conn)
      && (HexStr(h.dcid) !in refs ==>
            && Outcome(refs, inbound, h) == IngestOnMissingEntry(HexStr(h.dcid))
            && RegistryAfter(refs, inbound, h, conn) == refs[HexStr(h.dcid) := ClientRef(h.dcid, conn, peer)])
  {
    RoundTrip(h.dcid, PeerOf(inbound), MaxConnIdLen);
  }

  /** An invalid token leaves the registry as it was and reaches neither `quiche_accept` nor `quiche_conn_recv`. */
  lemma InvalidTokenChangesNothing(refs: map<string, ClientRef>, inbound: Inbound, h: HeaderInfo, conn: Conn)
    requires Outcome(refs, inbound, h) == InvalidToken
    ensures RegistryAfter(refs, inbound, h, conn) == refs
    ensures forall c :: c in IngressCalls(refs, inbound, h, conn) ==> c.RetryCall?
  {
  }

  /** A token minted for another address is refused: no entry, no engine call. */
  lemma ForeignTokenRefused(refs: map<string, ClientRef>, inbound: Inbound, h: HeaderInfo, conn: Conn,
                            dcid: seq<byte>, addr: Addr)
    requires !WouldBlock(inbound)
    requires h.token == MintToken(dcid, addr) && addr != PeerOf(inbound)
    ensures Outcome(refs, inbound, h) == InvalidToken
    ensures RegistryAfter(refs, inbound, h, conn) == refs
    ensures IngressCalls(refs, inbound, h, conn) == []
  {
    MintedRejectsOtherAddress(dcid, addr, PeerOf(inbound), MaxConnIdLen);
  }

  /**
   * A peer that echoes the retry token for a registered id is handed to that
   * client's existing connection: no second entry, no second accept.
   */
  lemma ResendReusesEntry(refs: map<string, ClientRef>, inbound: Inbound, h: HeaderInfo, conn: Conn)
    requires !WouldBlock(inbound) && |h.dcid| <= MaxConnIdLen
    requires h.token == MintToken(h.dcid, PeerOf(inbound))
    requires HexStr(h.dcid) in refs
    ensures Outcome(refs, inbound, h) == Ingested(HexStr(h.dcid))
    ensures RegistryAfter(refs, inbound, h, conn) == refs
    ensures IngressCalls(refs, inbound, h, conn) ==
      [RecvCall(refs[HexStr(h.dcid)].conn, SizeT(RecvLength(inbound)))]
  {
    RoundTrip(h.dcid, PeerOf(inbound), MaxConnIdLen);
  }

  /** A tick keeps the registry invariant, with the accept counter advanced when a client was added. */
  lemma RegistryAfterConsistent(refs: map<string, ClientRef>, inbound: Inbound, h: HeaderInfo, conn: Conn)
    requires Consistent(refs, conn) && HeaderFits(h)
    ensures Outcome(refs, inbound, h).IngestOnMissingEntry? ==>
      Consistent(RegistryAfter(refs, inbound, h, conn), conn + 1)
    ensures !Outcome(refs, inbound, h).IngestOnMissingEntry? ==>
      Consistent(RegistryAfter(refs, inbound, h, conn), conn)
  {
    if Outcome(refs, inbound, h).IngestOnMissingEntry? {
      InsertFreshKeepsConsistent(refs, conn, h.dcid, PeerOf(inbound));
    }
  }

  /** Two packets with different connection ids never land on the same registry entry. */
  lemma DistinctIdsDistinctKeys(h1: HeaderInfo, h2: HeaderInfo)
    requires h1.dcid != h2.dcid
    ensures HexStr(h1.dcid) != HexStr(h2.dcid)
  {
    if HexStr(h1.dcid) == HexStr(h2.dcid) {
      HexStrInjective(h1.dcid, h2.dcid);
    }
  }
}
