/**
 * The size bounds declared in quic_server.h, together with the constants of
 * the quiche library and of Winsock that the server relies on.
 */
module Limits {
  import opened Types

  /** BUFFER_LEN: capacity of the receive buffer `pBuffer`. */
  const BufferLen: nat := 65535

  /** MAX_DATAGRAM_SIZE: capacity of the send buffer `pSendBuffer`. */
  const MaxDatagramSize: nat := 1350

  /** QUICHE_MAX_CONN_ID_LEN, as defined by the quiche library (quiche.h is not part of this model). */
  const MaxConnIdLen: nat := 20

  /** `sizeof(struct sockaddr_storage)` on Windows. */
  const SockaddrStorageLen: nat := 128

  /** The marker `"quiche"` (without its terminating NUL) that opens every retry token. */
  const Marker: seq<byte> := [0x71, 0x75, 0x69, 0x63, 0x68, 0x65]

  /** MAX_TOKEN_LEN: `sizeof("quiche") - 1 + sizeof(struct sockaddr_storage) + QUICHE_MAX_CONN_ID_LEN`. */
  const MaxTokenLen: nat := |Marker| + SockaddrStorageLen + MaxConnIdLen

  /** QUICHE_ERR_DONE: what quiche returns when there is nothing more to write. */
  const QuicheErrDone: int := -1

  /** SOCKET_ERROR: what Winsock's `recvfrom` returns on failure. */
  const SocketError: int := -1

  /** WSAEWOULDBLOCK: no datagram is waiting on the non-blocking socket. */
  const WsaEWouldBlock: int := 10035

  /** WSAEMSGSIZE: the datagram was larger than the buffer and was truncated. */
  const WsaEMsgSize: int := 10040

  /** A `size_t` on a 64-bit target: an `int` converted to it wraps modulo 2^64. */
  function SizeT(v: int): (r: nat)
    ensures r < 0x1_0000_0000_0000_0000
    ensures 0 <= v < 0x1_0000_0000_0000_0000 ==> r == v
    ensures -0x1_0000_0000_0000_0000 <= v < 0 ==> r == v + 0x1_0000_0000_0000_0000
  {
    v % 0x1_0000_0000_0000_0000
  }
}
