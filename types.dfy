/** Value types shared by every part of the server model. */
module Types {

  /** One octet, as `uint8_t` in the server. */
  newtype byte = x: int | 0 <= x < 256

  /** Conventional optional value. */
  datatype Option<+T> = None | Some(value: T)

  /** Size of `struct sockaddr_in`, the address `recvfrom` fills in for an IPv4 socket. */
  const SockaddrInLen: nat := 16

  /** The raw bytes of a peer's `struct sockaddr_in`. */
  type Addr = s: seq<byte> | |s| == SockaddrInLen
    witness [0, 0, 0, 0, 0, 0, 0, 0, 0, 0, 0, 0, 0, 0, 0, 0]

  /** The all-zero address that `memset` leaves in `peer_addr` before `recvfrom`. */
  const ZeroAddr: Addr := [0, 0, 0, 0, 0, 0, 0, 0, 0, 0, 0, 0, 0, 0, 0, 0]

  /** Regrouping a concatenation of three logs. */
  lemma AppendAssoc<T>(a: seq<T>, b: seq<T>, c: seq<T>)
    ensures (a + b) + c == a + (b + c)
  {
  }
}
