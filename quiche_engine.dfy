/**
 * The quiche library as the server sees it: an abstract engine that the
 * server calls but whose internals are not part of this model. It holds, per
 * connection, the packets `quiche_conn_send` will still hand out, the
 * connection state behind `quiche_conn_is_established` and
 * `quiche_conn_is_in_early_data`, and the stream ids `quiche_conn_writable`
 * enumerates. The reply of `quiche_retry` and the packets a stream send
 * makes the engine queue are fixed functions of their arguments; what
 * `quiche_conn_recv` does to its connection is left open. Every call is
 * recorded in `log`, in order.
 */
module Quiche {
  import opened Types
  import opened Limits

  /** A `quiche_conn *`: an opaque handle to one connection's state machine. */
  type Conn = nat

  /** What the two state queries report: neither, early data, or established. */
  datatype ConnState = Handshaking | EarlyData | Established

  /** The result of `quiche_conn_send` or `quiche_retry`: a packet written to the caller's buffer, or a negative error code. */
  datatype SendResult = Written(packet: seq<byte>) | Failed(code: int)

  /** A call into the engine whose effect inside the engine is not modelled. */
  datatype EngineCall =
    | StreamSendCall(conn: Conn, stream: nat, len: nat, fin: bool)
    | RetryCall(scid: seq<byte>, dcid: seq<byte>, newScid: seq<byte>, token: seq<byte>)
    | AcceptCall(dcid: seq<byte>, odcid: seq<byte>, conn: Conn)
    | RecvCall(conn: Conn, len: nat)

  /** The `ssize_t` the engine returns for a result. */
  function ReturnValue(r: SendResult): int
  {
    match r
    case Written(p) => |p|
    case Failed(code) => code
  }

  /**
   * A result that `quiche_conn_send` can hand out before it reports
   * QUICHE_ERR_DONE: a packet no longer than the `max_packet_size` the server
   * configures (MAX_DATAGRAM_SIZE), or another negative error code.
   */
  predicate Pending(r: SendResult)
  {
    match r
    case Written(p) => |p| <= MaxDatagramSize
    case Failed(code) => code < 0 && code != QuicheErrDone
  }

  /** Every result still queued on one connection can be handed out. */
  predicate AllPending(q: seq<SendResult>)
  {
    forall i :: 0 <= i < |q| ==> Pending(q[i])
  }

  /** Every result queued on every connection can be handed out. */
  predicate QueuesPending(queues: map<Conn, seq<SendResult>>)
  {
    forall c :: c in queues ==> AllPending(queues[c])
  }

  /** Results that can be handed out, followed by more such results. */
  lemma AllPendingAppend(a: seq<SendResult>, b: seq<SendResult>)
    requires AllPending(a) && AllPending(b)
    ensures AllPending(a + b)
  {
    forall i | 0 <= i < |a + b|
      ensures Pending((a + b)[i])
    {
      if i >= |a| {
        assert (a + b)[i] == b[i - |a|];
      }
    }
  }

  /** A result `quiche_retry` can return into a MAX_DATAGRAM_SIZE buffer. */
  predicate RetryReply(r: SendResult)
  {
    match r
    case Written(p) => |p| <= MaxDatagramSize
    case Failed(code) => code < 0
  }

  /** The packets still queued on connection `c` (none for a connection the engine has no entry for). */
  function QueueIn(queues: map<Conn, seq<SendResult>>, c: Conn): seq<SendResult>
  {
    if c in queues then queues[c] else []
  }

  /** The queues after every connection in `conns` was sent until QUICHE_ERR_DONE. */
  function Drained(queues: map<Conn, seq<SendResult>>, conns: set<Conn>): (r: map<Conn, seq<SendResult>>)
    ensures r.Keys == queues.Keys + conns
    ensures forall c :: QueueIn(r, c) == if c in conns then [] else QueueIn(queues, c)
  {
    map c | c in queues.Keys + conns :: if c in conns then [] else queues[c]
  }

  /** Draining one connection empties its queue and touches no other. */
  lemma DrainedSingle(queues: map<Conn, seq<SendResult>>, c: Conn)
    ensures Drained(queues, {c}) == queues[c := []]
  {
  }

  /** What a connection's queue held before it is drained does not matter afterwards. */
  lemma DrainedOverwrite(queues: map<Conn, seq<SendResult>>, c: Conn, q: seq<SendResult>)
    ensures Drained(queues[c := q], {c}) == Drained(queues, {c})
  {
  }

  /** The queues after the engine appended `more` to the queue of connection `c`. */
  function Enqueue(queues: map<Conn, seq<SendResult>>, c: Conn, more: seq<SendResult>): (r: map<Conn, seq<SendResult>>)
    ensures QueueIn(r, c) == QueueIn(queues, c) + more
    ensures forall d :: d != c ==> (d in r <==> d in queues) && (d in r ==> r[d] == queues[d])
  {
    if more == [] then queues else queues[c := QueueIn(queues, c) + more]
  }

  /** Appending twice to one queue is appending both, in order. */
  lemma EnqueueTwice(queues: map<Conn, seq<SendResult>>, c: Conn, a: seq<SendResult>, b: seq<SendResult>)
    ensures Enqueue(Enqueue(queues, c, a), c, b) == Enqueue(queues, c, a + b)
  {
    if a == [] {
      assert a + b == b;
    } else if b == [] {
      assert a + b == a;
    } else {
      assert (QueueIn(queues, c) + a) + b == QueueIn(queues, c) + (a + b);
    }
  }

  /** Appending results that can be handed out keeps every queue able to hand out what it holds. */
  lemma EnqueueKeepsPending(queues: map<Conn, seq<SendResult>>, c: Conn, more: seq<SendResult>)
    requires QueuesPending(queues) && AllPending(more)
    ensures QueuesPending(Enqueue(queues, c, more))
  {
    if more != [] {
      assert AllPending(QueueIn(queues, c));
      AllPendingAppend(QueueIn(queues, c), more);
    }
  }

  /** Whatever the engine queued on `c` is gone once `c` is drained. */
  lemma DrainedEnqueue(queues: map<Conn, seq<SendResult>>, c: Conn, more: seq<SendResult>)
    ensures Drained(Enqueue(queues, c, more), {c}) == Drained(queues, {c})
  {
    if more != [] {
      DrainedOverwrite(queues, c, QueueIn(queues, c) + more);
    }
  }

  /** `a` and `b` agree on every connection outside `except`. */
  ghost predicate AgreeOutside<V>(a: map<Conn, V>, b: map<Conn, V>, except: set<Conn>)
  {
    forall d :: d !in except ==> (d in a <==> d in b) && (d in a ==> a[d] == b[d])
  }

  /** Agreement outside a set composes: two steps agree outside any set covering both. */
  lemma AgreeOutsideTrans<V>(a: map<Conn, V>, b: map<Conn, V>, c: map<Conn, V>, s: set<Conn>, t: set<Conn>,
                             u: set<Conn>)
    requires AgreeOutside(a, b, s) && AgreeOutside(b, c, t) && s + t <= u
    ensures AgreeOutside(a, c, u)
  {
  }

  /** Writable sets that agree outside `s` agree on every connection not in `s`. */
  lemma AgreeOutsideWritable(a: map<Conn, seq<nat>>, b: map<Conn, seq<nat>>, s: set<Conn>, c: Conn)
    requires AgreeOutside(a, b, s) && c !in s
    ensures WritableIn(a, c) == WritableIn(b, c)
  {
  }

  /** Draining one more connection. */
  lemma DrainedOneMore(queues: map<Conn, seq<SendResult>>, conns: set<Conn>, c: Conn)
    ensures Drained(Drained(queues, conns), {c}) == Drained(queues, conns + {c})
  {
  }

  /** The state of connection `c` (a connection without an entry is still handshaking). */
  function StateIn(states: map<Conn, ConnState>, c: Conn): ConnState
  {
    if c in states then states[c] else Handshaking
  }

  /** The writable stream ids of connection `c`, in the order the iterator yields them. */
  function WritableIn(writable: map<Conn, seq<nat>>, c: Conn): seq<nat>
  {
    if c in writable then writable[c] else []
  }

  class Engine {
    var queues: map<Conn, seq<SendResult>>
    var states: map<Conn, ConnState>
    var writable: map<Conn, seq<nat>>
    const retryReply: (seq<byte>, seq<byte>, seq<byte>, seq<byte>) -> SendResult
    /** The packets a stream send on `(c, stream)` makes the engine queue on `c`. */
    const streamReply: (Conn, nat) -> seq<SendResult>
    /** The handle the next `quiche_accept` returns; every handle below it has been handed out. */
    var nextConn: Conn
    var log: seq<EngineCall>

    ghost predicate Valid()
      reads this
    {
      && QueuesPending(queues)
      && (forall s, d, n, t :: RetryReply(retryReply(s, d, n, t)))
      && (forall c, s :: AllPending(streamReply(c, s)))
    }

    constructor (queues: map<Conn, seq<SendResult>>, states: map<Conn, ConnState>,
                 writable: map<Conn, seq<nat>>,
                 retryReply: (seq<byte>, seq<byte>, seq<byte>, seq<byte>) -> SendResult,
                 streamReply: (Conn, nat) -> seq<SendResult>)
      requires QueuesPending(queues)
      requires forall s, d, n, t :: RetryReply(retryReply(s, d, n, t))
      requires forall c, s :: AllPending(streamReply(c, s))
      ensures Valid()
      ensures this.queues == queues && this.states == states && this.writable == writable
      ensures this.retryReply == retryReply && this.streamReply == streamReply
      ensures nextConn == 0 && log == []
    {
      this.queues := queues;
      this.states := states;
      this.writable := writable;
      this.retryReply := retryReply;
      this.streamReply := streamReply;
      nextConn := 0;
      log := [];
    }

    /** `quiche_conn_send(c, out, out_len)`: hands out the next queued packet, or QUICHE_ERR_DONE. */
    method ConnSend(c: Conn, out: array<byte>) returns (written: int)
      requires Valid() && out.Length >= MaxDatagramSize
      modifies this, out
      ensures Valid()
      ensures states == old(states) && writable == old(writable)
      ensures nextConn == old(nextConn) && log == old(log)
      ensures QueueIn(old(queues), c) == [] ==>
        written == QuicheErrDone && queues == old(queues)[c := []] && out[..] == old(out[..])
      ensures QueueIn(old(queues), c) != [] ==>
        var r := old(queues)[c][0];
        && queues == old(queues)[c := old(queues)[c][1..]]
        && written == ReturnValue(r)
        && (r.Written? ==> out[..written] == r.packet)
        && (r.Failed? ==> out[..] == old(out[..]))
    {
      if c !in queues || queues[c] == [] {
        queues := queues[c := []];
        written := QuicheErrDone;
      } else {
        var r := queues[c][0];
        assert Pending(r);
        queues := queues[c := queues[c][1..]];
        written := ReturnValue(r);
        if r.Written? {
          forall i | 0 <= i < |r.packet| {
            out[i] := r.packet[i];
          }
        }
      }
    }

    /**
     * `quiche_conn_stream_send(c, stream, buf, buf_len, fin)`: the engine
     * packetises the data and queues the packets on `c`. Which streams of `c`
     * stay writable afterwards is left open (a stream whose FIN was sent takes
     * no more data); no other connection is touched. The return value is
     * ignored by the server.
     */
    method StreamSend(c: Conn, stream: nat, buf: array<byte>, fin: bool)
      requires Valid()
      modifies this
      ensures Valid()
      ensures queues == Enqueue(old(queues), c, streamReply(c, stream))
      ensures states == old(states) && AgreeOutside(writable, old(writable), {c})
      ensures nextConn == old(nextConn)
      ensures log == old(log) + [StreamSendCall(c, stream, buf.Length, fin)]
    {
      EnqueueKeepsPending(queues, c, streamReply(c, stream));
      queues := Enqueue(queues, c, streamReply(c, stream));
      log := log + [StreamSendCall(c, stream, buf.Length, fin)];
    }

    /** `quiche_retry(scid, dcid, new_scid, token, out, out_len)`: writes a Retry packet or fails. */
    method Retry(scid: seq<byte>, dcid: seq<byte>, newScid: seq<byte>, token: seq<byte>, out: array<byte>)
      returns (written: int)
      requires Valid() && out.Length >= MaxDatagramSize
      modifies this, out
      ensures Valid()
      ensures queues == old(queues) && states == old(states) && writable == old(writable)
      ensures nextConn == old(nextConn)
      ensures log == old(log) + [RetryCall(scid, dcid, newScid, token)]
      ensures written == ReturnValue(retryReply(scid, dcid, newScid, token))
      ensures retryReply(scid, dcid, newScid, token).Written? ==>
        out[..written] == retryReply(scid, dcid, newScid, token).packet
      ensures retryReply(scid, dcid, newScid, token).Failed? ==> written < 0 && out[..] == old(out[..])
    {
      var r := retryReply(scid, dcid, newScid, token);
      assert RetryReply(r);
      log := log + [RetryCall(scid, dcid, newScid, token)];
      written := ReturnValue(r);
      if r.Written? {
        forall i | 0 <= i < |r.packet| {
          out[i] := r.packet[i];
        }
      }
    }

    /** `quiche_accept(dcid, odcid, config)`: a handle to a new connection, distinct from every earlier one. */
    method Accept(dcid: seq<byte>, odcid: seq<byte>) returns (c: Conn)
      modifies this
      ensures queues == old(queues) && states == old(states) && writable == old(writable)
      ensures c == old(nextConn) && nextConn == c + 1
      ensures log == old(log) + [AcceptCall(dcid, odcid, c)]
    {
      c := nextConn;
      nextConn := nextConn + 1;
      log := log + [AcceptCall(dcid, odcid, c)];
    }

    /**
     * `quiche_conn_recv(c, buf, len)`: the engine consumes the datagram. What
     * that does to `c` (its queue, its state, its writable streams) is left
     * open; no other connection is touched. The result is ignored by the server.
     */
    method Recv(c: Conn, len: nat)
      requires Valid()
      modifies this
      ensures Valid()
      ensures AgreeOutside(queues, old(queues), {c})
      ensures AgreeOutside(states, old(states), {c}) && AgreeOutside(writable, old(writable), {c})
      ensures nextConn == old(nextConn)
      ensures log == old(log) + [RecvCall(c, len)]
    {
      log := log + [RecvCall(c, len)];
    }
  }
}
