/**
 * What the egress sweep at the top of `QUICServer::tick` puts on the socket
 * and asks of the engine, as functions of the registry and the engine's
 * state at the start of the sweep.
 */
module Egress {
  import opened Types
  import opened Limits
  import opened Quiche
  import opened Registry
  import opened KeyOrder

  /**
   * One `sendto` on the server socket. A negative engine result reaches
   * `sendto` as a negative length (`size_t` narrowed back to `int`), which is
   * recorded as such.
   */
  datatype SendToCall = SendTo(to: Addr, payload: seq<byte>) | SendToNegativeLength(to: Addr, len: int)

  /** The `sendto` the server issues for one engine result, addressed to `to`. */
  function WireCall(to: Addr, r: SendResult): (call: SendToCall)
    ensures call.to == to
    ensures call.SendTo? <==> r.Written?
    ensures r.Written? ==> call.payload == r.packet
    ensures r.Failed? ==> call.len == r.code
  {
    match r
    case Written(p) => SendTo(to, p)
    case Failed(code) => SendToNegativeLength(to, code)
  }

  /**
   * The `while (true)` send loop for one client: one `sendto` per result the
   * engine hands out before QUICHE_ERR_DONE, in order, all to that client's
   * address, each packet carried unchanged.
   */
  function EgressWire(results: seq<SendResult>, to: Addr): (w: seq<SendToCall>)
    ensures |w| == |results|
  {
    if results == [] then []
    else EgressWire(results[..|results| - 1], to) + [WireCall(to, results[|results| - 1])]
  }

  /** One more turn of the send loop: one more write, after the earlier ones. */
  lemma EgressWireStep(results: seq<SendResult>, n: nat, to: Addr)
    requires n < |results|
    ensures EgressWire(results[..n + 1], to) == EgressWire(results[..n], to) + [WireCall(to, results[n])]
  {
    assert results[..n + 1][..n] == results[..n];
  }

  /**
   * The send loop's writes, one by one: every one goes to `to`, a packet
   * becomes a datagram carrying exactly that packet, an error code becomes
   * a write of that (negative) length.
   */
  lemma {:induction false} EgressWirePointwise(results: seq<SendResult>, to: Addr)
    ensures forall i :: 0 <= i < |results| ==> EgressWire(results, to)[i].to == to
    ensures forall i :: 0 <= i < |results| ==> (EgressWire(results, to)[i].SendTo? <==> results[i].Written?)
    ensures forall i :: 0 <= i < |results| && results[i].Written? ==>
      EgressWire(results, to)[i].payload == results[i].packet
    ensures forall i :: 0 <= i < |results| && results[i].Failed? ==>
      EgressWire(results, to)[i].len == results[i].code
  {
    if results != [] {
      var n := |results| - 1;
      EgressWirePointwise(results[..n], to);
      forall i | 0 <= i < n
        ensures EgressWire(results, to)[i] == EgressWire(results[..n], to)[i]
        ensures results[i] == results[..n][i]
      {
      }
    }
  }

  /** The stream sends of the writable-stream loop: each id gets the whole send buffer, with `fin` set. */
  function StreamSends(c: Conn, ids: seq<nat>): (calls: seq<EngineCall>)
    ensures |calls| == |ids|
    ensures forall i :: 0 <= i < |ids| ==> calls[i] == StreamSendCall(c, ids[i], MaxDatagramSize, true)
  {
    if ids == [] then []
    else StreamSends(c, ids[..|ids| - 1]) + [StreamSendCall(c, ids[|ids| - 1], MaxDatagramSize, true)]
  }

  /**
   * The engine calls of one client before its send loop: the writable streams
   * are forced only when the connection is neither established nor in early data.
   */
  function ForceCalls(c: Conn, state: ConnState, ids: seq<nat>): (calls: seq<EngineCall>)
    ensures state != Handshaking ==> calls == []
  {
    if state == Handshaking then StreamSends(c, ids) else []
  }

  /** The packets the engine queues on `c` for the stream sends on `ids`, in call order. */
  function StreamPackets(c: Conn, ids: seq<nat>, reply: (Conn, nat) -> seq<SendResult>): seq<SendResult>
  {
    if ids == [] then []
    else StreamPackets(c, ids[..|ids| - 1], reply) + reply(c, ids[|ids| - 1])
  }

  /** The packets the forced stream sends of one client add to its queue. */
  function ForcedPackets(c: Conn, state: ConnState, ids: seq<nat>, reply: (Conn, nat) -> seq<SendResult>)
    : (packets: seq<SendResult>)
    ensures state != Handshaking ==> packets == []
  {
    if state == Handshaking then StreamPackets(c, ids, reply) else []
  }

  /** Stream sends only queue results the engine can hand out. */
  lemma {:induction false} StreamPacketsPending(c: Conn, ids: seq<nat>, reply: (Conn, nat) -> seq<SendResult>)
    requires forall d, s :: AllPending(reply(d, s))
    ensures AllPending(StreamPackets(c, ids, reply))
  {
    if ids != [] {
      StreamPacketsPending(c, ids[..|ids| - 1], reply);
      AllPendingAppend(StreamPackets(c, ids[..|ids| - 1], reply), reply(c, ids[|ids| - 1]));
    }
  }

  /** The packets the forced stream sends add to the queue of `c` in a sweep that serves `conns`. */
  function ForcedIn(states: map<Conn, ConnState>, writable: map<Conn, seq<nat>>,
                    reply: (Conn, nat) -> seq<SendResult>, conns: set<Conn>, c: Conn): seq<SendResult>
  {
    if c in conns then ForcedPackets(c, StateIn(states, c), WritableIn(writable, c), reply) else []
  }

  /**
   * What each connection hands out during a sweep that serves the
   * connections `conns`: the packets queued when the sweep began, followed
   * by those its forced stream sends add. The sweep's `sendto` calls are
   * stated over these queues.
   */
  function Outgoing(queues: map<Conn, seq<SendResult>>, states: map<Conn, ConnState>, writable: map<Conn, seq<nat>>,
                    reply: (Conn, nat) -> seq<SendResult>, conns: set<Conn>): map<Conn, seq<SendResult>>
  {
    map c | c in queues.Keys + conns :: QueueIn(queues, c) + ForcedIn(states, writable, reply, conns, c)
  }

  /** A connection's outgoing packets: its queue, then its forced ones; served and queued connections only. */
  lemma OutgoingIn(queues: map<Conn, seq<SendResult>>, states: map<Conn, ConnState>, writable: map<Conn, seq<nat>>,
                   reply: (Conn, nat) -> seq<SendResult>, conns: set<Conn>, c: Conn)
    ensures c in Outgoing(queues, states, writable, reply, conns) <==> c in queues || c in conns
    ensures QueueIn(Outgoing(queues, states, writable, reply, conns), c)
            == QueueIn(queues, c) + ForcedIn(states, writable, reply, conns, c)
  {
  }

  /** One more stream send: one more call, and the packets it queues after the earlier ones. */
  lemma StreamSendStep(c: Conn, ids: seq<nat>, i: nat, reply: (Conn, nat) -> seq<SendResult>)
    requires i < |ids|
    ensures StreamSends(c, ids[..i + 1]) == StreamSends(c, ids[..i]) + [StreamSendCall(c, ids[i], MaxDatagramSize, true)]
    ensures StreamPackets(c, ids[..i + 1], reply) == StreamPackets(c, ids[..i], reply) + reply(c, ids[i])
  {
    assert ids[..i + 1][..i] == ids[..i];
  }

  /** Every packet the sweep can hand out fits MAX_DATAGRAM_SIZE, forced ones included. */
  lemma OutgoingPending(queues: map<Conn, seq<SendResult>>, states: map<Conn, ConnState>,
                        writable: map<Conn, seq<nat>>, reply: (Conn, nat) -> seq<SendResult>,
                        conns: set<Conn>)
    requires QueuesPending(queues) && forall d, s :: AllPending(reply(d, s))
    ensures QueuesPending(Outgoing(queues, states, writable, reply, conns))
  {
    var r := Outgoing(queues, states, writable, reply, conns);
    forall c | c in r
      ensures AllPending(r[c])
    {
      OutgoingIn(queues, states, writable, reply, conns, c);
      assert r[c] == QueueIn(r, c);
      assert AllPending(QueueIn(queues, c));
      if c in conns && StateIn(states, c) == Handshaking {
        StreamPacketsPending(c, WritableIn(writable, c), reply);
      }
      AllPendingAppend(QueueIn(queues, c), ForcedIn(states, writable, reply, conns, c));
    }
  }

  /** All `sendto` calls of a sweep that visits the keys in `order`. */
  function SweepWire(order: seq<string>, refs: map<string, ClientRef>, queues: map<Conn, seq<SendResult>>): seq<SendToCall>
    requires forall i :: 0 <= i < |order| ==> order[i] in refs
  {
    if order == [] then []
    else
      var k := order[|order| - 1];
      SweepWire(order[..|order| - 1], refs, queues) + EgressWire(QueueIn(queues, refs[k].conn), refs[k].addr)
  }

  /** All engine calls of a sweep that visits the keys in `order`. */
  function SweepCalls(order: seq<string>, refs: map<string, ClientRef>,
                      states: map<Conn, ConnState>, writable: map<Conn, seq<nat>>): seq<EngineCall>
    requires forall i :: 0 <= i < |order| ==> order[i] in refs
  {
    if order == [] then []
    else
      var c := refs[order[|order| - 1]].conn;
      SweepCalls(order[..|order| - 1], refs, states, writable) + ForceCalls(c, StateIn(states, c), WritableIn(writable, c))
  }

  /** Visiting one more key appends that client's egress to the sweep's `sendto` calls. */
  lemma SweepWireAppend(order: seq<string>, k: string, refs: map<string, ClientRef>, queues: map<Conn, seq<SendResult>>)
    requires forall i :: 0 <= i < |order| ==> order[i] in refs
    requires k in refs
    ensures forall i :: 0 <= i < |order + [k]| ==> (order + [k])[i] in refs
    ensures SweepWire(order + [k], refs, queues) ==
      SweepWire(order, refs, queues) + EgressWire(QueueIn(queues, refs[k].conn), refs[k].addr)
  {
    assert (order + [k])[..|order|] == order;
  }

  /** Visiting one more key appends that client's stream sends to the sweep's engine calls. */
  lemma SweepCallsAppend(order: seq<string>, k: string, refs: map<string, ClientRef>,
                         states: map<Conn, ConnState>, writable: map<Conn, seq<nat>>)
    requires forall i :: 0 <= i < |order| ==> order[i] in refs
    requires k in refs
    ensures forall i :: 0 <= i < |order + [k]| ==> (order + [k])[i] in refs
    ensures SweepCalls(order + [k], refs, states, writable) ==
      SweepCalls(order, refs, states, writable) +
      ForceCalls(refs[k].conn, StateIn(states, refs[k].conn), WritableIn(writable, refs[k].conn))
  {
    assert (order + [k])[..|order|] == order;
  }

  /** Nothing the sweep sends goes anywhere but to the stored address of a visited client. */
  lemma {:induction false} SweepWireTargets(order: seq<string>, refs: map<string, ClientRef>,
                                            queues: map<Conn, seq<SendResult>>, j: nat)
    requires forall i :: 0 <= i < |order| ==> order[i] in refs
    requires j < |SweepWire(order, refs, queues)|
    ensures exists i :: 0 <= i < |order| && SweepWire(order, refs, queues)[j].to == refs[order[i]].addr
  {
    var n := |order| - 1;
    var front := SweepWire(order[..n], refs, queues);
    if j < |front| {
      SweepWireTargets(order[..n], refs, queues, j);
      var i :| 0 <= i < n && front[j].to == refs[order[..n][i]].addr;
      assert order[..n][i] == order[i];
    } else {
      var q := QueueIn(queues, refs[order[n]].conn);
      EgressWirePointwise(q, refs[order[n]].addr);
      assert SweepWire(order, refs, queues)[j] == EgressWire(q, refs[order[n]].addr)[j - |front|];
    }
  }

  /** A client with nothing pending costs no socket write: a sweep over idle clients sends nothing. */
  lemma {:induction false} SweepWireIdle(order: seq<string>, refs: map<string, ClientRef>,
                                         queues: map<Conn, seq<SendResult>>)
    requires forall i :: 0 <= i < |order| ==> order[i] in refs
    requires forall i :: 0 <= i < |order| ==> QueueIn(queues, refs[order[i]].conn) == []
    ensures SweepWire(order, refs, queues) == []
  {
    if order != [] {
      SweepWireIdle(order[..|order| - 1], refs, queues);
    }
  }

  /** Connection `c` has nothing queued and no stream send to force: it is past the handshake or has no writable stream. */
  predicate Idle(queues: map<Conn, seq<SendResult>>, states: map<Conn, ConnState>, writable: map<Conn, seq<nat>>,
                 c: Conn)
  {
    QueueIn(queues, c) == [] && (StateIn(states, c) != Handshaking || WritableIn(writable, c) == [])
  }

  /**
   * The sweep as `tick` runs it, forced stream sends included: when every
   * visited client is idle, no socket write is made.
   */
  lemma SweepOutgoingIdle(order: seq<string>, refs: map<string, ClientRef>,
                          queues: map<Conn, seq<SendResult>>, states: map<Conn, ConnState>,
                          writable: map<Conn, seq<nat>>, reply: (Conn, nat) -> seq<SendResult>)
    requires forall i :: 0 <= i < |order| ==> order[i] in refs
    requires forall i :: 0 <= i < |order| ==> Idle(queues, states, writable, refs[order[i]].conn)
    ensures SweepWire(order, refs, Outgoing(queues, states, writable, reply, ConnsOf(refs))) == []
  {
    var out := Outgoing(queues, states, writable, reply, ConnsOf(refs));
    forall i | 0 <= i < |order|
      ensures QueueIn(out, refs[order[i]].conn) == []
    {
      var c := refs[order[i]].conn;
      assert c in ConnsOf(refs);
      OutgoingIn(queues, states, writable, reply, ConnsOf(refs), c);
    }
    SweepWireIdle(order, refs, out);
  }

  /** Every `sendto` of a sweep that is addressed to one client carries that client's packets only. */
  lemma {:induction false} SweepWireOfClient(order: seq<string>, refs: map<string, ClientRef>,
                                             queues: map<Conn, seq<SendResult>>, key: string)
    requires forall i :: 0 <= i < |order| ==> order[i] in refs
    requires key in refs
    requires forall i :: 0 <= i < |order| && order[i] != key ==> refs[order[i]].addr != refs[key].addr
    ensures forall c :: c in SweepWire(order, refs, queues) && c.SendTo? && c.to == refs[key].addr ==>
      exists p :: Written(p) in QueueIn(queues, refs[key].conn) && c.payload == p
  {
    if order != [] {
      var n := |order| - 1;
      var front := SweepWire(order[..n], refs, queues);
      var q := QueueIn(queues, refs[order[n]].conn);
      var last := EgressWire(q, refs[order[n]].addr);
      assert SweepWire(order, refs, queues) == front + last;
      SweepWireOfClient(order[..n], refs, queues, key);
      EgressWirePointwise(q, refs[order[n]].addr);
      forall c: SendToCall | c in front + last && c.SendTo? && c.to == refs[key].addr
        ensures exists p :: Written(p) in QueueIn(queues, refs[key].conn) && c.payload == p
      {
        if c !in front {
          var i :| 0 <= i < |last| && last[i] == c;
          assert order[n] == key;
          assert q[i] == Written(c.payload);
        }
      }
    }
  }

  /**
   * Every datagram the sweep sends fits `pSendBuffer`: the engine hands out
   * no packet longer than MAX_DATAGRAM_SIZE.
   */
  lemma {:induction false} SweepWireFits(order: seq<string>, refs: map<string, ClientRef>,
                                         queues: map<Conn, seq<SendResult>>)
    requires forall i :: 0 <= i < |order| ==> order[i] in refs
    requires QueuesPending(queues)
    ensures forall c :: c in SweepWire(order, refs, queues) && c.SendTo? ==> |c.payload| <= MaxDatagramSize
  {
    if order != [] {
      var n := |order| - 1;
      var front := SweepWire(order[..n], refs, queues);
      var q := QueueIn(queues, refs[order[n]].conn);
      var last := EgressWire(q, refs[order[n]].addr);
      assert SweepWire(order, refs, queues) == front + last;
      SweepWireFits(order[..n], refs, queues);
      EgressWirePointwise(q, refs[order[n]].addr);
      forall c: SendToCall | c in front + last && c.SendTo?
        ensures |c.payload| <= MaxDatagramSize
      {
        if c !in front {
          var i :| 0 <= i < |last| && last[i] == c;
          assert Pending(q[i]);
        }
      }
    }
  }

  /**
   * Where the sweep over `refs` stands: `visited` holds the keys already
   * served, in ascending order, `remaining` the rest, all above the last one
   * served, and `done` the handles whose queues were drained, which are
   * exactly the handles of the served keys.
   */
  ghost predicate SweepProgress(refs: map<string, ClientRef>, owner: map<Conn, string>,
                                visited: seq<string>, remaining: set<string>, done: set<Conn>)
  {
    && OwnedBy(refs, owner)
    && remaining <= refs.Keys
    && (forall i :: 0 <= i < |visited| ==> visited[i] in refs && visited[i] !in remaining)
    && (forall k :: k in refs && k !in remaining ==> k in visited)
    && Chain(visited)
    && LastBelow(visited, remaining)
    && done <= ConnsOf(refs)
    && (forall k :: k in refs ==> (refs[k].conn in done <==> k !in remaining))
  }

  /** Nothing is served before the sweep starts. */
  lemma SweepProgressStart(refs: map<string, ClientRef>, owner: map<Conn, string>)
    requires OwnedBy(refs, owner)
    ensures SweepProgress(refs, owner, [], refs.Keys, {})
  {
  }

  /**
   * Serving the least remaining key: its handle has not been drained yet, and
   * afterwards the sweep stands one key further.
   */
  lemma SweepProgressStep(refs: map<string, ClientRef>, owner: map<Conn, string>,
                          visited: seq<string>, remaining: set<string>, done: set<Conn>, key: string)
    requires SweepProgress(refs, owner, visited, remaining, done)
    requires key in remaining && forall k :: k in remaining && k != key ==> Less(key, k)
    ensures key in refs && refs[key].conn !in done
    ensures SweepProgress(refs, owner, visited + [key], remaining - {key}, done + {refs[key].conn})
  {
    var c := refs[key].conn;
    TakeLeast(visited, remaining, key);
    var v := visited + [key];
    forall i | 0 <= i < |v|
      ensures v[i] in refs && v[i] !in remaining - {key}
    {
      if i < |visited| {
        assert v[i] == visited[i];
      }
    }
    forall k | k in refs
      ensures refs[k].conn in done + {c} <==> k !in remaining - {key}
    {
      if k != key {
        assert owner[refs[k].conn] == k && owner[c] == key;
      }
    }
  }

  /** When nothing remains, every key was served once, in ascending order, and every handle drained. */
  lemma SweepProgressEnd(refs: map<string, ClientRef>, owner: map<Conn, string>,
                         visited: seq<string>, done: set<Conn>)
    requires SweepProgress(refs, owner, visited, {}, done)
    ensures Ascending(visited) && (forall k :: k in visited <==> k in refs)
    ensures done == ConnsOf(refs)
  {
    ChainAscending(visited);
    forall c | c in ConnsOf(refs)
      ensures c in done
    {
      var k :| k in refs && refs[k].conn == c;
    }
  }
}
