/**
 * The client registry of quic_server.h: `std::map<std::string, ClientRef>
 * clientRefs`, keyed by `hexStr` of the destination connection id.
 */
module Registry {
  import opened Types
  import opened Limits
  import opened HexKey
  import opened Quiche

  /**
   * `struct ClientRef`: the connection id bytes copied into its
   * QUICHE_MAX_CONN_ID_LEN array, the engine handle, and the peer's address.
   */
  datatype ClientRef = ClientRef(dcid: seq<byte>, conn: Conn, addr: Addr)

  /** `std::map::insert`: adds the pair when the key is absent and never overwrites an existing entry. */
  function Insert<K, V>(m: map<K, V>, k: K, v: V): (r: map<K, V>)
    ensures r.Keys == m.Keys + {k}
    ensures r[k] == if k in m then m[k] else v
    ensures forall j :: j in m ==> r[j] == m[j]
    ensures |r| == if k in m then |m| else |m| + 1
  {
    if k in m then m else m[k := v]
  }

  /** Every entry sits under `hexStr` of its own connection id. */
  ghost predicate KeyedByDcid(refs: map<string, ClientRef>)
  {
    forall k :: k in refs ==> k == HexStr(refs[k].dcid)
  }

  /** No engine handle is shared by two entries. */
  ghost predicate DistinctConns(refs: map<string, ClientRef>)
  {
    forall k, j :: k in refs && j in refs && k != j ==> refs[k].conn != refs[j].conn
  }

  /** `owner` maps the handle of every entry back to that entry's key. */
  ghost predicate OwnedBy(refs: map<string, ClientRef>, owner: map<Conn, string>)
  {
    forall k :: k in refs ==> refs[k].conn in owner && owner[refs[k].conn] == k
  }

  /** Distinct handles, said the other way round: every handle in use has one owning key. */
  ghost predicate OwnedConns(refs: map<string, ClientRef>)
  {
    exists owner :: OwnedBy(refs, owner)
  }

  /** Distinct handles give every handle its owner ... */
  lemma DistinctConnsOwned(refs: map<string, ClientRef>)
    requires DistinctConns(refs)
    ensures OwnedConns(refs)
  {
    var owner := map k | k in refs :: refs[k].conn := k;
    assert OwnedBy(refs, owner);
  }

  /** ... and handles with one owner each are distinct. */
  lemma OwnedConnsDistinct(refs: map<string, ClientRef>)
    requires OwnedConns(refs)
    ensures DistinctConns(refs)
  {
    var owner :| OwnedBy(refs, owner);
    forall k, j | k in refs && j in refs && k != j
      ensures refs[k].conn != refs[j].conn
    {
      assert owner[refs[k].conn] == k && owner[refs[j].conn] == j;
    }
  }

  /** The handles of all registered clients. */
  ghost function ConnsOf(refs: map<string, ClientRef>): set<Conn>
  {
    set k | k in refs :: refs[k].conn
  }

  /**
   * The registry invariant: entries keyed by their id, ids within the
   * QUICHE_MAX_CONN_ID_LEN array, and distinct handles all below `bound`.
   */
  ghost predicate Consistent(refs: map<string, ClientRef>, bound: Conn)
  {
    && KeyedByDcid(refs)
    && OwnedConns(refs)
    && forall k :: k in refs ==> |refs[k].dcid| <= MaxConnIdLen && refs[k].conn < bound
  }

  /** Looking up `hexStr(dcid)` is looking up the raw connection id. */
  lemma LookupByDcid(refs: map<string, ClientRef>, dcid: seq<byte>)
    requires KeyedByDcid(refs)
    ensures HexStr(dcid) in refs <==> exists k :: k in refs && refs[k].dcid == dcid
    ensures HexStr(dcid) in refs ==> refs[HexStr(dcid)].dcid == dcid
  {
    if HexStr(dcid) in refs {
      HexStrInjective(refs[HexStr(dcid)].dcid, dcid);
    }
  }

  /** Registering a new client under its own key with a fresh handle keeps the registry consistent. */
  lemma {:induction false} InsertFreshKeepsConsistent(refs: map<string, ClientRef>, bound: Conn, dcid: seq<byte>,
                                                      addr: Addr)
    requires Consistent(refs, bound)
    requires |dcid| <= MaxConnIdLen
    ensures Consistent(Insert(refs, HexStr(dcid), ClientRef(dcid, bound, addr)), bound + 1)
  {
    var key, entry := HexStr(dcid), ClientRef(dcid, bound, addr);
    var r := Insert(refs, key, entry);
    forall k | k in r
      ensures k == HexStr(r[k].dcid) && |r[k].dcid| <= MaxConnIdLen && r[k].conn < bound + 1
    {
      if k in refs {
        assert r[k] == refs[k];
      } else {
        assert k == key && r[k] == entry;
      }
    }
    var owner :| OwnedBy(refs, owner);
    InsertFreshKeepsOwned(refs, owner, bound, key, entry);
  }

  /** The new handle, above every handle in use, gets the new key as its owner. */
  lemma InsertFreshKeepsOwned(refs: map<string, ClientRef>, owner: map<Conn, string>, bound: Conn,
                              key: string, entry: ClientRef)
    requires OwnedBy(refs, owner) && forall k :: k in refs ==> refs[k].conn < bound
    requires entry.conn == bound
    ensures OwnedBy(Insert(refs, key, entry), owner[bound := key])
  {
    var r := Insert(refs, key, entry);
    forall k | k in r
      ensures r[k].conn in owner[bound := key] && owner[bound := key][r[k].conn] == k
    {
      if k in refs {
        assert r[k] == refs[k];
      } else {
        assert k == key && r[k] == entry;
      }
    }
  }

}
