/**
 * The stateless retry token of quic_server.cpp: the address-validation token
 * of a Retry packet (section 8.1 of RFC 9000), built here without any
 * integrity protection as the marker, the peer's address bytes and the
 * client's original destination connection id.
 */
module RetryToken {
  import opened Types
  import opened Limits

  /** `mint_token`: the marker, then `addr[0..addr_len)`, then `dcid[0..dcid_len)`. */
  function MintToken(dcid: seq<byte>, addr: seq<byte>): (token: seq<byte>)
    ensures |token| == |Marker| + |addr| + |dcid|
    ensures token[..|Marker|] == Marker
    ensures token[|Marker|..|Marker| + |addr|] == addr
    ensures token[|Marker| + |addr|..] == dcid
  {
    Marker + addr + dcid
  }

  /**
   * `validate_mint_token`: `None` is the `false` return, which leaves the
   * caller's odcid buffer and `*odcid_len` untouched; `Some(odcid)` is the
   * `true` return, with `odcid` the bytes copied out and `|odcid|` the new
   * `*odcid_len`. `odcidCap` is the caller's `*odcid_len` on entry.
   */
  function ValidateMintToken(token: seq<byte>, addr: seq<byte>, odcidCap: nat): (r: Option<seq<byte>>)
    ensures r.Some? <==>
      && |token| >= |Marker| + |addr|
      && token[..|Marker|] == Marker
      && token[|Marker|..|Marker| + |addr|] == addr
      && |token| - |Marker| - |addr| <= odcidCap
    ensures r.Some? ==> r.value == token[|Marker| + |addr|..]
  {
    if |token| < |Marker| || token[..|Marker|] != Marker then None
    else
      var rest := token[|Marker|..];
      if |rest| < |addr| || rest[..|addr|] != addr then None
      else
        var odcid := rest[|addr|..];
        if odcidCap < |odcid| then None
        else Some(odcid)
  }

  /** Round trip: a minted token validates against the same address and yields the dcid back. */
  lemma RoundTrip(dcid: seq<byte>, addr: seq<byte>, odcidCap: nat)
    requires |dcid| <= odcidCap
    ensures ValidateMintToken(MintToken(dcid, addr), addr, odcidCap) == Some(dcid)
  {
  }

  /** The converse: every token that validates is exactly the token minted for the recovered id. */
  lemma ValidatedIsMinted(token: seq<byte>, addr: seq<byte>, odcidCap: nat)
    requires ValidateMintToken(token, addr, odcidCap).Some?
    ensures token == MintToken(ValidateMintToken(token, addr, odcidCap).value, addr)
  {
    var o := ValidateMintToken(token, addr, odcidCap).value;
    calc {
      token;
      token[..|Marker|] + token[|Marker|..|Marker| + |addr|] + token[|Marker| + |addr|..];
      Marker + addr + o;
    }
  }

  /** Validation succeeds with `odcid` exactly when the token is the one minted for it and it fits. */
  lemma ValidateIffMinted(token: seq<byte>, addr: seq<byte>, odcidCap: nat, odcid: seq<byte>)
    ensures ValidateMintToken(token, addr, odcidCap) == Some(odcid)
            <==> token == MintToken(odcid, addr) && |odcid| <= odcidCap
  {
    if ValidateMintToken(token, addr, odcidCap) == Some(odcid) {
      ValidatedIsMinted(token, addr, odcidCap);
    }
    if token == MintToken(odcid, addr) && |odcid| <= odcidCap {
      RoundTrip(odcid, addr, odcidCap);
    }
  }

  /** A token that is too short for the marker is rejected. */
  lemma RejectsShortToken(token: seq<byte>, addr: seq<byte>, odcidCap: nat)
    requires |token| < |Marker|
    ensures ValidateMintToken(token, addr, odcidCap) == None
  {
  }

  /** A token whose first six bytes are not `"quiche"` is rejected. */
  lemma RejectsWrongMarker(token: seq<byte>, addr: seq<byte>, odcidCap: nat)
    requires |token| >= |Marker| && token[..|Marker|] != Marker
    ensures ValidateMintToken(token, addr, odcidCap) == None
  {
  }

  /** A token with fewer than `addr_len` bytes after the marker is rejected. */
  lemma RejectsTruncatedAddress(token: seq<byte>, addr: seq<byte>, odcidCap: nat)
    requires |Marker| <= |token| < |Marker| + |addr|
    ensures ValidateMintToken(token, addr, odcidCap) == None
  {
  }

  /** A token whose embedded address differs from `addr` is rejected. */
  lemma RejectsOtherAddress(token: seq<byte>, addr: seq<byte>, odcidCap: nat)
    requires |token| >= |Marker| + |addr|
    requires token[|Marker|..|Marker| + |addr|] != addr
    ensures ValidateMintToken(token, addr, odcidCap) == None
  {
  }

  /** A leftover longer than the caller's capacity is rejected. */
  lemma RejectsOversizedOdcid(token: seq<byte>, addr: seq<byte>, odcidCap: nat)
    requires |token| >= |Marker| + |addr|
    requires |token| - |Marker| - |addr| > odcidCap
    ensures ValidateMintToken(token, addr, odcidCap) == None
  {
  }

  /** A token minted for one address never validates against another address of the same length. */
  lemma MintedRejectsOtherAddress(dcid: seq<byte>, addr: seq<byte>, other: seq<byte>, odcidCap: nat)
    requires |other| == |addr| && other != addr
    ensures ValidateMintToken(MintToken(dcid, addr), other, odcidCap) == None
  {
    var t := MintToken(dcid, addr);
    assert t[|Marker|..|Marker| + |other|] == addr;
  }

  /** A token minted for an address no larger than `sockaddr_storage` fits the MAX_TOKEN_LEN buffer. */
  lemma MintedTokenFits(dcid: seq<byte>, addr: seq<byte>)
    requires |addr| <= SockaddrStorageLen && |dcid| <= MaxConnIdLen
    ensures |MintToken(dcid, addr)| <= MaxTokenLen
  {
  }
}
