/**
 * The libraries the routing-state record depends on, kept abstract.
 *
 * The signed-envelope primitive (crypto), the protobuf codec of the payload
 * (routing/pb), peer ID derivation and decoding (peer) and multiaddr parsing
 * (multiaddr) are not part of this model. Each operation the record uses is a
 * function-valued field of `Collaborators`, so every property proved about the
 * record holds for every implementation of them. Where a property needs the
 * libraries to behave, it names the assumption through one of the predicates
 * at the end of this module.
 */
module External {
  import opened Wrappers

  type byte = x: int | 0 <= x < 256
  type bytes = seq<byte>

  /** Go's uint64 and int64. */
  const TWO_TO_THE_64: int := 0x1_0000_0000_0000_0000
  type u64 = x: int | 0 <= x < 0x1_0000_0000_0000_0000
  type i64 = x: int | -0x8000_0000_0000_0000 <= x < 0x8000_0000_0000_0000

  /** Go's `[]byte(s)` for a string whose characters are all single bytes. */
  function StringBytes(s: string): bytes
    requires forall i | 0 <= i < |s| :: s[i] as int < 256
  {
    seq(|s|, i requires 0 <= i < |s| => s[i] as int)
  }

  datatype PublicKey = PublicKey(raw: bytes)
  datatype PrivKey = PrivKey(raw: bytes)

  /** A peer.ID is a string of multihash bytes; IDs compare byte for byte. */
  datatype PeerId = PeerId(raw: bytes)

  /** A multiaddr; `Bytes()` is the field and `Equal` is byte equality. */
  datatype Multiaddr = Multiaddr(bytes: bytes)

  /**
   * A signed envelope after opening: the embedded public key, the payload type
   * tag, the payload and the signature. `Equal` on envelopes compares all four,
   * which is datatype equality here.
   */
  datatype Envelope = Envelope(publicKey: PublicKey, payloadType: bytes, payload: bytes, signature: bytes)

  /** `pb.RoutingStateRecord_AddressInfo`. */
  datatype AddressInfo = AddressInfo(multiaddr: bytes)

  /** `pb.RoutingStateRecord`: the signed payload. */
  datatype RoutingStateRecordMsg = RoutingStateRecordMsg(peerId: bytes, seqNo: u64, addresses: seq<AddressInfo>)

  /** The library operations the record calls, each returning None where Go returns an error. */
  datatype Collaborators = Collaborators(
    // crypto.OpenEnvelope(bytes, domain): signature and domain verification
    openEnvelope: (bytes, string) -> Option<Envelope>,
    // crypto.MakeEnvelope(privKey, domain, payloadType, payload)
    makeEnvelope: (PrivKey, string, bytes, bytes) -> Option<Envelope>,
    // SignedEnvelope.Marshal()
    marshalEnvelope: Envelope -> Option<bytes>,
    // PrivKey.GetPublic()
    publicKeyOf: PrivKey -> PublicKey,
    // peer.IDFromPublicKey (so peer.IDFromPrivateKey is idFromPublicKey(publicKeyOf(k)))
    idFromPublicKey: PublicKey -> Option<PeerId>,
    // peer.ID.MarshalBinary()
    marshalPeerId: PeerId -> Option<bytes>,
    // peer.IDFromBytes
    peerIdFromBytes: bytes -> Option<PeerId>,
    // peer.ID.MatchesPublicKey
    matchesPublicKey: (PeerId, PublicKey) -> bool,
    // proto.Marshal on a RoutingStateRecord
    encodeRecord: RoutingStateRecordMsg -> Option<bytes>,
    // proto.Unmarshal into a RoutingStateRecord
    decodeRecord: bytes -> Option<RoutingStateRecordMsg>,
    // ma.NewMultiaddrBytes
    parseMultiaddr: bytes -> Option<Multiaddr>)

  // Assumptions about the libraries, each used only where a lemma names it.

  /** MakeEnvelope embeds the signer's public key, the payload type and the payload it was given. */
  ghost predicate EnvelopeKeepsFields(c: Collaborators)
  {
    forall k, d, t, p :: c.makeEnvelope(k, d, t, p).Some? ==>
      var e := c.makeEnvelope(k, d, t, p).value;
      e.publicKey == c.publicKeyOf(k) && e.payloadType == t && e.payload == p
  }

  /** An envelope signed under domain d, once marshalled, opens under d to the same envelope. */
  ghost predicate OpenAcceptsMade(c: Collaborators)
  {
    forall k, d, t, p :: c.makeEnvelope(k, d, t, p).Some? ==>
      var e := c.makeEnvelope(k, d, t, p).value;
      c.marshalEnvelope(e).Some? ==> c.openEnvelope(c.marshalEnvelope(e).value, d) == Some(e)
  }

  /** Marshalling an opened envelope reproduces the bytes it was opened from. */
  ghost predicate MarshalInvertsOpen(c: Collaborators)
  {
    forall b, d :: c.openEnvelope(b, d).Some? ==> c.marshalEnvelope(c.openEnvelope(b, d).value) == Some(b)
  }

  /** proto.Unmarshal inverts proto.Marshal on routing-state messages. */
  ghost predicate RecordCodecRoundTrips(c: Collaborators)
  {
    forall m :: c.encodeRecord(m).Some? ==> c.decodeRecord(c.encodeRecord(m).value) == Some(m)
  }

  /** peer.IDFromBytes inverts ID.MarshalBinary. */
  ghost predicate PeerIdCodecRoundTrips(c: Collaborators)
  {
    forall id :: c.marshalPeerId(id).Some? ==> c.peerIdFromBytes(c.marshalPeerId(id).value) == Some(id)
  }

  /** The ID derived from a public key matches that key. */
  ghost predicate DerivedIdMatchesKey(c: Collaborators)
  {
    forall pk :: c.idFromPublicKey(pk).Some? ==> c.matchesPublicKey(c.idFromPublicKey(pk).value, pk)
  }

  /** Every address parses back from its own bytes, as every Go Multiaddr value does. */
  predicate WellFormedAddrs(addrs: seq<Multiaddr>, c: Collaborators)
  {
    forall i | 0 <= i < |addrs| :: c.parseMultiaddr(addrs[i].bytes) == Some(addrs[i])
  }
}
