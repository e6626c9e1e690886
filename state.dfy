/**
 * The signed routing-state record of routing/state.go: a peer's ID, an
 * increment-only sequence number and its addresses, carried in a signed
 * envelope that is kept so the record re-serializes byte for byte.
 *
 * The record is immutable, so it is a datatype; its accessors `PeerID()`,
 * `Seq()` and `Multiaddrs()` are the destructors `peerID`, `seqNo` and
 * `addresses`. The straight-line constructors and the authentication gate are
 * functions over `Result`; the two address conversions and `Equal`, which the
 * source writes as loops, are methods proved against specification functions.
 */
module RoutingState {
  import opened Wrappers
  import opened External

  /** The domain string every routing-state envelope is signed and opened under. */
  const StateEnvelopeDomain: string := "libp2p-routing-state"

  /** The payload type tag of routing-state envelopes: the bytes of "/libp2p/routing-state-record". */
  const StateEnvelopePayloadType: bytes :=
    [47, 108, 105, 98, 112, 50, 112, 47, 114, 111, 117, 116, 105, 110, 103, 45, 115, 116, 97, 116, 101, 45, 114, 101, 99, 111, 114, 100]

  /** The payload type constant is the tag string, byte for byte. */
  lemma PayloadTypeIsTagString()
    ensures StateEnvelopePayloadType == StringBytes("/libp2p/routing-state-record")
  {
  }

  datatype SignedRoutingState = SignedRoutingState(
    peerID: PeerId,
    seqNo: u64,
    addresses: seq<Multiaddr>,
    envelope: Envelope)

  /** One variant per way the Go functions return an error. */
  datatype Error =
    // MakeSignedRoutingState
    | PeerIdDerivationFailed
    | PeerIdMarshalFailed
    | PayloadEncodeFailed
    | SigningFailed
    // UnmarshalSignedRoutingState / SignedRoutingStateFromEnvelope
    | OpenFailed
    | UnexpectedPayloadType
    | PayloadDecodeFailed
    | PeerIdDecodeFailed
    | PeerIdKeyMismatch
    // Marshal
    | EnvelopeMarshalFailed

  /**
   * The record invariant: the envelope carries the routing-state payload type
   * and the record's peer ID matches the key that signed the envelope.
   */
  predicate Authentic(r: SignedRoutingState, c: Collaborators)
  {
    r.envelope.payloadType == StateEnvelopePayloadType && c.matchesPublicKey(r.peerID, r.envelope.publicKey)
  }

  /**
   * statelessSeqNo: `uint64(t.UnixNano())`, with the clock reading passed in.
   * The conversion reinterprets the int64 as unsigned (modulo 2^64).
   */
  function StatelessSeqNo(unixNano: i64): (s: u64)
    ensures s == unixNano % TWO_TO_THE_64
    ensures 0 <= unixNano ==> s == unixNano
    ensures unixNano < 0 ==> TWO_TO_THE_64 / 2 <= s
  {
    if unixNano >= 0 then unixNano else unixNano + TWO_TO_THE_64
  }

  // ---------------------------------------------------------------------------
  // Address conversions

  /** Specification of addrsToProtobuf: one AddressInfo per address, holding its bytes. */
  function ToAddressInfos(addrs: seq<Multiaddr>): (r: seq<AddressInfo>)
    ensures |r| == |addrs|
    ensures forall i | 0 <= i < |addrs| :: r[i].multiaddr == addrs[i].bytes
  {
    if addrs == [] then [] else [AddressInfo(addrs[0].bytes)] + ToAddressInfos(addrs[1..])
  }

  /**
   * Specification of addrsFromProtobuf: the entries that parse as multiaddrs,
   * parsed, in their original order; the others are dropped.
   */
  function ParsedMultiaddrs(entries: seq<AddressInfo>, c: Collaborators): (r: seq<Multiaddr>)
    ensures |r| <= |entries|
  {
    if entries == [] then []
    else
      var kept := ParsedMultiaddrs(entries[..|entries| - 1], c);
      match c.parseMultiaddr(entries[|entries| - 1].multiaddr)
      case None => kept
      case Some(a) => kept + [a]
  }

  /** addrsToProtobuf. */
  method AddrsToProtobuf(addrs: seq<Multiaddr>) returns (out: seq<AddressInfo>)
    ensures out == ToAddressInfos(addrs)
  {
    out := [];
    for i := 0 to |addrs|
      invariant |out| == i
      invariant forall k | 0 <= k < i :: out[k] == AddressInfo(addrs[k].bytes)
    {
      out := out + [AddressInfo(addrs[i].bytes)];
    }
  }

  /** addrsFromProtobuf: never fails; malformed entries are skipped. */
  method AddrsFromProtobuf(entries: seq<AddressInfo>, c: Collaborators) returns (out: seq<Multiaddr>)
    ensures out == ParsedMultiaddrs(entries, c)
  {
    out := [];
    for i := 0 to |entries|
      invariant out == ParsedMultiaddrs(entries[..i], c)
    {
      assert entries[..i + 1][..i] == entries[..i];
      var a := c.parseMultiaddr(entries[i].multiaddr);
      if a.None? {
        continue;
      }
      out := out + [a.value];
    }
    assert entries[..|entries|] == entries;
  }

  // ---------------------------------------------------------------------------
  // Consumer path

  /**
   * SignedRoutingStateFromEnvelope: check the payload type, decode the payload,
   * rebuild the peer ID from its bytes and require it to match the signing key,
   * in that order. Each failed check has its own error; a record is returned
   * only when all of them pass.
   */
  function SignedRoutingStateFromEnvelope(envelope: Envelope, c: Collaborators): (r: Result<SignedRoutingState, Error>)
    ensures r == Failure(UnexpectedPayloadType) <==> envelope.payloadType != StateEnvelopePayloadType
    ensures r == Failure(PayloadDecodeFailed) <==>
      envelope.payloadType == StateEnvelopePayloadType && c.decodeRecord(envelope.payload).None?
    ensures r == Failure(PeerIdDecodeFailed) <==>
      && envelope.payloadType == StateEnvelopePayloadType
      && c.decodeRecord(envelope.payload).Some?
      && c.peerIdFromBytes(c.decodeRecord(envelope.payload).value.peerId).None?
    ensures r == Failure(PeerIdKeyMismatch) <==>
      && envelope.payloadType == StateEnvelopePayloadType
      && c.decodeRecord(envelope.payload).Some?
      && c.peerIdFromBytes(c.decodeRecord(envelope.payload).value.peerId).Some?
      && !c.matchesPublicKey(c.peerIdFromBytes(c.decodeRecord(envelope.payload).value.peerId).value, envelope.publicKey)
    ensures r.Failure? ==> r.error in {UnexpectedPayloadType, PayloadDecodeFailed, PeerIdDecodeFailed, PeerIdKeyMismatch}
    ensures r.Success? ==>
      && Authentic(r.value, c)
      && r.value.envelope == envelope
      && c.decodeRecord(envelope.payload).Some?
      && var msg := c.decodeRecord(envelope.payload).value;
      && c.peerIdFromBytes(msg.peerId) == Some(r.value.peerID)
      && r.value.seqNo == msg.seqNo
      && r.value.addresses == ParsedMultiaddrs(msg.addresses, c)
  {
    if envelope.payloadType != StateEnvelopePayloadType then Failure(UnexpectedPayloadType)
    else match c.decodeRecord(envelope.payload)
      case None => Failure(PayloadDecodeFailed)
      case Some(msg) =>
        match c.peerIdFromBytes(msg.peerId)
        case None => Failure(PeerIdDecodeFailed)
        case Some(id) =>
          if !c.matchesPublicKey(id, envelope.publicKey) then Failure(PeerIdKeyMismatch)
          else Success(SignedRoutingState(id, msg.seqNo, ParsedMultiaddrs(msg.addresses, c), envelope))
  }

  /**
   * UnmarshalSignedRoutingState: open the envelope under the routing-state
   * domain, then run the gate on what was opened.
   */
  function UnmarshalSignedRoutingState(envelopeBytes: bytes, c: Collaborators): (r: Result<SignedRoutingState, Error>)
    ensures r == Failure(OpenFailed) <==> c.openEnvelope(envelopeBytes, StateEnvelopeDomain).None?
    ensures c.openEnvelope(envelopeBytes, StateEnvelopeDomain).Some? ==>
      r == SignedRoutingStateFromEnvelope(c.openEnvelope(envelopeBytes, StateEnvelopeDomain).value, c)
    ensures r.Success? ==>
      && Authentic(r.value, c)
      && c.openEnvelope(envelopeBytes, StateEnvelopeDomain) == Some(r.value.envelope)
  {
    match c.openEnvelope(envelopeBytes, StateEnvelopeDomain)
    case None => Failure(OpenFailed)
    case Some(envelope) => SignedRoutingStateFromEnvelope(envelope, c)
  }

  /** Marshal: re-serialize the retained envelope, never a rebuilt payload. */
  function Marshal(s: SignedRoutingState, c: Collaborators): (r: Result<bytes, Error>)
    ensures r.Success? <==> c.marshalEnvelope(s.envelope).Some?
    ensures r.Success? ==> Some(r.value) == c.marshalEnvelope(s.envelope)
    ensures r.Failure? ==> r.error == EnvelopeMarshalFailed
  {
    match c.marshalEnvelope(s.envelope)
    case None => Failure(EnvelopeMarshalFailed)
    case Some(b) => Success(b)
  }

  // ---------------------------------------------------------------------------
  // Producer path

  /** The payload MakeSignedRoutingState signs. */
  function PayloadMessage(idBytes: bytes, seqNo: u64, addrs: seq<Multiaddr>): RoutingStateRecordMsg
  {
    RoutingStateRecordMsg(idBytes, seqNo, ToAddressInfos(addrs))
  }

  /**
   * MakeSignedRoutingState, with the clock reading of statelessSeqNo passed in
   * as `unixNano`: derive the peer ID from the key, marshal it, encode the
   * payload and sign it under the routing-state domain and payload type.
   */
  function MakeSignedRoutingState(privKey: PrivKey, addrs: seq<Multiaddr>, unixNano: i64, c: Collaborators)
    : (r: Result<SignedRoutingState, Error>)
    ensures r == Failure(PeerIdDerivationFailed) <==> c.idFromPublicKey(c.publicKeyOf(privKey)).None?
    ensures r == Failure(PeerIdMarshalFailed) <==>
      && c.idFromPublicKey(c.publicKeyOf(privKey)).Some?
      && c.marshalPeerId(c.idFromPublicKey(c.publicKeyOf(privKey)).value).None?
    ensures r == Failure(PayloadEncodeFailed) <==>
      && c.idFromPublicKey(c.publicKeyOf(privKey)).Some?
      && c.marshalPeerId(c.idFromPublicKey(c.publicKeyOf(privKey)).value).Some?
      && var idBytes := c.marshalPeerId(c.idFromPublicKey(c.publicKeyOf(privKey)).value).value;
      && c.encodeRecord(PayloadMessage(idBytes, StatelessSeqNo(unixNano), addrs)).None?
    ensures r == Failure(SigningFailed) <==>
      && c.idFromPublicKey(c.publicKeyOf(privKey)).Some?
      && c.marshalPeerId(c.idFromPublicKey(c.publicKeyOf(privKey)).value).Some?
      && var idBytes := c.marshalPeerId(c.idFromPublicKey(c.publicKeyOf(privKey)).value).value;
      && c.encodeRecord(PayloadMessage(idBytes, StatelessSeqNo(unixNano), addrs)).Some?
      && var payload := c.encodeRecord(PayloadMessage(idBytes, StatelessSeqNo(unixNano), addrs)).value;
      && c.makeEnvelope(privKey, StateEnvelopeDomain, StateEnvelopePayloadType, payload).None?
    ensures r.Failure? ==> r.error in {PeerIdDerivationFailed, PeerIdMarshalFailed, PayloadEncodeFailed, SigningFailed}
    ensures r.Success? ==>
      && c.idFromPublicKey(c.publicKeyOf(privKey)) == Some(r.value.peerID)
      && r.value.seqNo == StatelessSeqNo(unixNano)
      && r.value.addresses == addrs
      && c.marshalPeerId(r.value.peerID).Some?
      && var msg := PayloadMessage(c.marshalPeerId(r.value.peerID).value, r.value.seqNo, addrs);
      && c.encodeRecord(msg).Some?
      && c.makeEnvelope(privKey, StateEnvelopeDomain, StateEnvelopePayloadType, c.encodeRecord(msg).value)
         == Some(r.value.envelope)
  {
    match c.idFromPublicKey(c.publicKeyOf(privKey))
    case None => Failure(PeerIdDerivationFailed)
    case Some(p) =>
      match c.marshalPeerId(p)
      case None => Failure(PeerIdMarshalFailed)
      case Some(idBytes) =>
        var seqNo := StatelessSeqNo(unixNano);
        match c.encodeRecord(PayloadMessage(idBytes, seqNo, addrs))
        case None => Failure(PayloadEncodeFailed)
        case Some(payload) =>
          match c.makeEnvelope(privKey, StateEnvelopeDomain, StateEnvelopePayloadType, payload)
          case None => Failure(SigningFailed)
          case Some(envelope) => Success(SignedRoutingState(p, seqNo, addrs, envelope))
  }

  // ---------------------------------------------------------------------------
  // Equality

  /**
   * Specification of Equal: `other` is present, the sequence numbers and peer
   * IDs agree, the address lists agree position by position, and so do the
   * envelopes.
   */
  predicate RecordsEqual(s: SignedRoutingState, other: Option<SignedRoutingState>)
  {
    && other.Some?
    && s.seqNo == other.value.seqNo
    && s.peerID == other.value.peerID
    && |s.addresses| == |other.value.addresses|
    && (forall i | 0 <= i < |s.addresses| :: s.addresses[i] == other.value.addresses[i])
    && s.envelope == other.value.envelope
  }

  /** Equal, with a nil `other` as None: early exits, then a loop over the addresses. */
  method Equal(s: SignedRoutingState, other: Option<SignedRoutingState>) returns (eq: bool)
    ensures eq == RecordsEqual(s, other)
  {
    if other.None? {
      return false;
    }
    var o := other.value;
    if s.seqNo != o.seqNo {
      return false;
    }
    if s.peerID != o.peerID {
      return false;
    }
    if |s.addresses| != |o.addresses| {
      return false;
    }
    for i := 0 to |s.addresses|
      invariant forall k | 0 <= k < i :: s.addresses[k] == o.addresses[k]
    {
      if s.addresses[i] != o.addresses[i] {
        return false;
      }
    }
    return s.envelope == o.envelope;
  }
}
