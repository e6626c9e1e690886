/**
 * Properties of the routing-state record that relate several operations:
 * the address conversions as an order-preserving filter and a round trip,
 * marshal-after-parse, build-then-parse, structural equality, and the
 * ordering of timestamp sequence numbers.
 */
module RoutingStateProperties {
  import opened Wrappers
  import opened External
  import opened RoutingState

  // ---------------------------------------------------------------------------
  // addrsFromProtobuf is an order-preserving filter

  /** The positions of the entries that parse, in increasing order. */
  function KeptIndices(entries: seq<AddressInfo>, c: Collaborators): seq<nat>
  {
    if entries == [] then []
    else
      KeptIndices(entries[..|entries| - 1], c)
      + (if c.parseMultiaddr(entries[|entries| - 1].multiaddr).Some? then [|entries| - 1] else [])
  }

  /**
   * The output of addrsFromProtobuf is exactly the parsed entries at the
   * positions that parse, in the same order: position k of the output comes
   * from entry KeptIndices[k], those positions increase strictly, and a
   * position is kept if and only if its entry parses.
   */
  lemma {:induction false} ParsedMultiaddrsIsOrderedFilter(entries: seq<AddressInfo>, c: Collaborators)
    ensures |KeptIndices(entries, c)| == |ParsedMultiaddrs(entries, c)|
    ensures forall k | 0 <= k < |KeptIndices(entries, c)| ::
      && KeptIndices(entries, c)[k] < |entries|
      && c.parseMultiaddr(entries[KeptIndices(entries, c)[k]].multiaddr) == Some(ParsedMultiaddrs(entries, c)[k])
    ensures forall k, l | 0 <= k < l < |KeptIndices(entries, c)| :: KeptIndices(entries, c)[k] < KeptIndices(entries, c)[l]
    ensures forall i | 0 <= i < |entries| :: c.parseMultiaddr(entries[i].multiaddr).Some? <==> i in KeptIndices(entries, c)
  {
    if entries != [] {
      var n := |entries| - 1;
      var init := entries[..n];
      ParsedMultiaddrsIsOrderedFilter(init, c);
      var idx0, r0 := KeptIndices(init, c), ParsedMultiaddrs(init, c);
      assert forall k | 0 <= k < |idx0| :: idx0[k] < n && entries[idx0[k]] == init[idx0[k]];
      assert forall i | 0 <= i < n :: entries[i] == init[i];
    }
  }

  /** No entry is lost exactly when every entry parses. */
  lemma {:induction false} ParsedMultiaddrsKeepsAllIffWellFormed(entries: seq<AddressInfo>, c: Collaborators)
    ensures |ParsedMultiaddrs(entries, c)| == |entries| <==>
      forall i | 0 <= i < |entries| :: c.parseMultiaddr(entries[i].multiaddr).Some?
  {
    if entries != [] {
      var n := |entries| - 1;
      ParsedMultiaddrsKeepsAllIffWellFormed(entries[..n], c);
      assert forall i | 0 <= i < n :: entries[..n][i] == entries[i];
    }
  }

  /** A malformed entry next to a well-formed one is dropped without an error. */
  lemma MalformedEntryDropped(good: AddressInfo, bad: AddressInfo, a: Multiaddr, c: Collaborators)
    requires c.parseMultiaddr(good.multiaddr) == Some(a)
    requires c.parseMultiaddr(bad.multiaddr).None?
    ensures ParsedMultiaddrs([good, bad], c) == [a]
    ensures ParsedMultiaddrs([bad, good], c) == [a]
  {
  }

  /** addrsFromProtobuf undoes addrsToProtobuf on addresses that parse back from their own bytes. */
  lemma {:induction false} AddrsRoundTrip(addrs: seq<Multiaddr>, c: Collaborators)
    requires WellFormedAddrs(addrs, c)
    ensures ParsedMultiaddrs(ToAddressInfos(addrs), c) == addrs
  {
    if addrs != [] {
      var n := |addrs| - 1;
      var infos, init := ToAddressInfos(addrs), ToAddressInfos(addrs[..n]);
      assert forall i | 0 <= i < n :: infos[..n][i].multiaddr == init[i].multiaddr;
      assert infos[..n] == init;
      assert c.parseMultiaddr(infos[n].multiaddr) == Some(addrs[n]);
      AddrsRoundTrip(addrs[..n], c);
      assert addrs[..n] + [addrs[n]] == addrs;
    }
  }

  // ---------------------------------------------------------------------------
  // Consumer path

  /**
   * The payload type is checked before anything is decoded: with a foreign
   * payload type the outcome is the same error whatever the decoders do.
   */
  lemma PayloadTypeCheckedFirst(envelope: Envelope, c1: Collaborators, c2: Collaborators)
    requires envelope.payloadType != StateEnvelopePayloadType
    ensures SignedRoutingStateFromEnvelope(envelope, c1) == SignedRoutingStateFromEnvelope(envelope, c2)
    ensures SignedRoutingStateFromEnvelope(envelope, c1) == Failure(UnexpectedPayloadType)
  {
  }

  /**
   * Where peer.ID.MatchesPublicKey is "the ID derived from the key is this ID",
   * a parsed record's peer ID is the one derived from the envelope's signing key.
   */
  lemma ParsedIdIsSignersId(envelopeBytes: bytes, c: Collaborators, s: SignedRoutingState)
    requires forall id, pk :: c.matchesPublicKey(id, pk) <==> c.idFromPublicKey(pk) == Some(id)
    requires UnmarshalSignedRoutingState(envelopeBytes, c) == Success(s)
    ensures c.idFromPublicKey(s.envelope.publicKey) == Some(s.peerID)
  {
  }

  /** Marshal after a successful parse gives back the parsed bytes, where envelope marshalling does. */
  lemma MarshalAfterUnmarshal(envelopeBytes: bytes, c: Collaborators, s: SignedRoutingState)
    requires MarshalInvertsOpen(c)
    requires UnmarshalSignedRoutingState(envelopeBytes, c) == Success(s)
    ensures Marshal(s, c) == Success(envelopeBytes)
  {
  }

  // ---------------------------------------------------------------------------
  // Producer path

  /** A freshly built record satisfies the record invariant. */
  lemma MadeRecordIsAuthentic(privKey: PrivKey, addrs: seq<Multiaddr>, unixNano: i64, c: Collaborators, s: SignedRoutingState)
    requires EnvelopeKeepsFields(c)
    requires DerivedIdMatchesKey(c)
    requires MakeSignedRoutingState(privKey, addrs, unixNano, c) == Success(s)
    ensures Authentic(s, c)
    ensures s.envelope.publicKey == c.publicKeyOf(privKey)
  {
  }

  /**
   * Build, marshal, parse: the parsed record is the built record, and Equal
   * holds between them.
   */
  lemma BuildMarshalParseRoundTrip(
    privKey: PrivKey, addrs: seq<Multiaddr>, unixNano: i64, c: Collaborators,
    s: SignedRoutingState, wire: bytes)
    requires EnvelopeKeepsFields(c) && OpenAcceptsMade(c)
    requires RecordCodecRoundTrips(c) && PeerIdCodecRoundTrips(c) && DerivedIdMatchesKey(c)
    requires WellFormedAddrs(addrs, c)
    requires MakeSignedRoutingState(privKey, addrs, unixNano, c) == Success(s)
    requires Marshal(s, c) == Success(wire)
    ensures UnmarshalSignedRoutingState(wire, c) == Success(s)
    ensures RecordsEqual(s, Some(UnmarshalSignedRoutingState(wire, c).value))
  {
    var idBytes := c.marshalPeerId(s.peerID).value;
    var msg := PayloadMessage(idBytes, s.seqNo, addrs);
    var payload := c.encodeRecord(msg).value;
    var envelope := s.envelope;
    assert c.makeEnvelope(privKey, StateEnvelopeDomain, StateEnvelopePayloadType, payload) == Some(envelope);
    assert c.marshalEnvelope(envelope) == Some(wire);
    assert c.openEnvelope(wire, StateEnvelopeDomain) == Some(envelope);
    assert envelope.payloadType == StateEnvelopePayloadType && envelope.payload == payload;
    assert c.decodeRecord(payload) == Some(msg);
    assert c.peerIdFromBytes(idBytes) == Some(s.peerID);
    assert c.idFromPublicKey(c.publicKeyOf(privKey)) == Some(s.peerID);
    assert c.matchesPublicKey(s.peerID, envelope.publicKey);
    AddrsRoundTrip(addrs, c);
  }

  /** Two builds at increasing non-negative clock readings give increasing sequence numbers. */
  lemma BuildsAreOrdered(
    privKey: PrivKey, addrs1: seq<Multiaddr>, addrs2: seq<Multiaddr>, t1: i64, t2: i64, c: Collaborators,
    s1: SignedRoutingState, s2: SignedRoutingState)
    requires 0 <= t1 < t2
    requires MakeSignedRoutingState(privKey, addrs1, t1, c) == Success(s1)
    requires MakeSignedRoutingState(privKey, addrs2, t2, c) == Success(s2)
    ensures s1.seqNo < s2.seqNo
  {
  }

  /** A clock reading before 1970 wraps to a sequence number above every non-negative reading. */
  lemma NegativeClockWraps(before: i64, after: i64)
    requires before < 0 <= after
    ensures StatelessSeqNo(after) < StatelessSeqNo(before)
  {
  }

  // ---------------------------------------------------------------------------
  // Equality

  /** Equal compares every field, so it holds exactly between identical records. */
  lemma RecordsEqualIsIdentity(s: SignedRoutingState, o: SignedRoutingState)
    ensures RecordsEqual(s, Some(o)) <==> s == o
  {
  }

  /** A nil record is never equal. */
  lemma NilNeverEqual(s: SignedRoutingState)
    ensures !RecordsEqual(s, None)
  {
  }

  /**
   * Records that agree on every other field and whose address lists hold the
   * same addresses in a different order are not equal.
   */
  lemma AddressOrderMatters(s: SignedRoutingState, o: SignedRoutingState)
    requires o == s.(addresses := o.addresses)
    requires multiset(s.addresses) == multiset(o.addresses)
    requires s.addresses != o.addresses
    ensures !RecordsEqual(s, Some(o))
  {
  }
}
