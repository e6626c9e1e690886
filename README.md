# Signed routing-state record, modelled in Dafny

This project models the signed routing-state record of go-libp2p-core
(`routing/state.go`). A peer uses the record to publish its peer ID, an
increment-only sequence number and its multiaddrs. The record travels inside a
signed envelope, and the envelope is kept so that the record re-serializes
byte for byte.

The model covers:

- the producer path `MakeSignedRoutingState`;
- the consumer gate `UnmarshalSignedRoutingState` / `SignedRoutingStateFromEnvelope`;
- `Marshal`, the accessors and `Equal`;
- the two address conversions `addrsToProtobuf` / `addrsFromProtobuf`;
- the constants `StateEnvelopeDomain` and `StateEnvelopePayloadType`.

Files:

- `wrappers.dfy`: `Option` and `Result`.
- `external.dfy` (module `External`): the libraries the record calls, kept
  abstract. These are the signed envelope (open, make, marshal), protobuf
  encoding and decoding of the payload, peer ID derivation, marshalling,
  decoding and `MatchesPublicKey`, and multiaddr parsing. Each one is a
  function-valued field of the datatype `Collaborators`, so every result holds
  for every implementation of them. A lemma that needs a library to behave
  names its assumption explicitly through one of these predicates:
  `EnvelopeKeepsFields`, `OpenAcceptsMade`, `MarshalInvertsOpen`,
  `RecordCodecRoundTrips`, `PeerIdCodecRoundTrips`, `DerivedIdMatchesKey`,
  `WellFormedAddrs`.
- `state.dfy` (module `RoutingState`): the record and its operations.
  - The record is immutable, so it is a datatype. The accessors `PeerID()`,
    `Seq()` and `Multiaddrs()` are its destructors `peerID`, `seqNo` and
    `addresses`.
  - The straight-line operations are functions over `Result`. Each way the Go
    code returns an error has its own `Error` variant.
  - `addrsToProtobuf`, `addrsFromProtobuf` and `Equal` are loops in Go. Here
    they are methods with loops, each proved equal to a specification:
    `ToAddressInfos`, `ParsedMultiaddrs` and `RecordsEqual`.
  - `Authentic` is the record invariant: the envelope carries the
    routing-state payload type, and the peer ID matches the signing key.
- `properties.dfy` (module `RoutingStateProperties`): lemmas that relate
  several operations.

Modelling choices:

- Envelope `Equal`, multiaddr `Equal` and the peer ID comparison `!=` compare
  bytes or fields. They are modelled as datatype equality.
- `statelessSeqNo` reads the wall clock. The reading (`UnixNano`, an int64) is
  a parameter. The Go `uint64(...)` conversion is reduction modulo 2^64.

Behaviour of the code worth noting:

- A payload decode failure and a peer-ID decode failure are two different
  errors (`PayloadDecodeFailed`, `PeerIdDecodeFailed`).
- `Marshal` can fail, because it returns the envelope's marshalling error.
- `statelessSeqNo` takes a nanosecond clock reading, and a reading before
  1970 wraps to a very large sequence number (`NegativeClockWraps`).

## Model

| member | source | states |
|---|---|---|
| `RoutingState.PayloadTypeIsTagString` | routing/state.go:17-19 | The payload type constant is the bytes of "/libp2p/routing-state-record". |
| `RoutingState.StatelessSeqNo` | routing/state.go:151-154 | The sequence number is the clock reading converted to uint64: equal to it for readings at or after 1970, and wrapped into the upper half of the uint64 range before. |
| `RoutingState.ToAddressInfos` | routing/state.go:168-174 | The protobuf address list has one entry per address, and entry i holds the bytes of address i. |
| `RoutingState.AddrsToProtobuf` | routing/state.go:168-174 | The loop that appends one entry per address builds exactly `ToAddressInfos(addrs)`. |
| `RoutingState.ParsedMultiaddrs` | routing/state.go:156-166 | The filter never fails, and its output is never longer than its input. |
| `RoutingState.AddrsFromProtobuf` | routing/state.go:156-166 | The loop that skips entries that fail to parse builds exactly `ParsedMultiaddrs(entries)`. |
| `RoutingState.SignedRoutingStateFromEnvelope` | routing/state.go:84-106 | Each error holds exactly when its check is the first to fail, in this order: payload type ≠ tag, then payload decode, then peer-ID decode, then peer ID not matching the signing key. A record comes back only when all four checks pass. It satisfies the record invariant, keeps the given envelope, and carries the decoded seq, the decoded ID and the parsed addresses. |
| `RoutingState.UnmarshalSignedRoutingState` | routing/state.go:72-78 | `OpenFailed` holds exactly when opening under "libp2p-routing-state" fails. Otherwise the result is the gate applied to the opened envelope. A returned record is authentic and holds the envelope opened under that domain. |
| `RoutingState.Marshal` | routing/state.go:110-112 | Marshal succeeds exactly when the retained envelope marshals, and it returns that envelope's bytes. |
| `RoutingState.MakeSignedRoutingState` | routing/state.go:37-65 | Each error holds exactly when its step is the first to fail, in this order: ID derivation, ID marshalling, payload encoding, signing. A record comes back exactly when all four steps succeed. On success the record holds the caller's addresses, the ID derived from the key's public half and the seq from the clock reading. Its envelope was made with the routing-state domain and payload type over the encoded (ID bytes, seq, addresses) message. |
| `RoutingState.Equal` | routing/state.go:130-149 | Returns exactly `RecordsEqual`: other present, seq, peer ID and address count equal, addresses equal position by position, and envelopes equal. |
| `RoutingStateProperties.ParsedMultiaddrsIsOrderedFilter` | routing/state.go:156-166 | The parsed list is the in-order subsequence of the entries that parse. Output k comes from entry `KeptIndices[k]`, and those positions strictly increase. A position is kept if and only if its entry parses, so nothing is reordered or deduplicated. |
| `RoutingStateProperties.ParsedMultiaddrsKeepsAllIffWellFormed` | routing/state.go:156-166 | No entry is dropped if and only if every entry parses. |
| `RoutingStateProperties.MalformedEntryDropped` | routing/state.go:158-163 | With one well-formed and one malformed entry, in either order, the result is exactly the one parsed address. |
| `RoutingStateProperties.AddrsRoundTrip` | routing/state.go:156-174 | Parsing the protobuf form of well-formed addresses gives back the same addresses. |
| `RoutingStateProperties.PayloadTypeCheckedFirst` | routing/state.go:85-87 | With a foreign payload type the result is `UnexpectedPayloadType`, whatever the decoders would do, so the check runs before any decoding. |
| `RoutingStateProperties.ParsedIdIsSignersId` | routing/state.go:93-99 | If `MatchesPublicKey` means "derived from this key", a parsed record's peer ID is the ID derived from the envelope's signing key. |
| `RoutingStateProperties.MarshalAfterUnmarshal` | routing/state.go:110-112 | If envelope marshalling reproduces opened bytes, marshalling a parsed record returns exactly the bytes it was parsed from. |
| `RoutingStateProperties.MadeRecordIsAuthentic` | routing/state.go:37-65 | A freshly built record satisfies the record invariant, and its envelope carries the signer's public key. |
| `RoutingStateProperties.BuildMarshalParseRoundTrip` | routing/state.go:37-112 | Build, marshal and parse returns the built record itself, so `Equal` holds between the two. This assumes the libraries round-trip and the addresses are well formed. |
| `RoutingStateProperties.BuildsAreOrdered` | routing/state.go:46 | Two builds at increasing non-negative clock readings give strictly increasing sequence numbers. |
| `RoutingStateProperties.NegativeClockWraps` | routing/state.go:151-154 | A clock reading before 1970 gives a larger sequence number than any non-negative reading. |
| `RoutingStateProperties.RecordsEqualIsIdentity` | routing/state.go:130-149 | Equal holds exactly between identical records, in both directions. |
| `RoutingStateProperties.NilNeverEqual` | routing/state.go:131-133 | Equal is false against a nil record. |
| `RoutingStateProperties.AddressOrderMatters` | routing/state.go:140-147 | Two records that agree on every other field and whose address lists hold the same addresses in a different order are not equal. |

## Left out

- Signature creation and verification, domain checking and the byte layout of the envelope (`crypto.MakeEnvelope`, `crypto.OpenEnvelope`, `SignedEnvelope.Marshal`). These belong to the envelope library and are abstract functions here.
- Protobuf encoding and decoding of the payload (`proto.Marshal`, `proto.Unmarshal`, `routing/pb`). This is library code, modelled as an abstract encoder and a partial decoder.
- The internals of peer ID derivation, `MarshalBinary`, `IDFromBytes`, `MatchesPublicKey` and `ma.NewMultiaddrBytes`. These are external libraries, modelled as uninterpreted functions.
- The wall-clock read `time.Now()` in `statelessSeqNo`. The reading is a parameter.
- The text of the Go error values and the library errors passed through unchanged. The model keeps one error variant per failing check and drops the underlying library error.
- Pointer identity and aliasing. Records and envelopes are values here. The nil `other` of `Equal` is `None`. Nil pointers that panic in Go are not modelled: a nil receiver of `Equal`, `Marshal` or the accessors, and a nil `envelope` passed to `SignedRoutingStateFromEnvelope` (dereferenced at routing/state.go:85).
- `[]byte(...)` on the payload type string is modelled for single-byte characters only, which is all that string contains.
