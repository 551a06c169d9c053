# lnwire element codec

This project models the wire codec at the bottom of lnd's Lightning Network
message layer (`lnwire/lnwire.go`) and proves properties of it.

- `writeElement` turns one typed protocol value into big-endian bytes on an
  `io.Writer`.
- `readElement` reads one value from an `io.Reader` into a destination
  pointer, choosing the layout by the destination's type.
- `writeElements` and `readElements` apply them to an ordered list of values
  and stop at the first error.

The value types include:

- 1/2/4/8-byte integers, with `ErrorCode`, `FailCode` and `btcutil.Amount`;
- the four 2-byte-length-prefixed payloads and the `DeliveryAddress`;
- a `PkScript` of at most 34 bytes behind a compact-size length;
- public keys, signatures and signature lists, and feature vectors;
- `wire.OutPoint` and `ShortChannelID`, with their 16- and 24-bit fields;
- `ChannelID`, `RGB` and `Alias` as fixed copies;
- TCP addresses, tagged 1 (IPv4) or 2 (IPv6) by the `addressType` constants,
  and counted lists of them.

The model is imperative where the Go code is:

| Go | Dafny |
|---|---|
| the writer | `Io.Writer`, a class whose `buf` the write methods extend |
| the reader | `Io.Reader`, a class with constant `data` and a position `pos` that only moves forward |
| a destination pointer | `Lnwire.Slot`, an object whose `value` `readElement` assigns |
| the signature, address and element loops | `while` loops with invariants |

Each method is proved against a pure specification:

| Function | Specifies |
|---|---|
| `Encode.Enc` | what `writeElement` writes and the error it returns |
| `Decode.Dec` | what the matching `readElement` case reads |
| `Effects.ReadOutcome` and `Effects.ReadAll` | what a destination holds afterwards, including after a failure |

Lemmas then relate the specifications:

- they state the layouts, the range checks and what is written before an error;
- they show that reading undoes writing, value by value and for whole batches.

The collaborators that the codec calls but does not define are parameters (`Elements.Collaborators`):

- compressed public-key serialisation and parsing;
- DER to 64-byte signature normalisation;
- the feature vector codec.

The round-trip lemmas assume only that each collaborator undoes its own encoding (`Collaborators.Inverse`).

Where the code departs from what the wire format suggests, the model follows the code:

- Lengths, counts and ports are narrowed with Go's `uint16(...)`, which wraps.
  Wrapping is modelled and not treated as an error.
- A delivery address longer than 34 bytes makes the reader slice a
  `[34]byte` out of range, which is a panic in Go. The model does not report
  this as a length error.
- An address entry with tag 3 (onion) or any other unknown tag is read
  without error, as a TCP address with an empty IP.
- A `*uint8` destination is read with `r.Read`, so a missing byte is `EOF`.
  Every `io.ReadFull` read distinguishes `EOF` (nothing left) from
  `UnexpectedEOF` (some bytes left). It consumes what it found.

## Model

| member | source | states |
|---|---|---|
| Lnwire.WriteElement | lnwire/lnwire.go:44-301 | the writer's buffer grows by exactly `Enc(e).out` and the error returned is `Enc(e).err`, for every case of the type switch |
| Lnwire.WriteInteger | lnwire/lnwire.go:46-81 | the integer cases (and `FailCode`, lines 196-199) append their big-endian bytes and never fail |
| Lnwire.WriteBlob | lnwire/lnwire.go:113-152 | the four payloads and the delivery address (lines 286-294) append a 2-byte length and the bytes, and never fail |
| Lnwire.WriteChecked | lnwire/lnwire.go:90-112 | signature lists, signatures, scripts (157-167) and outpoints (173-190) append `Enc(e).out`, including the hash written before an index error, and return `Enc(e).err` |
| Lnwire.WriteSigs | lnwire/lnwire.go:98-102 | the signature loop appends the encodings of the signatures in order and stops at the first that does not normalise |
| Lnwire.WriteShortChannelID | lnwire/lnwire.go:200-229 | nothing is written for a height of 2^24 or more, 3 bytes for a tx index of 2^24 or more, otherwise the 8-byte layout |
| Lnwire.WriteAddr | lnwire/lnwire.go:231-260 | tag, IP and port are appended as `EncAddr` says; a non-TCP address writes nothing and is an unknown type |
| Lnwire.WriteAddressList | lnwire/lnwire.go:261-272 | a 2-byte count, then the addresses' encodings, stopping at the first failure |
| Lnwire.WriteAddrs | lnwire/lnwire.go:268-272 | the address loop appends `EncAll(EncAddr, addrs)` and returns its error |
| Lnwire.WriteRest | lnwire/lnwire.go:82-89 | public keys, raw bytes (153-156), feature vectors (168-172), channel IDs (192-195), address lists, RGB (273-281) and aliases (282-285) append `Enc(e).out` |
| Lnwire.WriteElements | lnwire/lnwire.go:305-313 | the buffer grows by the concatenated encodings of the values in order, up to and including the first failing one, whose error is returned |
| Lnwire.ReadSig | lnwire/lnwire.go:394-402 | 64 bytes are read and normalised; the result and the bytes taken are those of `DecSig` |
| Lnwire.ReadSigs | lnwire/lnwire.go:375-393 | a 2-byte count, then that many signatures in order; result and bytes taken agree with `DecList(SigDecoder)` |
| Lnwire.ReadAddr | lnwire/lnwire.go:520-547 | tag, 4 or 16 IP bytes (none for another tag), 2-byte port, as `DecAddr` says |
| Lnwire.ReadAddrs | lnwire/lnwire.go:510-549 | a 2-byte count, then that many addresses appended in order; result and bytes taken agree with `DecList(AddrDecoder)` |
| Lnwire.ReadVarInt | lnwire/lnwire.go:451-456 | the compact-size length in front of a script, as `DecVarInt` reads it, non-canonical forms rejected |
| Lnwire.ReadPkScript | lnwire/lnwire.go:451-456 | a script behind a compact-size length of at most 34, as `DecPkScript` reads it |
| Lnwire.ReadUint24 | lnwire/lnwire.go:488-508 | three bytes read as the low bytes of a zero-topped big-endian uint32 |
| Lnwire.ReadInteger | lnwire/lnwire.go:320-355 | the integer destinations (and `*FailCode`, 478-482) read their width and store the value, or keep their value on error |
| Lnwire.ReadPayload | lnwire/lnwire.go:403-446 | a payload reads a 2-byte length, then that many bytes; on a short body the destination already holds the fresh, partly filled buffer |
| Lnwire.ReadCrypto | lnwire/lnwire.go:356-402 | public keys, feature vectors, signature lists and signatures are read as `DecCrypto` says and stored only on success |
| Lnwire.ReadPubKey | lnwire/lnwire.go:356-366 | 33 bytes, then key parsing; an invalid key is an error after the 33 bytes were taken |
| Lnwire.ReadFeatures | lnwire/lnwire.go:367-374 | the feature vector's own decoder, its value stored on success |
| Lnwire.ReadSigList | lnwire/lnwire.go:375-393 | the signature list is stored only once every signature was read |
| Lnwire.ReadSignature | lnwire/lnwire.go:394-402 | one signature, stored on success |
| Lnwire.ReadRGB | lnwire/lnwire.go:550-558 | the nested `readElements` over red, green and blue: each component is stored as soon as it is read |
| Lnwire.ReadRawBytes | lnwire/lnwire.go:447-450 | `io.ReadFull` into the slice: its length is read, and on a short read the bytes found are already in the slice |
| Lnwire.ReadChannelID | lnwire/lnwire.go:483-487 | 32 bytes read in place into the channel ID |
| Lnwire.ReadAlias | lnwire/lnwire.go:559-565 | 32 bytes into a fresh buffer, stored on success |
| Lnwire.ReadOutPoint | lnwire/lnwire.go:457-477 | a 32-byte hash and a 2-byte index, stored on success |
| Lnwire.ReadShortChannelID | lnwire/lnwire.go:488-509 | 3 + 3 + 2 bytes, stored as the triple |
| Lnwire.ReadPkScriptInto | lnwire/lnwire.go:451-456 | the script, stored on success |
| Lnwire.ReadAddressList | lnwire/lnwire.go:510-549 | the counted address list, stored only when every entry was read |
| Lnwire.ReadDeliveryAddress | lnwire/lnwire.go:566-577 | a 2-byte length, then that many bytes into a 34-byte array; a longer length is the out-of-range slice |
| Lnwire.ReadOther | lnwire/lnwire.go:447-577 | the remaining destinations read and store as `Dec` and `LeftAfterError` say |
| Lnwire.ReadStructured | lnwire/lnwire.go:457-549 | outpoints, short channel IDs and address lists read as `Dec` says; a `*net.TCPAddr` destination is the unknown type (578-579) |
| Lnwire.ReadElement | lnwire/lnwire.go:317-583 | the error, the bytes taken and the destination's new value are those of `ReadOutcome`, for every destination kind |
| Lnwire.ReadElements | lnwire/lnwire.go:588-596 | the destinations are read in order; error, bytes taken and every destination's new value (later ones untouched after a failure) are those of `ReadAll` |
| Lnwire.ReadTurn | lnwire/lnwire.go:589-593 | one turn of the loop keeps the reading invariant, or on error establishes the whole batch's outcome |
| Decode.Dec | lnwire/lnwire.go:317-583 | a read never takes more bytes than remain, and a value read has the destination's kind |
| Decode.DecElements | lnwire/lnwire.go:588-596 | a batch read takes at most what remains and yields at most one value per destination, and exactly one per destination when no read fails |
| Decode.DecElementsKinds | lnwire/lnwire.go:588-596 | the i-th value a batch read yields has the kind of the i-th destination |
| Decode.DecList | lnwire/lnwire.go:375-392 | a successful list read (signatures here, addresses at lines 510-529) starts with a 2-byte count and yields exactly that many items |
| Decode.DecRawBytes | lnwire/lnwire.go:447-450 | a successful read takes exactly the slice's length and yields those bytes |
| Effects.ReadOutcome | lnwire/lnwire.go:317-583 | readElement takes at most what remains and leaves the destination with its kind |
| Effects.ReadAll | lnwire/lnwire.go:588-596 | readElements yields one value per destination and takes at most what remains |
| Effects.LeftAfterError | lnwire/lnwire.go:403-487 | a failed read leaves a destination of its own kind, the payloads, the raw-byte slice and the in-place channel ID fill (483-487) included; what each then holds is stated by `Effects.PayloadFailure` and `Effects.FailureKeeps` |
| Effects.ByteOutcome | lnwire/lnwire.go:320-325 | a `*uint8` takes one byte, or fails with EOF taking nothing and keeping its value |
| Effects.RGBOutcome | lnwire/lnwire.go:550-558 | an RGB takes 3 bytes; with fewer it fails with EOF after storing the components it read |
| Effects.ComponentsOutcome | lnwire/lnwire.go:550-558 | `readElements` over three `*uint8` destinations, for every input length |
| Effects.ReadOutcomeDecodes | lnwire/lnwire.go:317-583 | readElement fails exactly when the decoder does, with its error and its byte count, and otherwise stores the decoded value |
| Effects.FailureKeeps | lnwire/lnwire.go:317-583 | a failed read leaves every destination kind except payloads, raw slices, channel IDs and RGB unchanged |
| Effects.PayloadFailure | lnwire/lnwire.go:403-446 | a failed payload read leaves the old value if the length was not read; otherwise the body was short, and the destination holds a buffer of the announced length whose first bytes are those that followed the length and whose rest is zero |
| Effects.ReadAllStops | lnwire/lnwire.go:589-595 | after the first failure, no later destination is read or changed |
| Effects.ProgressStep | lnwire/lnwire.go:589-593 | a turn reads destination i where the previous turns stopped, and a failure there decides the batch |
| Effects.ProgressDone | lnwire/lnwire.go:595 | after the last turn without error the batch's outcome is the loop's state |
| Effects.ReadAllDecodes | lnwire/lnwire.go:588-596 | readElements has the batch decoder's error and byte count; destinations before a failure hold the decoded values |
| Effects.ReadAllRoundTrip | lnwire/lnwire.go:305-313 | destinations of the right kinds read back a written batch in normal form, consume exactly its bytes and report no error |
| Encode.AddrLayout | lnwire/lnwire.go:231-260 | an IPv4 address is tag 1, 4 bytes and the port mod 65536 (7 bytes); any other TCP address is tag 2, 16 bytes and the port (19 bytes) |
| Encode.SigsLength | lnwire/lnwire.go:98-102 | n normalised signatures are 64 * n bytes |
| Encode.AddrsLength | lnwire/lnwire.go:268-272 | an address list's entries take the sum of their sizes |
| Encode.EncodedLength | lnwire/lnwire.go:44-301 | every successful encoding has the size the wire layout table gives its type |
| Encode.PkScriptRejected | lnwire/lnwire.go:157-167 | a script fails exactly when it is longer than 34 bytes, and then nothing is written |
| Encode.OutPointIndexRejected | lnwire/lnwire.go:173-190 | an outpoint fails exactly when its index exceeds 65535, after its 32 hash bytes were written |
| Encode.ShortChannelIDRejected | lnwire/lnwire.go:200-229 | fails exactly when height or tx index needs more than 24 bits; nothing or 3 bytes written before |
| Encode.EncodeFailures | lnwire/lnwire.go:44-301 | only signatures, scripts, outpoints, short channel IDs and addresses can fail to encode |
| Stream.EncAllStopsAtFirstError | lnwire/lnwire.go:305-313 | the first failing element ends a batch: nothing after it is written |
| Stream.EncAllAppend | lnwire/lnwire.go:305-313 | encoding a concatenated batch is encoding its parts one after the other |
| Stream.DecEachEncAll | lnwire/lnwire.go:588-596 | if each item reads back from its own bytes, a batch reads back item by item and takes exactly the batch's bytes |
| Stream.DecEachStops | lnwire/lnwire.go:589-595 | a batch read ends at its first failing item |
| Bytes.BigEndianRoundTrip | lnwire/lnwire.go:46-81 | reading a big-endian value back gives the value, for every value that fits the width |
| Bytes.FromBigEndianRoundTrip | lnwire/lnwire.go:320-355 | every byte string is the big-endian encoding of the value read from it |
| Bytes.Int64RoundTrip | lnwire/lnwire.go:64-69 | an `Amount` written as its uint64 bit pattern converts back to the same int64 (read at 350-355) |
| RoundTrip.UintRoundTrip | lnwire/lnwire.go:326-349 | a width-byte integer reads back as itself, whatever follows |
| RoundTrip.Count16RoundTrip | lnwire/lnwire.go:90-95 | a count of at most 65535 reads back as itself |
| RoundTrip.BlobRoundTrip | lnwire/lnwire.go:113-152 | a payload of at most 65535 bytes reads back as itself, taking 2 + its length bytes (read at 403-446) |
| RoundTrip.BlobLengthWraps | lnwire/lnwire.go:113-122 | a longer payload has its length written mod 65536, so it reads back cut short and never as itself |
| RoundTrip.DeliveryAddressRoundTrip | lnwire/lnwire.go:286-294 | a delivery address of at most 34 bytes reads back as itself (read at 566-577) |
| RoundTrip.DeliveryAddressTooLongPanics | lnwire/lnwire.go:566-577 | a delivery address of 35 to 65535 bytes writes without error, but reading it back fails with the out-of-range slice |
| RoundTrip.PkScriptRoundTrip | lnwire/lnwire.go:157-167 | a script of at most 34 bytes reads back as itself (read at 451-456) |
| RoundTrip.PkScriptClaimTooLong | lnwire/lnwire.go:451-456 | a claimed script length above 34 is a decode failure; with a 1-byte length it is exactly `VarBytesTooLong` after that byte |
| RoundTrip.PkScriptBodyShort | lnwire/lnwire.go:451-456 | a length of at most 34 that is longer than the bytes that follow consumes the rest and fails with EOF or UnexpectedEOF |
| RoundTrip.AddrRead | lnwire/lnwire.go:520-547 | an address entry from any input succeeds if and only if the descriptor, 4, 16 or 0 IP bytes (by tag) and a 2-byte port remain, and then yields that IP and port; otherwise it consumes the rest and fails with EOF or UnexpectedEOF |
| RoundTrip.Uint24RoundTrip | lnwire/lnwire.go:488-508 | a 24-bit value's three bytes read back, with the top byte zero-filled |
| RoundTrip.ShortChannelIDRoundTrip | lnwire/lnwire.go:200-229 | an in-range short channel ID is 8 bytes that read back as the triple (488-509) |
| RoundTrip.OutPointRoundTrip | lnwire/lnwire.go:173-190 | an outpoint with index at most 65535 is 34 bytes that read back as itself (457-477) |
| RoundTrip.AddrRoundTrip | lnwire/lnwire.go:231-260 | a TCP address reads back in its wire form (4-byte IPv4 or 16-byte IP, port mod 65536), from 520-547 |
| RoundTrip.UnknownTagAccepted | lnwire/lnwire.go:525-542 | an entry whose tag is neither 1 nor 2 reads only the port and yields an empty IP, without error |
| RoundTrip.CanonicalIdentity | lnwire/lnwire.go:231-260 | a 4-byte IP, or a 16-byte non-mapped IP, with an in-range port is its own wire form |
| RoundTrip.CanonicalStable | lnwire/lnwire.go:231-260 | an address's wire form does not change on a second trip |
| RoundTrip.SigRoundTrip | lnwire/lnwire.go:103-112 | a signature that normalises reads back as itself (394-402) |
| RoundTrip.ListRoundTrip | lnwire/lnwire.go:90-102 | a 2-byte count and items that each read back, read back as the list |
| RoundTrip.SigListRoundTrip | lnwire/lnwire.go:90-102 | a signature list reads back as itself (375-393) |
| RoundTrip.AddrsRoundTrip | lnwire/lnwire.go:261-272 | an address list's entries read back one by one in wire form (510-549) |
| RoundTrip.AddressListRoundTrip | lnwire/lnwire.go:261-272 | an address list reads back as its addresses in wire form |
| RoundTrip.ElementRoundTrip | lnwire/lnwire.go:44-301 | every value that writes without error and fits its length fields reads back (317-583) in normal form, taking exactly its bytes, whatever follows |
| RoundTrip.ElementsRoundTrip | lnwire/lnwire.go:305-313 | a batch of such values reads back as the batch, in order, taking exactly its bytes (588-596) |
| RoundTrip.NormalizeKeeps | lnwire/lnwire.go:510-549 | only address lists change on the way, and the change is idempotent |
| RoundTrip.FixedWidthWritten | lnwire/lnwire.go:44-301 | a value of a fixed-size kind is written as exactly its width |
| RoundTrip.BlobRead | lnwire/lnwire.go:403-446 | a length-prefixed read succeeds if and only if the announced number of bytes follows the 2-byte prefix, and then yields them; otherwise it consumes the rest and fails with EOF or UnexpectedEOF |
| RoundTrip.PayloadRead | lnwire/lnwire.go:403-446 | the same rule for the OpaqueReason, ErrorData, PingPayload and PongPayload destinations |
| RoundTrip.DeliveryAddressRead | lnwire/lnwire.go:566-577 | a delivery address read succeeds if and only if the announced length is at most 34 and that many bytes follow; a longer length is the out-of-range slice after 2 bytes, and a short input fails with EOF or UnexpectedEOF |
| RoundTrip.FixedWidthRead | lnwire/lnwire.go:317-583 | a fixed-size destination takes exactly its width on success, and with fewer bytes fails with EOF or UnexpectedEOF |
| RoundTrip.ShortChannelIDExample | lnwire/lnwire.go:200-229 | 700000:42:1 is the bytes 0a ae 60 00 00 2a 00 01, which read back as it |
| RoundTrip.AddressListExample | lnwire/lnwire.go:261-272 | [10.0.0.1:9735, [::1]:9735] is a count of 2, a 7-byte and a 19-byte entry |
| RoundTrip.EmptySigListExample | lnwire/lnwire.go:375-393 | a count of zero reads as the empty signature list, taking 2 bytes |

## Left out

- Writer errors: `io.Writer.Write` is modelled as always appending. A
  failing writer, and what it may have written, are not modelled.
- Reader errors other than running out of bytes are not modelled. An
  `io.Reader` that returns fewer bytes than available without EOF is one.
- Public keys, signatures and feature vectors are abstract types. The code
  that serialises, parses and normalises them is not part of this model.
  Those calls are the functions of `Collaborators`.
- `newAlias` (its trimming) is not part of this model. An alias is read as
  its verbatim 32 bytes.
- `chainhash.NewHash` always succeeds on 32 bytes, so it has no error path
  here.
- Compact-size integers (`wire.WriteVarBytes`) are written only with a
  1-byte prefix (`Encode.ShortVarInt`). This is the only form a script of at
  most 34 bytes uses. Reading (`Decode.DecVarInt`) covers all prefixes.
- Onion addresses (tag 3) have no encoder or decoder in the source. The tag
  is only a constant here.
- Go's reflection-based `%T` name in the unknown-type error is only a string
  for a non-TCP address. A `*net.TCPAddr` destination is a kind of its own.
- The `default:` branches of both switches for types outside the closed
  value datatype cannot be reached in the model.
- Lnwire.ReadElements: requires its destinations to be pairwise distinct.
  Go's `readElements` would also accept the same pointer twice, with the
  later read overwriting the earlier one. That aliasing is not modelled; the
  one caller in this file (the RGB case) passes three distinct fields.
- Lnwire.ReadSignature, Lnwire.ReadCrypto, Effects.FailureKeeps: a signature
  read (line 399) hands the destination to `deserializeSigFromWire`, which
  writes through it and is not part of this model. What it leaves in the
  destination when the 64 bytes do not parse is not modelled: the model
  keeps the old value there, and these members promise that only for the
  collaborator as abstracted (`Collaborators.sigFromWire`).
- Concurrency and I/O blocking are not modelled. The codec keeps no state
  between calls.
