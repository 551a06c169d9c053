/** The values the lnwire codec reads and writes: one constructor per case of
    writeElement's type switch, one Kind per case of readElement's switch on
    the destination pointer's type, and the collaborators the codec calls
    but does not define. */
module Elements {
  import opened Bytes
  import opened Stream

  /** The largest length a 2-byte length prefix can carry. */
  const MaxSliceLength: nat := 65535

  /** The largest script a PkScript may hold: a p2wsh script. */
  const MaxPkScriptLength: nat := 34

  /** A DeliveryAddress is read into a fixed 34-byte array. */
  const DeliveryAddressCapacity: nat := 34

  /** addressType tags of the address descriptor byte. */
  const Tcp4Addr: Byte := 1
  const Tcp6Addr: Byte := 2
  const OnionAddr: Byte := 3  // reserved: no encoder or decoder uses it

  function Zeros(n: nat): (z: seq<Byte>)
    ensures |z| == n && forall i :: 0 <= i < n ==> z[i] == 0
  {
    seq(n, _ => 0)
  }

  type Bytes32 = s: seq<Byte> | |s| == 32 witness Zeros(32)
  type Bytes33 = s: seq<Byte> | |s| == 33 witness Zeros(33)
  type Bytes64 = s: seq<Byte> | |s| == 64 witness Zeros(64)

  /** An elliptic-curve public key (btcec.PublicKey), a signature object
      (btcec.Signature) and a feature bit vector: their structure belongs to
      the collaborators below. */
  type PublicKey(==, !new)
  type Signature(==, !new)
  type FeatureVector(==, !new)

  /** A peer address. Only a TCP address has a wire form; any other kind of
      net.Addr falls into the "unknown type" error. The IP is a Go net.IP: any
      length, normally 4 or 16 bytes, empty when unset. */
  datatype NetAddr =
    | TcpAddr(ip: seq<Byte>, port: int)
    | OtherAddr(typeName: string)

  /** The 12-byte prefix of an IPv4 address embedded in IPv6. */
  const V4InV6Prefix: seq<Byte> := [0, 0, 0, 0, 0, 0, 0, 0, 0, 0, 0xff, 0xff]

  /** net.IP.To4: the 4-byte form of an IPv4 address (possibly given in its
      16-byte embedded form), or nil. */
  function To4(ip: seq<Byte>): (r: Option<seq<Byte>>)
    ensures r.Some? ==> |r.value| == 4
  {
    if |ip| == 4 then Some(ip)
    else if |ip| == 16 && ip[..12] == V4InV6Prefix then Some(ip[12..])
    else None
  }

  /** net.IP.To16: the 16-byte form of an address, or nil. */
  function To16(ip: seq<Byte>): (r: Option<seq<Byte>>)
    ensures r.Some? ==> |r.value| == 16
  {
    if |ip| == 4 then Some(V4InV6Prefix + ip)
    else if |ip| == 16 then Some(ip)
    else None
  }

  /** One value handed to writeElement. Field widths are those of the Go types. */
  datatype Element =
    | Uint8(u8: Byte)
    | Uint16(u16: U16)
    | ErrorCode(errorCode: U16)
    | Amount(satoshis: I64)                      // btcutil.Amount, an int64
    | Uint32(u32: U32)
    | Uint64(u64: U64)
    | PubKey(key: PublicKey)
    | SigList(sigs: seq<Signature>)
    | Sig(sig: Signature)
    | PingPayload(ping: seq<Byte>)
    | PongPayload(pong: seq<Byte>)
    | ErrorData(errorData: seq<Byte>)
    | OpaqueReason(reason: seq<Byte>)
    | RawBytes(raw: seq<Byte>)                   // a plain []byte
    | PkScript(script: seq<Byte>)
    | Features(features: FeatureVector)
    | OutPoint(hash: Bytes32, index: U32)        // wire.OutPoint
    | ChannelID(channelID: Bytes32)
    | FailCode(failCode: U16)
    | ShortChannelID(blockHeight: U32, txIndex: U32, txPosition: U16)
    | Address(addr: NetAddr)                     // *net.TCPAddr
    | AddressList(addrs: seq<NetAddr>)           // []net.Addr
    | RGB(red: Byte, green: Byte, blue: Byte)
    | Alias(alias: Bytes32)                      // the alias' fixed 32-byte buffer
    | DeliveryAddress(deliveryAddress: seq<Byte>)

  /** The type of a destination passed to readElement. A []byte destination
      is filled in place, so it carries its length. */
  datatype Kind =
    | Uint8K | Uint16K | ErrorCodeK | AmountK | Uint32K | Uint64K
    | PubKeyK | SigListK | SigK
    | PingPayloadK | PongPayloadK | ErrorDataK | OpaqueReasonK
    | RawBytesK(n: nat) | PkScriptK | FeaturesK
    | OutPointK | ChannelIDK | FailCodeK | ShortChannelIDK
    | AddressK | AddressListK | RGBK | AliasK | DeliveryAddressK

  /** The kind of destination that holds e. */
  function KindOf(e: Element): Kind {
    match e
    case Uint8(_) => Uint8K
    case Uint16(_) => Uint16K
    case ErrorCode(_) => ErrorCodeK
    case Amount(_) => AmountK
    case Uint32(_) => Uint32K
    case Uint64(_) => Uint64K
    case PubKey(_) => PubKeyK
    case SigList(_) => SigListK
    case Sig(_) => SigK
    case PingPayload(_) => PingPayloadK
    case PongPayload(_) => PongPayloadK
    case ErrorData(_) => ErrorDataK
    case OpaqueReason(_) => OpaqueReasonK
    case RawBytes(b) => RawBytesK(|b|)
    case PkScript(_) => PkScriptK
    case Features(_) => FeaturesK
    case OutPoint(_, _) => OutPointK
    case ChannelID(_) => ChannelIDK
    case FailCode(_) => FailCodeK
    case ShortChannelID(_, _, _) => ShortChannelIDK
    case Address(_) => AddressK
    case AddressList(_) => AddressListK
    case RGB(_, _, _) => RGBK
    case Alias(_) => AliasK
    case DeliveryAddress(_) => DeliveryAddressK
  }

  /** What the codec calls but does not define: compressed public-key
      serialisation and parsing, the DER <-> 64-byte compact signature
      normalisation, and the feature vector's self-delimiting codec, whose
      reader reports how many bytes it consumed. */
  datatype Collaborators = Collaborators(
    serializeKey: PublicKey -> Bytes33,
    parseKey: Bytes33 -> Option<PublicKey>,
    sigToWire: Signature -> Option<Bytes64>,
    sigFromWire: Bytes64 -> Option<Signature>,
    encodeFeatures: FeatureVector -> seq<Byte>,
    decodeFeatures: seq<Byte> -> (Option<FeatureVector>, nat))
  {
    /** The collaborators' own round trips, on which the codec's rely. */
    ghost predicate Inverse() {
      && (forall k :: parseKey(serializeKey(k)) == Some(k))
      && (forall sig, b :: sigToWire(sig) == Some(b) ==> sigFromWire(b) == Some(sig))
      && (forall f, rest :: decodeFeatures(encodeFeatures(f) + rest) == (Some(f), |encodeFeatures(f)|))
    }
  }
}
