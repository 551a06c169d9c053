/** What readElement reads for each kind of destination: the value (or the
    error) and how many bytes it consumed from the reader. */
module Decode {
  import opened Bytes
  import opened Stream
  import opened Elements

  /** Carries a failure over to another result type. */
  function Fail<A, B>(d: Decoded<A>): Decoded<B>
    requires d.res.Err?
  {
    Decoded(Err(d.res.error), d.used)
  }

  /** The list positions of a destination slice: sigs[0], ..., sigs[n-1]. */
  function Indices(n: nat): (ks: seq<nat>)
    ensures |ks| == n
  {
    seq(n, i => i)
  }

  /** The **btcec.Signature case: 64 bytes, then deserializeSigFromWire. */
  function DecSig(c: Collaborators, s: seq<Byte>): (d: Decoded<Signature>)
    ensures d.used <= |s|
  {
    var b := FullRead(s, 64);
    if b.res.Err? then Fail(b)
    else match c.sigFromWire(b.res.value)
      case Some(sig) => Decoded(Ok(sig), 64)
      case None => Decoded(Err(SigFromWireFailed), 64)
  }

  function SigDecoder(c: Collaborators): (nat, seq<Byte>) -> Decoded<Signature> {
    (i: nat, s: seq<Byte>) => DecSig(c, s)
  }

  lemma SigDecoderBounded(c: Collaborators)
    ensures Bounded(SigDecoder(c))
  {
  }

  /** One entry of the *[]net.Addr case: the descriptor byte, the IP (4 bytes
      for tag 1, 16 for tag 2, none for any other tag), then the 2-byte port. */
  function DecAddr(s: seq<Byte>): (d: Decoded<NetAddr>)
    ensures d.used <= |s|
    ensures d.res.Ok? ==> d.res.value.TcpAddr? && 0 <= d.res.value.port < 0x1_0000
  {
    var t := FullRead(s, 1);
    if t.res.Err? then Fail(t)
    else
      var tag := t.res.value[0];
      var ip :=
        if tag == Tcp4Addr then FullRead(s[1..], 4)
        else if tag == Tcp6Addr then FullRead(s[1..], 16)
        else Decoded(Ok([]), 0);
      if ip.res.Err? then Decoded(Err(ip.res.error), 1 + ip.used)
      else
        var port := UintRead(s[1 + ip.used..], 2);
        Pow256Values();
        if port.res.Err? then Decoded(Err(port.res.error), 1 + ip.used + port.used)
        else Decoded(Ok(TcpAddr(ip.res.value, port.res.value)), 1 + ip.used + 2)
  }

  function AddrDecoder(): (nat, seq<Byte>) -> Decoded<NetAddr> {
    (i: nat, s: seq<Byte>) => DecAddr(s)
  }

  lemma AddrDecoderBounded()
    ensures Bounded(AddrDecoder())
  {
  }

  /** wire.ReadVarInt: a discriminant byte, then a 2-, 4- or 8-byte
      little-endian value for 0xfd, 0xfe, 0xff; a value that a shorter form
      could carry is rejected as non-canonical. */
  function DecVarInt(s: seq<Byte>): (d: Decoded<nat>)
    ensures d.used <= |s|
    ensures d.res.Ok? && s != [] && s[0] >= 0xfd ==> d.res.value >= 0xfd
  {
    var t := FullRead(s, 1);
    if t.res.Err? then Fail(t)
    else
      var disc := t.res.value[0];
      if disc < 0xfd then Decoded(Ok(disc), 1)
      else
        var width := if disc == 0xfd then 2 else if disc == 0xfe then 4 else 8;
        var min := if disc == 0xfd then 0xfd else if disc == 0xfe then 0x1_0000 else 0x1_0000_0000;
        var b := FullRead(s[1..], width);
        if b.res.Err? then Decoded(Err(b.res.error), 1 + b.used)
        else if FromLittleEndian(b.res.value) < min then Decoded(Err(NonCanonicalVarInt), 1 + width)
        else Decoded(Ok(FromLittleEndian(b.res.value)), 1 + width)
  }

  /** wire.ReadVarBytes(r, 0, 34, "pkscript"): a varint length of at most 34,
      then that many bytes. */
  function DecPkScript(s: seq<Byte>): (d: Decoded<seq<Byte>>)
    ensures d.used <= |s|
    ensures d.res.Ok? ==> |d.res.value| <= MaxPkScriptLength
  {
    var n := DecVarInt(s);
    if n.res.Err? then Fail(n)
    else if n.res.value > MaxPkScriptLength then Decoded(Err(VarBytesTooLong), n.used)
    else
      var b := FullRead(s[n.used..], n.res.value);
      Decoded(b.res, n.used + b.used)
  }

  /** A 2-byte length, then a freshly made buffer of that length filled by io.ReadFull. */
  function DecBlob(s: seq<Byte>): (d: Decoded<seq<Byte>>)
    ensures d.used <= |s|
  {
    var n := UintRead(s, 2);
    if n.res.Err? then Fail(n)
    else
      var b := FullRead(s[2..], n.res.value);
      Decoded(b.res, 2 + b.used)
  }

  /** The *DeliveryAddress case: a 2-byte length, then `addrBytes[:length]`
      of a [34]byte array, a slice expression that panics above 34. */
  function DecDeliveryAddress(s: seq<Byte>): (d: Decoded<seq<Byte>>)
    ensures d.used <= |s|
  {
    var n := UintRead(s, 2);
    if n.res.Err? then Fail(n)
    else if n.res.value > DeliveryAddressCapacity then Decoded(Err(SliceOutOfRange), 2)
    else
      var b := FullRead(s[2..], n.res.value);
      Decoded(b.res, 2 + b.used)
  }

  /** A count of 2 bytes, then that many items read in order by `item`. */
  function DecList<T>(item: (nat, seq<Byte>) -> Decoded<T>, s: seq<Byte>): (d: Decoded<seq<T>>)
    requires Bounded(item)
    ensures d.used <= |s|
    ensures d.res.Ok? ==> |s| >= 2 && |d.res.value| == FromBigEndian(s[..2])
  {
    var n := UintRead(s, 2);
    if n.res.Err? then Fail(n)
    else
      var b := DecEach(item, Indices(n.res.value), s[2..]);
      if b.err.Some? then Decoded(Err(b.err.value), 2 + b.used)
      else Decoded(Ok(b.values), 2 + b.used)
  }

  /** Three 1-byte reads through r.Read, each of which fails with EOF on an
      exhausted reader. */
  function DecRGB(s: seq<Byte>): (d: Decoded<Element>)
    ensures d.used <= |s|
    ensures d.res.Ok? ==> KindOf(d.res.value) == RGBK
  {
    if |s| >= 3 then Decoded(Ok(RGB(s[0], s[1], s[2])), 3)
    else Decoded(Err(EOF), |s|)
  }

  /** A 24-bit field: 3 bytes read into the low bytes of a zeroed [4]byte. */
  function DecUint24(s: seq<Byte>): (d: Decoded<nat>)
    ensures d.used <= |s|
    ensures d.res.Ok? ==> d.used == 3 && d.res.value < 0x100_0000
  {
    var b := FullRead(s, 3);
    if b.res.Err? then Fail(b)
    else
      FromBigEndianLeadingZero(b.res.value);
      Pow256Values();
      Decoded(Ok(FromBigEndian([0] + b.res.value)), 3)
  }

  /** The *ShortChannelID case. */
  function DecShortChannelID(s: seq<Byte>): (d: Decoded<Element>)
    ensures d.used <= |s|
    ensures d.res.Ok? ==> KindOf(d.res.value) == ShortChannelIDK
  {
    var h := DecUint24(s);
    if h.res.Err? then Fail(h)
    else
      var t := DecUint24(s[3..]);
      if t.res.Err? then Decoded(Err(t.res.error), 3 + t.used)
      else
        var p := UintRead(s[6..], 2);
        Pow256Values();
        if p.res.Err? then Decoded(Err(p.res.error), 6 + p.used)
        else Decoded(Ok(ShortChannelID(h.res.value, t.res.value, p.res.value)), 8)
  }

  /** The *wire.OutPoint case: 32 hash bytes (chainhash.NewHash accepts any 32
      bytes), then a 2-byte index. */
  function DecOutPoint(s: seq<Byte>): (d: Decoded<Element>)
    ensures d.used <= |s|
    ensures d.res.Ok? ==> KindOf(d.res.value) == OutPointK && d.res.value.index <= 0xffff
  {
    var h := FullRead(s, 32);
    if h.res.Err? then Fail(h)
    else
      var i := UintRead(s[32..], 2);
      Pow256Values();
      if i.res.Err? then Decoded(Err(i.res.error), 32 + i.used)
      else Decoded(Ok(OutPoint(h.res.value, i.res.value)), 34)
  }

  /** The integer cases: 1 byte through r.Read, or 2, 4 or 8 big-endian
      bytes through io.ReadFull; an Amount is the int64 of the uint64. */
  function DecInteger(k: Kind, s: seq<Byte>): (d: Decoded<Element>)
    requires IntegerKind(k)
    ensures d.used <= |s|
    ensures d.res.Ok? ==> KindOf(d.res.value) == k
  {
    if k.Uint8K? then
      var b := ByteRead(s);
      if b.res.Err? then Fail(b) else Decoded(Ok(Uint8(b.res.value)), 1)
    else
      var width := if k.Uint32K? then 4 else if k.Uint64K? || k.AmountK? then 8 else 2;
      var v := UintRead(s, width);
      Pow256Values();
      if v.res.Err? then Fail(v)
      else
        var e := match k
          case Uint16K => Uint16(v.res.value)
          case ErrorCodeK => ErrorCode(v.res.value)
          case FailCodeK => FailCode(v.res.value)
          case Uint32K => Uint32(v.res.value)
          case Uint64K => Uint64(v.res.value)
          case AmountK => Amount(Int64Of(v.res.value));
        Decoded(Ok(e), width)
  }

  /** The kinds that share a decoder. */
  predicate IntegerKind(k: Kind) {
    k.Uint8K? || k.Uint16K? || k.ErrorCodeK? || k.Uint32K? || k.Uint64K? || k.AmountK? || k.FailCodeK?
  }

  predicate PayloadKind(k: Kind) {
    k.PingPayloadK? || k.PongPayloadK? || k.ErrorDataK? || k.OpaqueReasonK?
  }

  predicate CryptoKind(k: Kind) {
    k.PubKeyK? || k.FeaturesK? || k.SigListK? || k.SigK?
  }

  predicate Bytes32Kind(k: Kind) {
    k.ChannelIDK? || k.AliasK?
  }

  predicate ScriptKind(k: Kind) {
    k.PkScriptK? || k.DeliveryAddressK?
  }

  /** A payload value of the given payload kind. */
  function Payload(k: Kind, p: seq<Byte>): (e: Element)
    requires PayloadKind(k)
    ensures KindOf(e) == k
  {
    match k
    case PingPayloadK => PingPayload(p)
    case PongPayloadK => PongPayload(p)
    case ErrorDataK => ErrorData(p)
    case OpaqueReasonK => OpaqueReason(p)
  }

  /** The four 2-byte-length-prefixed payload cases. */
  function DecPayload(k: Kind, s: seq<Byte>): (d: Decoded<Element>)
    requires PayloadKind(k)
    ensures d.used <= |s|
    ensures d.res.Ok? ==> KindOf(d.res.value) == k
  {
    var b := DecBlob(s);
    if b.res.Err? then Fail(b)
    else
      Decoded(Ok(Payload(k, b.res.value)), b.used)
  }

  /** The cases that hand bytes to a collaborator: public key, feature
      vector, signature and signature list. */
  function DecCrypto(c: Collaborators, k: Kind, s: seq<Byte>): (d: Decoded<Element>)
    requires CryptoKind(k)
    ensures d.used <= |s|
    ensures d.res.Ok? ==> KindOf(d.res.value) == k
  {
    match k
    case PubKeyK =>
      var b := FullRead(s, 33);
      if b.res.Err? then Fail(b)
      else if c.parseKey(b.res.value).None? then Decoded(Err(InvalidPubKey), 33)
      else Decoded(Ok(PubKey(c.parseKey(b.res.value).value)), 33)
    case FeaturesK =>
      var (f, n) := c.decodeFeatures(s);
      // a reader cannot hand out more bytes than it holds
      var used := if n <= |s| then n else |s|;
      if f.None? then Decoded(Err(InvalidFeatureVector), used) else Decoded(Ok(Features(f.value)), used)
    case SigListK =>
      SigDecoderBounded(c);
      var l := DecList(SigDecoder(c), s);
      if l.res.Err? then Fail(l) else Decoded(Ok(SigList(l.res.value)), l.used)
    case SigK =>
      var sig := DecSig(c, s);
      if sig.res.Err? then Fail(sig) else Decoded(Ok(Sig(sig.res.value)), sig.used)
  }

  /** The fixed 32-byte copies: ChannelID, and the alias buffer. */
  function DecBytes32(k: Kind, s: seq<Byte>): (d: Decoded<Element>)
    requires Bytes32Kind(k)
    ensures d.used <= |s|
    ensures d.res.Ok? ==> KindOf(d.res.value) == k
  {
    var b := FullRead(s, 32);
    if b.res.Err? then Fail(b)
    else if k.ChannelIDK? then Decoded(Ok(ChannelID(b.res.value)), 32)
    else Decoded(Ok(Alias(b.res.value)), 32)
  }

  /** The []byte case: io.ReadFull into the destination's n bytes. */
  function DecRawBytes(n: nat, s: seq<Byte>): (d: Decoded<Element>)
    ensures d.used <= |s|
    ensures d.res.Ok? ==> d.used == n <= |s| && d.res.value == RawBytes(s[..n])
    ensures d.res.Ok? ==> KindOf(d.res.value) == RawBytesK(n)
  {
    var b := FullRead(s, n);
    if b.res.Err? then Fail(b) else Decoded(Ok(RawBytes(b.res.value)), n)
  }

  /** The two variable-length byte strings of at most 34 bytes: a PkScript
      behind a varint length, a DeliveryAddress behind a 2-byte length. */
  function DecScript(k: Kind, s: seq<Byte>): (d: Decoded<Element>)
    requires ScriptKind(k)
    ensures d.used <= |s|
    ensures d.res.Ok? ==> KindOf(d.res.value) == k
  {
    var b := if k.PkScriptK? then DecPkScript(s) else DecDeliveryAddress(s);
    if b.res.Err? then Fail(b)
    else if k.PkScriptK? then Decoded(Ok(PkScript(b.res.value)), b.used)
    else Decoded(Ok(DeliveryAddress(b.res.value)), b.used)
  }

  /** The *[]net.Addr case: a counted list of addresses. */
  function DecAddressList(s: seq<Byte>): (d: Decoded<Element>)
    ensures d.used <= |s|
    ensures d.res.Ok? ==> KindOf(d.res.value) == AddressListK
  {
    AddrDecoderBounded();
    var l := DecList(AddrDecoder(), s);
    if l.res.Err? then Fail(l) else Decoded(Ok(AddressList(l.res.value)), l.used)
  }

  /** readElement(r, dst) for a destination of kind k. A *net.TCPAddr
      destination has no case of its own and falls to the default. */
  function Dec(c: Collaborators, k: Kind, s: seq<Byte>): (d: Decoded<Element>)
    ensures d.used <= |s|
    ensures d.res.Ok? ==> KindOf(d.res.value) == k
  {
    if IntegerKind(k) then DecInteger(k, s)
    else if PayloadKind(k) then DecPayload(k, s)
    else if CryptoKind(k) then DecCrypto(c, k, s)
    else if Bytes32Kind(k) then DecBytes32(k, s)
    else if ScriptKind(k) then DecScript(k, s)
    else match k
      case RawBytesK(n) => DecRawBytes(n, s)
      case OutPointK => DecOutPoint(s)
      case ShortChannelIDK => DecShortChannelID(s)
      case AddressK => Decoded(Err(UnknownType("*net.TCPAddr")), 0)
      case AddressListK => DecAddressList(s)
      case RGBK => DecRGB(s)
  }

  function ElementDecoder(c: Collaborators): (Kind, seq<Byte>) -> Decoded<Element> {
    (k: Kind, s: seq<Byte>) => Dec(c, k, s)
  }

  lemma ElementDecoderBounded(c: Collaborators)
    ensures Bounded(ElementDecoder(c))
  {
  }

  /** readElements(r, dsts...): one read per destination kind, in order. */
  function DecElements(c: Collaborators, ks: seq<Kind>, s: seq<Byte>): (b: Batch<Element>)
    ensures b.used <= |s|
    ensures |b.values| <= |ks|
    ensures b.err.None? ==> |b.values| == |ks|
  {
    ElementDecoderBounded(c);
    DecEach(ElementDecoder(c), ks, s)
  }

  /** Each value a batch read yields has the kind of its destination. */
  lemma {:induction false} DecElementsKinds(c: Collaborators, ks: seq<Kind>, s: seq<Byte>)
    ensures forall i :: 0 <= i < |DecElements(c, ks, s).values| ==> KindOf(DecElements(c, ks, s).values[i]) == ks[i]
    decreases |ks|
  {
    if ks != [] {
      var init := ks[..|ks| - 1];
      DecElementsKinds(c, init, s);
    }
  }
}
