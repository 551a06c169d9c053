/** Reading back what was written: for every value that has a decoder and
    fits its wire fields, readElement on the bytes writeElement produced
    yields the value again and consumes exactly those bytes, whatever
    follows them. Addresses come back in the form the wire can carry. */
module RoundTrip {
  import opened Bytes
  import opened Stream
  import opened Elements
  import opened Encode
  import opened Decode

  /** The IP bytes an address carries after a trip through the wire. */
  function WireIP(ip: seq<Byte>): seq<Byte> {
    if To4(ip).Some? then To4(ip).value else IPv6Bytes(ip)
  }

  /** An address as the decoder rebuilds it from its encoding. */
  function Canonical(a: NetAddr): NetAddr {
    match a
    case TcpAddr(ip, port) => TcpAddr(WireIP(ip), port % 0x1_0000)
    case OtherAddr(_) => a
  }

  function CanonicalAll(addrs: seq<NetAddr>): (r: seq<NetAddr>)
    ensures |r| == |addrs|
    ensures forall i :: 0 <= i < |addrs| ==> r[i] == Canonical(addrs[i])
  {
    seq(|addrs|, i requires 0 <= i < |addrs| => Canonical(addrs[i]))
  }

  /** A value as readElement rebuilds it from its encoding. */
  function Normalize(e: Element): Element {
    match e
    case AddressList(addrs) => AddressList(CanonicalAll(addrs))
    case _ => e
  }

  /** Values that have a decoder and whose lengths fit the fields that carry
      them: 2-byte counts and lengths, and the 34-byte delivery address array. */
  predicate Representable(e: Element) {
    match e
    case SigList(sigs) => |sigs| <= MaxSliceLength
    case PingPayload(p) => |p| <= MaxSliceLength
    case PongPayload(p) => |p| <= MaxSliceLength
    case ErrorData(p) => |p| <= MaxSliceLength
    case OpaqueReason(p) => |p| <= MaxSliceLength
    case DeliveryAddress(d) => |d| <= DeliveryAddressCapacity
    case Address(_) => false
    case AddressList(addrs) => |addrs| <= MaxSliceLength
    case _ => true
  }

  // ---------------------------------------------------------------------
  // Fields

  /** A fixed-width big-endian integer reads back as itself. */
  lemma {:induction false} UintRoundTrip(width: nat, v: nat, rest: seq<Byte>)
    requires v < Pow256(width)
    ensures UintRead(BigEndian(width, v) + rest, width) == Decoded(Ok(v), width)
  {
    var s := BigEndian(width, v) + rest;
    assert s[..width] == BigEndian(width, v);
    BigEndianRoundTrip(width, v);
  }

  /** A count or length below 65536 reads back as itself. */
  lemma {:induction false} Count16RoundTrip(n: nat, rest: seq<Byte>)
    requires n <= MaxSliceLength
    ensures UintRead(Count16(n) + rest, 2) == Decoded(Ok(n), 2)
  {
    assert Uint16Of(n) == n;
    assert Pow256(2) == 0x1_0000 by {
      Pow256Values();
    }
    UintRoundTrip(2, n, rest);
  }

  /** A payload of at most 65535 bytes reads back as itself. */
  lemma {:induction false} BlobRoundTrip(p: seq<Byte>, rest: seq<Byte>)
    requires |p| <= MaxSliceLength
    ensures DecBlob(LengthPrefixed(p) + rest) == Decoded(Ok(p), 2 + |p|)
  {
    var s := LengthPrefixed(p) + rest;
    assert s == Count16(|p|) + (p + rest);
    Count16RoundTrip(|p|, p + rest);
    assert s[2..] == p + rest;
    assert (p + rest)[..|p|] == p;
  }

  /** A payload longer than 65535 bytes has its length written modulo 65536,
      so it reads back cut to that many bytes: its encoding is not its own. */
  lemma {:induction false} BlobLengthWraps(p: seq<Byte>, rest: seq<Byte>)
    requires |p| > MaxSliceLength
    ensures DecBlob(LengthPrefixed(p) + rest) == Decoded(Ok(p[..|p| % 0x1_0000]), 2 + |p| % 0x1_0000)
    ensures DecBlob(LengthPrefixed(p) + rest).res != Ok(p)
  {
    var s := LengthPrefixed(p) + rest;
    var n := |p| % 0x1_0000;
    assert s == BigEndian(2, n) + (p + rest);
    Pow256Values();
    UintRoundTrip(2, n, p + rest);
    assert s[2..] == p + rest;
    assert (p + rest)[..n] == p[..n];
  }

  /** A delivery address of at most 34 bytes reads back as itself. */
  lemma {:induction false} DeliveryAddressRoundTrip(d: seq<Byte>, rest: seq<Byte>)
    requires |d| <= DeliveryAddressCapacity
    ensures DecDeliveryAddress(LengthPrefixed(d) + rest) == Decoded(Ok(d), 2 + |d|)
  {
    var s := LengthPrefixed(d) + rest;
    assert s == Count16(|d|) + (d + rest);
    Count16RoundTrip(|d|, d + rest);
    assert s[2..] == d + rest;
    assert (d + rest)[..|d|] == d;
  }

  /** A delivery address longer than 34 bytes is written without complaint,
      but reading it back slices a [34]byte array out of range: a Go panic. */
  lemma {:induction false} DeliveryAddressTooLongPanics(c: Collaborators, d: seq<Byte>, rest: seq<Byte>)
    requires DeliveryAddressCapacity < |d| <= MaxSliceLength
    ensures Enc(c, DeliveryAddress(d)).err == None
    ensures DecScript(DeliveryAddressK, Enc(c, DeliveryAddress(d)).out + rest) == Decoded(Err(SliceOutOfRange), 2)
  {
    var s := LengthPrefixed(d) + rest;
    assert s == Count16(|d|) + (d + rest);
    Count16RoundTrip(|d|, d + rest);
  }

  /** A script of at most 34 bytes reads back as itself. */
  lemma {:induction false} PkScriptRoundTrip(script: seq<Byte>, rest: seq<Byte>)
    requires |script| <= MaxPkScriptLength
    ensures DecPkScript(ShortVarInt(|script|) + script + rest) == Decoded(Ok(script), 1 + |script|)
  {
    var s := ShortVarInt(|script|) + script + rest;
    assert s[..1] == [|script|];
    assert s[1..] == script + rest;
    assert (script + rest)[..|script|] == script;
  }

  /** A script length above 34, however its varint is written, is rejected. */
  lemma {:induction false} PkScriptClaimTooLong(s: seq<Byte>)
    requires s != [] && s[0] > MaxPkScriptLength
    ensures DecPkScript(s).res.Err?
    ensures s[0] < 0xfd ==> DecPkScript(s) == Decoded(Err(VarBytesTooLong), 1)
  {
    assert s[..1] == [s[0]];
  }

  /** The three bytes of a 24-bit field read back as the value. */
  lemma {:induction false} Uint24RoundTrip(v: nat, rest: seq<Byte>)
    requires v < 0x100_0000
    ensures DecUint24(BigEndian(3, v) + rest) == Decoded(Ok(v), 3)
  {
    var s := BigEndian(3, v) + rest;
    assert s[..3] == BigEndian(3, v);
    Pow256Values();
    BigEndianRoundTrip(3, v);
    FromBigEndianLeadingZero(BigEndian(3, v));
  }

  /** A short channel ID within range is 8 bytes that read back as the triple. */
  lemma {:induction false} ShortChannelIDRoundTrip(height: U32, txIndex: U32, txPosition: U16, rest: seq<Byte>)
    requires height < 0x100_0000 && txIndex < 0x100_0000
    ensures DecShortChannelID(BigEndian(3, height) + BigEndian(3, txIndex) + BigEndian(2, txPosition) + rest)
            == Decoded(Ok(ShortChannelID(height, txIndex, txPosition)), 8)
  {
    var h, t, p := BigEndian(3, height), BigEndian(3, txIndex), BigEndian(2, txPosition);
    var s := h + t + p + rest;
    assert s == h + (t + p + rest);
    Uint24RoundTrip(height, t + p + rest);
    assert s[3..] == t + (p + rest);
    Uint24RoundTrip(txIndex, p + rest);
    assert s[6..] == p + rest;
    Pow256Values();
    UintRoundTrip(2, txPosition, rest);
  }

  /** An outpoint with an index below 65536 is 34 bytes that read back as itself. */
  lemma {:induction false} OutPointRoundTrip(hash: Bytes32, index: U32, rest: seq<Byte>)
    requires index <= 0xffff
    ensures DecOutPoint(hash + BigEndian(2, index) + rest) == Decoded(Ok(OutPoint(hash, index)), 34)
  {
    var s := hash + BigEndian(2, index) + rest;
    assert s[..32] == hash;
    assert s[32..] == BigEndian(2, index) + rest;
    Pow256Values();
    UintRoundTrip(2, index, rest);
  }

  /** The wire form of an address does not change on a second trip. */
  lemma {:induction false} WireIPStable(ip: seq<Byte>)
    ensures WireIP(WireIP(ip)) == WireIP(ip)
  {
    if To4(ip).None? && To16(ip).None? {
      assert WireIP(ip) == Zeros(16);
      assert WireIP(ip)[10] == 0;
    }
  }

  lemma {:induction false} CanonicalStable(a: NetAddr)
    ensures Canonical(Canonical(a)) == Canonical(a)
  {
    if a.TcpAddr? {
      WireIPStable(a.ip);
    }
  }

  /** A 4-byte IP, or a 16-byte IP that is not an embedded IPv4 address, with
      a port in range is its own wire form. */
  lemma {:induction false} CanonicalIdentity(ip: seq<Byte>, port: int)
    requires |ip| == 4 || (|ip| == 16 && ip[..12] != V4InV6Prefix)
    requires 0 <= port <= 0xffff
    ensures Canonical(TcpAddr(ip, port)) == TcpAddr(ip, port)
  {
  }

  /** A TCP address reads back in its wire form. */
  lemma {:induction false} AddrRoundTrip(a: NetAddr, rest: seq<Byte>)
    requires a.TcpAddr?
    ensures DecAddr(EncAddr(a).out + rest) == Decoded(Ok(Canonical(a)), |EncAddr(a).out|)
  {
    var ip := WireIP(a.ip);
    var port := BigEndian(2, Uint16Of(a.port));
    var tag: Byte := if To4(a.ip).Some? then Tcp4Addr else Tcp6Addr;
    var s := EncAddr(a).out + rest;
    assert s == [tag] + ip + port + rest;
    assert s[..1] == [tag];
    assert s[1..] == ip + port + rest;
    assert (ip + port + rest)[..|ip|] == ip;
    assert s[1 + |ip|..] == port + rest;
    Pow256Values();
    UintRoundTrip(2, Uint16Of(a.port), rest);
  }

  /** An address entry with a tag other than 1 or 2 reads only the port and
      yields an address with an empty IP, without error. */
  lemma {:induction false} UnknownTagAccepted(tag: Byte, p0: Byte, p1: Byte, rest: seq<Byte>)
    requires tag != Tcp4Addr && tag != Tcp6Addr
    ensures DecAddr([tag, p0, p1] + rest) == Decoded(Ok(TcpAddr([], p0 * 256 + p1)), 3)
  {
    var s := [tag, p0, p1] + rest;
    assert s[..1] == [tag];
    assert s[1..][..2] == [p0, p1];
    assert [p0, p1][..1] == [p0];
    assert [p0][..0] == [];
    assert FromBigEndian([p0, p1]) == p0 * 256 + p1;
  }

  /** A signature that normalises reads back as itself. */
  lemma {:induction false} SigRoundTrip(c: Collaborators, sig: Signature, rest: seq<Byte>)
    requires c.Inverse()
    requires EncSig(c, sig).err == None
    ensures DecSig(c, EncSig(c, sig).out + rest) == Decoded(Ok(sig), 64)
  {
    var b := c.sigToWire(sig).value;
    assert (b + rest)[..64] == b;
  }

  /** A list written as a 2-byte count and its items reads back item by item. */
  lemma {:induction false} ListRoundTrip<A, T>(
    enc: A -> Encoded, item: (nat, seq<Byte>) -> Decoded<T>,
    xs: seq<A>, ys: seq<T>, rest: seq<Byte>)
    requires Bounded(item)
    requires |xs| == |ys| <= MaxSliceLength
    requires forall i :: 0 <= i < |xs| ==> enc(xs[i]).err == None
    requires forall i, tail :: 0 <= i < |xs| ==>
               item(Indices(|xs|)[i], enc(xs[i]).out + tail) == Decoded(Ok(ys[i]), |enc(xs[i]).out|)
    ensures Then(Written(Count16(|xs|)), EncAll(enc, xs)).err == None
    ensures DecList(item, Then(Written(Count16(|xs|)), EncAll(enc, xs)).out + rest)
            == Decoded(Ok(ys), 2 + |EncAll(enc, xs).out|)
  {
    var body := EncAll(enc, xs).out;
    DecEachEncAll(enc, item, Indices(|xs|), xs, ys, rest);
    var s := Count16(|xs|) + body + rest;
    assert s == Count16(|xs|) + (body + rest);
    Count16RoundTrip(|xs|, body + rest);
    assert s[2..] == body + rest;
  }

  lemma {:induction false} SigListRoundTrip(c: Collaborators, sigs: seq<Signature>, rest: seq<Byte>)
    requires c.Inverse()
    requires |sigs| <= MaxSliceLength
    requires Enc(c, SigList(sigs)).err == None
    ensures DecCrypto(c, SigListK, Enc(c, SigList(sigs)).out + rest) == Decoded(Ok(SigList(sigs)), |Enc(c, SigList(sigs)).out|)
  {
    var enc := SigEncoder(c);
    forall i | 0 <= i < |sigs| ensures enc(sigs[i]).err == None {
      NoErrorBefore(enc, sigs, i);
    }
    forall i, tail | 0 <= i < |sigs|
      ensures SigDecoder(c)(Indices(|sigs|)[i], enc(sigs[i]).out + tail) == Decoded(Ok(sigs[i]), |enc(sigs[i]).out|)
    {
      SigRoundTrip(c, sigs[i], tail);
    }
    SigDecoderBounded(c);
    ListRoundTrip(enc, SigDecoder(c), sigs, sigs, rest);
  }

  /** If a batch encodes without error, so does every prefix of it. */
  lemma {:induction false} NoErrorBefore<T>(f: T -> Encoded, xs: seq<T>, i: nat)
    requires i < |xs|
    requires EncAll(f, xs).err == None
    ensures EncAll(f, xs[..i]).err == None
    ensures f(xs[i]).err == None
    decreases |xs|
  {
    var n := |xs| - 1;
    assert EncAll(f, xs[..n]).err == None;
    if i < n {
      assert xs[..n][..i] == xs[..i];
      NoErrorBefore(f, xs[..n], i);
    }
  }

  /** The addresses of a list read back one by one in their wire form. */
  lemma {:induction false} AddrsRoundTrip(addrs: seq<NetAddr>, rest: seq<Byte>)
    requires |addrs| <= MaxSliceLength
    requires EncAll(EncAddr, addrs).err == None
    ensures DecList(AddrDecoder(), Count16(|addrs|) + EncAll(EncAddr, addrs).out + rest)
            == Decoded(Ok(CanonicalAll(addrs)), 2 + |EncAll(EncAddr, addrs).out|)
  {
    var ys := CanonicalAll(addrs);
    forall i | 0 <= i < |addrs| ensures EncAddr(addrs[i]).err == None {
      NoErrorBefore(EncAddr, addrs, i);
    }
    forall i, tail | 0 <= i < |addrs|
      ensures AddrDecoder()(Indices(|addrs|)[i], EncAddr(addrs[i]).out + tail)
              == Decoded(Ok(ys[i]), |EncAddr(addrs[i]).out|)
    {
      AddrRoundTrip(addrs[i], tail);
    }
    AddrDecoderBounded();
    ListRoundTrip(EncAddr, AddrDecoder(), addrs, ys, rest);
  }

  lemma {:induction false} AddressListRoundTrip(c: Collaborators, addrs: seq<NetAddr>, rest: seq<Byte>)
    requires |addrs| <= MaxSliceLength
    requires Enc(c, AddressList(addrs)).err == None
    ensures Dec(c, AddressListK, Enc(c, AddressList(addrs)).out + rest)
            == Decoded(Ok(AddressList(CanonicalAll(addrs))), |Enc(c, AddressList(addrs)).out|)
  {
    AddrsRoundTrip(addrs, rest);
    EncodedAddressList(c, addrs, rest);
    DecodedAddressList(c, Count16(|addrs|) + EncAll(EncAddr, addrs).out + rest);
  }

  lemma {:induction false} EncodedAddressList(c: Collaborators, addrs: seq<NetAddr>, rest: seq<Byte>)
    requires Enc(c, AddressList(addrs)).err == None
    ensures EncAll(EncAddr, addrs).err == None
    ensures Enc(c, AddressList(addrs)).out + rest == Count16(|addrs|) + EncAll(EncAddr, addrs).out + rest
  {
  }

  lemma {:induction false} DecodedAddressList(c: Collaborators, s: seq<Byte>)
    requires DecList(AddrDecoder(), s).res.Ok?
    ensures Dec(c, AddressListK, s) ==
            Decoded(Ok(AddressList(DecList(AddrDecoder(), s).res.value)), DecList(AddrDecoder(), s).used)
  {
  }

  // ---------------------------------------------------------------------
  // Whole elements

  /** The round trip one value makes: its bytes, followed by anything, read
      back into a destination of its kind yield the value in the form
      readElement builds and consume exactly those bytes. */
  ghost predicate ReadsBack(c: Collaborators, e: Element, rest: seq<Byte>) {
    Dec(c, KindOf(e), Enc(c, e).out + rest) == Decoded(Ok(Normalize(e)), |Enc(c, e).out|)
  }

  lemma {:induction false} Uint8ReadsBack(c: Collaborators, e: Element, rest: seq<Byte>)
    requires e.Uint8?
    ensures ReadsBack(c, e, rest)
  {
    assert ([e.u8] + rest)[0] == e.u8;
  }

  lemma {:induction false} Uint16ReadsBack(c: Collaborators, e: Element, rest: seq<Byte>)
    requires e.Uint16?
    ensures ReadsBack(c, e, rest)
  {
    Pow256Values();
    UintRoundTrip(2, e.u16, rest);
  }

  lemma {:induction false} ErrorCodeReadsBack(c: Collaborators, e: Element, rest: seq<Byte>)
    requires e.ErrorCode?
    ensures ReadsBack(c, e, rest)
  {
    Pow256Values();
    UintRoundTrip(2, e.errorCode, rest);
  }

  lemma {:induction false} FailCodeReadsBack(c: Collaborators, e: Element, rest: seq<Byte>)
    requires e.FailCode?
    ensures ReadsBack(c, e, rest)
  {
    Pow256Values();
    UintRoundTrip(2, e.failCode, rest);
  }

  lemma {:induction false} Uint32ReadsBack(c: Collaborators, e: Element, rest: seq<Byte>)
    requires e.Uint32?
    ensures ReadsBack(c, e, rest)
  {
    Pow256Values();
    UintRoundTrip(4, e.u32, rest);
  }

  lemma {:induction false} Uint64ReadsBack(c: Collaborators, e: Element, rest: seq<Byte>)
    requires e.Uint64?
    ensures ReadsBack(c, e, rest)
  {
    Pow256Values();
    UintRoundTrip(8, e.u64, rest);
  }

  /** An amount travels as its two's-complement 64-bit pattern. */
  lemma {:induction false} AmountReadsBack(c: Collaborators, e: Element, rest: seq<Byte>)
    requires e.Amount?
    ensures ReadsBack(c, e, rest)
  {
    Pow256Values();
    UintRoundTrip(8, Uint64Of(e.satoshis), rest);
    Int64RoundTrip(e.satoshis);
  }

  lemma {:induction false} PingPayloadReadsBack(c: Collaborators, e: Element, rest: seq<Byte>)
    requires e.PingPayload? && Representable(e)
    ensures ReadsBack(c, e, rest)
  {
    BlobRoundTrip(e.ping, rest);
  }

  lemma {:induction false} PongPayloadReadsBack(c: Collaborators, e: Element, rest: seq<Byte>)
    requires e.PongPayload? && Representable(e)
    ensures ReadsBack(c, e, rest)
  {
    BlobRoundTrip(e.pong, rest);
  }

  lemma {:induction false} ErrorDataReadsBack(c: Collaborators, e: Element, rest: seq<Byte>)
    requires e.ErrorData? && Representable(e)
    ensures ReadsBack(c, e, rest)
  {
    BlobRoundTrip(e.errorData, rest);
  }

  lemma {:induction false} OpaqueReasonReadsBack(c: Collaborators, e: Element, rest: seq<Byte>)
    requires e.OpaqueReason? && Representable(e)
    ensures ReadsBack(c, e, rest)
  {
    BlobRoundTrip(e.reason, rest);
  }

  lemma {:induction false} PubKeyReadsBack(c: Collaborators, e: Element, rest: seq<Byte>)
    requires e.PubKey? && c.Inverse()
    ensures ReadsBack(c, e, rest)
  {
    var b := c.serializeKey(e.key);
    assert (b + rest)[..33] == b;
  }

  lemma {:induction false} FeaturesReadsBack(c: Collaborators, e: Element, rest: seq<Byte>)
    requires e.Features? && c.Inverse()
    ensures ReadsBack(c, e, rest)
  {
    assert c.decodeFeatures(c.encodeFeatures(e.features) + rest)
        == (Some(e.features), |c.encodeFeatures(e.features)|);
  }

  lemma {:induction false} SigListReadsBack(c: Collaborators, e: Element, rest: seq<Byte>)
    requires e.SigList? && c.Inverse() && Enc(c, e).err == None && Representable(e)
    ensures ReadsBack(c, e, rest)
  {
    SigListRoundTrip(c, e.sigs, rest);
  }

  lemma {:induction false} SigReadsBack(c: Collaborators, e: Element, rest: seq<Byte>)
    requires e.Sig? && c.Inverse() && Enc(c, e).err == None
    ensures ReadsBack(c, e, rest)
  {
    SigRoundTrip(c, e.sig, rest);
  }

  lemma {:induction false} RawBytesReadsBack(c: Collaborators, e: Element, rest: seq<Byte>)
    requires e.RawBytes?
    ensures ReadsBack(c, e, rest)
  {
    assert (e.raw + rest)[..|e.raw|] == e.raw;
  }

  lemma {:induction false} ChannelIDReadsBack(c: Collaborators, e: Element, rest: seq<Byte>)
    requires e.ChannelID?
    ensures ReadsBack(c, e, rest)
  {
    assert (e.channelID + rest)[..32] == e.channelID;
  }

  lemma {:induction false} AliasReadsBack(c: Collaborators, e: Element, rest: seq<Byte>)
    requires e.Alias?
    ensures ReadsBack(c, e, rest)
  {
    assert (e.alias + rest)[..32] == e.alias;
  }

  lemma {:induction false} RGBReadsBack(c: Collaborators, e: Element, rest: seq<Byte>)
    requires e.RGB?
    ensures ReadsBack(c, e, rest)
  {
    assert ([e.red, e.green, e.blue] + rest)[..3] == [e.red, e.green, e.blue];
  }

  lemma {:induction false} OutPointReadsBack(c: Collaborators, e: Element, rest: seq<Byte>)
    requires e.OutPoint? && Enc(c, e).err == None
    ensures ReadsBack(c, e, rest)
  {
    OutPointRoundTrip(e.hash, e.index, rest);
  }

  lemma {:induction false} ShortChannelIDReadsBack(c: Collaborators, e: Element, rest: seq<Byte>)
    requires e.ShortChannelID? && Enc(c, e).err == None
    ensures ReadsBack(c, e, rest)
  {
    ShortChannelIDRoundTrip(e.blockHeight, e.txIndex, e.txPosition, rest);
  }

  lemma {:induction false} PkScriptReadsBack(c: Collaborators, e: Element, rest: seq<Byte>)
    requires e.PkScript? && Enc(c, e).err == None
    ensures ReadsBack(c, e, rest)
  {
    PkScriptRoundTrip(e.script, rest);
  }

  lemma {:induction false} DeliveryAddressReadsBack(c: Collaborators, e: Element, rest: seq<Byte>)
    requires e.DeliveryAddress? && Representable(e)
    ensures ReadsBack(c, e, rest)
  {
    DeliveryAddressRoundTrip(e.deliveryAddress, rest);
  }

  lemma {:induction false} AddressListReadsBack(c: Collaborators, e: Element, rest: seq<Byte>)
    requires e.AddressList? && Enc(c, e).err == None && Representable(e)
    ensures ReadsBack(c, e, rest)
  {
    AddressListRoundTrip(c, e.addrs, rest);
  }

  /** readElement undoes writeElement: every value that writes without error,
      has a decoder and fits its length fields reads back, in its normal form,
      from its own bytes, consuming exactly them, whatever follows. */
  lemma {:induction false} ElementRoundTrip(c: Collaborators, e: Element, rest: seq<Byte>)
    requires c.Inverse()
    requires Enc(c, e).err == None
    requires Representable(e)
    ensures Dec(c, KindOf(e), Enc(c, e).out + rest) == Decoded(Ok(Normalize(e)), |Enc(c, e).out|)
  {
    match e
    case Uint8(_) => Uint8ReadsBack(c, e, rest);
    case Uint16(_) => Uint16ReadsBack(c, e, rest);
    case ErrorCode(_) => ErrorCodeReadsBack(c, e, rest);
    case Amount(_) => AmountReadsBack(c, e, rest);
    case Uint32(_) => Uint32ReadsBack(c, e, rest);
    case Uint64(_) => Uint64ReadsBack(c, e, rest);
    case PubKey(_) => PubKeyReadsBack(c, e, rest);
    case SigList(_) => SigListReadsBack(c, e, rest);
    case Sig(_) => SigReadsBack(c, e, rest);
    case PingPayload(_) => PingPayloadReadsBack(c, e, rest);
    case PongPayload(_) => PongPayloadReadsBack(c, e, rest);
    case ErrorData(_) => ErrorDataReadsBack(c, e, rest);
    case OpaqueReason(_) => OpaqueReasonReadsBack(c, e, rest);
    case RawBytes(_) => RawBytesReadsBack(c, e, rest);
    case PkScript(_) => PkScriptReadsBack(c, e, rest);
    case Features(_) => FeaturesReadsBack(c, e, rest);
    case OutPoint(_, _) => OutPointReadsBack(c, e, rest);
    case ChannelID(_) => ChannelIDReadsBack(c, e, rest);
    case FailCode(_) => FailCodeReadsBack(c, e, rest);
    case ShortChannelID(_, _, _) => ShortChannelIDReadsBack(c, e, rest);
    case Address(_) => assert false;
    case AddressList(_) => AddressListReadsBack(c, e, rest);
    case RGB(_, _, _) => RGBReadsBack(c, e, rest);
    case Alias(_) => AliasReadsBack(c, e, rest);
    case DeliveryAddress(_) => DeliveryAddressReadsBack(c, e, rest);
  }

  /** The destination kinds for a batch of values. */
  function Kinds(es: seq<Element>): (ks: seq<Kind>)
    ensures |ks| == |es| && forall i :: 0 <= i < |es| ==> ks[i] == KindOf(es[i])
  {
    seq(|es|, i requires 0 <= i < |es| => KindOf(es[i]))
  }

  function NormalizeAll(es: seq<Element>): (r: seq<Element>)
    ensures |r| == |es| && forall i :: 0 <= i < |es| ==> r[i] == Normalize(es[i])
  {
    seq(|es|, i requires 0 <= i < |es| => Normalize(es[i]))
  }

  /** readElements undoes writeElements: a batch of values that each write
      without error and read back reads back as a batch, in order, consuming
      exactly the batch's bytes. */
  lemma {:induction false} ElementsRoundTrip(c: Collaborators, es: seq<Element>, rest: seq<Byte>)
    requires c.Inverse()
    requires forall i :: 0 <= i < |es| ==> Enc(c, es[i]).err == None && Representable(es[i])
    ensures EncElements(c, es).err == None
    ensures DecElements(c, Kinds(es), EncElements(c, es).out + rest)
            == Batch(NormalizeAll(es), None, |EncElements(c, es).out|)
  {
    var enc, dec := ElementEncoder(c), ElementDecoder(c);
    forall i, tail | 0 <= i < |es|
      ensures dec(Kinds(es)[i], enc(es[i]).out + tail) == Decoded(Ok(NormalizeAll(es)[i]), |enc(es[i]).out|)
    {
      ElementRoundTrip(c, es[i], tail);
    }
    ElementDecoderBounded(c);
    DecEachEncAll(enc, dec, Kinds(es), es, NormalizeAll(es), rest);
  }

  /** Only address lists change on the way: every other value comes back as it was. */
  lemma {:induction false} NormalizeKeeps(e: Element)
    ensures !e.AddressList? ==> Normalize(e) == e
    ensures e.AddressList? ==> Normalize(e) == AddressList(CanonicalAll(e.addrs))
    ensures Normalize(Normalize(e)) == Normalize(e)
  {
    if e.AddressList? {
      var a := CanonicalAll(e.addrs);
      forall i | 0 <= i < |a| ensures CanonicalAll(a)[i] == a[i] {
        CanonicalStable(e.addrs[i]);
      }
    }
  }

  // ---------------------------------------------------------------------
  // Short input

  /** The number of bytes a destination of a fixed-size kind takes. */
  function FixedWidth(k: Kind): Option<nat> {
    match k
    case Uint8K => Some(1)
    case Uint16K => Some(2)
    case ErrorCodeK => Some(2)
    case FailCodeK => Some(2)
    case Uint32K => Some(4)
    case Uint64K => Some(8)
    case AmountK => Some(8)
    case PubKeyK => Some(33)
    case SigK => Some(64)
    case RawBytesK(n) => Some(n)
    case OutPointK => Some(34)
    case ChannelIDK => Some(32)
    case AliasK => Some(32)
    case ShortChannelIDK => Some(8)
    case RGBK => Some(3)
    case _ => None
  }

  /** A value of a fixed-size kind is written as exactly its kind's width. */
  lemma {:induction false} FixedWidthWritten(c: Collaborators, e: Element)
    requires FixedWidth(KindOf(e)).Some?
    requires Enc(c, e).err == None
    ensures |Enc(c, e).out| == FixedWidth(KindOf(e)).value
  {
    EncodedLength(c, e);
  }

  /** A read that takes exactly w bytes when it succeeds, and fails at the
      end of the input when fewer than w bytes (n) remain. */
  predicate TakesWidth(d: Decoded<Element>, w: nat, n: nat) {
    && (d.res.Ok? ==> d.used == w)
    && (n < w ==> d.res.Err? && (d.res.error == EOF || d.res.error == UnexpectedEOF))
  }

  lemma {:induction false} IntegerWidth(k: Kind, s: seq<Byte>)
    requires IntegerKind(k)
    ensures FixedWidth(k).Some? && TakesWidth(DecInteger(k, s), FixedWidth(k).value, |s|)
  {
  }

  lemma {:induction false} CryptoWidth(c: Collaborators, k: Kind, s: seq<Byte>)
    requires CryptoKind(k) && FixedWidth(k).Some?
    ensures TakesWidth(DecCrypto(c, k, s), FixedWidth(k).value, |s|)
  {
  }

  lemma {:induction false} OtherWidth(c: Collaborators, k: Kind, s: seq<Byte>)
    requires !IntegerKind(k) && !PayloadKind(k) && !CryptoKind(k) && FixedWidth(k).Some?
    ensures TakesWidth(Dec(c, k, s), FixedWidth(k).value, |s|)
  {
  }

  /** A destination of a fixed-size kind consumes exactly its width when it
      reads a value, and fails with EOF or UnexpectedEOF when fewer bytes remain. */
  lemma {:induction false} FixedWidthRead(c: Collaborators, k: Kind, s: seq<Byte>)
    requires FixedWidth(k).Some?
    ensures Dec(c, k, s).res.Ok? ==> Dec(c, k, s).used == FixedWidth(k).value
    ensures |s| < FixedWidth(k).value ==>
              Dec(c, k, s).res.Err? && (Dec(c, k, s).res.error == EOF || Dec(c, k, s).res.error == UnexpectedEOF)
  {
    if IntegerKind(k) {
      IntegerWidth(k, s);
    } else if CryptoKind(k) {
      CryptoWidth(c, k, s);
    } else {
      OtherWidth(c, k, s);
    }
  }

  // ---------------------------------------------------------------------
  // Length-prefixed reads of arbitrary input

  /** The length a 2-byte big-endian prefix announces. */
  function Announced(s: seq<Byte>): nat
    requires |s| >= 2
  {
    FromBigEndian(s[..2])
  }

  /** A blob read succeeds exactly when the announced number of bytes follows
      the prefix, and then yields those bytes; otherwise it consumes all that
      remains and fails with EOF or UnexpectedEOF. */
  lemma {:induction false} BlobRead(s: seq<Byte>)
    ensures DecBlob(s).res.Ok? <==> |s| >= 2 && Announced(s) <= |s| - 2
    ensures DecBlob(s).res.Ok? ==>
              DecBlob(s).used == 2 + Announced(s) && DecBlob(s).res.value == s[2..2 + Announced(s)]
    ensures DecBlob(s).res.Err? ==>
              DecBlob(s).used == |s| && (DecBlob(s).res.error == EOF || DecBlob(s).res.error == UnexpectedEOF)
  {
    if |s| >= 2 {
      assert FullRead(s, 2).res.value == s[..2];
    }
  }

  /** The same rule for the four payload destinations. */
  lemma {:induction false} PayloadRead(k: Kind, s: seq<Byte>)
    requires PayloadKind(k)
    ensures DecPayload(k, s).res.Ok? <==> |s| >= 2 && Announced(s) <= |s| - 2
    ensures DecPayload(k, s).res.Ok? ==>
              DecPayload(k, s).used == 2 + Announced(s) && DecPayload(k, s).res.value == Payload(k, s[2..2 + Announced(s)])
    ensures DecPayload(k, s).res.Err? ==>
              DecPayload(k, s).used == |s| && (DecPayload(k, s).res.error == EOF || DecPayload(k, s).res.error == UnexpectedEOF)
  {
    BlobRead(s);
  }

  /** A delivery address read succeeds exactly when the announced length is
      at most 34 and that many bytes follow the prefix; a longer announced
      length is the out-of-range slice after the 2 prefix bytes, and a short
      input consumes all that remains and fails with EOF or UnexpectedEOF. */
  lemma {:induction false} DeliveryAddressRead(s: seq<Byte>)
    ensures DecDeliveryAddress(s).res.Ok? <==>
              |s| >= 2 && Announced(s) <= DeliveryAddressCapacity && Announced(s) <= |s| - 2
    ensures DecDeliveryAddress(s).res.Ok? ==>
              DecDeliveryAddress(s).used == 2 + Announced(s) && DecDeliveryAddress(s).res.value == s[2..2 + Announced(s)]
    ensures |s| >= 2 && Announced(s) > DeliveryAddressCapacity ==>
              DecDeliveryAddress(s) == Decoded(Err(SliceOutOfRange), 2)
    ensures (|s| < 2 || Announced(s) <= DeliveryAddressCapacity) && DecDeliveryAddress(s).res.Err? ==>
              DecDeliveryAddress(s).used == |s|
              && (DecDeliveryAddress(s).res.error == EOF || DecDeliveryAddress(s).res.error == UnexpectedEOF)
  {
    if |s| >= 2 {
      assert FullRead(s, 2).res.value == s[..2];
    }
  }

  /** A script whose 1-byte length is at most 34 but longer than the bytes
      that follow consumes all that remains and fails with EOF or
      UnexpectedEOF. */
  lemma {:induction false} PkScriptBodyShort(s: seq<Byte>)
    requires s != [] && s[0] <= MaxPkScriptLength && |s| - 1 < s[0]
    ensures DecPkScript(s).res.Err? && DecPkScript(s).used == |s|
    ensures DecPkScript(s).res.error == EOF || DecPkScript(s).res.error == UnexpectedEOF
  {
    assert s[..1] == [s[0]];
  }

  /** The IP bytes an address entry with descriptor `tag` carries. */
  function IPWidth(tag: Byte): nat {
    if tag == Tcp4Addr then 4 else if tag == Tcp6Addr then 16 else 0
  }

  /** An address entry read from any input: the descriptor, IPWidth of its IP
      bytes and a 2-byte port when that many bytes remain; otherwise it
      consumes all that remains and fails with EOF or UnexpectedEOF. */
  lemma {:induction false} AddrRead(s: seq<Byte>)
    ensures DecAddr(s).res.Ok? <==> |s| >= 1 && |s| >= 3 + IPWidth(s[0])
    ensures |s| >= 1 && |s| >= 3 + IPWidth(s[0]) ==>
              var w := IPWidth(s[0]);
              DecAddr(s) == Decoded(Ok(TcpAddr(s[1..1 + w], FromBigEndian(s[1 + w..3 + w]))), 3 + w)
    ensures DecAddr(s).res.Err? ==>
              DecAddr(s).used == |s| && (DecAddr(s).res.error == EOF || DecAddr(s).res.error == UnexpectedEOF)
  {
    if |s| >= 1 {
      var w := IPWidth(s[0]);
      assert s[..1] == [s[0]];
      if |s| >= 3 + w {
        assert s[1..][..w] == s[1..1 + w];
        assert s[1 + w..][..2] == s[1 + w..3 + w];
      }
    }
  }

  // ---------------------------------------------------------------------
  // Worked examples

  /** Short channel ID 700000:42:1 is the 8 bytes 0a ae 60 00 00 2a 00 01,
      which read back as it. */
  lemma ShortChannelIDExample(c: Collaborators, rest: seq<Byte>)
    ensures Enc(c, ShortChannelID(700000, 42, 1)) == Written([0x0a, 0xae, 0x60, 0x00, 0x00, 0x2a, 0x00, 0x01])
    ensures DecShortChannelID([0x0a, 0xae, 0x60, 0x00, 0x00, 0x2a, 0x00, 0x01] + rest)
            == Decoded(Ok(ShortChannelID(700000, 42, 1)), 8)
  {
    ShortChannelIDExampleBytes();
    ShortChannelIDRoundTrip(700000, 42, 1, rest);
  }


  lemma ShortChannelIDExampleBytes()
    ensures BigEndian(3, 700000) + BigEndian(3, 42) + BigEndian(2, 1) == [0x0a, 0xae, 0x60, 0x00, 0x00, 0x2a, 0x00, 0x01]
  {
    assert BigEndian(3, 700000) == [0x0a, 0xae, 0x60] by {
      assert BigEndian(1, 10) == [0x0a];
      assert BigEndian(2, 2734) == [0x0a, 0xae];
    }
    assert BigEndian(3, 42) == [0x00, 0x00, 0x2a];
    assert BigEndian(2, 1) == [0x00, 0x01];
  }

  /** The IPv6 loopback address ::1. */
  const Loopback6: seq<Byte> := [0, 0, 0, 0, 0, 0, 0, 0, 0, 0, 0, 0, 0, 0, 0, 1]

  /** The address list [10.0.0.1:9735, [::1]:9735] is a count of 2, a 7-byte
      IPv4 entry and a 19-byte IPv6 entry: 28 bytes. */
  lemma AddressListExample(c: Collaborators)
    ensures Enc(c, AddressList([TcpAddr([10, 0, 0, 1], 9735), TcpAddr(Loopback6, 9735)])).out
            == [0x00, 0x02]
               + [Tcp4Addr, 10, 0, 0, 1, 0x26, 0x07]
               + [Tcp6Addr] + Loopback6 + [0x26, 0x07]
  {
    AddressListExampleEntries();
    assert Count16(2) == [0x00, 0x02];
  }

  lemma AddressListExampleEntries()
    ensures EncAll(EncAddr, [TcpAddr([10, 0, 0, 1], 9735), TcpAddr(Loopback6, 9735)])
            == Written([Tcp4Addr, 10, 0, 0, 1, 0x26, 0x07] + ([Tcp6Addr] + Loopback6 + [0x26, 0x07]))
  {
    var a1, a2 := TcpAddr([10, 0, 0, 1], 9735), TcpAddr(Loopback6, 9735);
    var e1, e2 := [Tcp4Addr, 10, 0, 0, 1, 0x26, 0x07], [Tcp6Addr] + Loopback6 + [0x26, 0x07];
    assert BigEndian(2, 9735) == [0x26, 0x07];
    assert EncAddr(a1) == Written(e1);
    assert EncAddr(a2) == Written(e2) by {
      assert Loopback6[..12][10] != V4InV6Prefix[10];
    }
    assert EncAll(EncAddr, [a1]) == Written(e1) by {
      assert [a1][..0] == [];
      assert EncAll(EncAddr, [a1]) == Then(Written([]), EncAddr(a1));
    }
    assert [a1, a2][..1] == [a1];
    assert EncAll(EncAddr, [a1, a2]) == Then(EncAll(EncAddr, [a1]), EncAddr(a2));
  }

  /** A signature list with a count of zero reads as the empty list. */
  lemma EmptySigListExample(c: Collaborators, rest: seq<Byte>)
    ensures DecCrypto(c, SigListK, [0, 0] + rest) == Decoded(Ok(SigList([])), 2)
  {
    assert ([0, 0] + rest)[..2] == [0, 0];
    assert [0, 0][..1] == [0];
  }
}
