/** writeElement, writeElements, readElement and readElements as the step by
    step operations they are: writes appended to a Writer, reads taken from a
    Reader, results stored into destinations. Each is proved against the
    functions of modules Encode and Decode. */
module Lnwire {
  import opened Bytes
  import opened Stream
  import opened Io
  import opened Elements
  import opened Encode
  import opened Decode
  import opened Effects

  // =====================================================================
  // Writing

  /** The loop over a signature list: each signature through writeElement,
      stopping at the first one that does not normalise. */
  method WriteSigs(c: Collaborators, w: Writer, sigs: seq<Signature>) returns (err: Option<Error>)
    modifies w
    ensures w.buf == old(w.buf) + EncAll(SigEncoder(c), sigs).out
    ensures err == EncAll(SigEncoder(c), sigs).err
  {
    var f := SigEncoder(c);
    var i := 0;
    while i < |sigs|
      invariant 0 <= i <= |sigs|
      invariant EncAll(f, sigs[..i]).err == None
      invariant w.buf == old(w.buf) + EncAll(f, sigs[..i]).out
    {
      EncAllStep(f, sigs, i);
      if c.sigToWire(sigs[i]).None? {
        EncAllStopsAt(f, sigs, i);
        return Some(SigToWireFailed);
      }
      w.Write(c.sigToWire(sigs[i]).value);
      i := i + 1;
    }
    assert sigs[..i] == sigs;
    return None;
  }

  /** The *net.TCPAddr case: descriptor, IP, port, each its own write. */
  method WriteAddr(w: Writer, a: NetAddr) returns (err: Option<Error>)
    modifies w
    ensures w.buf == old(w.buf) + EncAddr(a).out
    ensures err == EncAddr(a).err
  {
    if a.OtherAddr? {
      return Some(UnknownType(a.typeName));
    }
    if To4(a.ip).Some? {
      w.Write([Tcp4Addr]);
      w.Write(To4(a.ip).value);
    } else {
      w.Write([Tcp6Addr]);
      w.Write(IPv6Bytes(a.ip));
    }
    w.Write(BigEndian(2, Uint16Of(a.port)));
    return None;
  }

  /** The loop over an address list, stopping at the first address that is
      not a TCP address. */
  method WriteAddrs(w: Writer, addrs: seq<NetAddr>) returns (err: Option<Error>)
    modifies w
    ensures w.buf == old(w.buf) + EncAll(EncAddr, addrs).out
    ensures err == EncAll(EncAddr, addrs).err
  {
    ghost var base := w.buf;
    var i := 0;
    while i < |addrs|
      invariant 0 <= i <= |addrs|
      invariant EncAll(EncAddr, addrs[..i]).err == None
      invariant w.buf == base + EncAll(EncAddr, addrs[..i]).out
    {
      err := WriteAddrAt(w, addrs, i, base);
      if err.Some? {
        return;
      }
      i := i + 1;
    }
    assert addrs[..i] == addrs;
    return None;
  }

  /** One turn of the address loop: address i after the ones before it. */
  method WriteAddrAt(w: Writer, addrs: seq<NetAddr>, i: nat, ghost base: seq<Byte>) returns (err: Option<Error>)
    requires i < |addrs|
    requires EncAll(EncAddr, addrs[..i]).err == None
    requires w.buf == base + EncAll(EncAddr, addrs[..i]).out
    modifies w
    ensures w.buf == base + EncAll(EncAddr, addrs[..i + 1]).out
    ensures err == EncAll(EncAddr, addrs[..i + 1]).err
    ensures err.Some? ==> EncAll(EncAddr, addrs) == EncAll(EncAddr, addrs[..i + 1])
  {
    ghost var before := w.buf;
    err := WriteAddr(w, addrs[i]);
    EncAllTurn(EncAddr, addrs, i, base, before, EncAddr(addrs[i]), w.buf);
    if err.Some? {
      EncAllStopsAt(EncAddr, addrs, i);
    }
  }

  /** The []net.Addr case: the count as a uint16, then each address. */
  method WriteAddressList(w: Writer, addrs: seq<NetAddr>) returns (err: Option<Error>)
    modifies w
    ensures w.buf == old(w.buf) + (Count16(|addrs|) + EncAll(EncAddr, addrs).out)
    ensures err == EncAll(EncAddr, addrs).err
  {
    w.Write(Count16(|addrs|));
    err := WriteAddrs(w, addrs);
  }

  /** The ShortChannelID case: each 24-bit field is checked, then written as
      the low three bytes of its 4-byte big-endian form. */
  method WriteShortChannelID(c: Collaborators, w: Writer, height: U32, txIndex: U32, txPosition: U16) returns (err: Option<Error>)
    modifies w
    ensures w.buf == old(w.buf) + Enc(c, ShortChannelID(height, txIndex, txPosition)).out
    ensures err == Enc(c, ShortChannelID(height, txIndex, txPosition)).err
  {
    Pow256Values();
    if height > 0xff_ffff {
      return Some(BlockHeightTooLarge);
    }
    var h := BigEndian(4, height);
    BigEndianLeadingZero(3, height);
    w.Write(h[1..]);
    if txIndex > 0xff_ffff {
      return Some(TxIndexTooLarge);
    }
    var t := BigEndian(4, txIndex);
    BigEndianLeadingZero(3, txIndex);
    w.Write(t[1..]);
    w.Write(BigEndian(2, txPosition));
    return None;
  }

  /** writeElement(w, e). */
  method WriteElement(c: Collaborators, w: Writer, e: Element) returns (err: Option<Error>)
    modifies w
    ensures w.buf == old(w.buf) + Enc(c, e).out
    ensures err == Enc(c, e).err
  {
    if IsInteger(e) {
      WriteInteger(c, w, e);
      err := None;
    } else if IsBlob(e) {
      WriteBlob(c, w, e);
      err := None;
    } else if e.SigList? || e.Sig? || e.PkScript? || e.OutPoint? {
      err := WriteChecked(c, w, e);
    } else if e.ShortChannelID? {
      err := WriteShortChannelID(c, w, e.blockHeight, e.txIndex, e.txPosition);
    } else if e.Address? {
      err := WriteAddr(w, e.addr);
    } else {
      err := WriteRest(c, w, e);
    }
  }

  /** The integer cases: each value big-endian at its own width. */
  predicate IsInteger(e: Element) {
    e.Uint8? || e.Uint16? || e.ErrorCode? || e.Amount? || e.Uint32? || e.Uint64? || e.FailCode?
  }

  /** The length-prefixed payloads and the DeliveryAddress. */
  predicate IsBlob(e: Element) {
    e.PingPayload? || e.PongPayload? || e.ErrorData? || e.OpaqueReason? || e.DeliveryAddress?
  }

  method WriteInteger(c: Collaborators, w: Writer, e: Element)
    requires IsInteger(e)
    modifies w
    ensures w.buf == old(w.buf) + Enc(c, e).out
    ensures Enc(c, e).err == None
  {
    match e
    case Uint8(v) => w.Write([v]);
    case Uint16(v) => w.Write(BigEndian(2, v));
    case ErrorCode(v) => w.Write(BigEndian(2, v));
    case Amount(v) => w.Write(BigEndian(8, Uint64Of(v)));
    case Uint32(v) => w.Write(BigEndian(4, v));
    case Uint64(v) => w.Write(BigEndian(8, v));
    case FailCode(v) => w.Write(BigEndian(2, v));
  }

  /** A 2-byte length, then the bytes. */
  method WriteBlob(c: Collaborators, w: Writer, e: Element)
    requires IsBlob(e)
    modifies w
    ensures w.buf == old(w.buf) + Enc(c, e).out
    ensures Enc(c, e).err == None
  {
    var p := match e
      case PingPayload(p) => p
      case PongPayload(p) => p
      case ErrorData(p) => p
      case OpaqueReason(p) => p
      case DeliveryAddress(d) => d;
    w.Write(Count16(|p|));
    w.Write(p);
  }

  /** The cases that can fail: signatures that do not normalise, a script
      longer than 34 bytes, an outpoint index above 65535. */
  method WriteChecked(c: Collaborators, w: Writer, e: Element) returns (err: Option<Error>)
    requires e.SigList? || e.Sig? || e.PkScript? || e.OutPoint?
    modifies w
    ensures w.buf == old(w.buf) + Enc(c, e).out
    ensures err == Enc(c, e).err
  {
    err := None;
    match e
    case SigList(sigs) =>
      w.Write(Count16(|sigs|));
      err := WriteSigs(c, w, sigs);
    case Sig(sig) =>
      if c.sigToWire(sig).None? {
        err := Some(SigToWireFailed);
      } else {
        w.Write(c.sigToWire(sig).value);
      }
    case PkScript(s) =>
      if |s| > MaxPkScriptLength {
        err := Some(PkScriptTooLong);
      } else {
        // wire.WriteVarBytes: the varint length, then the bytes
        w.Write(ShortVarInt(|s|));
        w.Write(s);
      }
    case OutPoint(hash, index) =>
      w.Write(hash);
      if index > 0xffff {
        err := Some(OutPointIndexTooLarge);
      } else {
        w.Write(BigEndian(2, index));
      }
  }

  /** The remaining cases: byte strings copied as they are, the address list
      and the three colour bytes. */
  method WriteRest(c: Collaborators, w: Writer, e: Element) returns (err: Option<Error>)
    requires !IsInteger(e) && !IsBlob(e)
    requires !(e.SigList? || e.Sig? || e.PkScript? || e.OutPoint? || e.ShortChannelID? || e.Address?)
    modifies w
    ensures w.buf == old(w.buf) + Enc(c, e).out
    ensures err == Enc(c, e).err
  {
    err := None;
    match e
    case PubKey(k) => w.Write(c.serializeKey(k));
    case RawBytes(b) => w.Write(b);
    case Features(f) => w.Write(c.encodeFeatures(f));
    case ChannelID(id) => w.Write(id);
    case AddressList(addrs) => err := WriteAddressList(w, addrs);
    case RGB(red, green, blue) =>
      w.Write([red]);
      w.Write([green]);
      w.Write([blue]);
    case Alias(a) => w.Write(a);
  }

  /** writeElements(w, es...): each value in order, stopping at the first error. */
  method WriteElements(c: Collaborators, w: Writer, es: seq<Element>) returns (err: Option<Error>)
    modifies w
    ensures w.buf == old(w.buf) + EncElements(c, es).out
    ensures err == EncElements(c, es).err
  {
    var f := ElementEncoder(c);
    ghost var base := w.buf;
    var i := 0;
    while i < |es|
      invariant 0 <= i <= |es|
      invariant EncAll(f, es[..i]).err == None
      invariant w.buf == base + EncAll(f, es[..i]).out
    {
      ghost var before := w.buf;
      err := WriteElement(c, w, es[i]);
      EncAllTurn(f, es, i, base, before, Enc(c, es[i]), w.buf);
      if err.Some? {
        EncAllStopsAt(f, es, i);
        return;
      }
      i := i + 1;
    }
    assert es[..i] == es;
    return None;
  }

  // =====================================================================
  // Reading: the fields

  /** The **btcec.Signature case on its own: 64 bytes, then deserializeSigFromWire. */
  method ReadSig(c: Collaborators, r: Reader) returns (res: Result<Signature>)
    requires r.Valid()
    modifies r
    ensures r.Valid()
    ensures res == DecSig(c, old(r.Unread())).res
    ensures r.pos == old(r.pos) + DecSig(c, old(r.Unread())).used
    ensures r.Unread() == old(r.Unread())[DecSig(c, old(r.Unread())).used..]
  {
    var b, _ := r.ReadFull(64);
    if b.Err? {
      return Err(b.error);
    }
    var sig := c.sigFromWire(b.value);
    if sig.None? {
      return Err(SigFromWireFailed);
    }
    return Ok(sig.value);
  }

  /** A counted list read item by item: the items read so far are the
      batch decoding of the first i kinds, and the reader is positioned just
      after them. */
  ghost predicate ListProgress<T>(r: Reader, f: (nat, seq<Byte>) -> Decoded<T>, ks: seq<nat>, i: nat,
                                  body: seq<Byte>, start: nat, items: seq<T>)
    reads r
  {
    && Bounded(f) && r.Valid() && i <= |ks|
    && start <= r.pos <= start + |body|
    && r.Unread() == body[r.pos - start..]
    && DecEach(f, ks[..i], body) == Batch(items, None, r.pos - start)
  }

  /** The *[]*btcec.Signature case: a 2-byte count, then that many signatures. */
  method ReadSigs(c: Collaborators, r: Reader) returns (res: Result<seq<Signature>>)
    requires r.Valid()
    modifies r
    ensures r.Valid()
    ensures res == DecList(SigDecoder(c), old(r.Unread())).res
    ensures r.pos == old(r.pos) + DecList(SigDecoder(c), old(r.Unread())).used
  {
    ghost var s := old(r.Unread());
    var n := r.ReadUint(2);
    if n.Err? {
      return Err(n.error);
    }
    ghost var body := s[2..];
    ghost var start := r.pos;
    SigDecoderBounded(c);
    var ks := Indices(n.value);
    var sigs: seq<Signature> := [];
    var i := 0;
    while i < n.value
      invariant ListProgress(r, SigDecoder(c), ks, i, body, start, sigs)
    {
      var sig := ReadSigTurn(c, r, ks, i, body, start, sigs);
      if sig.Err? {
        return Err(sig.error);
      }
      sigs := sigs + [sig.value];
      i := i + 1;
    }
    assert ks[..i] == ks;
    return Ok(sigs);
  }

  /** One turn of the signature loop. */
  method ReadSigTurn(c: Collaborators, r: Reader, ks: seq<nat>, i: nat,
                     ghost body: seq<Byte>, ghost start: nat, ghost sigs: seq<Signature>)
    returns (sig: Result<Signature>)
    requires i < |ks| && ListProgress(r, SigDecoder(c), ks, i, body, start, sigs)
    modifies r
    ensures sig.Ok? ==> ListProgress(r, SigDecoder(c), ks, i + 1, body, start, sigs + [sig.value])
    ensures sig.Err? ==> r.Valid() && start <= r.pos &&
                         DecEach(SigDecoder(c), ks, body) == Batch(sigs, Some(sig.error), r.pos - start)
  {
    ghost var d := SigDecoder(c)(ks[i], r.Unread());
    assert d == DecSig(c, r.Unread());
    DecEachStep(SigDecoder(c), ks, i, body);
    sig := ReadSig(c, r);
  }

  /** One entry of the *[]net.Addr case: descriptor byte, IP by descriptor, port. */
  method ReadAddr(r: Reader) returns (res: Result<NetAddr>)
    requires r.Valid()
    modifies r
    ensures r.Valid()
    ensures res == DecAddr(old(r.Unread())).res
    ensures r.pos == old(r.pos) + DecAddr(old(r.Unread())).used
    ensures r.Unread() == old(r.Unread())[DecAddr(old(r.Unread())).used..]
  {
    Pow256Values();
    var t, _ := r.ReadFull(1);
    if t.Err? {
      return Err(t.error);
    }
    var ip: seq<Byte> := [];
    if t.value[0] == Tcp4Addr {
      var b, _ := r.ReadFull(4);
      if b.Err? {
        return Err(b.error);
      }
      ip := b.value;
    } else if t.value[0] == Tcp6Addr {
      var b, _ := r.ReadFull(16);
      if b.Err? {
        return Err(b.error);
      }
      ip := b.value;
    }
    var port := r.ReadUint(2);
    if port.Err? {
      return Err(port.error);
    }
    return Ok(TcpAddr(ip, port.value));
  }

  /** The *[]net.Addr case: a 2-byte count, then that many entries. */
  method ReadAddrs(r: Reader) returns (res: Result<seq<NetAddr>>)
    requires r.Valid()
    modifies r
    ensures r.Valid()
    ensures res == DecList(AddrDecoder(), old(r.Unread())).res
    ensures r.pos == old(r.pos) + DecList(AddrDecoder(), old(r.Unread())).used
  {
    ghost var s := old(r.Unread());
    var n := r.ReadUint(2);
    if n.Err? {
      return Err(n.error);
    }
    ghost var body := s[2..];
    ghost var start := r.pos;
    AddrDecoderBounded();
    var ks := Indices(n.value);
    var addrs: seq<NetAddr> := [];
    var i := 0;
    while i < n.value
      invariant ListProgress(r, AddrDecoder(), ks, i, body, start, addrs)
    {
      var a := ReadAddrTurn(r, ks, i, body, start, addrs);
      if a.Err? {
        return Err(a.error);
      }
      addrs := addrs + [a.value];
      i := i + 1;
    }
    assert ks[..i] == ks;
    return Ok(addrs);
  }

  /** One turn of the address loop. */
  method ReadAddrTurn(r: Reader, ks: seq<nat>, i: nat,
                      ghost body: seq<Byte>, ghost start: nat, ghost addrs: seq<NetAddr>)
    returns (a: Result<NetAddr>)
    requires i < |ks| && ListProgress(r, AddrDecoder(), ks, i, body, start, addrs)
    modifies r
    ensures a.Ok? ==> ListProgress(r, AddrDecoder(), ks, i + 1, body, start, addrs + [a.value])
    ensures a.Err? ==> r.Valid() && start <= r.pos &&
                       DecEach(AddrDecoder(), ks, body) == Batch(addrs, Some(a.error), r.pos - start)
  {
    ghost var d := AddrDecoder()(ks[i], r.Unread());
    assert d == DecAddr(r.Unread());
    DecEachStep(AddrDecoder(), ks, i, body);
    a := ReadAddr(r);
  }

  /** wire.ReadVarInt. */
  method ReadVarInt(r: Reader) returns (res: Result<nat>)
    requires r.Valid()
    modifies r
    ensures r.Valid()
    ensures res == DecVarInt(old(r.Unread())).res
    ensures r.pos == old(r.pos) + DecVarInt(old(r.Unread())).used
  {
    var t, _ := r.ReadFull(1);
    if t.Err? {
      return Err(t.error);
    }
    var disc := t.value[0];
    if disc < 0xfd {
      return Ok(disc);
    }
    var width := if disc == 0xfd then 2 else if disc == 0xfe then 4 else 8;
    var min := if disc == 0xfd then 0xfd else if disc == 0xfe then 0x1_0000 else 0x1_0000_0000;
    var b, _ := r.ReadFull(width);
    if b.Err? {
      return Err(b.error);
    }
    if FromLittleEndian(b.value) < min {
      return Err(NonCanonicalVarInt);
    }
    return Ok(FromLittleEndian(b.value));
  }

  /** wire.ReadVarBytes(r, 0, 34, "pkscript"). */
  method ReadPkScript(r: Reader) returns (res: Result<seq<Byte>>)
    requires r.Valid()
    modifies r
    ensures r.Valid()
    ensures res == DecPkScript(old(r.Unread())).res
    ensures r.pos == old(r.pos) + DecPkScript(old(r.Unread())).used
  {
    var n := ReadVarInt(r);
    if n.Err? {
      return Err(n.error);
    }
    if n.value > MaxPkScriptLength {
      return Err(VarBytesTooLong);
    }
    var b, _ := r.ReadFull(n.value);
    return b;
  }

  /** Three bytes read into the low bytes of a zeroed [4]byte, then Uint32. */
  method ReadUint24(r: Reader) returns (res: Result<nat>)
    requires r.Valid()
    modifies r
    ensures r.Valid()
    ensures res == DecUint24(old(r.Unread())).res
    ensures r.pos == old(r.pos) + DecUint24(old(r.Unread())).used
  {
    var b, _ := r.ReadFull(3);
    if b.Err? {
      return Err(b.error);
    }
    return Ok(FromBigEndian([0] + b.value));
  }

  // =====================================================================
  // Reading: destinations

  /** The variable a pointer handed to readElement points to. The type of
      what it holds is the type readElement switches on. */
  class Slot {
    var value: Element

    constructor (value: Element)
      ensures this.value == value
    {
      this.value := value;
    }
  }

  /** The integer cases: a *uint8 through r.Read, the others through io.ReadFull. */
  method ReadInteger(c: Collaborators, r: Reader, dst: Slot) returns (err: Option<Error>)
    requires r.Valid()
    requires IntegerKind(KindOf(dst.value))
    modifies r, dst
    ensures r.Valid()
    ensures var o := Stored(DecInteger(KindOf(old(dst.value)), old(r.Unread())), old(dst.value));
            err == o.err && r.pos == old(r.pos) + o.used && dst.value == o.after
  {
    if KindOf(dst.value).Uint8K? {
      var b := r.ReadByte();
      if b.Err? {
        return Some(b.error);
      }
      dst.value := Uint8(b.value);
      return None;
    }
    err := ReadWideInteger(r, dst);
  }

  /** The 2-, 4- and 8-byte big-endian integers; an Amount is the int64 of the uint64. */
  method ReadWideInteger(r: Reader, dst: Slot) returns (err: Option<Error>)
    requires r.Valid()
    requires IntegerKind(KindOf(dst.value)) && !KindOf(dst.value).Uint8K?
    modifies r, dst
    ensures r.Valid()
    ensures var o := Stored(DecInteger(KindOf(old(dst.value)), old(r.Unread())), old(dst.value));
            err == o.err && r.pos == old(r.pos) + o.used && dst.value == o.after
  {
    Pow256Values();
    var k := KindOf(dst.value);
    var width := if k.Uint32K? then 4 else if k.Uint64K? || k.AmountK? then 8 else 2;
    var v := r.ReadUint(width);
    if v.Err? {
      return Some(v.error);
    }
    dst.value := match k
      case Uint16K => Uint16(v.value)
      case ErrorCodeK => ErrorCode(v.value)
      case FailCodeK => FailCode(v.value)
      case Uint32K => Uint32(v.value)
      case Uint64K => Uint64(v.value)
      case AmountK => Amount(Int64Of(v.value));
    return None;
  }

  /** The payload cases: a 2-byte length, a fresh buffer of that length
      stored at once, then io.ReadFull into it. */
  method ReadPayload(c: Collaborators, r: Reader, dst: Slot) returns (err: Option<Error>)
    requires r.Valid()
    requires PayloadKind(KindOf(dst.value))
    modifies r, dst
    ensures r.Valid()
    ensures var o := Stored(DecPayload(KindOf(old(dst.value)), old(r.Unread())), LeftAfterError(old(dst.value), old(r.Unread())));
            err == o.err && r.pos == old(r.pos) + o.used && dst.value == o.after
  {
    ghost var s := r.Unread();
    var k := KindOf(dst.value);
    var n := r.ReadUint(2);
    if n.Err? {
      return Some(n.error);
    }
    var buf := Zeros(n.value);
    dst.value := Payload(k, buf);
    var b, got := r.ReadFull(n.value);
    dst.value := Payload(k, Overlay(got, buf));
    assert s[..2] == FullRead(s, 2).res.value;
    if b.Err? {
      return Some(b.error);
    }
    return None;
  }

  /** The **btcec.PublicKey case: 33 bytes, then btcec.ParsePubKey. */
  method ReadPubKey(c: Collaborators, r: Reader, dst: Slot) returns (err: Option<Error>)
    requires r.Valid()
    requires dst.value.PubKey?
    modifies r, dst
    ensures r.Valid()
    ensures var o := Stored(DecCrypto(c, KindOf(old(dst.value)), old(r.Unread())), old(dst.value));
            err == o.err && r.pos == old(r.pos) + o.used && dst.value == o.after
  {
    var b, _ := r.ReadFull(33);
    if b.Err? {
      return Some(b.error);
    }
    var key := c.parseKey(b.value);
    if key.None? {
      return Some(InvalidPubKey);
    }
    dst.value := PubKey(key.value);
    return None;
  }

  /** The **FeatureVector case: NewFeatureVectorFromReader reads from r itself. */
  method ReadFeatures(c: Collaborators, r: Reader, dst: Slot) returns (err: Option<Error>)
    requires r.Valid()
    requires dst.value.Features?
    modifies r, dst
    ensures r.Valid()
    ensures var o := Stored(DecCrypto(c, KindOf(old(dst.value)), old(r.Unread())), old(dst.value));
            err == o.err && r.pos == old(r.pos) + o.used && dst.value == o.after
  {
    var (f, n) := c.decodeFeatures(r.Unread());
    r.Advance(n);
    if f.None? {
      return Some(InvalidFeatureVector);
    }
    dst.value := Features(f.value);
    return None;
  }

  /** The *[]*btcec.Signature case. */
  method ReadSigList(c: Collaborators, r: Reader, dst: Slot) returns (err: Option<Error>)
    requires r.Valid()
    requires dst.value.SigList?
    modifies r, dst
    ensures r.Valid()
    ensures var o := Stored(DecCrypto(c, KindOf(old(dst.value)), old(r.Unread())), old(dst.value));
            err == o.err && r.pos == old(r.pos) + o.used && dst.value == o.after
  {
    var sigs := ReadSigs(c, r);
    if sigs.Err? {
      return Some(sigs.error);
    }
    dst.value := SigList(sigs.value);
    return None;
  }

  /** The **btcec.Signature case. */
  method ReadSignature(c: Collaborators, r: Reader, dst: Slot) returns (err: Option<Error>)
    requires r.Valid()
    requires dst.value.Sig?
    modifies r, dst
    ensures r.Valid()
    ensures var o := Stored(DecCrypto(c, KindOf(old(dst.value)), old(r.Unread())), old(dst.value));
            err == o.err && r.pos == old(r.pos) + o.used && dst.value == o.after
  {
    var sig := ReadSig(c, r);
    if sig.Err? {
      return Some(sig.error);
    }
    dst.value := Sig(sig.value);
    return None;
  }

  /** The RGB case: readElements over the three *uint8 components, each
      one byte stored as soon as it is read. */
  method ReadRGB(c: Collaborators, r: Reader, dst: Slot) returns (err: Option<Error>)
    requires r.Valid()
    requires dst.value.RGB?
    modifies r, dst
    ensures r.Valid()
    ensures err == ReadOutcome(c, old(dst.value), old(r.Unread())).err
    ensures r.pos == old(r.pos) + ReadOutcome(c, old(dst.value), old(r.Unread())).used
    ensures dst.value == ReadOutcome(c, old(dst.value), old(r.Unread())).after
  {
    RGBOutcome(c, dst.value, r.Unread());
    var red := r.ReadByte();
    if red.Err? {
      return Some(red.error);
    }
    dst.value := dst.value.(red := red.value);
    var green := r.ReadByte();
    if green.Err? {
      return Some(green.error);
    }
    dst.value := dst.value.(green := green.value);
    var blue := r.ReadByte();
    if blue.Err? {
      return Some(blue.error);
    }
    dst.value := dst.value.(blue := blue.value);
    return None;
  }

  /** The []byte case: io.ReadFull straight into the destination buffer. */
  method ReadRawBytes(c: Collaborators, r: Reader, dst: Slot) returns (err: Option<Error>)
    requires r.Valid()
    requires dst.value.RawBytes?
    modifies r, dst
    ensures r.Valid()
    ensures var o := Stored(DecRawBytes(|old(dst.value).raw|, old(r.Unread())), LeftAfterError(old(dst.value), old(r.Unread())));
            err == o.err && r.pos == old(r.pos) + o.used && dst.value == o.after
  {
    var buf := dst.value.raw;
    var b, got := r.ReadFull(|buf|);
    dst.value := RawBytes(Overlay(got, buf));
    return if b.Err? then Some(b.error) else None;
  }

  /** The *ChannelID case: io.ReadFull straight into the 32-byte array. */
  method ReadChannelID(c: Collaborators, r: Reader, dst: Slot) returns (err: Option<Error>)
    requires r.Valid()
    requires dst.value.ChannelID?
    modifies r, dst
    ensures r.Valid()
    ensures var o := Stored(DecBytes32(ChannelIDK, old(r.Unread())), LeftAfterError(old(dst.value), old(r.Unread())));
            err == o.err && r.pos == old(r.pos) + o.used && dst.value == o.after
  {
    var buf := dst.value.channelID;
    var b, got := r.ReadFull(32);
    dst.value := ChannelID(Overlay(got, buf));
    return if b.Err? then Some(b.error) else None;
  }

  /** The *Alias case: 32 bytes into a local array, stored on success. */
  method ReadAlias(c: Collaborators, r: Reader, dst: Slot) returns (err: Option<Error>)
    requires r.Valid()
    requires dst.value.Alias?
    modifies r, dst
    ensures r.Valid()
    ensures var o := Stored(DecBytes32(AliasK, old(r.Unread())), old(dst.value));
            err == o.err && r.pos == old(r.pos) + o.used && dst.value == o.after
  {
    var b, _ := r.ReadFull(32);
    if b.Err? {
      return Some(b.error);
    }
    dst.value := Alias(b.value);
    return None;
  }

  /** The *wire.OutPoint case. */
  method ReadOutPoint(c: Collaborators, r: Reader, dst: Slot) returns (err: Option<Error>)
    requires r.Valid()
    requires dst.value.OutPoint?
    modifies r, dst
    ensures r.Valid()
    ensures var o := Stored(DecOutPoint(old(r.Unread())), old(dst.value));
            err == o.err && r.pos == old(r.pos) + o.used && dst.value == o.after
  {
    Pow256Values();
    var h, _ := r.ReadFull(32);
    if h.Err? {
      return Some(h.error);
    }
    var index := r.ReadUint(2);
    if index.Err? {
      return Some(index.error);
    }
    dst.value := OutPoint(h.value, index.value);
    return None;
  }

  /** The *ShortChannelID case. */
  method ReadShortChannelID(c: Collaborators, r: Reader, dst: Slot) returns (err: Option<Error>)
    requires r.Valid()
    requires dst.value.ShortChannelID?
    modifies r, dst
    ensures r.Valid()
    ensures var o := Stored(DecShortChannelID(old(r.Unread())), old(dst.value));
            err == o.err && r.pos == old(r.pos) + o.used && dst.value == o.after
  {
    Pow256Values();
    var height := ReadUint24(r);
    if height.Err? {
      return Some(height.error);
    }
    var txIndex := ReadUint24(r);
    if txIndex.Err? {
      return Some(txIndex.error);
    }
    var txPosition := r.ReadUint(2);
    if txPosition.Err? {
      return Some(txPosition.error);
    }
    dst.value := ShortChannelID(height.value, txIndex.value, txPosition.value);
    return None;
  }

  /** The *PkScript case. */
  method ReadPkScriptInto(c: Collaborators, r: Reader, dst: Slot) returns (err: Option<Error>)
    requires r.Valid()
    requires dst.value.PkScript?
    modifies r, dst
    ensures r.Valid()
    ensures var o := Stored(DecScript(PkScriptK, old(r.Unread())), old(dst.value));
            err == o.err && r.pos == old(r.pos) + o.used && dst.value == o.after
  {
    var script := ReadPkScript(r);
    if script.Err? {
      return Some(script.error);
    }
    dst.value := PkScript(script.value);
    return None;
  }

  /** The *[]net.Addr case. */
  method ReadAddressList(c: Collaborators, r: Reader, dst: Slot) returns (err: Option<Error>)
    requires r.Valid()
    requires dst.value.AddressList?
    modifies r, dst
    ensures r.Valid()
    ensures var o := Stored(DecAddressList(old(r.Unread())), old(dst.value));
            err == o.err && r.pos == old(r.pos) + o.used && dst.value == o.after
  {
    var addrs := ReadAddrs(r);
    if addrs.Err? {
      return Some(addrs.error);
    }
    dst.value := AddressList(addrs.value);
    return None;
  }

  /** The *DeliveryAddress case: a 2-byte length, then that many bytes into a [34]byte array. */
  method ReadDeliveryAddress(c: Collaborators, r: Reader, dst: Slot) returns (err: Option<Error>)
    requires r.Valid()
    requires dst.value.DeliveryAddress?
    modifies r, dst
    ensures r.Valid()
    ensures var o := Stored(DecScript(DeliveryAddressK, old(r.Unread())), old(dst.value));
            err == o.err && r.pos == old(r.pos) + o.used && dst.value == o.after
  {
    var n := r.ReadUint(2);
    if n.Err? {
      return Some(n.error);
    }
    if n.value > DeliveryAddressCapacity {
      // addrBytes[:length] is out of range: a run-time panic
      return Some(SliceOutOfRange);
    }
    var b, _ := r.ReadFull(n.value);
    if b.Err? {
      return Some(b.error);
    }
    dst.value := DeliveryAddress(b.value);
    return None;
  }

  /** readElement(r, dst): the destination's type picks the case. */
  method ReadElement(c: Collaborators, r: Reader, dst: Slot) returns (err: Option<Error>)
    requires r.Valid()
    modifies r, dst
    ensures r.Valid()
    ensures err == ReadOutcome(c, old(dst.value), old(r.Unread())).err
    ensures r.pos == old(r.pos) + ReadOutcome(c, old(dst.value), old(r.Unread())).used
    ensures dst.value == ReadOutcome(c, old(dst.value), old(r.Unread())).after
  {
    if dst.value.RGB? {
      err := ReadRGB(c, r, dst);
      return;
    }
    ghost var before, s := dst.value, r.Unread();
    var k := KindOf(dst.value);
    OutcomeStored(c, before, s);
    if IntegerKind(k) {
      err := ReadInteger(c, r, dst);
    } else if PayloadKind(k) {
      err := ReadPayload(c, r, dst);
    } else if CryptoKind(k) {
      err := ReadCrypto(c, r, dst);
    } else {
      err := ReadOther(c, r, dst);
    }
  }

  /** The cases that hand bytes to a collaborator. */
  method ReadCrypto(c: Collaborators, r: Reader, dst: Slot) returns (err: Option<Error>)
    requires r.Valid()
    requires CryptoKind(KindOf(dst.value))
    modifies r, dst
    ensures r.Valid()
    ensures var o := Stored(DecCrypto(c, KindOf(old(dst.value)), old(r.Unread())), old(dst.value));
            err == o.err && r.pos == old(r.pos) + o.used && dst.value == o.after
  {
    match dst.value
    case PubKey(_) => err := ReadPubKey(c, r, dst);
    case Features(_) => err := ReadFeatures(c, r, dst);
    case SigList(_) => err := ReadSigList(c, r, dst);
    case Sig(_) => err := ReadSignature(c, r, dst);
  }

  /** The remaining cases, each with a decoder of its own. The byte
      strings are read here, the structured values by ReadStructured. */
  method ReadOther(c: Collaborators, r: Reader, dst: Slot) returns (err: Option<Error>)
    requires r.Valid()
    requires !dst.value.RGB?
    requires var k := KindOf(dst.value); !IntegerKind(k) && !PayloadKind(k) && !CryptoKind(k)
    modifies r, dst
    ensures r.Valid()
    ensures var o := Stored(Dec(c, KindOf(old(dst.value)), old(r.Unread())), LeftAfterError(old(dst.value), old(r.Unread())));
            err == o.err && r.pos == old(r.pos) + o.used && dst.value == o.after
  {
    ghost var k := KindOf(dst.value);
    match dst.value
    case RawBytes(_) =>
      assert k.RawBytesK?;
      err := ReadRawBytes(c, r, dst);
    case ChannelID(_) =>
      assert k == ChannelIDK;
      err := ReadChannelID(c, r, dst);
    case Alias(_) =>
      assert k == AliasK;
      err := ReadAlias(c, r, dst);
    case PkScript(_) =>
      assert k == PkScriptK;
      err := ReadPkScriptInto(c, r, dst);
    case DeliveryAddress(_) =>
      assert k == DeliveryAddressK;
      err := ReadDeliveryAddress(c, r, dst);
    case OutPoint(_, _) | ShortChannelID(_, _, _) | Address(_) | AddressList(_) =>
      err := ReadStructured(c, r, dst);
  }

  /** The outpoint, the short channel ID and the addresses. */
  method ReadStructured(c: Collaborators, r: Reader, dst: Slot) returns (err: Option<Error>)
    requires r.Valid()
    requires dst.value.OutPoint? || dst.value.ShortChannelID? || dst.value.Address? || dst.value.AddressList?
    modifies r, dst
    ensures r.Valid()
    ensures var o := Stored(Dec(c, KindOf(old(dst.value)), old(r.Unread())), old(dst.value));
            err == o.err && r.pos == old(r.pos) + o.used && dst.value == o.after
  {
    ghost var k := KindOf(dst.value);
    match dst.value
    case OutPoint(_, _) =>
      assert k == OutPointK;
      err := ReadOutPoint(c, r, dst);
    case ShortChannelID(_, _, _) =>
      assert k == ShortChannelIDK;
      err := ReadShortChannelID(c, r, dst);
    case Address(_) =>
      // a *net.TCPAddr destination has no case of its own
      err := Some(UnknownType("*net.TCPAddr"));
    case AddressList(_) =>
      assert k == AddressListK;
      err := ReadAddressList(c, r, dst);
  }

  /** The values a sequence of destinations hold. */
  function Values(dsts: seq<Slot>): (vs: seq<Element>)
    reads set d | d in dsts
    ensures |vs| == |dsts| && forall i :: 0 <= i < |dsts| ==> vs[i] == dsts[i].value
  {
    if dsts == [] then [] else Values(dsts[..|dsts| - 1]) + [dsts[|dsts| - 1].value]
  }

  lemma ValuesAre(dsts: seq<Slot>, vals: seq<Element>)
    requires |dsts| == |vals| && forall j :: 0 <= j < |dsts| ==> dsts[j].value == vals[j]
    ensures Values(dsts) == vals
  {
  }

  /** The state of readElements after i turns: the reader has moved past
      what the turns took from s, and the destinations hold `vals`. */
  ghost predicate Reading(c: Collaborators, r: Reader, dsts: seq<Slot>, befores: seq<Element>,
                          s: seq<Byte>, start: nat, i: nat, vals: seq<Element>)
    reads r, set d | d in dsts
  {
    && r.Valid() && start <= r.pos
    && s == r.data[start..]
    && |dsts| == |befores|
    && Progress(c, befores, s, i, r.pos - start, vals)
    && forall j :: 0 <= j < |dsts| ==> dsts[j].value == vals[j]
  }

  /** readElements(r, dsts...): readElement on each destination in order,
      stopping at the first error. The destinations are distinct variables. */
  method ReadElements(c: Collaborators, r: Reader, dsts: seq<Slot>) returns (err: Option<Error>)
    requires r.Valid()
    requires forall i, j :: 0 <= i < j < |dsts| ==> dsts[i] != dsts[j]
    modifies r, set d | d in dsts
    ensures r.Valid()
    ensures err == ReadAll(c, old(Values(dsts)), old(r.Unread())).err
    ensures r.pos == old(r.pos) + ReadAll(c, old(Values(dsts)), old(r.Unread())).used
    ensures Values(dsts) == ReadAll(c, old(Values(dsts)), old(r.Unread())).afters
  {
    ghost var befores := Values(dsts);
    ghost var s := r.Unread();
    ghost var start := r.pos;
    ghost var vals := befores;
    ProgressStart(c, befores, s);
    var i := 0;
    while i < |dsts|
      invariant i <= |dsts|
      invariant Reading(c, r, dsts, befores, s, start, i, vals)
    {
      err, vals := ReadTurn(c, r, dsts, i, befores, s, start, vals);
      if err.Some? {
        return;
      }
      i := i + 1;
    }
    ProgressDone(c, befores, s, r.pos - start, vals);
    ValuesAre(dsts, vals);
    return None;
  }

  /** One turn of readElements' loop: readElement on destination i, where
      the turns before it stopped. */
  method ReadTurn(c: Collaborators, r: Reader, dsts: seq<Slot>, i: nat,
                  ghost befores: seq<Element>, ghost s: seq<Byte>, ghost start: nat, ghost vals: seq<Element>)
    returns (err: Option<Error>, ghost vals': seq<Element>)
    requires i < |dsts|
    requires forall a, b :: 0 <= a < b < |dsts| ==> dsts[a] != dsts[b]
    requires Reading(c, r, dsts, befores, s, start, i, vals)
    modifies r, dsts[i]
    ensures err.None? ==> Reading(c, r, dsts, befores, s, start, i + 1, vals')
    ensures err.Some? ==> r.Valid() && start <= r.pos && Values(dsts) == vals'
    ensures err.Some? ==> ReadAll(c, befores, s) == Outcomes(err, r.pos - start, vals')
  {
    ghost var used := r.pos - start;
    ghost var before, rest := dsts[i].value, r.Unread();
    assert before == befores[i] by {
      assert vals[i..][0] == befores[i..][0];
    }
    assert rest == s[used..];
    ghost var o := ReadOutcome(c, before, rest);
    ProgressStep(c, befores, s, i, used, vals);
    err := ReadElement(c, r, dsts[i]);
    vals' := vals[i := o.after];
    forall j | 0 <= j < |dsts|
      ensures dsts[j].value == vals'[j]
    {
      if j != i {
        assert dsts[j] != dsts[i];
      }
    }
    if err.Some? {
      ValuesAre(dsts, vals');
    }
  }
}
