/** What writeElement writes for each value: the bytes it hands to the writer
    and the error that stops it, if any. */
module Encode {
  import opened Bytes
  import opened Stream
  import opened Elements

  /** A 2-byte big-endian count or length: Go's uint16(n), which wraps above 65535. */
  function Count16(n: nat): seq<Byte> {
    BigEndian(2, Uint16Of(n))
  }

  /** A length-prefixed blob: the 2-byte length, then the bytes. */
  function LengthPrefixed(p: seq<Byte>): seq<Byte> {
    Count16(|p|) + p
  }

  /** The *btcec.Signature case: the 64-byte compact form from serializeSigToWire. */
  function EncSig(c: Collaborators, sig: Signature): Encoded {
    match c.sigToWire(sig)
    case Some(b) => Written(b)
    case None => Encoded([], Some(SigToWireFailed))
  }

  function SigEncoder(c: Collaborators): Signature -> Encoded {
    sig => EncSig(c, sig)
  }

  /** The 16 bytes `copy(ip[:], e.IP.To16())` leaves in a zeroed [16]byte. */
  function IPv6Bytes(ip: seq<Byte>): (b: seq<Byte>)
    ensures |b| == 16
  {
    match To16(ip)
    case Some(b) => b
    case None => Zeros(16)
  }

  /** The *net.TCPAddr case: a tag, the 4- or 16-byte IP, the port as uint16. */
  function EncAddr(a: NetAddr): Encoded {
    match a
    case TcpAddr(ip, port) =>
      var body := if To4(ip).Some? then [Tcp4Addr] + To4(ip).value else [Tcp6Addr] + IPv6Bytes(ip);
      Written(body + BigEndian(2, Uint16Of(port)))
    case OtherAddr(name) => Encoded([], Some(UnknownType(name)))
  }

  /** The varint prefix wire.WriteVarBytes writes for a length below 0xfd. */
  function ShortVarInt(n: nat): seq<Byte>
    requires n < 0xfd
  {
    [n]
  }

  /** writeElement(w, e). */
  function Enc(c: Collaborators, e: Element): Encoded {
    match e
    case Uint8(v) => Written([v])
    case Uint16(v) => Written(BigEndian(2, v))
    case ErrorCode(v) => Written(BigEndian(2, v))
    case Amount(v) => Written(BigEndian(8, Uint64Of(v)))
    case Uint32(v) => Written(BigEndian(4, v))
    case Uint64(v) => Written(BigEndian(8, v))
    case PubKey(k) => Written(c.serializeKey(k))
    case SigList(sigs) => Then(Written(Count16(|sigs|)), EncAll(SigEncoder(c), sigs))
    case Sig(sig) => EncSig(c, sig)
    case PingPayload(p) => Written(LengthPrefixed(p))
    case PongPayload(p) => Written(LengthPrefixed(p))
    case ErrorData(p) => Written(LengthPrefixed(p))
    case OpaqueReason(p) => Written(LengthPrefixed(p))
    case RawBytes(b) => Written(b)
    case PkScript(s) =>
      if |s| > MaxPkScriptLength then Encoded([], Some(PkScriptTooLong))
      else Written(ShortVarInt(|s|) + s)
    case Features(f) => Written(c.encodeFeatures(f))
    case OutPoint(hash, index) =>
      if index > 0xffff then Encoded(hash, Some(OutPointIndexTooLarge))
      else Written(hash + BigEndian(2, index))
    case ChannelID(id) => Written(id)
    case FailCode(v) => Written(BigEndian(2, v))
    case ShortChannelID(height, txIndex, txPosition) =>
      if height > 0xff_ffff then Encoded([], Some(BlockHeightTooLarge))
      else if txIndex > 0xff_ffff then Encoded(BigEndian(3, height), Some(TxIndexTooLarge))
      else Written(BigEndian(3, height) + BigEndian(3, txIndex) + BigEndian(2, txPosition))
    case Address(a) => EncAddr(a)
    case AddressList(addrs) => Then(Written(Count16(|addrs|)), EncAll(EncAddr, addrs))
    case RGB(r, g, b) => Written([r, g, b])
    case Alias(a) => Written(a)
    case DeliveryAddress(d) => Written(LengthPrefixed(d))
  }

  function ElementEncoder(c: Collaborators): Element -> Encoded {
    e => Enc(c, e)
  }

  /** writeElements(w, es...). */
  function EncElements(c: Collaborators, es: seq<Element>): Encoded {
    EncAll(ElementEncoder(c), es)
  }

  // ---------------------------------------------------------------------
  // Sizes

  /** The size of one address on the wire. */
  function AddrSize(a: NetAddr): nat {
    match a
    case TcpAddr(ip, _) => if To4(ip).Some? then 7 else 19
    case OtherAddr(_) => 0
  }

  function AddrsSize(addrs: seq<NetAddr>): nat {
    if addrs == [] then 0 else AddrsSize(addrs[..|addrs| - 1]) + AddrSize(addrs[|addrs| - 1])
  }

  /** The wire layout table: how many bytes a value occupies. */
  function WireSize(c: Collaborators, e: Element): nat {
    match e
    case Uint8(_) => 1
    case Uint16(_) => 2
    case ErrorCode(_) => 2
    case Amount(_) => 8
    case Uint32(_) => 4
    case Uint64(_) => 8
    case PubKey(_) => 33
    case SigList(sigs) => 2 + 64 * |sigs|
    case Sig(_) => 64
    case PingPayload(p) => 2 + |p|
    case PongPayload(p) => 2 + |p|
    case ErrorData(p) => 2 + |p|
    case OpaqueReason(p) => 2 + |p|
    case RawBytes(b) => |b|
    case PkScript(s) => 1 + |s|
    case Features(f) => |c.encodeFeatures(f)|
    case OutPoint(_, _) => 34
    case ChannelID(_) => 32
    case FailCode(_) => 2
    case ShortChannelID(_, _, _) => 8
    case Address(a) => AddrSize(a)
    case AddressList(addrs) => 2 + AddrsSize(addrs)
    case RGB(_, _, _) => 3
    case Alias(_) => 32
    case DeliveryAddress(d) => 2 + |d|
  }

  /** An IPv4 address is written as 7 bytes (tag 1, 4 bytes, port), any other
      TCP address as 19 (tag 2, 16 bytes, port); the port is its low 16 bits. */
  lemma AddrLayout(ip: seq<Byte>, port: int)
    ensures To4(ip).Some? ==>
              EncAddr(TcpAddr(ip, port)).out == [Tcp4Addr] + To4(ip).value + BigEndian(2, port % 0x1_0000)
    ensures To4(ip).None? ==>
              EncAddr(TcpAddr(ip, port)).out == [Tcp6Addr] + IPv6Bytes(ip) + BigEndian(2, port % 0x1_0000)
    ensures EncAddr(TcpAddr(ip, port)).err == None
    ensures |EncAddr(TcpAddr(ip, port)).out| == AddrSize(TcpAddr(ip, port))
  {
  }

  /** A signature list whose signatures all normalise is 64 bytes per signature. */
  lemma {:induction false} SigsLength(c: Collaborators, sigs: seq<Signature>)
    requires EncAll(SigEncoder(c), sigs).err == None
    ensures |EncAll(SigEncoder(c), sigs).out| == 64 * |sigs|
    decreases |sigs|
  {
    if sigs != [] {
      SigsLength(c, sigs[..|sigs| - 1]);
    }
  }

  /** An address list whose addresses are all TCP is the sum of their sizes. */
  lemma {:induction false} AddrsLength(addrs: seq<NetAddr>)
    requires EncAll(EncAddr, addrs).err == None
    ensures |EncAll(EncAddr, addrs).out| == AddrsSize(addrs)
    decreases |addrs|
  {
    if addrs != [] {
      AddrsLength(addrs[..|addrs| - 1]);
      AddrLayout(addrs[|addrs| - 1].ip, addrs[|addrs| - 1].port);
    }
  }

  /** Every successful encoding has exactly the size of the wire layout table. */
  lemma EncodedLength(c: Collaborators, e: Element)
    requires Enc(c, e).err == None
    ensures |Enc(c, e).out| == WireSize(c, e)
  {
    match e
    case SigList(sigs) => SigsLength(c, sigs);
    case AddressList(addrs) => AddrsLength(addrs);
    case Address(a) => AddrLayout(a.ip, a.port);
    case _ =>
  }

  // ---------------------------------------------------------------------
  // Errors, and what was written before them

  /** A script longer than 34 bytes is rejected before anything is written. */
  lemma PkScriptRejected(c: Collaborators, s: seq<Byte>)
    ensures Enc(c, PkScript(s)).err.Some? <==> |s| > 34
    ensures |s| > 34 ==> Enc(c, PkScript(s)) == Encoded([], Some(PkScriptTooLong))
  {
  }

  /** An outpoint index above 65535 is rejected after the 32 hash bytes were written. */
  lemma OutPointIndexRejected(c: Collaborators, hash: Bytes32, index: U32)
    ensures Enc(c, OutPoint(hash, index)).err.Some? <==> index > 65535
    ensures index > 65535 ==> Enc(c, OutPoint(hash, index)) == Encoded(hash, Some(OutPointIndexTooLarge))
  {
  }

  /** A block height of 2^24 or more is rejected with nothing written; a tx
      index of 2^24 or more after the 3 height bytes were written. */
  lemma ShortChannelIDRejected(c: Collaborators, height: U32, txIndex: U32, txPosition: U16)
    ensures Enc(c, ShortChannelID(height, txIndex, txPosition)).err.Some? <==>
              height >= 0x100_0000 || txIndex >= 0x100_0000
    ensures height >= 0x100_0000 ==>
              Enc(c, ShortChannelID(height, txIndex, txPosition)) == Encoded([], Some(BlockHeightTooLarge))
    ensures height < 0x100_0000 <= txIndex ==>
              Enc(c, ShortChannelID(height, txIndex, txPosition)) ==
              Encoded(BigEndian(3, height), Some(TxIndexTooLarge))
  {
  }

  /** Only these values can fail to encode. */
  lemma EncodeFailures(c: Collaborators, e: Element)
    requires Enc(c, e).err.Some?
    ensures e.SigList? || e.Sig? || e.PkScript? || e.OutPoint? || e.ShortChannelID? ||
            e.Address? || e.AddressList?
  {
  }
}
