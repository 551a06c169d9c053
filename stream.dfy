/** The pure view of a byte stream: what a sequence of writes leaves in the
    writer, what a sequence of reads takes from the reader, and the
    "stop at the first error" rule that every loop of the codec follows. */
module Stream {
  import opened Bytes

  /** Every way an encode or decode can fail. */
  datatype Error =
    | EOF                    // io.EOF: no byte was available
    | UnexpectedEOF          // io.ErrUnexpectedEOF: some, but fewer than needed
    | PkScriptTooLong        // encode: script longer than 34 bytes
    | VarBytesTooLong        // wire.ReadVarBytes: announced length above its maximum
    | NonCanonicalVarInt     // wire.ReadVarInt: a length that a shorter prefix could carry
    | OutPointIndexTooLarge  // encode: outpoint index above 65535
    | BlockHeightTooLarge    // encode: block height does not fit 3 bytes
    | TxIndexTooLarge        // encode: tx index does not fit 3 bytes
    | InvalidPubKey          // btcec.ParsePubKey rejected the 33 bytes
    | SigToWireFailed        // serializeSigToWire failed
    | SigFromWireFailed      // deserializeSigFromWire failed
    | InvalidFeatureVector   // NewFeatureVectorFromReader failed
    | SliceOutOfRange        // a Go run-time panic (slice bounds out of range)
    | UnknownType(typeName: string)

  datatype Option<+T> = None | Some(value: T)

  datatype Result<+T> = Ok(value: T) | Err(error: Error)

  /** The bytes a write operation handed to the writer, and the error that
      stopped it, if any. Bytes written before an error stay written. */
  datatype Encoded = Encoded(out: seq<Byte>, err: Option<Error>)

  /** The outcome of a read operation and the number of bytes it consumed,
      which on failure counts the bytes consumed before the failure. */
  datatype Decoded<+T> = Decoded(res: Result<T>, used: nat)

  /** A batch of reads in order: the values read before the first failure,
      that failure, and the bytes consumed. */
  datatype Batch<+T> = Batch(values: seq<T>, err: Option<Error>, used: nat)

  function Written(out: seq<Byte>): Encoded { Encoded(out, None) }

  /** Runs `b` after `a` unless `a` failed. */
  function Then(a: Encoded, b: Encoded): (r: Encoded)
    ensures a.err.Some? ==> r == a
    ensures a.err.None? ==> r.out == a.out + b.out && r.err == b.err
  {
    if a.err.Some? then a else Encoded(a.out + b.out, b.err)
  }

  /** writeElements' loop: encode each item in order, stopping at the first error. */
  function EncAll<T>(f: T -> Encoded, xs: seq<T>): Encoded
    decreases |xs|
  {
    if xs == [] then Written([]) else Then(EncAll(f, xs[..|xs| - 1]), f(xs[|xs| - 1]))
  }

  /** Sequencing is associative: it does not matter how a batch is split. */
  lemma ThenAssoc(a: Encoded, b: Encoded, c: Encoded)
    ensures Then(Then(a, b), c) == Then(a, Then(b, c))
  {
  }

  /** Encoding a concatenation is encoding the two parts one after the other. */
  lemma {:induction false} EncAllAppend<T>(f: T -> Encoded, xs: seq<T>, ys: seq<T>)
    ensures EncAll(f, xs + ys) == Then(EncAll(f, xs), EncAll(f, ys))
    decreases |ys|
  {
    if ys == [] {
      assert xs + ys == xs;
    } else {
      var init := ys[..|ys| - 1];
      var last := ys[|ys| - 1];
      assert (xs + ys)[..|xs + ys| - 1] == xs + init;
      EncAllAppend(f, xs, init);
      ThenAssoc(EncAll(f, xs), EncAll(f, init), f(last));
    }
  }

  /** The first failing item ends the batch: nothing after it is written. */
  lemma EncAllStopsAtFirstError<T>(f: T -> Encoded, xs: seq<T>, x: T, ys: seq<T>)
    requires EncAll(f, xs).err == None
    requires f(x).err.Some?
    ensures EncAll(f, xs + [x] + ys) == Encoded(EncAll(f, xs).out + f(x).out, f(x).err)
  {
    EncAllAppend(f, xs + [x], ys);
    assert (xs + [x])[..|xs|] == xs;
  }

  /** One step of a loop over a batch: item i is encoded after the ones before it. */
  lemma EncAllStep<T>(f: T -> Encoded, xs: seq<T>, i: nat)
    requires i < |xs|
    requires EncAll(f, xs[..i]).err == None
    ensures EncAll(f, xs[..i + 1]) == Encoded(EncAll(f, xs[..i]).out + f(xs[i]).out, f(xs[i]).err)
  {
    assert xs[..i + 1][..i] == xs[..i];
  }

  /** One turn of a writing loop: the bytes written so far, followed by the
      encoding of item i, are the encoding of the first i + 1 items. */
  lemma EncAllTurn<T>(f: T -> Encoded, xs: seq<T>, i: nat, base: seq<Byte>, before: seq<Byte>, e: Encoded, after: seq<Byte>)
    requires i < |xs|
    requires EncAll(f, xs[..i]).err == None
    requires before == base + EncAll(f, xs[..i]).out
    requires e == f(xs[i]) && after == before + e.out
    ensures after == base + EncAll(f, xs[..i + 1]).out
    ensures e.err == EncAll(f, xs[..i + 1]).err
  {
    var prefix, next := EncAll(f, xs[..i]).out, EncAll(f, xs[..i + 1]);
    assert next == Encoded(prefix + e.out, e.err) by {
      EncAllStep(f, xs, i);
    }
    assert base + prefix + e.out == base + (prefix + e.out);
  }

  /** A loop that stops at its first failing item has written all the batch
      will write: nothing after that item is encoded. */
  lemma EncAllStopsAt<T>(f: T -> Encoded, xs: seq<T>, i: nat)
    requires i < |xs|
    requires EncAll(f, xs[..i]).err == None
    requires f(xs[i]).err.Some?
    ensures EncAll(f, xs) == EncAll(f, xs[..i + 1])
  {
    var done, rest := xs[..i + 1], xs[i + 1..];
    assert done + rest == xs;
    assert EncAll(f, done).err.Some? by {
      EncAllStep(f, xs, i);
    }
    calc {
      EncAll(f, xs);
      EncAll(f, done + rest);
      { EncAllAppend(f, done, rest); }
      Then(EncAll(f, done), EncAll(f, rest));
    }
  }

  /** io.ReadFull: n bytes if that many remain; otherwise it consumes what
      remains and fails with EOF (nothing read) or UnexpectedEOF. */
  function FullRead(s: seq<Byte>, n: nat): (d: Decoded<seq<Byte>>)
    ensures d.used <= |s|
    ensures d.res.Ok? <==> n <= |s|
    ensures d.res.Ok? ==> |d.res.value| == n == d.used
  {
    if n <= |s| then Decoded(Ok(s[..n]), n)
    else Decoded(Err(if |s| == 0 then EOF else UnexpectedEOF), |s|)
  }

  /** Reader.Read into a one-byte buffer: one byte, or EOF. */
  function ByteRead(s: seq<Byte>): (d: Decoded<Byte>)
    ensures d.used <= |s|
    ensures d.res.Ok? <==> s != []
  {
    if s == [] then Decoded(Err(EOF), 0) else Decoded(Ok(s[0]), 1)
  }

  /** io.ReadFull of `width` bytes followed by binary.BigEndian.UintNN. */
  function UintRead(s: seq<Byte>, width: nat): (d: Decoded<nat>)
    ensures d.used <= |s|
    ensures d.res.Ok? ==> d.used == width && d.res.value < Pow256(width)
  {
    var b := FullRead(s, width);
    if b.res.Err? then Decoded(Err(b.res.error), b.used)
    else Decoded(Ok(FromBigEndian(b.res.value)), width)
  }

  /** A reader for items of kind K never consumes more than it is given. */
  ghost predicate Bounded<K(!new), T>(f: (K, seq<Byte>) -> Decoded<T>) {
    forall k, s :: f(k, s).used <= |s|
  }

  /** readElements' loop: read one item per kind in order from s, stopping at
      the first error. */
  function DecEach<K(!new), T>(f: (K, seq<Byte>) -> Decoded<T>, ks: seq<K>, s: seq<Byte>): (b: Batch<T>)
    requires Bounded(f)
    ensures b.used <= |s|
    ensures |b.values| <= |ks|
    ensures b.err.None? ==> |b.values| == |ks|
    decreases |ks|
  {
    if ks == [] then Batch([], None, 0)
    else
      var p := DecEach(f, ks[..|ks| - 1], s);
      if p.err.Some? then p
      else
        var d := f(ks[|ks| - 1], s[p.used..]);
        match d.res
        case Ok(v) => Batch(p.values + [v], None, p.used + d.used)
        case Err(e) => Batch(p.values, Some(e), p.used + d.used)
  }

  /** Once a read in the batch has failed, later kinds are never looked at. */
  lemma {:induction false} DecEachStops<K(!new), T>(f: (K, seq<Byte>) -> Decoded<T>, ks: seq<K>, j: nat, s: seq<Byte>)
    requires Bounded(f)
    requires j <= |ks|
    requires DecEach(f, ks[..j], s).err.Some?
    ensures DecEach(f, ks, s) == DecEach(f, ks[..j], s)
    decreases |ks| - j
  {
    if j < |ks| {
      var init := ks[..|ks| - 1];
      assert init[..j] == ks[..j];
      DecEachStops(f, init, j, s);
    } else {
      assert ks[..j] == ks;
    }
  }

  /** One step of a read loop: item i is read where the ones before it
      stopped, and if it fails the whole batch ends there. */
  lemma DecEachStep<K(!new), T>(f: (K, seq<Byte>) -> Decoded<T>, ks: seq<K>, i: nat, s: seq<Byte>)
    requires Bounded(f)
    requires i < |ks|
    requires DecEach(f, ks[..i], s).err == None
    ensures var p := DecEach(f, ks[..i], s);
            var d := f(ks[i], s[p.used..]);
            DecEach(f, ks[..i + 1], s) ==
              (if d.res.Ok? then Batch(p.values + [d.res.value], None, p.used + d.used)
               else Batch(p.values, Some(d.res.error), p.used + d.used))
    ensures var d := f(ks[i], s[DecEach(f, ks[..i], s).used..]);
            d.res.Err? ==> DecEach(f, ks, s) == DecEach(f, ks[..i + 1], s)
  {
    assert ks[..i + 1][..i] == ks[..i];
    var d := f(ks[i], s[DecEach(f, ks[..i], s).used..]);
    if d.res.Err? {
      DecEachStops(f, ks, i + 1, s);
    }
  }

  /** Reading back an EncAll batch item by item: if every item's encoding
      reads back as ys[i] whatever follows it, the batch reads back as ys and
      consumes exactly the batch's bytes. */
  lemma {:induction false} DecEachEncAll<K(!new), A, T>(
    enc: A -> Encoded, dec: (K, seq<Byte>) -> Decoded<T>,
    ks: seq<K>, xs: seq<A>, ys: seq<T>, rest: seq<Byte>)
    requires Bounded(dec)
    requires |ks| == |xs| == |ys|
    requires forall i :: 0 <= i < |xs| ==> enc(xs[i]).err == None
    requires forall i, tail :: 0 <= i < |xs| ==>
               dec(ks[i], enc(xs[i]).out + tail) == Decoded(Ok(ys[i]), |enc(xs[i]).out|)
    ensures EncAll(enc, xs).err == None
    ensures DecEach(dec, ks, EncAll(enc, xs).out + rest) == Batch(ys, None, |EncAll(enc, xs).out|)
  {
    DecEachEncAllUpTo(enc, dec, ks, xs, ys, |xs|, rest);
    assert ks[..|ks|] == ks && xs[..|xs|] == xs && ys[..|ys|] == ys;
  }

  /** The first m items of such a batch read back as the first m values. */
  lemma {:induction false} DecEachEncAllUpTo<K(!new), A, T>(
    enc: A -> Encoded, dec: (K, seq<Byte>) -> Decoded<T>,
    ks: seq<K>, xs: seq<A>, ys: seq<T>, m: nat, rest: seq<Byte>)
    requires Bounded(dec)
    requires |ks| == |xs| == |ys| && m <= |xs|
    requires forall i :: 0 <= i < |xs| ==> enc(xs[i]).err == None
    requires forall i, tail :: 0 <= i < |xs| ==>
               dec(ks[i], enc(xs[i]).out + tail) == Decoded(Ok(ys[i]), |enc(xs[i]).out|)
    ensures EncAll(enc, xs[..m]).err == None
    ensures DecEach(dec, ks[..m], EncAll(enc, xs[..m]).out + rest) == Batch(ys[..m], None, |EncAll(enc, xs[..m]).out|)
    decreases m
  {
    if m == 0 {
      assert ks[..0] == [] && xs[..0] == [] && ys[..0] == [];
    } else {
      var n := m - 1;
      var last := enc(xs[n]).out;
      var tail := last + rest;
      DecEachEncAllUpTo(enc, dec, ks, xs, ys, n, tail);
      var head := EncAll(enc, xs[..n]).out;
      assert EncAll(enc, xs[..m]) == Encoded(head + last, None) by {
        EncAllStep(enc, xs, n);
      }
      var s := head + last + rest;
      assert s == head + tail;
      var p := DecEach(dec, ks[..n], s);
      assert p == Batch(ys[..n], None, |head|);
      assert s[|head|..] == tail;
      assert dec(ks[n], tail) == Decoded(Ok(ys[n]), |last|);
      assert DecEach(dec, ks[..m], s) == Batch(ys[..n] + [ys[n]], None, |head| + |last|) by {
        DecEachStep(dec, ks, n, s);
      }
      PrefixSnoc(ys, n);
    }
  }

  /** A prefix one longer is the shorter prefix and the next item. */
  lemma PrefixSnoc<T>(ys: seq<T>, n: nat)
    requires n < |ys|
    ensures ys[..n + 1] == ys[..n] + [ys[n]]
  {
  }
}
