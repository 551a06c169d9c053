/** What readElement and readElements do to their destinations: the error
    they return, the bytes they take from the reader, and what every
    destination holds afterwards, including after a failure. The methods of
    module Lnwire are proved against these functions; the functions are
    proved to agree with the decoder of module Decode. */
module Effects {
  import opened Bytes
  import opened Stream
  import opened Elements
  import opened Encode
  import opened Decode
  import opened RoundTrip

  /** A buffer filled in place by io.ReadFull: the bytes it copied in, over
      what the buffer held before. */
  function Overlay(got: seq<Byte>, buf: seq<Byte>): (r: seq<Byte>)
    ensures |r| == |buf|
    ensures |got| >= |buf| ==> r == got[..|buf|]
    ensures |got| < |buf| ==> r[..|got|] == got && r[|got|..] == buf[|got|..]
  {
    if |got| >= |buf| then got[..|buf|] else got + buf[|got|..]
  }

  /** The buffer of a payload whose 2-byte length was read from s: a fresh
      zeroed buffer of that length, filled with what followed. */
  function FreshFill(s: seq<Byte>): (b: seq<Byte>)
    requires |s| >= 2
    ensures |b| == FromBigEndian(s[..2])
  {
    Overlay(s[2..], Zeros(FromBigEndian(s[..2])))
  }

  /** What a destination other than an RGB holds after readElement failed
      on input s. Most cases store only once every read succeeded. A payload
      is replaced by a fresh buffer of the announced length as soon as that
      length is read. A []byte or a ChannelID is filled in place. */
  function LeftAfterError(before: Element, s: seq<Byte>): (after: Element)
    ensures KindOf(after) == KindOf(before)
  {
    match before
    case PingPayload(_) => if |s| < 2 then before else Payload(KindOf(before), FreshFill(s))
    case PongPayload(_) => if |s| < 2 then before else Payload(KindOf(before), FreshFill(s))
    case ErrorData(_) => if |s| < 2 then before else Payload(KindOf(before), FreshFill(s))
    case OpaqueReason(_) => if |s| < 2 then before else Payload(KindOf(before), FreshFill(s))
    case RawBytes(b) => RawBytes(Overlay(s, b))
    case ChannelID(id) => ChannelID(Overlay(s, id))
    case _ => before
  }

  /** The effect of readElement(r, dst). */
  datatype Outcome = Outcome(err: Option<Error>, used: nat, after: Element)

  /** The effect of a read whose decoding gave d: the value is stored on
      success; on failure the destination is left holding `failed`. */
  function Stored(d: Decoded<Element>, failed: Element): (o: Outcome)
    ensures o.used == d.used
    ensures o.err.None? <==> d.res.Ok?
    ensures d.res.Ok? ==> o.after == d.res.value
    ensures d.res.Err? ==> o.err == Some(d.res.error) && o.after == failed
  {
    match d.res
    case Ok(v) => Outcome(None, d.used, v)
    case Err(e) => Outcome(Some(e), d.used, failed)
  }

  /** The effect of readElements on a sequence of destinations. */
  datatype Outcomes = Outcomes(err: Option<Error>, used: nat, afters: seq<Element>)

  /** How many readElement calls reading into a destination makes: an RGB
      destination is read by a nested readElements over its three components. */
  function Calls(e: Element): nat {
    if e.RGB? then 4 else 1
  }

  function CallsAll(es: seq<Element>): nat {
    if es == [] then 0 else CallsAll(es[..|es| - 1]) + Calls(es[|es| - 1])
  }

  /** The three *uint8 destinations of an RGB value's components. */
  function Components(e: Element): (parts: seq<Element>)
    requires e.RGB?
    ensures CallsAll(parts) == 3 < Calls(e)
  {
    var parts := [Uint8(e.red), Uint8(e.green), Uint8(e.blue)];
    assert CallsAll(parts[..1]) == 1 by {
      assert parts[..1][..0] == [];
    }
    assert CallsAll(parts[..2]) == 2 by {
      assert parts[..2][..1] == parts[..1];
    }
    assert parts[..3][..2] == parts[..2] && parts[..3] == parts;
    parts
  }

  /** readElement on a destination holding `before`, with s left in the
      reader. An RGB is read as readElements over its components, each
      stored as soon as it is read; every other kind is read by the decoder
      and stored on success. */
  function ReadOutcome(c: Collaborators, before: Element, s: seq<Byte>): (o: Outcome)
    ensures o.used <= |s|
    ensures KindOf(o.after) == KindOf(before)
    decreases Calls(before), 0
  {
    if before.RGB? then
      var o := ReadAll(c, Components(before), s);
      assert o.afters[0].Uint8? && o.afters[1].Uint8? && o.afters[2].Uint8?;
      Outcome(o.err, o.used, RGB(o.afters[0].u8, o.afters[1].u8, o.afters[2].u8))
    else
      Stored(Dec(c, KindOf(before), s), LeftAfterError(before, s))
  }

  /** readElement on any destination but an RGB triple: the case's decoder,
      its value stored on success. */
  lemma OutcomeStored(c: Collaborators, before: Element, s: seq<Byte>)
    requires !before.RGB?
    ensures ReadOutcome(c, before, s) == Stored(Dec(c, KindOf(before), s), LeftAfterError(before, s))
  {
  }

  /** readElements: one readElement per destination, in order, with s left
      in the reader; the destinations after a failure are not touched. */
  function ReadAll(c: Collaborators, befores: seq<Element>, s: seq<Byte>): (o: Outcomes)
    ensures |o.afters| == |befores|
    ensures o.used <= |s|
    ensures forall j :: 0 <= j < |befores| && befores[j].Uint8? ==> o.afters[j].Uint8?
    decreases CallsAll(befores), 2
  {
    if befores == [] then Outcomes(None, 0, [])
    else ReadNext(c, ReadAll(c, befores[..|befores| - 1], s), befores[|befores| - 1], s)
  }

  /** One turn of readElements' loop, after the turns that produced p: the
      next destination is read unless an earlier one failed. */
  function ReadNext(c: Collaborators, p: Outcomes, before: Element, s: seq<Byte>): (o: Outcomes)
    requires p.used <= |s|
    ensures o.used <= |s|
    ensures |o.afters| == |p.afters| + 1 && o.afters[..|p.afters|] == p.afters
    ensures before.Uint8? ==> o.afters[|p.afters|].Uint8?
    decreases Calls(before), 1
  {
    if p.err.Some? then Outcomes(p.err, p.used, p.afters + [before])
    else
      var o := ReadOutcome(c, before, s[p.used..]);
      Outcomes(o.err, p.used + o.used, p.afters + [o.after])
  }

  // ---------------------------------------------------------------------
  // readElement

  /** A *uint8 destination takes one byte, or keeps its value on EOF. */
  lemma ByteOutcome(c: Collaborators, before: Element, s: seq<Byte>)
    requires before.Uint8?
    ensures ReadOutcome(c, before, s) ==
            if s == [] then Outcome(Some(EOF), 0, before) else Outcome(None, 1, Uint8(s[0]))
  {
  }

  /** An RGB destination takes three bytes. With fewer left it fails with
      EOF, and the components read before the failure are already stored. */
  lemma RGBOutcome(c: Collaborators, before: Element, s: seq<Byte>)
    requires before.RGB?
    ensures ReadOutcome(c, before, s) ==
            if |s| >= 3 then Outcome(None, 3, RGB(s[0], s[1], s[2]))
            else Outcome(Some(EOF), |s|,
                         RGB(if |s| >= 1 then s[0] else before.red,
                             if |s| >= 2 then s[1] else before.green,
                             before.blue))
  {
    ComponentsOutcome(c, before.red, before.green, before.blue, s);
  }

  /** readElements over three *uint8 destinations. */
  lemma ComponentsOutcome(c: Collaborators, x: Byte, y: Byte, z: Byte, s: seq<Byte>)
    ensures ReadAll(c, [Uint8(x), Uint8(y), Uint8(z)], s) ==
            if |s| >= 3 then Outcomes(None, 3, [Uint8(s[0]), Uint8(s[1]), Uint8(s[2])])
            else Outcomes(Some(EOF), |s|, [Uint8(if |s| >= 1 then s[0] else x),
                                           Uint8(if |s| >= 2 then s[1] else y), Uint8(z)])
  {
    var parts := [Uint8(x), Uint8(y), Uint8(z)];
    var p1 := ReadAll(c, parts[..1], s);
    var p2 := ReadAll(c, parts[..2], s);
    assert p1 == ReadNext(c, Outcomes(None, 0, []), Uint8(x), s) by {
      assert parts[..1][..0] == [];
      assert ReadAll(c, parts[..1][..0], s) == Outcomes(None, 0, []);
    }
    assert p2 == ReadNext(c, p1, Uint8(y), s) by {
      assert parts[..2][..1] == parts[..1];
    }
    assert ReadAll(c, parts, s) == ReadNext(c, p2, Uint8(z), s) by {
      assert parts[..2] == parts[..|parts| - 1];
    }
    ByteOutcome(c, Uint8(x), s);
    if |s| >= 1 {
      ByteOutcome(c, Uint8(y), s[1..]);
    }
    if |s| >= 2 {
      ByteOutcome(c, Uint8(z), s[2..]);
    }
  }

  /** readElement agrees with the decoder: it fails exactly when the decoder
      does, with the same error, after taking the same bytes, and on success
      stores the value the decoder reads. */
  lemma ReadOutcomeDecodes(c: Collaborators, before: Element, s: seq<Byte>)
    ensures var o := ReadOutcome(c, before, s);
            var d := Dec(c, KindOf(before), s);
            && o.used == d.used
            && (d.res.Ok? ==> o.err == None && o.after == d.res.value)
            && (d.res.Err? ==> o.err == Some(d.res.error))
  {
    if before.RGB? {
      RGBOutcome(c, before, s);
    }
  }

  /** A failed readElement leaves a destination of a kind other than a
      payload, a []byte, a ChannelID or an RGB as it was. */
  lemma FailureKeeps(c: Collaborators, before: Element, s: seq<Byte>)
    requires !(before.PingPayload? || before.PongPayload? || before.ErrorData? || before.OpaqueReason?)
    requires !(before.RawBytes? || before.ChannelID? || before.RGB?)
    requires ReadOutcome(c, before, s).err.Some?
    ensures ReadOutcome(c, before, s).after == before
  {
  }

  /** The bytes a payload destination holds. */
  function PayloadBytes(e: Element): seq<Byte>
    requires e.PingPayload? || e.PongPayload? || e.ErrorData? || e.OpaqueReason?
  {
    match e
    case PingPayload(p) => p
    case PongPayload(p) => p
    case ErrorData(p) => p
    case OpaqueReason(p) => p
  }

  /** A failed read into a payload destination leaves it as it was when the
      2-byte length could not be read. Once the length was read, the body is
      necessarily short, and the destination holds a buffer of the announced
      length: the bytes that followed the length, then zeros. */
  lemma PayloadFailure(c: Collaborators, before: Element, s: seq<Byte>)
    requires before.PingPayload? || before.PongPayload? || before.ErrorData? || before.OpaqueReason?
    requires ReadOutcome(c, before, s).err.Some?
    ensures |s| < 2 ==> ReadOutcome(c, before, s).after == before
    ensures |s| >= 2 ==>
              var after, n := ReadOutcome(c, before, s).after, FromBigEndian(s[..2]);
              && KindOf(after) == KindOf(before)
              && |s| - 2 < n == |PayloadBytes(after)|
              && PayloadBytes(after)[..|s| - 2] == s[2..]
              && forall i :: |s| - 2 <= i < n ==> PayloadBytes(after)[i] == 0
  {
    if |s| >= 2 {
      var k, p := KindOf(before), FreshFill(s);
      assert Dec(c, k, s).res.Err? by {
        OutcomeStored(c, before, s);
      }
      PayloadRead(k, s);
      FreshFillContent(s);
      assert ReadOutcome(c, before, s).after == Payload(k, p) by {
        OutcomeStored(c, before, s);
      }
      assert PayloadBytes(Payload(k, p)) == p;
    }
  }

  /** A fresh buffer filled by a short body: the body, then zeros. */
  lemma FreshFillContent(s: seq<Byte>)
    requires |s| >= 2 && |s| - 2 < FromBigEndian(s[..2])
    ensures FreshFill(s)[..|s| - 2] == s[2..]
    ensures forall i :: |s| - 2 <= i < |FreshFill(s)| ==> FreshFill(s)[i] == 0
  {
  }

  // ---------------------------------------------------------------------
  // readElements

  /** Once a destination has failed, the ones after it keep their values. */
  lemma {:induction false} ReadAllStops(c: Collaborators, befores: seq<Element>, j: nat, s: seq<Byte>)
    requires j <= |befores|
    requires ReadAll(c, befores[..j], s).err.Some?
    ensures var p := ReadAll(c, befores[..j], s);
            ReadAll(c, befores, s) == Outcomes(p.err, p.used, p.afters + befores[j..])
    decreases |befores| - j
  {
    if j < |befores| {
      var n := |befores| - 1;
      assert befores[..n][..j] == befores[..j];
      ReadAllStops(c, befores[..n], j, s);
      SkipAfterError(c, ReadAll(c, befores[..n], s), befores[n], s);
      assert ReadAll(c, befores, s) == ReadNext(c, ReadAll(c, befores[..n], s), befores[n], s);
      assert befores[..n][j..] + [befores[n]] == befores[j..];
    } else {
      assert befores[..j] == befores;
    }
  }

  /** Once a read has failed, the next destination is passed over untouched. */
  lemma SkipAfterError(c: Collaborators, p: Outcomes, before: Element, s: seq<Byte>)
    requires p.used <= |s| && p.err.Some?
    ensures ReadNext(c, p, before, s) == Outcomes(p.err, p.used, p.afters + [before])
  {
  }

  /** readElements after the first i destinations: no error so far, `used`
      bytes taken, and `vals` the values every destination now holds. */
  ghost predicate Progress(c: Collaborators, befores: seq<Element>, s: seq<Byte>, i: nat, used: nat, vals: seq<Element>) {
    && i <= |befores| == |vals|
    && ReadAll(c, befores[..i], s) == Outcomes(None, used, vals[..i])
    && vals[i..] == befores[i..]
  }

  lemma ProgressStart(c: Collaborators, befores: seq<Element>, s: seq<Byte>)
    ensures Progress(c, befores, s, 0, 0, befores)
  {
    assert befores[..0] == [];
  }

  /** One turn of readElements' loop: destination i is read where the ones
      before it stopped; if that fails, so does the whole call. */
  lemma ProgressStep(c: Collaborators, befores: seq<Element>, s: seq<Byte>, i: nat, used: nat, vals: seq<Element>)
    requires Progress(c, befores, s, i, used, vals)
    requires i < |befores|
    ensures used <= |s|
    ensures var o := ReadOutcome(c, befores[i], s[used..]);
            && (o.err.None? ==> Progress(c, befores, s, i + 1, used + o.used, vals[i := o.after]))
            && (o.err.Some? ==> ReadAll(c, befores, s) == Outcomes(o.err, used + o.used, vals[i := o.after]))
  {
    var o := ReadOutcome(c, befores[i], s[used..]);
    var next := vals[i := o.after];
    assert befores[..i + 1][..i] == befores[..i];
    assert befores[..i + 1][i] == befores[i];
    assert ReadAll(c, befores[..i + 1], s) == Outcomes(o.err, used + o.used, vals[..i] + [o.after]);
    assert next[..i + 1] == vals[..i] + [o.after];
    assert next[i + 1..] == befores[i + 1..];
    if o.err.Some? {
      ReadAllStops(c, befores, i + 1, s);
      assert next == next[..i + 1] + next[i + 1..];
    }
  }

  lemma ProgressDone(c: Collaborators, befores: seq<Element>, s: seq<Byte>, used: nat, vals: seq<Element>)
    requires Progress(c, befores, s, |befores|, used, vals)
    ensures ReadAll(c, befores, s) == Outcomes(None, used, vals)
  {
    assert befores[..|befores|] == befores;
    assert vals[..|vals|] == vals;
  }

  /** readElements agrees with the decoder run over the destinations' kinds:
      the same error and the same bytes taken, and the destinations read
      before any failure hold the values the decoder reads. */
  lemma {:induction false} ReadAllDecodes(c: Collaborators, befores: seq<Element>, s: seq<Byte>)
    ensures var o := ReadAll(c, befores, s);
            var b := DecElements(c, Kinds(befores), s);
            && o.err == b.err
            && o.used == b.used
            && |b.values| <= |befores|
            && o.afters[..|b.values|] == b.values
    ensures ReadAll(c, befores, s).err == None ==> ReadAll(c, befores, s).afters == DecElements(c, Kinds(befores), s).values
    decreases |befores|
  {
    ElementDecoderBounded(c);
    var o := ReadAll(c, befores, s);
    var b := DecElements(c, Kinds(befores), s);
    if befores == [] {
      assert Kinds(befores) == [];
    } else {
      var n := |befores| - 1;
      var ks := Kinds(befores);
      assert ks[..n] == Kinds(befores[..n]);
      ReadAllDecodes(c, befores[..n], s);
      var p := ReadAll(c, befores[..n], s);
      var q := DecEach(ElementDecoder(c), ks[..n], s);
      assert DecElements(c, Kinds(befores[..n]), s) == q;
      if p.err.None? {
        ReadOutcomeDecodes(c, befores[n], s[p.used..]);
        assert p.afters == q.values;
      } else {
        assert o.afters[..|b.values|] == p.afters[..|q.values|];
      }
    }
  }

  /** readElements undoes writeElements: the bytes of a batch of values that
      write without error and read back, read into destinations of the same
      kinds, fill them with the values in their normal form, consume exactly
      the batch's bytes and report no error. */
  lemma ReadAllRoundTrip(c: Collaborators, befores: seq<Element>, es: seq<Element>, rest: seq<Byte>)
    requires c.Inverse()
    requires |befores| == |es|
    requires forall i :: 0 <= i < |es| ==> KindOf(befores[i]) == KindOf(es[i])
    requires forall i :: 0 <= i < |es| ==> Enc(c, es[i]).err == None && Representable(es[i])
    ensures EncElements(c, es).err == None
    ensures ReadAll(c, befores, EncElements(c, es).out + rest)
            == Outcomes(None, |EncElements(c, es).out|, NormalizeAll(es))
  {
    ElementsRoundTrip(c, es, rest);
    assert Kinds(befores) == Kinds(es);
    ReadAllDecodes(c, befores, EncElements(c, es).out + rest);
  }
}
