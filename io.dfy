/** The two ends the codec talks to: an io.Writer that only appends (it is
    backed by a growing byte buffer) and an io.Reader over a fixed byte
    string with a read position. */
module Io {
  import opened Bytes
  import opened Stream

  class Writer {
    /** Everything written so far. */
    var buf: seq<Byte>

    constructor ()
      ensures buf == []
    {
      buf := [];
    }

    /** w.Write(b): appends all of b. */
    method Write(b: seq<Byte>)
      modifies this
      ensures buf == old(buf) + b
    {
      buf := buf + b;
    }
  }

  class Reader {
    const data: seq<Byte>
    var pos: nat

    ghost predicate Valid()
      reads this
    {
      pos <= |data|
    }

    /** The bytes not consumed yet. */
    function Unread(): seq<Byte>
      reads this
      requires Valid()
    {
      data[pos..]
    }

    constructor (data: seq<Byte>)
      ensures Valid() && this.data == data && pos == 0
    {
      this.data := data;
      pos := 0;
    }

    /** io.ReadFull(r, buf) with len(buf) == n; `got` is what it copied into
        buf, which on failure is everything that remained. */
    method ReadFull(n: nat) returns (res: Result<seq<Byte>>, got: seq<Byte>)
      requires Valid()
      modifies this
      ensures Valid()
      ensures res == FullRead(old(Unread()), n).res
      ensures pos == old(pos) + FullRead(old(Unread()), n).used
      ensures got == old(Unread())[..FullRead(old(Unread()), n).used]
      ensures Unread() == old(Unread())[FullRead(old(Unread()), n).used..]
    {
      if n <= |data| - pos {
        assert data[pos..pos + n] == Unread()[..n];
        got := data[pos..pos + n];
        res := Ok(got);
        pos := pos + n;
      } else {
        got := data[pos..];
        res := Err(if pos == |data| then EOF else UnexpectedEOF);
        pos := |data|;
      }
    }

    /** r.Read(b) with a one-byte b. */
    method ReadByte() returns (res: Result<Byte>)
      requires Valid()
      modifies this
      ensures Valid()
      ensures res == ByteRead(old(Unread())).res
      ensures pos == old(pos) + ByteRead(old(Unread())).used
      ensures Unread() == old(Unread())[ByteRead(old(Unread())).used..]
    {
      if pos < |data| {
        res := Ok(data[pos]);
        pos := pos + 1;
      } else {
        res := Err(EOF);
      }
    }

    /** io.ReadFull of `width` bytes, then binary.BigEndian.UintNN. */
    method ReadUint(width: nat) returns (res: Result<nat>)
      requires Valid()
      modifies this
      ensures Valid()
      ensures res == UintRead(old(Unread()), width).res
      ensures pos == old(pos) + UintRead(old(Unread()), width).used
      ensures Unread() == old(Unread())[UintRead(old(Unread()), width).used..]
    {
      var b, _ := ReadFull(width);
      if b.Err? {
        return Err(b.error);
      }
      res := Ok(FromBigEndian(b.value));
    }

    /** What a collaborator that reads from r leaves behind: it took n bytes,
        or all that remained if fewer. */
    method Advance(n: nat)
      requires Valid()
      modifies this
      ensures Valid()
      ensures pos == old(pos) + (if n <= |old(Unread())| then n else |old(Unread())|)
      ensures Unread() == old(Unread())[pos - old(pos)..]
    {
      pos := if n <= |data| - pos then pos + n else |data|;
    }
  }
}
