/** Byte strings and the three stream primitives the wire format is built from:
    unsigned LEB128 varints (DWARF v4, section 7.6), raw byte runs and one-byte
    booleans. Each reader works on a buffer and an offset and returns the value
    together with the offset just past what it consumed. */
module BinaryStream {
  import opened Options
  import opened SeqFacts

  type byte = x: int | 0 <= x < 256

  type Bytes = seq<byte>

  /** Unsigned LEB128: seven bits per byte, least significant group first. */
  function UnsignedVarInt(n: nat): (r: Bytes)
    ensures 1 <= |r|
    decreases n
  {
    if n < 128 then [n as byte]
    else [(n % 128 + 128) as byte] + UnsignedVarInt(n / 128)
  }

  /** Every byte of an encoding but the last has its high bit set. */
  lemma {:induction false} VarIntShape(n: nat)
    ensures forall i :: 0 <= i < |UnsignedVarInt(n)| - 1 ==> UnsignedVarInt(n)[i] >= 128
    ensures UnsignedVarInt(n)[|UnsignedVarInt(n)| - 1] < 128
    decreases n
  {
    if n >= 128 {
      var high := UnsignedVarInt(n / 128);
      VarIntShape(n / 128);
      assert UnsignedVarInt(n) == [(n % 128 + 128) as byte] + high;
      assert forall i :: 1 <= i < |UnsignedVarInt(n)| ==> UnsignedVarInt(n)[i] == high[i - 1];
    }
  }

  /** Reads a varint at `offset`, stopping after the first byte with the high
      bit clear. */
  function ReadUnsignedVarInt(buf: Bytes, offset: nat): (r: Option<(nat, nat)>)
    ensures r.Some? ==> offset < r.value.1 <= |buf|
    decreases |buf| - offset
  {
    if offset >= |buf| then None
    else if buf[offset] < 128 then Some((buf[offset] as nat, offset + 1))
    else
      match ReadUnsignedVarInt(buf, offset + 1)
      case None => None
      case Some((high, next)) => Some(((buf[offset] - 128) as nat + 128 * high, next))
  }

  /** Reads exactly `n` bytes at `offset`; fails when fewer are left. */
  function ReadBytes(buf: Bytes, offset: nat, n: nat): (r: Option<(Bytes, nat)>)
    ensures r.Some? <==> offset + n <= |buf|
    ensures r.Some? ==> |r.value.0| == n && r.value.1 == offset + n
  {
    if offset + n <= |buf| then Some((buf[offset..offset + n], offset + n)) else None
  }

  function BoolByte(b: bool): byte
  {
    if b then 1 else 0
  }

  /** Reads one byte; any byte other than 0 reads as true. */
  function ReadBool(buf: Bytes, offset: nat): (r: Option<(bool, nat)>)
    ensures r.Some? <==> offset < |buf|
    ensures r.Some? ==> r.value == (buf[offset] != 0, offset + 1)
  {
    if offset < |buf| then Some((buf[offset] != 0, offset + 1)) else None
  }

  /** The byte strings of `parts` one after another. */
  function Concat(parts: seq<Bytes>): Bytes
  {
    if parts == [] then [] else parts[0] + Concat(parts[1..])
  }

  lemma {:induction false} ConcatAppend(parts: seq<Bytes>, last: Bytes)
    ensures Concat(parts + [last]) == Concat(parts) + last
  {
    if parts != [] {
      assert (parts + [last])[1..] == parts[1..] + [last];
      ConcatAppend(parts[1..], last);
    }
  }

  lemma {:induction false} ConcatLength(parts: seq<Bytes>)
    ensures |Concat(parts)| == SumOfLengths(parts)
  {
    if parts != [] {
      ConcatLength(parts[1..]);
    }
  }

  function SumOfLengths(parts: seq<Bytes>): nat
  {
    if parts == [] then 0 else |parts[0]| + SumOfLengths(parts[1..])
  }

  /** Reading a varint back from anywhere inside a larger buffer yields the
      value written and stops right after its encoding. */
  lemma {:induction false} VarIntRoundTrip(n: nat, pre: Bytes, post: Bytes)
    ensures ReadUnsignedVarInt(pre + UnsignedVarInt(n) + post, |pre|)
         == Some((n, |pre| + |UnsignedVarInt(n)|))
    decreases n
  {
    var e := UnsignedVarInt(n);
    var buf := pre + e + post;
    assert buf[|pre|] == e[0];
    if n >= 128 {
      var pre' := pre + [e[0]];
      assert e == [e[0]] + UnsignedVarInt(n / 128);
      assert buf == pre' + UnsignedVarInt(n / 128) + post;
      VarIntRoundTrip(n / 128, pre', post);
    }
  }

  /** Reading a varint fails exactly when the buffer ends before a byte with
      the high bit clear. */
  lemma {:induction false} ReadVarIntFailsIffUnterminated(buf: Bytes, offset: nat)
    ensures ReadUnsignedVarInt(buf, offset).None? <==> forall i :: offset <= i < |buf| ==> buf[i] >= 128
    decreases |buf| - offset
  {
    if offset < |buf| && buf[offset] >= 128 {
      ReadVarIntFailsIffUnterminated(buf, offset + 1);
    }
  }

  lemma ReadBytesRoundTrip(s: Bytes, pre: Bytes, post: Bytes)
    ensures ReadBytes(pre + s + post, |pre|, |s|) == Some((s, |pre| + |s|))
  {
    assert (pre + s + post)[|pre|..|pre| + |s|] == s;
  }

  lemma BoolRoundTrip(b: bool, pre: Bytes, post: Bytes)
    ensures ReadBool(pre + [BoolByte(b)] + post, |pre|) == Some((b, |pre| + 1))
  {
    assert (pre + [BoolByte(b)] + post)[|pre|] == BoolByte(b);
  }

  /** pocketmine's BinaryStream: a byte buffer that writers append to and
      readers consume from a cursor. A failed read is None where the library
      throws. */
  class Stream {
    var buffer: Bytes
    var offset: nat

    ghost predicate Valid()
      reads this
    {
      offset <= |buffer|
    }

    constructor (buffer: Bytes)
      ensures Valid() && this.buffer == buffer && offset == 0
    {
      this.buffer := buffer;
      offset := 0;
    }

    predicate Feof()
      reads this
    {
      offset >= |buffer|
    }

    method PutUnsignedVarInt(n: nat)
      requires Valid()
      modifies this
      ensures Valid() && buffer == old(buffer) + UnsignedVarInt(n) && offset == old(offset)
    {
      buffer := buffer + UnsignedVarInt(n);
    }

    method Put(bytes: Bytes)
      requires Valid()
      modifies this
      ensures Valid() && buffer == old(buffer) + bytes && offset == old(offset)
    {
      buffer := buffer + bytes;
    }

    method PutBool(b: bool)
      requires Valid()
      modifies this
      ensures Valid() && buffer == old(buffer) + [BoolByte(b)] && offset == old(offset)
    {
      buffer := buffer + [BoolByte(b)];
    }

    /** On failure the cursor has consumed every remaining byte, as the
        library's byte-by-byte reader does before it throws. */
    method GetUnsignedVarInt() returns (r: Option<nat>)
      requires Valid()
      modifies this
      ensures Valid() && buffer == old(buffer)
      ensures match ReadUnsignedVarInt(old(buffer), old(offset))
              case Some((v, next)) => r == Some(v) && offset == next
              case None => r == None && offset == |buffer|
    {
      match ReadUnsignedVarInt(buffer, offset)
      case Some((v, next)) =>
        r, offset := Some(v), next;
      case None =>
        r, offset := None, |buffer|;
    }

    method Get(n: nat) returns (r: Option<Bytes>)
      requires Valid()
      modifies this
      ensures Valid() && buffer == old(buffer)
      ensures match ReadBytes(old(buffer), old(offset), n)
              case Some((s, next)) => r == Some(s) && offset == next
              case None => r == None && offset == old(offset)
    {
      match ReadBytes(buffer, offset, n)
      case Some((s, next)) =>
        r, offset := Some(s), next;
      case None =>
        r := None;
    }

    method GetBool() returns (r: Option<bool>)
      requires Valid()
      modifies this
      ensures Valid() && buffer == old(buffer)
      ensures match ReadBool(old(buffer), old(offset))
              case Some((b, next)) => r == Some(b) && offset == next
              case None => r == None && offset == old(offset)
    {
      match ReadBool(buffer, offset)
      case Some((b, next)) =>
        r, offset := Some(b), next;
      case None =>
        r := None;
    }
  }
}
