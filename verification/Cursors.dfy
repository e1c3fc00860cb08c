/** The cursors the codecs move over their buffers. Each writing method takes, as a
    ghost, what is still to be written, so that its contract speaks of the finished
    packet. */
module Cursors {
  import opened Words

  /** Writes into a buffer of fixed capacity and refuses what does not fit. */
  class Writer {
    const data: array<byte>
    var position: nat

    ghost predicate Valid()
      reads this
    {
      position <= data.Length
    }

    ghost function Written(): (s: seq<byte>)
      reads this, data
      requires Valid()
    {
      data[..position]
    }

    constructor (data: array<byte>)
      ensures this.data == data && Valid() && Written() == []
    {
      this.data := data;
      position := 0;
    }

    method U8(v: byte, ghost rest: seq<byte>) returns (ok: bool)
      requires Valid()
      modifies this, data
      ensures Valid() && position == old(position) + (if ok then 1 else 0)
      ensures ok <==> old(position) + 1 <= data.Length
      ensures ok ==> Written() + rest == old(Written()) + ([v] + rest)
    {
      if position >= data.Length { return false; }
      ghost var before := data[..position];
      data[position] := v;
      position := position + 1;
      assert data[..position] == before + [v];
      return true;
    }

    method U16(v: u16, ghost rest: seq<byte>) returns (ok: bool)
      requires Valid()
      modifies this, data
      ensures Valid() && (ok ==> position == old(position) + 2)
      ensures ok <==> old(position) + 2 <= data.Length
      ensures ok ==> Written() + rest == old(Written()) + (PutU16(v) + rest)
    {
      ok := U8(v / 0x100, [v % 0x100] + rest);
      if ok { ok := U8(v % 0x100, rest); }
      assert PutU16(v) + rest == [v / 0x100] + ([v % 0x100] + rest);
    }

    method U32(v: u32, ghost rest: seq<byte>) returns (ok: bool)
      requires Valid()
      modifies this, data
      ensures Valid() && (ok ==> position == old(position) + 4)
      ensures ok <==> old(position) + 4 <= data.Length
      ensures ok ==> Written() + rest == old(Written()) + (PutU32(v) + rest)
    {
      ok := U16(v / 0x1_0000, PutU16(v % 0x1_0000) + rest);
      if ok { ok := U16(v % 0x1_0000, rest); }
      assert PutU32(v) + rest == PutU16(v / 0x1_0000) + (PutU16(v % 0x1_0000) + rest);
    }

    method Bytes(b: seq<byte>, ghost rest: seq<byte>) returns (ok: bool)
      requires Valid()
      modifies this, data
      ensures Valid() && (ok ==> position == old(position) + |b|)
      ensures ok <==> old(position) + |b| <= data.Length
      ensures ok ==> Written() + rest == old(Written()) + (b + rest)
    {
      if position + |b| > data.Length { return false; }
      ghost var before := data[..position];
      for i := 0 to |b|
        invariant position == old(position)
        invariant data[..position] == before
        invariant data[position..position + i] == b[..i]
      {
        data[position + i] := b[i];
      }
      position := position + |b|;
      assert data[..position] == before + b;
      return true;
    }
  }

  /** Appends to a growing vector. */
  class Appender {
    var output: seq<byte>

    constructor ()
      ensures output == []
    {
      output := [];
    }

    method U8(v: byte, ghost rest: seq<byte>)
      modifies this
      ensures output + rest == old(output) + ([v] + rest)
    {
      output := output + [v];
    }

    method U16(v: u16, ghost rest: seq<byte>)
      modifies this
      ensures output + rest == old(output) + (PutU16(v) + rest)
    {
      assert PutU16(v) + rest == [v / 0x100] + ([v % 0x100] + rest);
      U8(v / 0x100, [v % 0x100] + rest);
      U8(v % 0x100, rest);
    }

    method U32(v: u32, ghost rest: seq<byte>)
      modifies this
      ensures output + rest == old(output) + (PutU32(v) + rest)
    {
      assert PutU32(v) + rest == PutU16(v / 0x1_0000) + (PutU16(v % 0x1_0000) + rest);
      U16(v / 0x1_0000, PutU16(v % 0x1_0000) + rest);
      U16(v % 0x1_0000, rest);
    }

    method U64(v: u64, ghost rest: seq<byte>)
      modifies this
      ensures output + rest == old(output) + (PutU64(v) + rest)
    {
      hide PutU32;
      assert PutU64(v) + rest == PutU32(v / 0x1_0000_0000) + (PutU32(v % 0x1_0000_0000) + rest);
      U32(v / 0x1_0000_0000, PutU32(v % 0x1_0000_0000) + rest);
      U32(v % 0x1_0000_0000, rest);
    }

    method Bytes(b: seq<byte>, ghost rest: seq<byte>)
      modifies this
      ensures output + rest == old(output) + (b + rest)
    {
      output := output + b;
    }
  }

  /** Reads from a buffer; what it has left determines every answer. */
  class Reader {
    const input: seq<byte>
    var position: nat

    ghost predicate Valid()
      reads this
    {
      position <= |input|
    }

    ghost function Rest(): (s: seq<byte>)
      reads this
      requires Valid()
    {
      input[position..]
    }

    constructor (input: seq<byte>)
      ensures this.input == input && Valid() && Rest() == input
    {
      this.input := input;
      position := 0;
    }

    method U8() returns (ok: bool, v: byte)
      requires Valid()
      modifies this
      ensures Valid() && (ok <==> ParseU8(old(Rest())).Some?)
      ensures ok ==> ParseU8(old(Rest())) == Some((v, Rest()))
    {
      if position >= |input| { return false, 0; }
      v := input[position];
      position := position + 1;
      return true, v;
    }

    method U16() returns (ok: bool, v: u16)
      requires Valid()
      modifies this
      ensures Valid() && (ok <==> ParseU16(old(Rest())).Some?)
      ensures ok ==> ParseU16(old(Rest())) == Some((v, Rest()))
    {
      ghost var rest := Rest();
      var hi: byte, lo: byte;
      v := 0;
      ok, hi := U8();
      if !ok { return; }
      ok, lo := U8();
      if !ok { return; }
      assert Rest() == rest[2..];
      var high: int := hi;
      v := high * 0x100 + lo;
    }

    method U32() returns (ok: bool, v: u32)
      requires Valid()
      modifies this
      ensures Valid() && (ok <==> ParseU32(old(Rest())).Some?)
      ensures ok ==> ParseU32(old(Rest())) == Some((v, Rest()))
    {
      ghost var rest := Rest();
      var hi: u16, lo: u16;
      v := 0;
      ok, hi := U16();
      if !ok { return; }
      ok, lo := U16();
      if !ok { return; }
      assert Rest() == rest[4..];
      var high: int := hi;
      v := high * 0x1_0000 + lo;
    }

    method U64() returns (ok: bool, v: u64)
      requires Valid()
      modifies this
      ensures Valid() && (ok <==> ParseU64(old(Rest())).Some?)
      ensures ok ==> ParseU64(old(Rest())) == Some((v, Rest()))
    {
      ghost var rest := Rest();
      var hi: u32, lo: u32;
      v := 0;
      ok, hi := U32();
      if !ok { return; }
      assert Rest() == rest[4..];
      ok, lo := U32();
      if !ok { return; }
      assert Rest() == rest[8..];
      var high: int := hi;
      v := high * 0x1_0000_0000 + lo;
    }

    method Bytes(n: nat) returns (ok: bool, b: seq<byte>)
      requires Valid()
      modifies this
      ensures Valid() && (ok <==> ParseBytes(old(Rest()), n).Some?)
      ensures ok ==> ParseBytes(old(Rest()), n) == Some((b, Rest()))
    {
      if position + n > |input| { return false, []; }
      ghost var rest := Rest();
      b := input[position..position + n];
      position := position + n;
      assert rest[..n] == b && rest[n..] == Rest();
      return true, b;
    }

    method Remaining() returns (n: nat)
      requires Valid()
      ensures n == |Rest()|
    {
      return |input| - position;
    }
  }
}
