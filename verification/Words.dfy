/** Fixed-width machine words, their big-endian wire form and the cursor-style
    parsing of that form shared by every codec of the gateway. */
module Words {

  type byte = x: int | 0 <= x < 0x100
  type u16 = x: int | 0 <= x < 0x1_0000
  type u32 = x: int | 0 <= x < 0x1_0000_0000
  type u64 = x: int | 0 <= x < 0x1_0000_0000_0000_0000
  type i16 = x: int | -0x8000 <= x < 0x8000
  type i32 = x: int | -0x8000_0000 <= x < 0x8000_0000
  type i64 = x: int | -0x8000_0000_0000_0000 <= x < 0x8000_0000_0000_0000

  const U32_MAX: u32 := 0xFFFF_FFFF
  const U64_MAX: u64 := 0xFFFF_FFFF_FFFF_FFFF

  datatype Option<+T> = None | Some(value: T) {
    predicate IsFailure() { None? }

    function PropagateFailure<U>(): Option<U>
      requires None?
    {
      None
    }

    function Extract(): T
      requires Some?
    {
      value
    }
  }

  // ---- big-endian writing ----

  function PutU16(v: u16): (s: seq<byte>)
    ensures |s| == 2
  {
    [v / 0x100, v % 0x100]
  }

  function PutU32(v: u32): (s: seq<byte>)
    ensures |s| == 4
  {
    PutU16(v / 0x1_0000) + PutU16(v % 0x1_0000)
  }

  function PutU64(v: u64): (s: seq<byte>)
    ensures |s| == 8
  {
    PutU32(v / 0x1_0000_0000) + PutU32(v % 0x1_0000_0000)
  }

  // ---- two's complement ----

  function BitsOfI16(v: i16): u16 { if v < 0 then v + 0x1_0000 else v }
  function I16OfBits(b: u16): i16 { if b < 0x8000 then b else b - 0x1_0000 }
  function BitsOfI32(v: i32): u32 { if v < 0 then v + 0x1_0000_0000 else v }
  function I32OfBits(b: u32): i32 { if b < 0x8000_0000 then b else b - 0x1_0000_0000 }
  function BitsOfI64(v: i64): u64 { if v < 0 then v + 0x1_0000_0000_0000_0000 else v }
  function I64OfBits(b: u64): i64 {
    if b < 0x8000_0000_0000_0000 then b else b - 0x1_0000_0000_0000_0000
  }

  /** The bits of a negative number are those of the number modulo the word size. */
  lemma TwosComplement(a: i16, b: i32, c: i64)
    ensures BitsOfI16(a) == a % 0x1_0000
    ensures BitsOfI32(b) == b % 0x1_0000_0000
    ensures BitsOfI64(c) == c % 0x1_0000_0000_0000_0000
  {
  }

  /** The bits read back: the one number of that width with these bits. */
  lemma TwosComplementBack(a: u16, b: u32, c: u64)
    ensures I16OfBits(a) % 0x1_0000 == a && I32OfBits(b) % 0x1_0000_0000 == b
    ensures I64OfBits(c) % 0x1_0000_0000_0000_0000 == c
  {
  }

  /** Reference: the number that bytes spell, most significant first. */
  function Number(s: seq<byte>): (v: nat)
    decreases |s|
  {
    if s == [] then 0 else (Number(s[..|s| - 1]) as int) * 0x100 + s[|s| - 1]
  }

  lemma NumberOfTwo(s: seq<byte>)
    requires |s| == 2
    ensures Number(s) == (s[0] as int) * 0x100 + s[1]
  {
    var first := s[..1];
    assert first[..0] == [] && first[0] == s[0];
    assert Number(first) == s[0];
  }

  lemma {:induction false} NumberJoined(s: seq<byte>, t: seq<byte>)
    requires |t| == 2 || |t| == 4
    ensures Number(s + t) == Number(s) * (if |t| == 2 then 0x1_0000 else 0x1_0000_0000) + Number(t)
    decreases |t|
  {
    if |t| == 2 {
      NumberOfTwo(t);
      assert (s + t)[..|s| + 1] == s + t[..1] && (s + t[..1])[..|s|] == s;
    } else {
      NumberJoined(s + t[..2], t[2..]);
      NumberJoined(s, t[..2]);
      NumberJoined(t[..2], t[2..]);
      assert s + t[..2] + t[2..] == s + t && t[..2] + t[2..] == t;
    }
  }

  /** Words are written most significant byte first. */
  lemma PutNumber(a: u16, b: u32, c: u64)
    ensures Number(PutU16(a)) == a && Number(PutU32(b)) == b && Number(PutU64(c)) == c
  {
    NumberOfTwo(PutU16(a));
    PutWord(b);
    PutWord(c / 0x1_0000_0000);
    PutWord(c % 0x1_0000_0000);
    hide PutU32;
    NumberJoined(PutU32(c / 0x1_0000_0000), PutU32(c % 0x1_0000_0000));
  }

  lemma PutWord(b: u32)
    ensures Number(PutU32(b)) == b
  {
    NumberOfTwo(PutU16(b / 0x1_0000));
    NumberOfTwo(PutU16(b % 0x1_0000));
    NumberJoined(PutU16(b / 0x1_0000), PutU16(b % 0x1_0000));
  }

  // ---- parsing: each function takes what a cursor has left and returns the
  //      word together with what is left afterwards ----

  function ParseU8(s: seq<byte>): (r: Option<(byte, seq<byte>)>)
    ensures r.Some? <==> |s| >= 1
    ensures r.Some? ==> s == [r.value.0] + r.value.1
  {
    if |s| < 1 then None else Some((s[0], s[1..]))
  }

  function ParseU16(s: seq<byte>): (r: Option<(u16, seq<byte>)>)
    ensures r.Some? <==> |s| >= 2
    ensures r.Some? ==> s == PutU16(r.value.0) + r.value.1
  {
    if |s| < 2 then None else Some((HalfAt(s, 0), s[2..]))
  }

  function ParseU32(s: seq<byte>): (r: Option<(u32, seq<byte>)>)
    ensures r.Some? <==> |s| >= 4
    ensures r.Some? ==> s == PutU32(r.value.0) + r.value.1
  {
    if |s| < 4 then None else Some((WordAt(s, 0), s[4..]))
  }

  function ParseU64(s: seq<byte>): (r: Option<(u64, seq<byte>)>)
    ensures r.Some? <==> |s| >= 8
    ensures r.Some? ==> s == PutU64(r.value.0) + r.value.1
  {
    if |s| < 8 then None else
      var v := JoinedWide(WordAt(s, 0), WordAt(s, 4));
      assert s == s[0..4] + s[4..8] + s[8..];
      Some((v, s[8..]))
  }

  function ParseBytes(s: seq<byte>, n: nat): (r: Option<(seq<byte>, seq<byte>)>)
    ensures r.Some? <==> |s| >= n
    ensures r.Some? ==> |r.value.0| == n && s == r.value.0 + r.value.1
  {
    if |s| < n then None else Some((s[..n], s[n..]))
  }

  /** The big-endian half word and word stored at an offset. */
  function HalfAt(s: seq<byte>, at: nat): (v: u16)
    requires at + 2 <= |s|
    ensures PutU16(v) == s[at..at + 2]
  {
    var hi: int, lo: int := s[at], s[at + 1];
    hi * 0x100 + lo
  }

  function Joined(hi: u16, lo: u16): (v: u32)
    ensures PutU32(v) == PutU16(hi) + PutU16(lo)
  {
    var v: int := (hi as int) * 0x1_0000 + lo;
    assert v / 0x1_0000 == hi && v % 0x1_0000 == lo;
    v
  }

  function JoinedWide(hi: u32, lo: u32): (v: u64)
    ensures PutU64(v) == PutU32(hi) + PutU32(lo)
  {
    var v: int := (hi as int) * 0x1_0000_0000 + lo;
    assert v / 0x1_0000_0000 == hi && v % 0x1_0000_0000 == lo;
    v
  }

  function WordAt(s: seq<byte>, at: nat): (v: u32)
    requires at + 4 <= |s|
    ensures PutU32(v) == s[at..at + 4]
  {
    var hi, lo := HalfAt(s, at), HalfAt(s, at + 2);
    assert s[at..at + 4] == s[at..at + 2] + s[at + 2..at + 4];
    Joined(hi, lo)
  }

  // ---- writing then parsing ----

  lemma ParsePutU8(v: byte, rest: seq<byte>)
    ensures ParseU8([v] + rest) == Some((v, rest))
  {
  }

  lemma ParsePutU16(v: u16, rest: seq<byte>)
    ensures ParseU16(PutU16(v) + rest) == Some((v, rest))
  {
  }

  lemma ParsePutU32(v: u32, rest: seq<byte>)
    ensures ParseU32(PutU32(v) + rest) == Some((v, rest))
  {
  }

  lemma ParsePutU64(v: u64, rest: seq<byte>)
    ensures ParseU64(PutU64(v) + rest) == Some((v, rest))
  {
  }

  lemma ParsePutBytes(b: seq<byte>, rest: seq<byte>)
    ensures ParseBytes(b + rest, |b|) == Some((b, rest))
  {
  }

  lemma PutU32Injective(v: u32, w: u32)
    requires PutU32(v) == PutU32(w)
    ensures v == w
  {
    assert PutU32(v)[..2] == PutU16(v / 0x1_0000) && PutU32(v)[2..] == PutU16(v % 0x1_0000);
    assert PutU32(w)[..2] == PutU16(w / 0x1_0000) && PutU32(w)[2..] == PutU16(w % 0x1_0000);
    PutU16Injective(v / 0x1_0000, w / 0x1_0000);
    PutU16Injective(v % 0x1_0000, w % 0x1_0000);
  }

  lemma PutU16Injective(v: u16, w: u16)
    requires PutU16(v) == PutU16(w)
    ensures v == w
  {
    assert PutU16(v)[0] == PutU16(w)[0] && PutU16(v)[1] == PutU16(w)[1];
  }
}
