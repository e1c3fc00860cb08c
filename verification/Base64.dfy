/** Base64 as in section 4 of RFC 4648, with the strict decoder of section 3.5: only
    canonical text is accepted. */
module Base64 {
  import opened Words

  type Sextet = x: int | 0 <= x < 64

  /** The alphabet: capitals, small letters, digits, plus and slash. */
  function Letter(v: Sextet): (c: char) {
    if v < 26 then 'A' + v as char
    else if v < 52 then 'a' + (v - 26) as char
    else if v < 62 then '0' + (v - 52) as char
    else if v == 62 then '+'
    else '/'
  }

  function ValueOf(c: char): (v: Option<Sextet>) {
    if 'A' <= c <= 'Z' then Some(c as int - 'A' as int)
    else if 'a' <= c <= 'z' then Some(c as int - 'a' as int + 26)
    else if '0' <= c <= '9' then Some(c as int - '0' as int + 52)
    else if c == '+' then Some(62)
    else if c == '/' then Some(63)
    else None
  }

  const ALPHABET := "ABCDEFGHIJKLMNOPQRSTUVWXYZ" + "abcdefghijklmnopqrstuvwxyz" + "0123456789" + "+/"

  /** Letters and values are those of the alphabet in table 1 of RFC 4648. */
  lemma AlphabetIff(v: Sextet, c: char)
    ensures |ALPHABET| == 64 && Letter(v) == ALPHABET[v]
    ensures ValueOf(c) == Some(v) <==> ALPHABET[v] == c
  {
    LetterValue(v);
    ValueLetter(c);
    assert Letter(v) == ALPHABET[v] by { LetterAt(v); }
  }

  lemma LetterAt(v: Sextet)
    ensures Letter(v) == ALPHABET[v]
  {
    if v < 26 {
      assert ALPHABET[v] == "ABCDEFGHIJKLMNOPQRSTUVWXYZ"[v];
    } else if v < 52 {
      assert ALPHABET[v] == "abcdefghijklmnopqrstuvwxyz"[v - 26];
    } else if v < 62 {
      assert ALPHABET[v] == "0123456789"[v - 52];
    }
  }

  lemma ValueLetter(c: char)
    ensures ValueOf(c).Some? ==> Letter(ValueOf(c).value) == c
  {
  }

  lemma LetterValue(v: Sextet)
    ensures ValueOf(Letter(v)) == Some(v) && Letter(v) != '='
  {
  }

  // ---- one group ----

  /** Three bytes as one 24-bit number, and its four six-bit digits. */
  type Group = x: int | 0 <= x < 0x100_0000

  function Join(a: byte, b: byte, c: byte): (v: Group) { (a * 0x100 + b) * 0x100 + c }

  function D1(v: Group): (d: Sextet) { v / 64 / 64 / 64 }
  function D2(v: Group): (d: Sextet) { v / 64 / 64 % 64 }
  function D3(v: Group): (d: Sextet) { v / 64 % 64 }
  function D4(v: Group): (d: Sextet) { v % 64 }

  function Gather(a: Sextet, b: Sextet, c: Sextet, d: Sextet): (v: Group) {
    ((a * 64 + b) * 64 + c) * 64 + d
  }

  function First(v: Group): (b: byte) { v / 0x100 / 0x100 }
  function Second(v: Group): (b: byte) { v / 0x100 % 0x100 }
  function Third(v: Group): (b: byte) { v % 0x100 }

  lemma DigitsOfGroup(v: Group)
    ensures Gather(D1(v), D2(v), D3(v), D4(v)) == v
  {
  }

  lemma BytesOfGroup(a: byte, b: byte, c: byte)
    ensures var v := Join(a, b, c); First(v) == a && Second(v) == b && Third(v) == c
  {
    assert Join(a, b, c) / 0x100 == a * 0x100 + b;
  }

  /** Missing octets leave the last digits zero. */
  lemma DigitsOfShortGroup(a: byte, b: byte)
    ensures D4(Join(a, b, 0)) == 0 && D3(Join(a, 0, 0)) == 0 && D4(Join(a, 0, 0)) == 0
  {
    assert Join(a, b, 0) == 64 * (4 * (a * 0x100 + b));
    assert Join(a, 0, 0) / 64 == 64 * (16 * a);
  }

  // ---- text ----

  function Encode(s: seq<byte>): (t: string)
    decreases |s|
  {
    if s == [] then ""
    else if |s| == 1 then
      var v := Join(s[0], 0, 0); [Letter(D1(v)), Letter(D2(v)), '=', '=']
    else if |s| == 2 then
      var v := Join(s[0], s[1], 0); [Letter(D1(v)), Letter(D2(v)), Letter(D3(v)), '=']
    else
      var v := Join(s[0], s[1], s[2]);
      [Letter(D1(v)), Letter(D2(v)), Letter(D3(v)), Letter(D4(v))] + Encode(s[3..])
  }

  /** One group of four characters; padding is allowed only in the last one. */
  function DecodeGroup(p: char, q: char, r: char, s: char, last: bool): (bytes: Option<seq<byte>>) {
    var a :- ValueOf(p);
    var b :- ValueOf(q);
    if r == '=' then
      if s != '=' || !last then None
      else Some([First(Gather(a, b, 0, 0))])
    else
      var c :- ValueOf(r);
      if s == '=' then
        if !last then None
        else Some([First(Gather(a, b, c, 0)), Second(Gather(a, b, c, 0))])
      else
        var d :- ValueOf(s);
        var v := Gather(a, b, c, d);
        Some([First(v), Second(v), Third(v)])
  }

  /** Every group in turn, before the canonical form is checked. */
  function DecodeGroups(t: string): (bytes: Option<seq<byte>>)
    decreases |t|
  {
    if t == "" then Some([])
    else if |t| < 4 then None
    else
      var head :- DecodeGroup(t[0], t[1], t[2], t[3], |t| == 4);
      var tail :- DecodeGroups(t[4..]);
      Some(head + tail)
  }

  function Decode(t: string): (r: Option<seq<byte>>) {
    if t == "" || |t| % 4 != 0 then None
    else
      var bytes :- DecodeGroups(t);
      if Encode(bytes) == t then Some(bytes) else None
  }

  // ---- round trip ----

  lemma {:induction false} EncodeLength(s: seq<byte>)
    ensures |Encode(s)| == (|s| + 2) / 3 * 4
    decreases |s|
  {
    hide Letter, D1, D2, D3, D4, Join;
    if |s| >= 3 {
      EncodeLength(s[3..]);
      assert (|s| + 2) / 3 == (|s[3..]| + 2) / 3 + 1;
    }
  }

  lemma GroupRoundTrip(a: byte, b: byte, c: byte, last: bool)
    ensures var v := Join(a, b, c);
            DecodeGroup(Letter(D1(v)), Letter(D2(v)), Letter(D3(v)), Letter(D4(v)), last) == Some([a, b, c]) &&
            (last && c == 0 ==> DecodeGroup(Letter(D1(v)), Letter(D2(v)), Letter(D3(v)), '=', last) == Some([a, b])) &&
            (last && b == 0 && c == 0 ==> DecodeGroup(Letter(D1(v)), Letter(D2(v)), '=', '=', last) == Some([a]))
  {
    hide Letter, ValueOf, D1, D2, D3, D4, Join, Gather, First, Second, Third;
    var v := Join(a, b, c);
    DigitsOfShortGroup(a, b);
    LetterValue(D1(v));
    LetterValue(D2(v));
    LetterValue(D3(v));
    LetterValue(D4(v));
    DigitsOfGroup(v);
    BytesOfGroup(a, b, c);
  }

  lemma {:induction false} GroupsRoundTrip(s: seq<byte>)
    ensures DecodeGroups(Encode(s)) == Some(s)
    decreases |s|
  {
    hide DecodeGroup, Letter, D1, D2, D3, D4, Join;
    if |s| == 1 {
      GroupRoundTrip(s[0], 0, 0, true);
      assert DecodeGroups(Encode(s)[4..]) == Some([]);
      assert [s[0]] + [] == s;
    } else if |s| == 2 {
      GroupRoundTrip(s[0], s[1], 0, true);
      assert DecodeGroups(Encode(s)[4..]) == Some([]);
      assert [s[0], s[1]] + [] == s;
    } else if |s| >= 3 {
      GroupRoundTrip(s[0], s[1], s[2], |Encode(s)| == 4);
      GroupsRoundTrip(s[3..]);
      assert Encode(s)[4..] == Encode(s[3..]);
      assert [s[0], s[1], s[2]] + s[3..] == s;
    }
  }

  /** Decoding accepts exactly the encodings of non-empty byte strings and inverts them:
      encoding is injective, and no other text is accepted. */
  lemma Base64Bijection(t: string, s: seq<byte>)
    ensures Decode(t) == Some(s) <==> s != [] && t == Encode(s)
  {
    hide DecodeGroups, Encode;
    GroupsRoundTrip(s);
    EncodeLength(s);
    EncodeLength([]);
  }

  // ---- the bits that travel ----

  /** The n low bits of v, most significant first. */
  function Bits(v: nat, n: nat): (b: seq<bool>)
    ensures |b| == n
    decreases n
  {
    if n == 0 then [] else Bits(v / 2, n - 1) + [v % 2 == 1]
  }

  function OctetBits(s: seq<byte>): (b: seq<bool>)
    decreases |s|
  {
    if s == [] then [] else Bits(s[0], 8) + OctetBits(s[1..])
  }

  /** The bits of the letters of a text; padding carries none. */
  function TextBits(t: string): (b: seq<bool>)
    decreases |t|
  {
    if t == "" then []
    else LetterBits(t[0]) + TextBits(t[1..])
  }

  function LetterBits(c: char): (b: seq<bool>) {
    match ValueOf(c)
    case None => []
    case Some(v) => Bits(v, 6)
  }

  lemma {:induction false} BitsSplit(hi: nat, lo: nat, m: nat, n: nat)
    requires lo < Power(n)
    ensures Bits(hi * Power(n) + lo, m + n) == Bits(hi, m) + Bits(lo, n)
    decreases n
  {
    if n > 0 {
      var high := hi * Power(n - 1);
      assert hi * Power(n) == 2 * high;
      assert (2 * high + lo) / 2 == high + lo / 2 && (2 * high + lo) % 2 == lo % 2;
      BitsSplit(hi, lo / 2, m, n - 1);
    }
  }

  function Power(n: nat): (p: nat) { if n == 0 then 1 else 2 * Power(n - 1) }

  lemma Powers()
    ensures Power(6) == 64 && Power(8) == 0x100
  {
    assert Power(3) == 8;
  }

  lemma SplitSextet(hi: nat, lo: Sextet, m: nat)
    ensures Bits(hi * 64 + lo, m + 6) == Bits(hi, m) + Bits(lo, 6)
  {
    Powers();
    BitsSplit(hi, lo, m, 6);
  }

  lemma SplitOctet(hi: nat, lo: byte, m: nat)
    ensures Bits(hi * 0x100 + lo, m + 8) == Bits(hi, m) + Bits(lo, 8)
  {
    Powers();
    BitsSplit(hi, lo, m, 8);
  }

  /** Three octets and four sextets are the same 24 bits. */
  lemma GroupBits(a: byte, b: byte, c: byte)
    ensures var v := Join(a, b, c);
            Bits(a, 8) + Bits(b, 8) + Bits(c, 8) == Bits(D1(v), 6) + Bits(D2(v), 6) + Bits(D3(v), 6) + Bits(D4(v), 6)
  {
    hide Bits, D1, D2, D3, D4;
    var v := Join(a, b, c);
    SplitOctet(a, b, 8);
    SplitOctet(a * 0x100 + b, c, 16);
    DigitsOfGroup(v);
    SplitSextet(D1(v), D2(v), 6);
    SplitSextet(D1(v) * 64 + D2(v), D3(v), 12);
    SplitSextet((D1(v) * 64 + D2(v)) * 64 + D3(v), D4(v), 18);
  }

  function ZeroBits(n: nat): (b: seq<bool>) { seq(n, _ => false) }

  lemma {:induction false} BitsOfZero(n: nat)
    ensures Bits(0, n) == ZeroBits(n)
  {
    if n > 0 { BitsOfZero(n - 1); }
  }

  lemma FourLetters(p: char, q: char, r: char, s: char, rest: string)
    ensures TextBits([p, q, r, s] + rest)
         == LetterBits(p) + (LetterBits(q) + (LetterBits(r) + (LetterBits(s) + TextBits(rest))))
  {
    hide LetterBits, TextBits;
    assert [p, q, r, s] + rest == [p] + ([q] + ([r] + ([s] + rest)));
    OneLetter(p, [q] + ([r] + ([s] + rest)));
    OneLetter(q, [r] + ([s] + rest));
    OneLetter(r, [s] + rest);
    OneLetter(s, rest);
  }

  lemma OneLetter(c: char, rest: string)
    ensures TextBits([c] + rest) == LetterBits(c) + TextBits(rest)
  {
    assert ([c] + rest)[1..] == rest;
  }

  lemma LettersOf(v: Sextet)
    ensures LetterBits(Letter(v)) == Bits(v, 6) && LetterBits('=') == []
  {
    LetterValue(v);
  }

  lemma ThreeOctets(s: seq<byte>)
    requires |s| >= 3
    ensures OctetBits(s) == Bits(s[0], 8) + (Bits(s[1], 8) + (Bits(s[2], 8) + OctetBits(s[3..])))
  {
    hide Bits;
    assert s[1..][1..] == s[2..] && s[2..][1..] == s[3..];
    assert OctetBits(s[2..]) == Bits(s[2], 8) + OctetBits(s[3..]);
    assert OctetBits(s[1..]) == Bits(s[1], 8) + OctetBits(s[2..]);
  }

  /** A group with missing octets: the letters that are left spell the octets that are
      there, and zeros. */
  lemma PadBits(a: byte, b: byte)
    ensures var v := Join(a, b, 0);
            Bits(D1(v), 6) + Bits(D2(v), 6) + Bits(D3(v), 6) == Bits(a, 8) + Bits(b, 8) + ZeroBits(2) &&
            (b == 0 ==> Bits(D1(v), 6) + Bits(D2(v), 6) == Bits(a, 8) + ZeroBits(4))
  {
    hide Bits, D1, D2, D3, D4, Join;
    var v := Join(a, b, 0);
    GroupBits(a, b, 0);
    BitsOfZero(8);
    var octets := Bits(a, 8) + Bits(b, 8) + Bits(0, 8);
    var sextets := Bits(D1(v), 6) + Bits(D2(v), 6) + Bits(D3(v), 6) + Bits(D4(v), 6);
    assert octets[..18] == Bits(a, 8) + Bits(b, 8) + ZeroBits(2);
    assert sextets[..18] == Bits(D1(v), 6) + Bits(D2(v), 6) + Bits(D3(v), 6);
    assert sextets[..12] == Bits(D1(v), 6) + Bits(D2(v), 6);
    if b == 0 { assert octets[..12] == Bits(a, 8) + ZeroBits(4); }
  }

  lemma EncodedOne(a: byte)
    ensures TextBits(Encode([a])) == OctetBits([a]) + ZeroBits(4)
  {
    hide Bits, Letter, LetterBits, D1, D2, D3, D4, Join;
    var v := Join(a, 0, 0);
    PadBits(a, 0);
    LettersOf(D1(v));
    LettersOf(D2(v));
    FourLetters(Letter(D1(v)), Letter(D2(v)), '=', '=', "");
    assert Encode([a]) == [Letter(D1(v)), Letter(D2(v)), '=', '='] + "";
    assert OctetBits([a]) == Bits(a, 8);
    assert TextBits(Encode([a])) == Bits(D1(v), 6) + Bits(D2(v), 6);
  }

  lemma EncodedTwo(a: byte, b: byte)
    ensures TextBits(Encode([a, b])) == OctetBits([a, b]) + ZeroBits(2)
  {
    hide Bits, Letter, LetterBits, D1, D2, D3, D4, Join;
    var v := Join(a, b, 0);
    PadBits(a, b);
    LettersOf(D1(v));
    LettersOf(D2(v));
    LettersOf(D3(v));
    FourLetters(Letter(D1(v)), Letter(D2(v)), Letter(D3(v)), '=', "");
    assert Encode([a, b]) == [Letter(D1(v)), Letter(D2(v)), Letter(D3(v)), '='] + "";
    assert [a, b][1..] == [b] && OctetBits([b]) == Bits(b, 8) + [];
    assert OctetBits([a, b]) == Bits(a, 8) + Bits(b, 8);
    assert TextBits(Encode([a, b])) == Bits(D1(v), 6) + Bits(D2(v), 6) + Bits(D3(v), 6);
  }

  lemma EncodeThree(s: seq<byte>)
    requires |s| >= 3
    ensures var v := Join(s[0], s[1], s[2]);
            Encode(s) == [Letter(D1(v)), Letter(D2(v)), Letter(D3(v)), Letter(D4(v))] + Encode(s[3..])
  {
    hide Letter, D1, D2, D3, D4, Join;
  }

  lemma Regroup<T>(p: seq<T>, q: seq<T>, r: seq<T>, s: seq<T>, t: seq<T>)
    ensures p + (q + (r + (s + t))) == p + q + r + s + t
    ensures p + (q + (r + s)) == p + q + r + s
  {
  }

  lemma EncodedThree(s: seq<byte>)
    requires |s| >= 3
    ensures var group := Bits(s[0], 8) + Bits(s[1], 8) + Bits(s[2], 8);
            TextBits(Encode(s)) == group + TextBits(Encode(s[3..])) && OctetBits(s) == group + OctetBits(s[3..])
  {
    hide Bits, Letter, LetterBits, D1, D2, D3, D4, Join, Encode, TextBits, OctetBits;
    var v, t := Join(s[0], s[1], s[2]), Encode(s[3..]);
    EncodeThree(s);
    GroupBits(s[0], s[1], s[2]);
    LettersOf(D1(v));
    LettersOf(D2(v));
    LettersOf(D3(v));
    LettersOf(D4(v));
    FourLetters(Letter(D1(v)), Letter(D2(v)), Letter(D3(v)), Letter(D4(v)), t);
    Regroup(Bits(D1(v), 6), Bits(D2(v), 6), Bits(D3(v), 6), Bits(D4(v), 6), TextBits(t));
    ThreeOctets(s);
    Regroup(Bits(s[0], 8), Bits(s[1], 8), Bits(s[2], 8), OctetBits(s[3..]), []);
  }

  function Padding(n: nat): (b: seq<bool>) { ZeroBits(if n % 3 == 1 then 4 else if n % 3 == 2 then 2 else 0) }

  /** The letters of an encoding spell the bits of the input, followed by the zero bits
      that fill up the last letter. */
  lemma {:induction false} EncodedBits(s: seq<byte>)
    ensures TextBits(Encode(s)) == OctetBits(s) + Padding(|s|)
    decreases |s|
  {
    hide Encode, TextBits, OctetBits, Bits, ZeroBits;
    if s == [] {
      EncodedNone();
    } else if |s| == 1 {
      assert s == [s[0]];
      EncodedOne(s[0]);
    } else if |s| == 2 {
      assert s == [s[0], s[1]];
      EncodedTwo(s[0], s[1]);
    } else {
      EncodedBits(s[3..]);
      EncodedThree(s);
      assert |s| % 3 == |s[3..]| % 3;
      Associate(Bits(s[0], 8) + Bits(s[1], 8) + Bits(s[2], 8), OctetBits(s[3..]), Padding(|s|));
    }
  }

  lemma Associate<T>(p: seq<T>, q: seq<T>, r: seq<T>)
    ensures p + (q + r) == p + q + r
  {
  }

  lemma EncodedNone()
    ensures TextBits(Encode([])) == OctetBits([]) + Padding(0)
  {
  }

  // ---- the loops ----

  function Left(s: seq<byte>, index: nat): (r: seq<byte>) {
    if index < |s| then s[index..] else []
  }

  /** The first group of an encoding. */
  lemma EncodeFirst(s: seq<byte>, index: nat)
    requires index < |s|
    ensures var v := Join(s[index], if index + 1 < |s| then s[index + 1] else 0,
        if index + 2 < |s| then s[index + 2] else 0);
            Encode(Left(s, index))
              == [Letter(D1(v)), Letter(D2(v)), if index + 1 < |s| then Letter(D3(v)) else '=',
                  if index + 2 < |s| then Letter(D4(v)) else '='] + Encode(Left(s, index + 3))
  {
    hide Letter, Join, D1, D2, D3, D4;
    var rest := s[index..];
    if |rest| >= 3 {
      assert rest[3..] == Left(s, index + 3);
    } else {
      assert Left(s, index + 3) == [] && Encode([]) == "";
      assert Encode(rest) + "" == Encode(rest);
    }
  }

  method EncodeBytes(input: seq<byte>) returns (output: string)
    ensures output == Encode(input)
  {
    hide Letter, Join, D1, D2, D3, D4, Encode;
    output := "";
    var index := 0;
    assert Left(input, 0) == input;
    while index < |input|
      invariant 0 <= index && output + Encode(Left(input, index)) == Encode(input)
    {
      var a := input[index];
      var b := if index + 1 < |input| then input[index + 1] else 0;
      var c := if index + 2 < |input| then input[index + 2] else 0;
      var value := Join(a, b, c);
      EncodeFirst(input, index);
      var group := [Letter(D1(value)), Letter(D2(value)), if index + 1 < |input| then Letter(D3(value)) else '=',
                    if index + 2 < |input| then Letter(D4(value)) else '='];
      assert output + (group + Encode(Left(input, index + 3))) == output + group + Encode(Left(input, index + 3));
      output := output + group;
      index := index + 3;
    }
    EncodeLength([]);
    assert output + Encode([]) == output;
  }

  method DecodeText(input: string) returns (output: Option<seq<byte>>)
    ensures output == Decode(input)
  {
    hide DecodeGroup;
    if |input| == 0 || |input| % 4 != 0 { return None; }
    var bytes: seq<byte> := [];
    var index := 0;
    ghost var all := DecodeGroups(input);
    assert input[0..] == input;
    if all.Some? { assert [] + all.value == all.value; }
    while index < |input|
      invariant 0 <= index <= |input| && (|input| - index) % 4 == 0
      invariant match DecodeGroups(input[index..])
                case None => all == None
                case Some(rest) => all == Some(bytes + rest)
    {
      var last := index + 4 == |input|;
      var group := DecodeGroup(input[index], input[index + 1], input[index + 2], input[index + 3], last);
      assert input[index..][4..] == input[index + 4..];
      if group.None? { return None; }
      ghost var rest := DecodeGroups(input[index + 4..]);
      if rest.Some? { assert bytes + (group.value + rest.value) == (bytes + group.value) + rest.value; }
      bytes := bytes + group.value;
      index := index + 4;
    }
    assert bytes + [] == bytes;
    var canonical := EncodeBytes(bytes);
    return if canonical == input then Some(bytes) else None;
  }
}
