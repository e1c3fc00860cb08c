/** Bitwise exclusive-or on naturals and the laws the checksum needs. */
module Bitwise {

  function Xor(a: nat, b: nat): (r: nat)
    decreases a + b
  {
    if a == 0 && b == 0 then 0 else 2 * Xor(a / 2, b / 2) + (a % 2 + b % 2) % 2
  }

  lemma {:induction false} XorZero(a: nat)
    ensures Xor(a, 0) == a && Xor(0, a) == a
  {
    if a != 0 { XorZero(a / 2); }
  }

  lemma {:induction false} XorSelf(a: nat)
    ensures Xor(a, a) == 0
  {
    if a != 0 { XorSelf(a / 2); }
  }

  lemma {:induction false} XorComm(a: nat, b: nat)
    ensures Xor(a, b) == Xor(b, a)
    decreases a + b
  {
    if a != 0 || b != 0 { XorComm(a / 2, b / 2); }
  }

  lemma {:induction false} XorAssoc(a: nat, b: nat, c: nat)
    ensures Xor(Xor(a, b), c) == Xor(a, Xor(b, c))
    decreases a + b + c
  {
    if a != 0 || b != 0 || c != 0 {
      XorAssoc(a / 2, b / 2, c / 2);
      AssocHalves(a, b, c);
      var x, y := Xor(Xor(a, b), c), Xor(a, Xor(b, c));
      assert x == 2 * (x / 2) + x % 2 && y == 2 * (y / 2) + y % 2;
    }
  }

  lemma AssocHalves(a: nat, b: nat, c: nat)
    ensures Xor(Xor(a, b), c) / 2 == Xor(Xor(a / 2, b / 2), c / 2)
    ensures Xor(a, Xor(b, c)) / 2 == Xor(a / 2, Xor(b / 2, c / 2))
    ensures Xor(Xor(a, b), c) % 2 == Xor(a, Xor(b, c)) % 2
  {
    hide Xor;
    XorHalf(a, b);
    XorHalf(b, c);
    XorHalf(Xor(a, b), c);
    XorHalf(a, Xor(b, c));
    ParityAssoc(a % 2, b % 2, c % 2);
  }

  lemma ParityAssoc(p: nat, q: nat, r: nat)
    requires p < 2 && q < 2 && r < 2
    ensures ((p + q) % 2 + r) % 2 == (p + (q + r) % 2) % 2
  {
  }

  lemma XorHalf(a: nat, b: nat)
    ensures Xor(a, b) / 2 == Xor(a / 2, b / 2)
    ensures Xor(a, b) % 2 == (a % 2 + b % 2) % 2
  {
  }

  /** Equal words are the only ones that cancel. */
  lemma {:induction false} XorCancels(a: nat, b: nat)
    requires Xor(a, b) == 0
    ensures a == b
    decreases a + b
  {
    if a != 0 || b != 0 {
      XorHalf(a, b);
      XorCancels(a / 2, b / 2);
    }
  }

  /** Two words of n bits combine to a word of n bits. */
  lemma {:induction false} XorBound(a: nat, b: nat, n: nat)
    requires a < Shl(1, n) && b < Shl(1, n)
    ensures Xor(a, b) < Shl(1, n)
    decreases n
  {
    if n > 0 && (a != 0 || b != 0) { XorBound(a / 2, b / 2, n - 1); }
  }

  /** w shifted left by n bits. */
  function Shl(w: nat, n: nat): (r: nat)
    decreases n
  {
    if n == 0 then w else 2 * Shl(w, n - 1)
  }

  lemma {:induction false} ShlAdd(w: nat, m: nat, n: nat)
    ensures Shl(Shl(w, m), n) == Shl(w, m + n)
    decreases n
  {
    if n > 0 { ShlAdd(w, m, n - 1); }
  }

  lemma {:induction false} XorShl(a: nat, b: nat, n: nat)
    ensures Xor(Shl(a, n), Shl(b, n)) == Shl(Xor(a, b), n)
    decreases n
  {
    hide Xor;
    if n > 0 {
      XorShl(a, b, n - 1);
      XorDouble(Shl(a, n - 1), Shl(b, n - 1));
    }
  }

  lemma XorDouble(a: nat, b: nat)
    ensures Xor(2 * a, 2 * b) == 2 * Xor(a, b)
  {
    assert (2 * a) / 2 == a && (2 * b) / 2 == b;
  }

  /** What lies above the bits of the second operand stays. */
  lemma {:induction false} XorLow(h: nat, a: nat, b: nat, n: nat)
    requires a < Shl(1, n) && b < Shl(1, n)
    ensures Xor(Shl(h, n) + a, b) == Shl(h, n) + Xor(a, b)
    decreases n
  {
    hide Xor;
    if n == 0 {
      XorZero(h);
      XorZero(0);
    } else {
      XorLow(h, a / 2, b / 2, n - 1);
      XorAbove(Shl(h, n - 1), a, b);
    }
  }

  lemma XorAbove(w: nat, a: nat, b: nat)
    requires Xor(w + a / 2, b / 2) == w + Xor(a / 2, b / 2)
    ensures Xor(2 * w + a, b) == 2 * w + Xor(a, b)
  {
    hide Xor;
    assert (2 * w + a) / 2 == w + a / 2 && (2 * w + a) % 2 == a % 2;
    XorParts(2 * w + a, b);
    XorParts(a, b);
  }

  lemma XorParts(a: nat, b: nat)
    ensures Xor(a, b) == 2 * Xor(a / 2, b / 2) + (a % 2 + b % 2) % 2
  {
  }

  /** A byte changes only the low byte. */
  lemma XorByte(h: nat, a: nat, b: nat)
    requires a < 0x100 && b < 0x100
    ensures Xor(0x100 * h + a, b) == 0x100 * h + Xor(a, b)
  {
    EightBits(h);
    EightBits(1);
    XorLow(h, a, b, 8);
  }

  lemma EightBits(h: nat)
    ensures Shl(h, 8) == 0x100 * h
  {
    var four := Shl(h, 4);
    ShlAdd(h, 4, 4);
    assert four == 16 * h && Shl(four, 4) == 16 * four;
  }

  /** (a xor b) xor (c xor d) pairs up as (a xor c) xor (b xor d). */
  lemma XorSwap(a: nat, b: nat, c: nat, d: nat)
    ensures Xor(Xor(a, b), Xor(c, d)) == Xor(Xor(a, c), Xor(b, d))
  {
    hide Xor;
    XorAssoc(a, b, Xor(c, d));
    XorAssoc(b, c, d);
    XorComm(b, c);
    XorAssoc(c, b, d);
    XorAssoc(a, c, Xor(b, d));
  }
}

/** CRC-32 as in section 8 of RFC 1952: the reflected polynomial, all-ones start
    value and final complement, computed one bit at a time. */
module Crc32 {
  import opened Words
  import opened Bitwise

  const POLY: u32 := 0xEDB8_8320

  /** One bit step of the shift register. */
  function Shift(s: nat): (r: nat) {
    Xor(s / 2, if s % 2 == 1 then POLY else 0)
  }

  function ShiftN(s: nat, n: nat): (r: nat)
    decreases n
  {
    if n == 0 then s else ShiftN(Shift(s), n - 1)
  }

  /** The register after a whole message. */
  function Run(s: nat, m: seq<byte>): (r: nat)
    decreases |m|
  {
    if m == [] then s else Run(ShiftN(Xor(s, m[0]), 8), m[1..])
  }

  function Crc(m: seq<byte>): (c: u32)
  {
    RunBound(U32_MAX, m);
    U32_MAX - Run(U32_MAX, m)
  }

  /** The loop of QueueRecordCodec::crc32. */
  method ComputeCrc(input: seq<byte>) returns (c: u32)
    ensures c == Crc(input)
  {
    var crc: u32 := U32_MAX;
    for index := 0 to |input|
      invariant Run(crc, input[index..]) == Run(U32_MAX, input)
    {
      ghost var before := crc;
      Pow32();
      XorBound(crc, input[index], 32);
      crc := Xor(crc, input[index]);
      ghost var mixed := crc;
      for bit := 0 to 8
        invariant ShiftN(crc, 8 - bit) == ShiftN(mixed, 8)
      {
        ShiftBound(crc);
        crc := Shift(crc);
      }
      assert crc == ShiftN(crc, 0);
      assert input[index..][1..] == input[index + 1..];
      assert Run(before, input[index..]) == Run(crc, input[index + 1..]);
    }
    RunBound(U32_MAX, input);
    c := U32_MAX - crc;
  }

  /** Published values: no bytes, four bytes of all ones, and the entry of the table in
      section 8 of RFC 1952 that is the polynomial itself. */
  lemma PublishedCrc(ones: seq<byte>)
    requires |ones| == 4 && forall i | 0 <= i < 4 :: ones[i] == 0xFF
    ensures Crc([]) == 0 && Crc(ones) == 0xFFFF_FFFF && ShiftN(0x80, 8) == 0xEDB8_8320
  {
    hide Xor;
    RunBound(U32_MAX, ones);
    ClearByte(0xFF_FFFF);
    ClearByte(0xFFFF);
    ClearByte(0xFF);
    ClearByte(0);
    assert Run(U32_MAX, ones) == Run(0xFF_FFFF, ones[1..]);
    assert Run(0xFF_FFFF, ones[1..]) == Run(0xFFFF, ones[1..][1..]);
    assert Run(0xFFFF, ones[1..][1..]) == Run(0xFF, ones[1..][1..][1..]);
    assert Run(0xFF, ones[1..][1..][1..]) == Run(0, ones[1..][1..][1..][1..]) == 0;
    TopBit();
  }

  /** A register whose low byte the message clears loses that byte. */
  lemma ClearByte(h: nat)
    ensures ShiftN(Xor(0x100 * h + 0xFF, 0xFF), 8) == h
  {
    hide Xor, ShiftN;
    XorByte(h, 0xFF, 0xFF);
    XorSelf(0xFF);
    EightBits(h);
    ShiftZeros(h, 8);
  }

  lemma {:induction false} ShiftZeros(h: nat, n: nat)
    ensures ShiftN(Shl(h, n), n) == h
    decreases n
  {
    hide Xor;
    if n > 0 {
      XorZero(Shl(h, n - 1));
      assert Shift(Shl(h, n)) == Shl(h, n - 1);
      ShiftZeros(h, n - 1);
    }
  }

  lemma TopBit()
    ensures ShiftN(0x80, 8) == POLY
  {
    hide Xor;
    ShiftZeros(1, 7);
    assert Shl(1, 4) == 16 && Shl(16, 3) == 0x80;
    ShlAdd(1, 4, 3);
    ShiftMore(0x80, 7);
    XorZero(POLY);
    assert ShiftN(0x80, 8) == Shift(1);
  }

  /** One more step at the end. */
  lemma {:induction false} ShiftMore(s: nat, n: nat)
    ensures ShiftN(s, n + 1) == Shift(ShiftN(s, n))
    decreases n
  {
    hide Shift;
    if n > 0 {
      ShiftMore(Shift(s), n - 1);
    } else {
      assert ShiftN(Shift(s), 0) == Shift(s);
    }
  }

  // ---- the register stays within 32 bits ----

  lemma Pow32()
    ensures Shl(1, 32) == 0x1_0000_0000
  {
    assert Shl(1, 8) == 0x100;
    ShlAdd(1, 8, 8);
    assert Shl(0x100, 8) == 0x1_0000;
    ShlAdd(1, 16, 8);
    assert Shl(0x1_0000, 8) == 0x100_0000;
    ShlAdd(1, 24, 8);
    assert Shl(0x100_0000, 8) == 0x1_0000_0000;
  }

  lemma ShiftBound(s: u32)
    ensures Shift(s) < 0x1_0000_0000
  {
    Pow32();
    XorBound(s / 2, if s % 2 == 1 then POLY else 0, 32);
  }

  lemma {:induction false} ShiftNBound(s: u32, n: nat)
    ensures ShiftN(s, n) < 0x1_0000_0000
    decreases n
  {
    if n > 0 {
      ShiftBound(s);
      ShiftNBound(Shift(s), n - 1);
    }
  }

  lemma {:induction false} RunBound(s: u32, m: seq<byte>)
    ensures Run(s, m) < 0x1_0000_0000
    decreases |m|
  {
    if m != [] {
      Pow32();
      XorBound(s, m[0], 32);
      ShiftNBound(Xor(s, m[0]), 8);
      RunBound(ShiftN(Xor(s, m[0]), 8), m[1..]);
    }
  }

  // ---- the bit step is linear, undoes a left shift and loses no 32-bit word ----

  lemma ShiftLinear(a: nat, b: nat)
    ensures Shift(Xor(a, b)) == Xor(Shift(a), Shift(b))
  {
    hide Xor;
    XorHalf(a, b);
    var pa, pb := if a % 2 == 1 then POLY else 0, if b % 2 == 1 then POLY else 0;
    XorSwap(a / 2, pa, b / 2, pb);
    XorZero(POLY);
    XorSelf(POLY);
    XorZero(0);
  }

  lemma ShiftHalves(w: nat)
    ensures Shift(2 * w) == w
  {
    hide Xor;
    XorZero(w);
  }

  lemma ShiftKeepsNonZero(s: u32)
    requires s != 0
    ensures Shift(s) != 0
  {
    XorZero(s / 2);
    if s % 2 == 1 && Shift(s) == 0 {
      XorCancels(s / 2, POLY);
    }
  }

  lemma {:induction false} ShiftNLinear(a: nat, b: nat, n: nat)
    ensures ShiftN(Xor(a, b), n) == Xor(ShiftN(a, n), ShiftN(b, n))
    decreases n
  {
    hide Xor, Shift;
    if n > 0 {
      ShiftLinear(a, b);
      ShiftNLinear(Shift(a), Shift(b), n - 1);
    }
  }

  lemma {:induction false} ShiftNUndoesShl(w: nat, n: nat)
    ensures ShiftN(Shl(w, n), n) == w
    decreases n
  {
    if n > 0 {
      ShiftHalves(Shl(w, n - 1));
      ShiftNUndoesShl(w, n - 1);
    }
  }

  lemma {:induction false} ShiftNKeepsNonZero(s: u32, n: nat)
    requires s != 0
    ensures ShiftN(s, n) != 0
    decreases n
  {
    if n > 0 {
      ShiftBound(s);
      ShiftKeepsNonZero(s);
      ShiftNKeepsNonZero(Shift(s), n - 1);
    }
  }

  lemma {:induction false} ShiftNAdd(s: nat, m: nat, n: nat)
    ensures ShiftN(ShiftN(s, m), n) == ShiftN(s, m + n)
    decreases m
  {
    if m > 0 { ShiftNAdd(Shift(s), m - 1, n); }
  }

  // ---- a message as one number, least significant byte first ----

  function Little(m: seq<byte>): (r: nat)
    decreases |m|
  {
    if m == [] then 0 else Xor(m[0], Shl(Little(m[1..]), 8))
  }

  /** The register after a message is its start value xor the message, shifted
      once for every bit. */
  lemma {:induction false} RunIsShift(s: nat, m: seq<byte>)
    ensures Run(s, m) == ShiftN(Xor(s, Little(m)), 8 * |m|)
    decreases |m|
  {
    hide Xor, Shift, Shl;
    if m == [] {
      XorZero(s);
    } else {
      var b, tail := m[0], m[1..];
      var high := Shl(Little(tail), 8);
      var t := ShiftN(Xor(s, b), 8);
      RunIsShift(t, tail);
      ShiftNUndoesShl(Little(tail), 8);
      ShiftNLinear(Xor(s, b), high, 8);
      XorAssoc(s, b, high);
      ShiftNAdd(Xor(s, Little(m)), 8, 8 * |tail|);
      assert 8 + 8 * |tail| == 8 * |m|;
    }
  }

  /** What two messages of one length differ by, as one number. */
  function Difference(m: seq<byte>, n: seq<byte>): (d: nat)
    requires |m| == |n|
  {
    Xor(Little(m), Little(n))
  }

  /** The two checksums agree exactly when the difference shifts out to zero. */
  lemma CollisionIff(m: seq<byte>, n: seq<byte>)
    requires |m| == |n|
    ensures Crc(m) == Crc(n) <==> ShiftN(Difference(m, n), 8 * |m|) == 0
  {
    hide Xor, Little, ShiftN, Run;
    var k := 8 * |m|;
    RunBound(U32_MAX, m);
    RunBound(U32_MAX, n);
    RunIsShift(U32_MAX, m);
    RunIsShift(U32_MAX, n);
    ShiftNLinear(Xor(U32_MAX, Little(m)), Xor(U32_MAX, Little(n)), k);
    XorSwap(U32_MAX, Little(m), U32_MAX, Little(n));
    XorSelf(U32_MAX);
    XorZero(Difference(m, n));
    var x, y := Run(U32_MAX, m), Run(U32_MAX, n);
    assert Xor(x, y) == ShiftN(Difference(m, n), k);
    if x == y { XorSelf(x); }
    if Xor(x, y) == 0 { XorCancels(x, y); }
  }

  /** Every error burst is caught: a difference confined to 32 consecutive bits,
      wherever it starts and however it straddles bytes. */
  lemma BurstDetected(m: seq<byte>, n: seq<byte>, start: nat, burst: u32)
    requires |m| == |n| && start <= 8 * |m|
    requires burst != 0 && Difference(m, n) == Shl(burst, start)
    ensures Crc(m) != Crc(n)
  {
    hide Xor, Shl, Little, Shift, Crc;
    var k := 8 * |m|;
    ShiftNAdd(Shl(burst, start), start, k - start);
    ShiftNUndoesShl(burst, start);
    ShiftNKeepsNonZero(burst, k - start);
    CollisionIff(m, n);
  }

  lemma {:induction false} LittleAppend(m: seq<byte>, n: seq<byte>)
    ensures Little(m + n) == Xor(Little(m), Shl(Little(n), 8 * |m|))
    decreases |m|
  {
    hide Xor;
    if m == [] {
      assert m + n == n;
      XorZero(Little(n));
    } else {
      var tail := m[1..];
      assert (m + n)[0] == m[0] && (m + n)[1..] == tail + n;
      LittleAppend(tail, n);
      XorShl(Little(tail), Shl(Little(n), 8 * |tail|), 8);
      ShlAdd(Little(n), 8 * |tail|, 8);
      assert 8 * |tail| + 8 == 8 * |m|;
      XorAssoc(m[0], Shl(Little(tail), 8), Shl(Little(n), 8 * |m|));
    }
  }

  lemma {:induction false} LittleBound(m: seq<byte>)
    ensures Little(m) < Shl(1, 8 * |m|)
    decreases |m|
  {
    hide Xor;
    if m != [] {
      var tail := m[1..];
      LittleBound(tail);
      ShlMonotone(Little(tail), Shl(1, 8 * |tail|), 8);
      ShlAdd(1, 8 * |tail|, 8);
      assert 8 * |tail| + 8 == 8 * |m|;
      assert Shl(1, 8) == 0x100;
      ShlPositive(8 * |tail|);
      ShlMonotone(1, Shl(1, 8 * |tail|), 8);
      XorBound(m[0], Shl(Little(tail), 8), 8 * |m|);
    }
  }

  lemma {:induction false} ShlPositive(n: nat)
    ensures Shl(1, n) >= 1
    decreases n
  {
    if n > 0 { ShlPositive(n - 1); }
  }

  lemma {:induction false} ShlMonotone(a: nat, b: nat, n: nat)
    ensures a < b ==> Shl(a, n) < Shl(b, n)
    ensures a <= b ==> Shl(a, n) <= Shl(b, n)
    decreases n
  {
    if n > 0 { ShlMonotone(a, b, n - 1); }
  }

  lemma {:induction false} LittleInjective(m: seq<byte>, n: seq<byte>)
    requires |m| == |n| && Little(m) == Little(n)
    ensures m == n
    decreases |m|
  {
    if m != [] {
      LowByte(m[0], Little(m[1..]));
      LowByte(n[0], Little(n[1..]));
      LittleInjective(m[1..], n[1..]);
      assert m == [m[0]] + m[1..] && n == [n[0]] + n[1..];
    }
  }

  lemma {:induction false} LowByte(b: byte, high: nat)
    ensures Xor(b, Shl(high, 8)) == b + Shl(high, 8) && Shl(high, 8) == 0x100 * high
  {
    assert Shl(high, 8) == 0x100 * high;
    LowBits(b, high, 8);
  }

  lemma {:induction false} LowBits(low: nat, high: nat, n: nat)
    requires low < Shl(1, n)
    ensures Xor(low, Shl(high, n)) == low + Shl(high, n)
    decreases n
  {
    if n == 0 {
      XorZero(high);
    } else {
      LowBits(low / 2, high, n - 1);
      XorHalf(low, Shl(high, n));
    }
  }

  /** Byte form of the burst law: two messages that agree outside a window of at
      most four bytes, and differ inside it, have different checksums. */
  lemma WindowDetected(head: seq<byte>, w: seq<byte>, w': seq<byte>, tail: seq<byte>)
    requires |w| == |w'| <= 4 && w != w'
    ensures Crc(head + w + tail) != Crc(head + w' + tail)
  {
    hide Xor, Shl, Little, Crc;
    var at, after := 8 * |head|, 8 * |head + w|;
    var burst := Xor(Little(w), Little(w'));
    LittleAppend(head + w, tail);
    LittleAppend(head + w', tail);
    LittleAppend(head, w);
    LittleAppend(head, w');
    var t := Shl(Little(tail), after);
    XorSwap(Little(head + w), t, Little(head + w'), t);
    XorSelf(t);
    XorZero(Xor(Little(head + w), Little(head + w')));
    XorSwap(Little(head), Shl(Little(w), at), Little(head), Shl(Little(w'), at));
    XorSelf(Little(head));
    XorZero(Xor(Shl(Little(w), at), Shl(Little(w'), at)));
    XorShl(Little(w), Little(w'), at);
    BurstFits(w, w');
    if burst == 0 {
      XorCancels(Little(w), Little(w'));
      LittleInjective(w, w');
    }
    BurstDetected(head + w + tail, head + w' + tail, at, burst);
  }

  lemma BurstFits(w: seq<byte>, w': seq<byte>)
    requires |w| == |w'| <= 4
    ensures Xor(Little(w), Little(w')) < 0x1_0000_0000
  {
    hide Xor, Little;
    LittleBound(w);
    LittleBound(w');
    XorBound(Little(w), Little(w'), 8 * |w|);
    Pow32();
    ShlAdd(1, 8 * |w|, 32 - 8 * |w|);
    ShlGrows(Shl(1, 8 * |w|), 32 - 8 * |w|);
  }

  lemma {:induction false} ShlGrows(w: nat, n: nat)
    ensures w <= Shl(w, n)
    decreases n
  {
    if n > 0 { ShlGrows(w, n - 1); }
  }
}
