/** Telemetry keys: C strings in fixed buffers, their comparison and their hash. */
module TelemetryKeys {
  import opened Words
  import opened Bitwise
  import opened Protocol

  /** A node-id buffer: a C string, terminated by the first zero byte if there is one. */
  type NodeBuffer = s: seq<byte> | |s| == NODE_ID_CAPACITY witness seq(NODE_ID_CAPACITY, _ => 0)

  datatype TelemetryKey = TelemetryKey(nodeId: NodeBuffer, session: u32, sequence: u32)

  /** strnlen */
  function StrLen(a: seq<byte>): (n: nat)
    ensures n <= |a| && (n < |a| ==> a[n] == 0)
    ensures forall i | 0 <= i < n :: a[i] != 0
  {
    if a == [] || a[0] == 0 then 0 else
      var n := StrLen(a[1..]);
      assert forall i | 0 <= i < n + 1 :: i == 0 || a[i] == a[1..][i - 1];
      n + 1
  }

  function CStr(a: seq<byte>): (s: seq<byte>) { a[..StrLen(a)] }

  /** strncmp(a, b, n) == 0 on buffers of n bytes: compare up to the first difference
      or the first common terminator. */
  predicate StrEqual(a: seq<byte>, b: seq<byte>)
    requires |a| == |b|
  {
    a == [] || (a[0] == b[0] && (a[0] == 0 || StrEqual(a[1..], b[1..])))
  }

  function Zeros(n: nat): (s: seq<byte>)
    ensures |s| == n
  {
    seq(n, _ => 0)
  }

  /** makeTelemetryKey: strncpy of at most 24 bytes into a zeroed buffer. */
  function MakeKey(nodeId: seq<byte>, session: u32, sequence: u32): (k: TelemetryKey) {
    var n := if |nodeId| < NODE_ID_CAPACITY then nodeId else nodeId[..NODE_ID_CAPACITY - 1];
    TelemetryKey(n + Zeros(NODE_ID_CAPACITY - |n|), session, sequence)
  }

  function KeyOf(p: TelemetryPacket): (k: TelemetryKey) {
    MakeKey(p.nodeId, p.m.session, p.m.sequence)
  }

  predicate KeyEqual(a: TelemetryKey, b: TelemetryKey) {
    StrEqual(a.nodeId, b.nodeId) && a.session == b.session && a.sequence == b.sequence
  }

  /** strncmp compares exactly the strings before the terminators. */
  lemma {:induction false} StrEqualIff(a: seq<byte>, b: seq<byte>)
    requires |a| == |b|
    ensures StrEqual(a, b) <==> CStr(a) == CStr(b)
    decreases |a|
  {
    if a != [] {
      StrEqualIff(a[1..], b[1..]);
      if a[0] != 0 { assert CStr(a) == [a[0]] + CStr(a[1..]); }
      if b[0] != 0 { assert CStr(b) == [b[0]] + CStr(b[1..]); }
      if a[0] == b[0] != 0 {
        assert CStr(a)[1..] == CStr(a[1..]) && CStr(b)[1..] == CStr(b[1..]);
      }
    }
  }

  /** Keys built from valid node ids keep the id and are equal only if identical. */
  lemma KeyKeepsId(nodeId: seq<byte>, session: u32, sequence: u32)
    requires NodeIdValid(nodeId)
    ensures CStr(MakeKey(nodeId, session, sequence).nodeId) == nodeId
  {
    var a := MakeKey(nodeId, session, sequence).nodeId;
    forall i | 0 <= i < |nodeId|
      ensures a[i] != 0
    {
      assert ValidNodeByte(nodeId[i]);
    }
    assert a[|nodeId|] == 0;
  }

  /** A key as the gateway builds it from a decoded packet. */
  ghost predicate Proper(k: TelemetryKey) {
    NodeIdValid(CStr(k.nodeId)) && k == MakeKey(CStr(k.nodeId), k.session, k.sequence)
  }

  lemma ProperKeyOf(p: TelemetryPacket)
    requires NodeIdValid(p.nodeId)
    ensures Proper(KeyOf(p))
  {
    KeyKeepsId(p.nodeId, p.m.session, p.m.sequence);
  }

  lemma ProperEqual(a: TelemetryKey, b: TelemetryKey)
    requires Proper(a) && Proper(b)
    ensures KeyEqual(a, b) <==> a == b
  {
    StrEqualIff(a.nodeId, b.nodeId);
  }

  /** Two packets report the same reading. */
  predicate SameReading(p: TelemetryPacket, q: TelemetryPacket) {
    p.nodeId == q.nodeId && p.m.session == q.m.session && p.m.sequence == q.m.sequence
  }

  /** The keys of two packets are taken for each other exactly when the packets report the
      same reading of the same node. */
  lemma KeyOfIff(p: TelemetryPacket, q: TelemetryPacket)
    requires NodeIdValid(p.nodeId) && NodeIdValid(q.nodeId)
    ensures KeyEqual(KeyOf(p), KeyOf(q)) <==> SameReading(p, q)
    ensures KeyOf(p) == KeyOf(q) <==> SameReading(p, q)
  {
    hide StrEqual;
    KeyKeepsId(p.nodeId, p.m.session, p.m.sequence);
    KeyKeepsId(q.nodeId, q.m.session, q.m.sequence);
    StrEqualIff(KeyOf(p).nodeId, KeyOf(q).nodeId);
  }

  // ---- the 64-bit FNV-1a hash of a key ----

  const FNV_OFFSET: u64 := 14695981039346656037
  const FNV_PRIME: u64 := 1099511628211

  function Mix(hash: u64, value: byte): (h: u64) {
    (Xor(hash, value) * FNV_PRIME) % 0x1_0000_0000_0000_0000
  }

  function MixAll(hash: u64, s: seq<byte>): (h: u64)
    decreases |s|
  {
    if s == [] then hash else MixAll(Mix(hash, s[0]), s[1..])
  }

  /** The bytes that are hashed: the id's length and characters, then both counters. */
  function HashInput(k: TelemetryKey): (s: seq<byte>) {
    [StrLen(k.nodeId)] + (CStr(k.nodeId) + (PutU32(k.session) + PutU32(k.sequence)))
  }

  function KeyHash(k: TelemetryKey): (h: u64) {
    MixAll(FNV_OFFSET, HashInput(k))
  }

  /** What is hashed is as much as what is compared. */
  lemma HashInputIff(a: TelemetryKey, b: TelemetryKey)
    ensures HashInput(a) == HashInput(b) <==> KeyEqual(a, b)
  {
    hide PutU32, StrEqual;
    StrEqualIff(a.nodeId, b.nodeId);
    assert StrLen(a.nodeId) == |CStr(a.nodeId)| && StrLen(b.nodeId) == |CStr(b.nodeId)|;
    if HashInput(a) == HashInput(b) {
      HashInputParts(a);
      HashInputParts(b);
      PutU32Injective(a.session, b.session);
      PutU32Injective(a.sequence, b.sequence);
    }
  }

  lemma HashInputParts(k: TelemetryKey)
    ensures var s, n := HashInput(k), StrLen(k.nodeId);
            |s| == n + 9 && s[0] == n && s[1..n + 1] == CStr(k.nodeId) &&
            s[n + 1..n + 5] == PutU32(k.session) && s[n + 5..] == PutU32(k.sequence)
  {
    hide PutU32, StrLen;
  }

  /** The published 64-bit FNV-1a hash of the letter a. */
  lemma PublishedFnv()
    ensures MixAll(FNV_OFFSET, [0x61]) == 0xAF63_DC4C_8601_EC8C
  {
    hide Xor;
    XorByte(0xCB_F29C_E484_2223, 0x25, 0x61);
    LetterA();
    MixNothing(Mix(FNV_OFFSET, 0x61));
    assert [0x61][1..] == [];
    assert Xor(FNV_OFFSET, 0x61) == 0xCBF2_9CE4_8422_2344;
  }

  lemma LetterA()
    ensures Xor(0x25, 0x61) == 0x44
  {
    hide Xor;
    XorParts(0x25, 0x61);
    XorParts(0x12, 0x30);
    XorParts(0x9, 0x18);
    XorParts(0x4, 0xC);
    XorParts(0x2, 0x6);
    XorParts(0x1, 0x3);
    XorParts(0x0, 0x1);
    XorZero(0);
  }

  method MixBytes(hash: u64, s: seq<byte>, ghost rest: seq<byte>) returns (h: u64)
    ensures MixAll(h, rest) == MixAll(hash, s + rest)
  {
    hide Mix;
    h := hash;
    for i := 0 to |s|
      invariant MixAll(h, s[i..] + rest) == MixAll(hash, s + rest)
    {
      assert (s[i..] + rest)[0] == s[i] && (s[i..] + rest)[1..] == s[i + 1..] + rest;
      h := Mix(h, s[i]);
    }
    assert s[|s|..] + rest == rest;
  }

  method ComputeKeyHash(k: TelemetryKey) returns (h: u64)
    ensures h == KeyHash(k)
  {
    hide MixAll, PutU32;
    var counters := PutU32(k.session) + PutU32(k.sequence);
    h := MixBytes(FNV_OFFSET, [StrLen(k.nodeId)], CStr(k.nodeId) + counters);
    h := MixBytes(h, CStr(k.nodeId), counters);
    h := MixBytes(h, PutU32(k.session), PutU32(k.sequence));
    assert PutU32(k.sequence) + [] == PutU32(k.sequence);
    h := MixBytes(h, PutU32(k.sequence), []);
    assert MixAll(h, []) == h by { MixNothing(h); }
  }

  lemma MixNothing(h: u64)
    ensures MixAll(h, []) == h
  {
  }

  /** Keys that compare equal hash alike, whatever follows their terminators. */
  lemma EqualKeysHashAlike(a: TelemetryKey, b: TelemetryKey)
    requires KeyEqual(a, b)
    ensures KeyHash(a) == KeyHash(b)
  {
    hide MixAll;
    StrEqualIff(a.nodeId, b.nodeId);
    assert StrLen(a.nodeId) == |CStr(a.nodeId)| == StrLen(b.nodeId);
  }
}

/** The recent-key ring and its persisted form. */
module RecentKeys {
  import opened Words
  import opened Crc32
  import opened Cursors
  import opened Protocol
  import opened TelemetryKeys

  const RECENT_CAPACITY := 64
  const RECENT_MAGIC: u32 := 0x4754_4431

  predicate Knows(s: seq<TelemetryKey>, k: TelemetryKey) {
    exists i | 0 <= i < |s| :: KeyEqual(s[i], k)
  }

  /** One remember on the abstract contents, oldest first. */
  function Remembered(s: seq<TelemetryKey>, capacity: nat, k: TelemetryKey): (r: seq<TelemetryKey>)
    requires |s| <= capacity && capacity > 0
    ensures |r| <= capacity
  {
    if Knows(s, k) then s
    else if |s| < capacity then s + [k]
    else s[1..] + [k]
  }

  lemma WrapOnce(x: nat, n: nat)
    requires 0 < n && x < 2 * n
    ensures x % n == if x < n then x else x - n
  {
    if x >= n { assert x == n * 1 + (x - n); }
  }

  /** A ring that is not full has its keys in front; a new one follows them. */
  lemma Appended(was: seq<TelemetryKey>, at: nat, capacity: nat, k: TelemetryKey)
    requires at < capacity <= |was|
    ensures var now := was[at := k];
            now[..at + 1] == was[..at] + [k] && (at + 1 == capacity ==> now[0..capacity] + now[..0] == was[..at] + [k])
  {
  }

  /** A full ring starts behind the write position; a new key replaces the oldest. */
  lemma Replaced(was: seq<TelemetryKey>, at: nat, capacity: nat, k: TelemetryKey)
    requires at < capacity <= |was|
    ensures var now, before := was[at := k], was[at..capacity] + was[..at];
            now[at + 1..capacity] + now[..at + 1] == before[1..] + [k] &&
            (at + 1 == capacity ==> now[0..capacity] + now[..0] == before[1..] + [k])
  {
  }

  class RecentDeduplicator {
    const capacity: nat
    const keys: array<TelemetryKey>
    var size: nat
    var next: nat

    ghost predicate Valid()
      reads this, keys
    {
      keys.Length == RECENT_CAPACITY && 0 < capacity <= RECENT_CAPACITY &&
      size <= capacity && next < capacity && (size < capacity ==> next == size)
    }

    /** What the ring remembers, oldest first. */
    ghost function Contents(): (s: seq<TelemetryKey>)
      reads this, keys
      requires Valid()
    {
      if size < capacity then keys[..size] else keys[next..capacity] + keys[..next]
    }

    lemma Fits()
      requires Valid()
      ensures |Contents()| == size <= capacity
    {
    }

    constructor (wanted: nat)
      ensures Valid() && fresh(keys) && Contents() == []
      ensures capacity == if wanted == 0 then 1 else if wanted > RECENT_CAPACITY then RECENT_CAPACITY else wanted
    {
      capacity := if wanted == 0 then 1 else if wanted > RECENT_CAPACITY then RECENT_CAPACITY else wanted;
      keys := new TelemetryKey[RECENT_CAPACITY](_ => TelemetryKey(Zeros(NODE_ID_CAPACITY), 0, 0));
      size, next := 0, 0;
    }

    function OldestAt(index: nat): (k: TelemetryKey)
      reads this, keys
      requires Valid() && index < size
      ensures index < |Contents()| && k == Contents()[index]
    {
      var oldest := if size < capacity then 0 else next;
      WrapOnce(oldest + index, capacity);
      keys[(oldest + index) % capacity]
    }

    method Contains(k: TelemetryKey) returns (found: bool)
      requires Valid()
      ensures found <==> Knows(Contents(), k)
    {
      for index := 0 to size
        invariant forall i | 0 <= i < index :: !KeyEqual(Contents()[i], k)
      {
        if KeyEqual(OldestAt(index), k) { return true; }
      }
      return false;
    }

    method Remember(k: TelemetryKey) returns (changed: bool)
      requires Valid()
      modifies this, keys
      ensures Valid() && changed == !Knows(old(Contents()), k)
      ensures Contents() == Remembered(old(Contents()), capacity, k)
    {
      hide KeyEqual, Knows;
      var found := Contains(k);
      if found { return false; }
      ghost var was, at := keys[..], next;
      keys[next] := k;
      WrapOnce(next + 1, capacity);
      next := (next + 1) % capacity;
      if size < capacity {
        Appended(was, at, capacity, k);
        size := size + 1;
      } else {
        Replaced(was, at, capacity, k);
      }
      assert keys[..] == was[at := k];
      return true;
    }

    method Clear()
      requires Valid()
      modifies this
      ensures Valid() && Contents() == []
    {
      size, next := 0, 0;
    }
  }

  // ---- any sequence of remembers ----

  function RememberAll(s: seq<TelemetryKey>, capacity: nat, ks: seq<TelemetryKey>): (r: seq<TelemetryKey>)
    requires |s| <= capacity && capacity > 0
    ensures |r| <= capacity
    decreases |ks|
  {
    if ks == [] then s else RememberAll(Remembered(s, capacity, ks[0]), capacity, ks[1..])
  }

  function Last(s: seq<TelemetryKey>, n: nat): (r: seq<TelemetryKey>) {
    if |s| <= n then s else s[|s| - n..]
  }

  /** Reference: the log of all keys that were new when they arrived, where new means
      not among the last `capacity` of the log. */
  function Log(log: seq<TelemetryKey>, capacity: nat, ks: seq<TelemetryKey>): (r: seq<TelemetryKey>)
    decreases |ks|
  {
    if ks == [] then log
    else Log(if Knows(Last(log, capacity), ks[0]) then log else log + [ks[0]], capacity, ks[1..])
  }

  predicate Distinct(s: seq<TelemetryKey>) {
    forall i, j | 0 <= i < j < |s| :: !KeyEqual(s[i], s[j])
  }

  /** For every sequence of remembers the ring holds exactly the newest `capacity`
      entries of that log, and never one key twice. */
  lemma {:induction false} RingHoldsNewest(log: seq<TelemetryKey>, capacity: nat, ks: seq<TelemetryKey>)
    requires capacity > 0 && Distinct(Last(log, capacity))
    ensures RememberAll(Last(log, capacity), capacity, ks) == Last(Log(log, capacity, ks), capacity)
    ensures Distinct(Last(Log(log, capacity, ks), capacity))
    decreases |ks|
  {
    hide KeyEqual;
    if ks != [] {
      var s, k := Last(log, capacity), ks[0];
      var log' := if Knows(s, k) then log else log + [k];
      assert Remembered(s, capacity, k) == Last(log', capacity);
      RingHoldsNewest(log', capacity, ks[1..]);
    }
  }

  /** Remembering keys that are already distinct and fit rebuilds them in order. */
  lemma {:induction false} RememberDistinct(s: seq<TelemetryKey>, capacity: nat, ks: seq<TelemetryKey>)
    requires capacity > 0 && |s + ks| <= capacity && Distinct(s + ks)
    ensures RememberAll(s, capacity, ks) == s + ks
    decreases |ks|
  {
    hide KeyEqual;
    if ks != [] {
      assert forall i | 0 <= i < |s| :: (s + ks)[i] == s[i];
      assert (s + ks)[|s|] == ks[0];
      assert s + [ks[0]] + ks[1..] == s + ks;
      RememberDistinct(s + [ks[0]], capacity, ks[1..]);
    } else {
      assert s + ks == s;
    }
  }

  // ---- the persisted ring ----

  function PutKey(k: TelemetryKey, rest: seq<byte>): (s: seq<byte>)
    ensures |s| == 9 + StrLen(k.nodeId) + |rest|
  {
    [StrLen(k.nodeId)] + (CStr(k.nodeId) + (PutU32(k.session) + (PutU32(k.sequence) + rest)))
  }

  function PutKeys(ks: seq<TelemetryKey>): (s: seq<byte>)
    ensures |s| <= 34 * |ks|
  {
    if ks == [] then [] else PutKey(ks[0], PutKeys(ks[1..]))
  }

  function RecentBody(ks: seq<TelemetryKey>): (s: seq<byte>)
    requires |ks| <= RECENT_CAPACITY
    ensures 5 <= |s| <= 5 + 34 * |ks|
  {
    PutU32(RECENT_MAGIC) + ([|ks|] + PutKeys(ks))
  }

  function RecentFile(ks: seq<TelemetryKey>): (s: seq<byte>)
    requires |ks| <= RECENT_CAPACITY
  {
    RecentBody(ks) + PutU32(Crc(RecentBody(ks)))
  }

  function ParseKey(s: seq<byte>): (r: Option<(TelemetryKey, seq<byte>)>)
    ensures r.Some? ==> |r.value.1| < |s|
  {
    var (length, s) :- ParseU8(s);
    if length == 0 || length >= NODE_ID_CAPACITY || |s| < length + 8 then None
    else
      var (name, s) :- ParseBytes(s, length);
      if !NodeIdValid(CStr(name)) then None
      else
        var (session, s) :- ParseU32(s);
        var (sequence, s) :- ParseU32(s);
        Some((MakeKey(CStr(name), session, sequence), s))
  }

  function ParseKeys(count: nat, s: seq<byte>): (r: Option<(seq<TelemetryKey>, seq<byte>)>)
    ensures r.Some? ==> |r.value.0| == count
    decreases count
  {
    if count == 0 then Some(([], s))
    else
      var (k, s) :- ParseKey(s);
      var (ks, s) :- ParseKeys(count - 1, s);
      Some(([k] + ks, s))
  }

  /** The keys a ring file lists, or nothing if the file is not one. */
  function DecodeRecent(s: seq<byte>): (r: Option<seq<TelemetryKey>>)
    ensures r.Some? ==> |r.value| <= RECENT_CAPACITY
  {
    if |s| < 9 || |s| > 4096 then None
    else if WordAt(s, |s| - 4) != Crc(s[..|s| - 4]) then None
    else DecodeRecentBody(s[..|s| - 4])
  }

  function DecodeRecentBody(s: seq<byte>): (r: Option<seq<TelemetryKey>>)
    ensures r.Some? ==> |r.value| <= RECENT_CAPACITY
  {
    var (magic, s) :- ParseU32(s);
    if magic != RECENT_MAGIC then None
    else
      var (count, s) :- ParseU8(s);
      if count > RECENT_CAPACITY then None
      else
        var (ks, s) :- ParseKeys(count, s);
        if s == [] then Some(ks) else None
  }

  method WriteRecent(ring: RecentDeduplicator) returns (file: seq<byte>)
    requires ring.Valid()
    ensures file == RecentFile(ring.Contents())
  {
    hide PutU32, Crc, PutKeys;
    var w := new Appender();
    ghost var ks := ring.Contents();
    ghost var all := PutKeys(ks);
    w.U32(RECENT_MAGIC, [|ks|] + all);
    w.U8(ring.size, all);
    assert ks[0..] == ks;
    for index := 0 to ring.size
      invariant w.output + PutKeys(ks[index..]) == RecentBody(ks)
    {
      var k := ring.OldestAt(index);
      ghost var r3 := PutKeys(ks[index + 1..]);
      ghost var r2 := PutU32(k.sequence) + r3;
      ghost var r1 := PutU32(k.session) + r2;
      PutKeysStep(ks, index);
      w.U8(StrLen(k.nodeId), CStr(k.nodeId) + r1);
      w.Bytes(CStr(k.nodeId), r1);
      w.U32(k.session, r2);
      w.U32(k.sequence, r3);
    }
    PutNoKeys();
    assert ks[ring.size..] == [];
    assert w.output == w.output + [] == RecentBody(ks);
    var crc := ComputeCrc(w.output);
    w.U32(crc, []);
    assert w.output == w.output + [];
    assert PutU32(crc) + [] == PutU32(crc);
    file := w.output;
  }

  lemma PutNoKeys()
    ensures PutKeys([]) == []
  {
  }

  lemma PutKeysStep(ks: seq<TelemetryKey>, index: nat)
    requires index < |ks|
    ensures PutKeys(ks[index..]) == PutKey(ks[index], PutKeys(ks[index + 1..]))
  {
    assert ks[index..][0] == ks[index] && ks[index..][1..] == ks[index + 1..];
  }

  method ReadKey(r: Reader) returns (ok: bool, k: TelemetryKey)
    requires r.Valid()
    modifies r
    ensures r.Valid() && (ok <==> ParseKey(old(r.Rest())).Some?)
    ensures ok ==> ParseKey(old(r.Rest())) == Some((k, r.Rest()))
  {
    hide ParseU8, ParseU32, ParseBytes, CStr, NodeIdValid, MakeKey;
    var length: byte, name: seq<byte>, session: u32, sequence: u32;
    k := TelemetryKey(Zeros(NODE_ID_CAPACITY), 0, 0);
    ok, length := r.U8();
    if !ok { return; }
    var left := r.Remaining();
    if length == 0 || length >= NODE_ID_CAPACITY || left < length + 8 { ok := false; return; }
    ok, name := r.Bytes(length);
    if !ok { return; }
    if !NodeIdValid(CStr(name)) { ok := false; return; }
    ok, session := r.U32();
    if !ok { return; }
    ok, sequence := r.U32();
    if !ok { return; }
    k := MakeKey(CStr(name), session, sequence);
  }

  /** loadRecent on the bytes of a file: on failure the caller clears the ring. */
  method LoadRecent(file: seq<byte>, ring: RecentDeduplicator) returns (ok: bool)
    requires ring.Valid() && ring.capacity == RECENT_CAPACITY
    modifies ring, ring.keys
    ensures ring.Valid()
    ensures ok <==> DecodeRecent(file).Some?
    ensures ok ==> ring.Contents() == RememberAll([], RECENT_CAPACITY, DecodeRecent(file).value)
  {
    hide Crc, ParseU8, ParseU32, ParseKey;
    if |file| < 9 || |file| > 4096 { return false; }
    var stored := WordAt(file, |file| - 4);
    var computed := ComputeCrc(file[..|file| - 4]);
    if stored != computed { return false; }
    var r := new Reader(file[..|file| - 4]);
    var magic: u32, count: byte;
    ok, magic := r.U32();
    if !ok || magic != RECENT_MAGIC { return false; }
    ok, count := r.U8();
    if !ok || count > RECENT_CAPACITY { return false; }
    ring.Clear();
    ok := LoadKeys(r, count, ring);
    if !ok { return false; }
    var left := r.Remaining();
    return left == 0;
  }

  method LoadKeys(r: Reader, count: nat, ring: RecentDeduplicator) returns (ok: bool)
    requires r.Valid() && ring.Valid()
    modifies r, ring, ring.keys
    ensures r.Valid() && ring.Valid()
    ensures ok <==> ParseKeys(count, old(r.Rest())).Some?
    ensures ok ==> r.Rest() == ParseKeys(count, old(r.Rest())).value.1 &&
                   ring.Contents() == RememberAll(old(ring.Contents()), ring.capacity,
                                                  ParseKeys(count, old(r.Rest())).value.0)
  {
    hide ParseKey, Remembered;
    ghost var whole := ParseKeys(count, r.Rest());
    ghost var start := ring.Contents();
    for index := 0 to count
      invariant r.Valid() && ring.Valid()
      invariant whole.Some? <==> ParseKeys(count - index, r.Rest()).Some?
      invariant whole.Some? ==>
        var (ks, rest) := ParseKeys(count - index, r.Rest()).value;
        whole.value.1 == rest &&
        RememberAll(start, ring.capacity, whole.value.0) == RememberAll(ring.Contents(), ring.capacity, ks)
    {
      ghost var left := ParseKeys(count - index, r.Rest());
      var read, k := ReadKey(r);
      if !read { return false; }
      var _ := ring.Remember(k);
      ghost var tail := ParseKeys(count - index - 1, r.Rest());
      if tail.Some? { assert left.value.0[0] == k && left.value.0[1..] == tail.value.0; }
    }
    return true;
  }

  // ---- persist, then load ----

  lemma ParsePutKey(k: TelemetryKey, rest: seq<byte>)
    requires Proper(k)
    ensures ParseKey(PutKey(k, rest)) == Some((k, rest))
  {
    hide PutU32, ParseU32, ParseU8, ParseBytes, MakeKey;
    var r2 := PutU32(k.sequence) + rest;
    var r1 := PutU32(k.session) + r2;
    var name := CStr(k.nodeId);
    ParsePutU8(StrLen(k.nodeId), name + r1);
    ParsePutBytes(name, r1);
    ParsePutU32(k.session, r2);
    ParsePutU32(k.sequence, rest);
    assert CStr(name) == name by { assert forall i | 0 <= i < |name| :: name[i] != 0; }
  }

  lemma {:induction false} ParsePutKeys(ks: seq<TelemetryKey>)
    requires forall i | 0 <= i < |ks| :: Proper(ks[i])
    ensures ParseKeys(|ks|, PutKeys(ks)) == Some((ks, []))
    decreases |ks|
  {
    hide ParseKey, PutKey, Proper;
    if ks != [] {
      ParsePutKey(ks[0], PutKeys(ks[1..]));
      ParsePutKeys(ks[1..]);
      assert [ks[0]] + ks[1..] == ks;
    }
  }

  lemma DecodeRecentRoundTrip(ks: seq<TelemetryKey>)
    requires |ks| <= RECENT_CAPACITY
    requires forall i | 0 <= i < |ks| :: Proper(ks[i])
    ensures DecodeRecentBody(RecentBody(ks)) == Some(ks)
  {
    hide PutU32, ParseU32, ParseU8, ParseKeys, PutKeys, Proper;
    var keys := PutKeys(ks);
    ParsePutU32(RECENT_MAGIC, [|ks| as byte] + keys);
    ParsePutU8(|ks|, keys);
    ParsePutKeys(ks);
  }

  /** The ring file can be read and parses. */
  ghost predicate RingLoads(ring: Option<seq<byte>>, readable: bool) {
    readable && ring.Some? && DecodeRecent(ring.value).Some?
  }

  ghost function LoadedRing(ring: Option<seq<byte>>, readable: bool): (ks: seq<TelemetryKey>)
    ensures |ks| <= RECENT_CAPACITY
  {
    if RingLoads(ring, readable) then RememberAll([], RECENT_CAPACITY, DecodeRecent(ring.value).value) else []
  }

  /** Damage to a ring file that loads is noticed if it is confined to any four consecutive
      bytes before the checksum, or to the checksum. */
  lemma RingDamageRejected(head: seq<byte>, w: seq<byte>, w': seq<byte>, tail: seq<byte>, trailer: seq<byte>,
                           trailer': seq<byte>)
    requires |w| == |w'| <= 4 && |trailer| == |trailer'| == 4 && (w == w' <==> trailer != trailer')
    requires DecodeRecent(head + w + tail + trailer).Some?
    ensures DecodeRecent(head + w' + tail + trailer') == None
  {
    hide Crc, PutU32, WordAt, DecodeRecentBody;
    var body, body' := head + w + tail, head + w' + tail;
    Trailed(body, trailer);
    Trailed(body', trailer');
    if w != w' {
      WindowDetected(head, w, w', tail);
      assert forall v | PutU32(v) == trailer :: v == Crc(body) by {
        forall v: u32 | PutU32(v) == trailer
          ensures v == Crc(body)
        {
          PutU32Injective(v, Crc(body));
        }
      }
    }
  }

  lemma Trailed(body: seq<byte>, trailer: seq<byte>)
    requires |trailer| == 4
    ensures var s := body + trailer;
            s[..|s| - 4] == body && PutU32(WordAt(s, |s| - 4)) == trailer
  {
    hide PutU32, WordAt;
    var s := body + trailer;
    assert s[..|s| - 4] == body && s[|s| - 4..|s| - 4 + 4] == trailer;
  }

  /** Whatever the ring holds, wrapped or not, comes back after a restart. */
  lemma PersistThenLoad(ks: seq<TelemetryKey>)
    requires |ks| <= RECENT_CAPACITY && Distinct(ks)
    requires forall i | 0 <= i < |ks| :: Proper(ks[i])
    ensures DecodeRecent(RecentFile(ks)) == Some(ks)
    ensures RememberAll([], RECENT_CAPACITY, ks) == ks
  {
    hide PutU32, Crc, Proper, WordAt, KeyEqual, DecodeRecentBody, RecentBody, RememberAll;
    var file, body := RecentFile(ks), RecentBody(ks);
    assert file[..|file| - 4] == body && file[|file| - 4..|file|] == PutU32(Crc(body));
    PutU32Injective(WordAt(file, |file| - 4), Crc(body));
    DecodeRecentRoundTrip(ks);
    assert [] + ks == ks;
    RememberDistinct([], RECENT_CAPACITY, ks);
  }
}
