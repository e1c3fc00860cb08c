/** The persisted one-slot command store: every change is committed to flash first and
    published in RAM only if that worked. */
module CommandStores {
  import opened Words
  import opened Bitwise
  import opened Crc32
  import opened Protocol

  const STORE_MAGIC: u32 := 0x4757_4332
  const STORE_SCHEMA: u16 := 1
  const STORE_BYTES: u16 := 72

  // Command states, as stored.
  const NONE: byte := 0
  const PENDING: byte := 1
  const SENT: byte := 2
  const CONFIRMED: byte := 3
  const CANCELLED: byte := 5

  type CommandKind = x: int | 0 <= x <= 3

  datatype Command = Command(
    id: u32, kind: byte, state: byte, pollIntervalMinutes: byte, scheduledMaintenanceUnix: u32,
    createdUnixMs: i64, lastSentUnixMs: i64, sendCount: u32, result: byte,
    effectivePollIntervalMinutes: byte, effectiveMaintenanceUnix: u32)

  datatype Record = Record(magic: u32, schema: u16, size: u16, next: u32, command: Command, checksum: u32)

  predicate Active(c: Command) { c.state == PENDING || c.state == SENT }

  predicate Final(c: Command) { c.state == CONFIRMED || c.state == CANCELLED }

  // ---- checksum ----

  function Low16(v: u16): (s: seq<byte>) { [v % 0x100, v / 0x100] }

  function Low32(v: u32): (s: seq<byte>) {
    [v % 0x100, v / 0x100 % 0x100, v / 0x100 / 0x100 % 0x100, v / 0x100 / 0x100 / 0x100]
  }

  function Low64(v: u64): (s: seq<byte>) { Low32(v % 0x1_0000_0000) + Low32(v / 0x1_0000_0000) }

  /** The bytes before the checksum as the compiler lays them out: little-endian, each
      field aligned to its size, padding zero. */
  function Layout(r: Record): (s: seq<byte>)
    ensures |s| == 64
  {
    var c := r.command;
    Low32(r.magic) + Low16(r.schema) + Low16(r.size) + Low32(r.next) + [0, 0, 0, 0] +
    Low32(c.id) + [c.kind, c.state, c.pollIntervalMinutes, 0] + Low32(c.scheduledMaintenanceUnix) + [0, 0, 0, 0] +
    Low64(BitsOfI64(c.createdUnixMs)) + Low64(BitsOfI64(c.lastSentUnixMs)) +
    Low32(c.sendCount) + [c.result, c.effectivePollIntervalMinutes, 0, 0] +
    Low32(c.effectiveMaintenanceUnix) + [0, 0, 0, 0]
  }

  const FNV32_OFFSET: u32 := 2166136261
  const FNV32_PRIME: u32 := 16777619

  function Mix32(hash: u32, value: byte): (h: u32) {
    (Xor(hash, value) * FNV32_PRIME) % 0x1_0000_0000
  }

  function Fnv32(hash: u32, s: seq<byte>): (h: u32)
    decreases |s|
  {
    if s == [] then hash else Fnv32(Mix32(hash, s[0]), s[1..])
  }

  function Checksum(r: Record): (h: u32) { Fnv32(FNV32_OFFSET, Layout(r)) }

  /** The published 32-bit FNV-1a hash of the letter a. */
  lemma PublishedFnv32()
    ensures Fnv32(FNV32_OFFSET, [0x61]) == 0xE40C_292C
  {
    hide Xor;
    XorByte(0x81_1C9D, 0xC5, 0x61);
    LetterA();
    assert [0x61][1..] == [];
    assert Xor(FNV32_OFFSET, 0x61) == 0x811C_9DA4;
    assert Fnv32(Mix32(FNV32_OFFSET, 0x61), []) == Mix32(FNV32_OFFSET, 0x61);
  }

  lemma LetterA()
    ensures Xor(0xC5, 0x61) == 0xA4
  {
    hide Xor;
    XorParts(0xC5, 0x61);
    XorParts(0x62, 0x30);
    XorParts(0x31, 0x18);
    XorParts(0x18, 0xC);
    XorParts(0xC, 0x6);
    XorParts(0x6, 0x3);
    XorParts(0x3, 0x1);
    XorZero(0x1);
  }

  method ComputeChecksum(r: Record) returns (h: u32)
    ensures h == Checksum(r)
  {
    hide Layout, Mix32;
    var bytes := Layout(r);
    h := FNV32_OFFSET;
    for i := 0 to |bytes|
      invariant Fnv32(h, bytes[i..]) == Fnv32(FNV32_OFFSET, bytes)
    {
      assert bytes[i..][0] == bytes[i] && bytes[i..][1..] == bytes[i + 1..];
      h := Mix32(h, bytes[i]);
    }
  }

  /** The multiplier is odd, so a step can be undone in either argument. */
  lemma MixInjective(a: u32, x: byte, b: u32, y: byte)
    requires Mix32(a, x) == Mix32(b, y)
    ensures x == y ==> a == b
    ensures a == b ==> x == y
  {
    hide Xor;
    MixedWord(a, x);
    MixedWord(b, y);
    OddTimes(Xor(a, x), Xor(b, y));
    XorSelf(Xor(a, x));
    XorSwap(a, x, b, y);
    XorSelf(a);
    XorSelf(x);
    if x == y {
      XorZero(Xor(a, b));
      XorCancels(a, b);
    }
    if a == b {
      XorZero(Xor(x, y));
      XorCancels(x, y);
    }
  }

  lemma MixedWord(a: u32, x: byte)
    ensures Xor(a, x) < 0x1_0000_0000
  {
    Pow32();
    XorBound(a, x, 32);
  }

  const INVERSE := 899433627
  const QUOTIENT := 3513497

  /** A step that agrees modulo 2^32 agrees: multiply by the inverse of the odd factor. */
  lemma OddTimes(u: u32, v: u32)
    requires u * FNV32_PRIME % 0x1_0000_0000 == v * FNV32_PRIME % 0x1_0000_0000
    ensures u == v
  {
    var p, q := u * FNV32_PRIME / 0x1_0000_0000, v * FNV32_PRIME / 0x1_0000_0000;
    var d, e: int := u - v, p - q;
    assert d * FNV32_PRIME == e * 0x1_0000_0000;
    Undo(d, e);
    var t := e * INVERSE - d * QUOTIENT;
    assert d == 0x1_0000_0000 * t;
  }

  lemma Undo(d: int, e: int)
    requires d * FNV32_PRIME == e * 0x1_0000_0000
    ensures d == 0x1_0000_0000 * (e * INVERSE - d * QUOTIENT)
  {
    assert FNV32_PRIME * INVERSE == 1 + QUOTIENT * 0x1_0000_0000;
    assert d * FNV32_PRIME * INVERSE == d + d * QUOTIENT * 0x1_0000_0000;
  }

  lemma {:induction false} FnvInjective(a: u32, b: u32, s: seq<byte>)
    requires Fnv32(a, s) == Fnv32(b, s)
    ensures a == b
    decreases |s|
  {
    hide Mix32;
    if s != [] {
      FnvInjective(Mix32(a, s[0]), Mix32(b, s[0]), s[1..]);
      MixInjective(a, s[0], b, s[0]);
    }
  }

  lemma {:induction false} FnvSplit(h: u32, s: seq<byte>, t: seq<byte>)
    ensures Fnv32(h, s + t) == Fnv32(Fnv32(h, s), t)
    decreases |s|
  {
    hide Mix32;
    if s == [] {
      assert s + t == t;
    } else {
      assert (s + t)[1..] == s[1..] + t;
      FnvSplit(Mix32(h, s[0]), s[1..], t);
    }
  }

  lemma {:induction false} OneByteMixes(s: seq<byte>, at: nat, x: byte)
    requires at < |s| && x != s[at]
    ensures Fnv32(FNV32_OFFSET, s[at := x]) != Fnv32(FNV32_OFFSET, s)
  {
    hide Mix32;
    var head, tail := s[..at], s[at + 1..];
    assert s == head + ([s[at]] + tail) && s[at := x] == head + ([x] + tail);
    var h := Fnv32(FNV32_OFFSET, head);
    FnvSplit(FNV32_OFFSET, head, [s[at]] + tail);
    FnvSplit(FNV32_OFFSET, head, [x] + tail);
    assert ([s[at]] + tail)[1..] == tail && ([x] + tail)[1..] == tail;
    if Fnv32(Mix32(h, s[at]), tail) == Fnv32(Mix32(h, x), tail) {
      FnvInjective(Mix32(h, s[at]), Mix32(h, x), tail);
      MixInjective(h, s[at], h, x);
    }
  }

  /** The stored bytes of a record: the layout, the checksum and four bytes of padding. */
  function Image(r: Record): (s: seq<byte>)
    ensures |s| == STORE_BYTES
  {
    Layout(r) + Low32(r.checksum) + [0, 0, 0, 0]
  }

  /** The stored checksum is that of the bytes before it, padding included. */
  predicate ImageIntact(s: seq<byte>)
    requires |s| == STORE_BYTES
  {
    s[64..68] == Low32(Fnv32(FNV32_OFFSET, s[..64]))
  }

  lemma ImageOfValid(r: Record)
    ensures ImageIntact(Image(r)) <==> r.checksum == Checksum(r)
  {
    hide Fnv32, Layout;
    assert Image(r)[..64] == Layout(r) && Image(r)[64..68] == Low32(r.checksum);
    Low32Injective(r.checksum, Checksum(r));
  }

  function Value32(a: int, b: int, c: int, d: int): (v: int) { ((d * 0x100 + c) * 0x100 + b) * 0x100 + a }

  lemma Low32Value(v: u32)
    ensures var s := Low32(v); |s| == 4 && Value32(s[0], s[1], s[2], s[3]) == v
  {
    var a := v / 0x100;
    var b := a / 0x100;
    assert v == a * 0x100 + v % 0x100 && a == b * 0x100 + a % 0x100 && b == b / 0x100 * 0x100 + b % 0x100;
  }

  lemma Low32Injective(v: u32, w: u32)
    ensures Low32(v) == Low32(w) <==> v == w
  {
    hide Low32;
    Low32Value(v);
    Low32Value(w);
  }

  /** Changing one stored byte of an intact image is noticed exactly when the byte is not
      in the padding behind the checksum; padding inside the record is covered. */
  lemma OneByteDamageDetected(s: seq<byte>, at: nat, x: byte)
    requires |s| == STORE_BYTES && ImageIntact(s) && at < STORE_BYTES && x != s[at]
    ensures ImageIntact(s[at := x]) <==> at >= 68
  {
    hide Fnv32, Low32;
    var t := s[at := x];
    if at < 64 {
      assert t[..64] == s[..64][at := x] && t[64..68] == s[64..68];
      OneByteMixes(s[..64], at, x);
      Low32Injective(Fnv32(FNV32_OFFSET, s[..64]), Fnv32(FNV32_OFFSET, t[..64]));
    } else if at < 68 {
      assert t[..64] == s[..64];
      assert t[64..68][at - 64] == x && s[64..68][at - 64] == s[at];
    } else {
      assert t[..64] == s[..64] && t[64..68] == s[64..68];
    }
  }

  // ---- records ----

  function Sealed(r: Record): (s: Record) { r.(checksum := Checksum(r)) }

  function Fresh(): (r: Record) {
    Sealed(Record(STORE_MAGIC, STORE_SCHEMA, STORE_BYTES, 1,
                  Command(0, COMMAND_NONE, NONE, 0, 0, -1, -1, 0, RESULT_NONE, 0, 0), 0))
  }

  predicate Valid(r: Record) {
    r.magic == STORE_MAGIC && r.schema == STORE_SCHEMA && r.size == STORE_BYTES && r.next != 0 &&
    r.command.kind <= SET_POLL_INTERVAL && r.command.state <= CANCELLED &&
    (r.command.result == RESULT_NONE || r.command.result <= RESULT_INTERNAL_ERROR) &&
    r.checksum == Checksum(r)
  }

  // ---- what each operation would commit; None if it refuses ----

  datatype Request = Request(kind: CommandKind, minutes: byte, unix: u32, createdUnixMs: i64)

  function Creating(r: Record, q: Request): (c: Option<Record>) {
    if q.kind == COMMAND_NONE || r.next == U32_MAX || Active(r.command) then None
    else if (q.kind == SET_POLL_INTERVAL && q.minutes == 0) ||
            (q.kind == SCHEDULE_MAINTENANCE_AT && q.unix == 0) then None
    else
      var command := Command(r.next, q.kind, PENDING, q.minutes, q.unix, q.createdUnixMs, -1, 0, RESULT_NONE, 0, 0);
      Some(Sealed(r.(next := r.next + 1, command := command)))
  }

  function Marking(r: Record, id: u32, at: i64): (c: Option<Record>) {
    if id == 0 || id != r.command.id || !Active(r.command) then None
    else Some(Sealed(r.(command := r.command.(state := SENT, lastSentUnixMs := at,
                                              sendCount := (r.command.sendCount + 1) % 0x1_0000_0000))))
  }

  predicate ResultMatches(c: Command, p: CommandResultPacket) {
    p.commandId != 0 && p.commandId == c.id && p.commandType == c.kind
  }

  function Confirming(r: Record, p: CommandResultPacket): (c: Option<Record>) {
    if !ResultMatches(r.command, p) || !Active(r.command) then None
    else Some(Sealed(r.(command := r.command.(state := CONFIRMED, result := p.resultCode,
                                              effectivePollIntervalMinutes := p.effectivePollIntervalMinutes,
                                              effectiveMaintenanceUnix := p.scheduledMaintenanceUnix))))
  }

  function Cancelling(r: Record, id: u32): (c: Option<Record>) {
    if id == 0 || id != r.command.id || !Active(r.command) then None
    else Some(Sealed(r.(command := r.command.(state := CANCELLED))))
  }

  // ---- what the operations accept and change, in terms of the stored fields ----

  /** No command is on its way, an id is left, and the command has the argument it needs. */
  predicate Creatable(r: Record, q: Request) {
    q.kind != COMMAND_NONE && r.next < U32_MAX && r.command.state != PENDING && r.command.state != SENT &&
    (q.kind == SET_POLL_INTERVAL ==> q.minutes > 0) && (q.kind == SCHEDULE_MAINTENANCE_AT ==> q.unix > 0)
  }

  /** A new command takes the next id, carries what was asked for, has never been sent and
      has no result; the allocator advances by one and nothing else changes. */
  lemma CreatingIff(r: Record, q: Request)
    ensures Creating(r, q).Some? <==> Creatable(r, q)
    ensures var made := Creating(r, q);
            made.Some? ==>
              var c := made.value.command;
              c.id == r.next && c.kind == q.kind && c.state == PENDING && c.pollIntervalMinutes == q.minutes &&
              c.scheduledMaintenanceUnix == q.unix && c.createdUnixMs == q.createdUnixMs && c.lastSentUnixMs == -1 &&
              c.sendCount == 0 && c.result == RESULT_NONE && c.effectivePollIntervalMinutes == 0 &&
              c.effectiveMaintenanceUnix == 0 &&
              made.value == Sealed(r.(next := r.next + 1, command := c))
  {
    hide Checksum;
  }

  /** A result closes exactly the active command it names by id and type; the command keeps
      what it asked for and takes over the code and the settings the node reports. */
  lemma ConfirmingIff(r: Record, p: CommandResultPacket)
    ensures Confirming(r, p).Some? <==>
            p.commandId != 0 && r.command.id == p.commandId && r.command.kind == p.commandType &&
            (r.command.state == PENDING || r.command.state == SENT)
    ensures var closed := Confirming(r, p);
            closed.Some? ==>
              var c := closed.value.command;
              c.state == CONFIRMED && c.result == p.resultCode &&
              c.effectivePollIntervalMinutes == p.effectivePollIntervalMinutes &&
              c.effectiveMaintenanceUnix == p.scheduledMaintenanceUnix &&
              r.command == c.(state := r.command.state, result := r.command.result,
                              effectivePollIntervalMinutes := r.command.effectivePollIntervalMinutes,
                              effectiveMaintenanceUnix := r.command.effectiveMaintenanceUnix) &&
              closed.value == Sealed(r.(command := c))
  {
    hide Checksum;
  }

  /** Cancelling closes exactly the active command with that id and changes only its state. */
  lemma CancellingIff(r: Record, id: u32)
    ensures Cancelling(r, id).Some? <==>
            id != 0 && r.command.id == id && (r.command.state == PENDING || r.command.state == SENT)
    ensures var closed := Cancelling(r, id);
            closed.Some? ==> closed.value.command.state == CANCELLED &&
                             closed.value.command.(state := r.command.state) == r.command &&
                             closed.value == Sealed(r.(command := closed.value.command))
  {
    hide Checksum;
  }

  /** A stored record is trusted exactly if its image is intact and every field that is
      checked is in range. */
  lemma TrustedIff(saved: Option<Record>)
    ensures Trusted(saved) <==>
            saved.Some? &&
            var r := saved.value;
            ImageIntact(Image(r)) && r.magic == 0x4757_4332 && r.schema == 1 && r.size == 72 && r.next > 0 &&
            r.command.kind <= 3 && r.command.state <= 5 && (r.command.result <= 7 || r.command.result == 0xFF)
  {
    hide Checksum, Image, ImageIntact;
    if saved.Some? { ImageOfValid(saved.value); }
  }

  function PendingForAck(r: Record): (c: Option<Command>) {
    if Active(r.command) then Some(r.command) else None
  }

  // ---- the object ----

  /** Non-volatile memory for one record; a failed save leaves the last one. */
  class CommandBackend {
    var saved: Option<Record>

    constructor (saved: Option<Record>)
      ensures this.saved == saved
    {
      this.saved := saved;
    }

    method Save(r: Record, works: bool) returns (ok: bool)
      modifies this
      ensures ok == works && saved == if works then Some(r) else old(saved)
    {
      if works { saved := Some(r); }
      return works;
    }
  }

  class CommandStore {
    const backend: CommandBackend
    var record: Record

    constructor (backend: CommandBackend)
      ensures this.backend == backend && record == Fresh().(size := 0, checksum := 0)
    {
      this.backend := backend;
      record := Fresh().(size := 0, checksum := 0);
    }

    /** Load the saved record, or start afresh if there is none worth trusting. */
    method Begin(loads: bool, saves: bool) returns (ok: bool, initializedFresh: bool)
      modifies this, backend
      ensures initializedFresh <==> !(loads && Trusted(old(backend.saved)))
      ensures ok == (!initializedFresh || saves)
      ensures record == if initializedFresh then Fresh() else old(backend.saved).value
      ensures backend.saved == if initializedFresh && saves then Some(Fresh()) else old(backend.saved)
    {
      hide Checksum;
      if loads && backend.saved.Some? && Valid(backend.saved.value) {
        record := backend.saved.value;
        return true, false;
      }
      record := Fresh();
      ok := backend.Save(record, saves);
      initializedFresh := true;
    }

    /** Save first, publish only then. */
    method Commit(candidate: Record, saves: bool) returns (ok: bool)
      modifies this, backend
      ensures ok == saves
      ensures record == (if saves then Sealed(candidate) else old(record))
      ensures backend.saved == if saves then Some(Sealed(candidate)) else old(backend.saved)
    {
      hide Checksum;
      var checksum := ComputeChecksum(candidate);
      var sealed := candidate.(checksum := checksum);
      ok := backend.Save(sealed, saves);
      if ok { record := sealed; }
    }

    method Create(q: Request, saves: bool) returns (ok: bool, id: u32)
      modifies this, backend
      ensures ok == (saves && Creating(old(record), q).Some?)
      ensures record == (if ok then Creating(old(record), q).value else old(record))
      ensures backend.saved == if ok then Some(record) else old(backend.saved)
      ensures id == if ok then old(record).next else 0
    {
      hide Checksum;
      if q.kind == COMMAND_NONE || record.next == U32_MAX || record.command.state == PENDING ||
         record.command.state == SENT {
        return false, 0;
      }
      if (q.kind == SET_POLL_INTERVAL && q.minutes == 0) || (q.kind == SCHEDULE_MAINTENANCE_AT && q.unix == 0) {
        return false, 0;
      }
      var issued := record.next;
      var command := Command(issued, q.kind, PENDING, q.minutes, q.unix, q.createdUnixMs, -1, 0, RESULT_NONE, 0, 0);
      ok := Commit(record.(next := issued + 1, command := command), saves);
      id := if ok then issued else 0;
    }

    method MarkSent(id: u32, at: i64, saves: bool) returns (ok: bool)
      modifies this, backend
      ensures ok == (saves && Marking(old(record), id, at).Some?)
      ensures record == (if ok then Marking(old(record), id, at).value else old(record))
      ensures backend.saved == if ok then Some(record) else old(backend.saved)
    {
      hide Checksum;
      if id == 0 || id != record.command.id || !Active(record.command) { return false; }
      var sent := record.command.(state := SENT, lastSentUnixMs := at,
                                  sendCount := (record.command.sendCount + 1) % 0x1_0000_0000);
      ok := Commit(record.(command := sent), saves);
    }

    /** A result for a command already confirmed is acknowledged again, unchanged. */
    method Confirm(p: CommandResultPacket, saves: bool) returns (ok: bool, duplicate: bool)
      modifies this, backend
      ensures duplicate == (ResultMatches(old(record).command, p) && old(record).command.state == CONFIRMED)
      ensures ok == (duplicate || (saves && Confirming(old(record), p).Some?))
      ensures record == (if ok && !duplicate then Confirming(old(record), p).value else old(record))
      ensures backend.saved == if ok && !duplicate then Some(record) else old(backend.saved)
    {
      hide Checksum;
      if p.commandId == 0 || p.commandId != record.command.id || p.commandType != record.command.kind {
        return false, false;
      }
      if record.command.state == CONFIRMED { return true, true; }
      if record.command.state != PENDING && record.command.state != SENT { return false, false; }
      var confirmed := record.command.(state := CONFIRMED, result := p.resultCode,
                                       effectivePollIntervalMinutes := p.effectivePollIntervalMinutes,
                                       effectiveMaintenanceUnix := p.scheduledMaintenanceUnix);
      ok := Commit(record.(command := confirmed), saves);
      duplicate := false;
    }

    method Cancel(id: u32, saves: bool) returns (ok: bool)
      modifies this, backend
      ensures ok == (saves && Cancelling(old(record), id).Some?)
      ensures record == (if ok then Cancelling(old(record), id).value else old(record))
      ensures backend.saved == if ok then Some(record) else old(backend.saved)
    {
      hide Checksum;
      if id == 0 || id != record.command.id || !Active(record.command) { return false; }
      ok := Commit(record.(command := record.command.(state := CANCELLED)), saves);
    }
  }

  /** A stored record that Begin would restore. */
  predicate Trusted(saved: Option<Record>) { saved.Some? && Valid(saved.value) }
}
