/** The checksummed on-flash frame of one queued reading. */
module QueueRecords {
  import opened Words
  import opened Crc32
  import opened Cursors
  import Bitwise
  import Protocol

  const QUEUE_MAGIC: u32 := 0x4754_5131
  const QUEUE_VERSION: u16 := 1
  const FIXED_BYTES := 56
  const PAYLOAD_CAPACITY := Protocol.RADIO_PACKET_CAPACITY
  const MAXIMUM_BYTES := FIXED_BYTES + PAYLOAD_CAPACITY

  /** Reception metadata; floating-point readings are kept as their bit patterns. */
  datatype Reception = Reception(
    receivedUnixMs: i64, timeTrusted: bool, uptimeMs: u64, bootSessionId: u32,
    rssiBits: u32, snrBits: u32, frequencyErrorHz: i32, packetLength: u16)

  /** A record; payload stands for the used part of the raw payload buffer. */
  datatype QueueRecord = QueueRecord(recordId: u64, reception: Reception, payload: seq<byte>)

  predicate TimeConsistent(m: Reception) {
    if m.timeTrusted then m.receivedUnixMs >= 0 else m.receivedUnixMs == -1
  }

  predicate Encodable(r: QueueRecord) {
    r.recordId != 0 && 0 < |r.payload| <= PAYLOAD_CAPACITY &&
    r.reception.packetLength == |r.payload| && TimeConsistent(r.reception)
  }

  /** The fixed part of a frame as it is written and read. */
  datatype Fields = Fields(
    magic: u32, version: u16, length: u16, recordId: u64, flags: byte, payloadLength: byte,
    packetLength: u16, boot: u32, received: u64, uptime: u64, rssi: u32, snr: u32, frequency: u32)

  function FieldsOf(r: QueueRecord): (f: Fields)
    requires Encodable(r)
  {
    Fields(QUEUE_MAGIC, QUEUE_VERSION, FIXED_BYTES + |r.payload|, r.recordId,
           if r.reception.timeTrusted then 1 else 0, |r.payload|, r.reception.packetLength,
           r.reception.bootSessionId, BitsOfI64(r.reception.receivedUnixMs), r.reception.uptimeMs,
           r.reception.rssiBits, r.reception.snrBits, BitsOfI32(r.reception.frequencyErrorHz))
  }

  function RecordOf(f: Fields, payload: seq<byte>): (r: QueueRecord) {
    QueueRecord(f.recordId,
                Reception(I64OfBits(f.received), f.flags == 1, f.uptime, f.boot, f.rssi, f.snr,
                          I32OfBits(f.frequency), f.packetLength),
                payload)
  }

  function PutFields(f: Fields, rest: seq<byte>): (s: seq<byte>)
    ensures |s| == 52 + |rest|
  {
    PutU32(f.magic) + (PutU16(f.version) + (PutU16(f.length) + PutFieldsTail(f, rest)))
  }

  function PutFieldsTail(f: Fields, rest: seq<byte>): (s: seq<byte>)
    ensures |s| == 44 + |rest|
  {
    PutU64(f.recordId) + ([f.flags] + ([f.payloadLength] + (PutU16(f.packetLength) +
    (PutU32(f.boot) + (PutU64(f.received) + (PutU64(f.uptime) + (PutU32(f.rssi) +
    (PutU32(f.snr) + (PutU32(f.frequency) + rest)))))))))
  }

  function Body(r: QueueRecord): (s: seq<byte>)
    requires Encodable(r)
    ensures |s| == 52 + |r.payload|
  {
    PutFields(FieldsOf(r), r.payload)
  }

  function EncodeRecord(r: QueueRecord): (s: seq<byte>)
    requires Encodable(r)
    ensures |s| == FIXED_BYTES + |r.payload|
  {
    Body(r) + PutU32(Crc(Body(r)))
  }

  function ParseFields(s: seq<byte>): (r: Option<(Fields, seq<byte>)>)
    ensures r.Some? <==> |s| >= 52
    ensures r.Some? ==> s == PutFields(r.value.0, r.value.1)
  {
    var (magic, s) :- ParseU32(s);
    var (version, s) :- ParseU16(s);
    var (length, s) :- ParseU16(s);
    ParseFieldsTail(magic, version, length, s)
  }

  function ParseFieldsTail(magic: u32, version: u16, length: u16, s: seq<byte>): (r: Option<(Fields, seq<byte>)>)
    ensures r.Some? <==> |s| >= 44
    ensures r.Some? ==>
      var f := r.value.0;
      f.magic == magic && f.version == version && f.length == length &&
      s == PutFieldsTail(f, r.value.1)
  {
    var (recordId, s) :- ParseU64(s);
    var (flags, s) :- ParseU8(s);
    var (payloadLength, s) :- ParseU8(s);
    var (packetLength, s) :- ParseU16(s);
    var (boot, s) :- ParseU32(s);
    var (received, s) :- ParseU64(s);
    var (uptime, s) :- ParseU64(s);
    var (rssi, s) :- ParseU32(s);
    var (snr, s) :- ParseU32(s);
    var (frequency, s) :- ParseU32(s);
    Some((Fields(magic, version, length, recordId, flags, payloadLength, packetLength, boot,
                 received, uptime, rssi, snr, frequency), s))
  }

  predicate FieldsValid(f: Fields, length: nat, remaining: nat) {
    f.magic == QUEUE_MAGIC && f.version == QUEUE_VERSION && f.length == length &&
    f.recordId != 0 && f.flags <= 1 && 0 < f.payloadLength <= PAYLOAD_CAPACITY &&
    f.packetLength == f.payloadLength && remaining == f.payloadLength
  }

  /** The frame carries the checksum of everything before it. */
  predicate ChecksumMatches(s: seq<byte>)
    requires |s| >= 4
  {
    WordAt(s, |s| - 4) == Crc(s[..|s| - 4])
  }

  function DecodeRecord(s: seq<byte>): (r: Option<QueueRecord>) {
    if |s| < FIXED_BYTES || |s| > MAXIMUM_BYTES then None
    else if !ChecksumMatches(s) then None
    else DecodeBody(s[..|s| - 4])
  }

  function DecodeBody(body: seq<byte>): (r: Option<QueueRecord>) {
    var (f, payload) :- ParseFields(body);
    if !FieldsValid(f, |body| + 4, |payload|) then None
    else
      var r := RecordOf(f, payload);
      if !TimeConsistent(r.reception) then None else Some(r)
  }

  // ---- the codec as run: a vector writer and a reader ----

  method WriteFields(w: Appender, f: Fields, ghost rest: seq<byte>)
    modifies w
    ensures w.output + rest == old(w.output) + PutFields(f, rest)
  {
    hide PutU16, PutU32, PutU64;
    ghost var r2 := PutFieldsTail(f, rest);
    ghost var r1 := PutU16(f.length) + r2;
    w.U32(f.magic, PutU16(f.version) + r1);
    w.U16(f.version, r1);
    w.U16(f.length, r2);
    WriteFieldsTail(w, f, rest);
  }

  method WriteFieldsTail(w: Appender, f: Fields, ghost rest: seq<byte>)
    modifies w
    ensures w.output + rest == old(w.output) + PutFieldsTail(f, rest)
  {
    hide PutU16, PutU32, PutU64;
    ghost var r9 := PutU32(f.frequency) + rest;
    ghost var r8 := PutU32(f.snr) + r9;
    ghost var r7 := PutU32(f.rssi) + r8;
    ghost var r6 := PutU64(f.uptime) + r7;
    ghost var r5 := PutU64(f.received) + r6;
    ghost var r4 := PutU32(f.boot) + r5;
    ghost var r3 := PutU16(f.packetLength) + r4;
    ghost var r2 := [f.payloadLength] + r3;
    ghost var r1 := [f.flags] + r2;
    w.U64(f.recordId, r1);
    w.U8(f.flags, r2);
    w.U8(f.payloadLength, r3);
    w.U16(f.packetLength, r4);
    w.U32(f.boot, r5);
    w.U64(f.received, r6);
    w.U64(f.uptime, r7);
    w.U32(f.rssi, r8);
    w.U32(f.snr, r9);
    w.U32(f.frequency, rest);
  }

  method WriteRecord(r: QueueRecord) returns (ok: bool, output: seq<byte>)
    ensures ok <==> Encodable(r)
    ensures ok ==> output == EncodeRecord(r)
    ensures !ok ==> output == []
  {
    hide PutFields, PutU32, Crc;
    if !Encodable(r) { return false, []; }
    var w := new Appender();
    WriteFields(w, FieldsOf(r), r.payload);
    w.Bytes(r.payload, []);
    assert w.output == w.output + [];
    assert r.payload + [] == r.payload;
    assert w.output == Body(r);
    var crc := ComputeCrc(w.output);
    w.U32(crc, []);
    assert w.output == w.output + [];
    assert PutU32(crc) + [] == PutU32(crc);
    return true, w.output;
  }

  method ReadFieldsTail(r: Reader, magic: u32, version: u16, length: u16) returns (ok: bool, f: Fields)
    requires r.Valid()
    modifies r
    ensures r.Valid() && (ok <==> ParseFieldsTail(magic, version, length, old(r.Rest())).Some?)
    ensures ok ==> ParseFieldsTail(magic, version, length, old(r.Rest())) == Some((f, r.Rest()))
  {
    hide ParseU8, ParseU16, ParseU32, ParseU64;
    var recordId: u64, received: u64, uptime: u64;
    var flags: byte, payloadLength: byte, packetLength: u16;
    var boot: u32, rssi: u32, snr: u32, frequency: u32;
    f := Fields(0, 0, 0, 0, 0, 0, 0, 0, 0, 0, 0, 0, 0);
    ok, recordId := r.U64();
    if !ok { return; }
    ok, flags := r.U8();
    if !ok { return; }
    ok, payloadLength := r.U8();
    if !ok { return; }
    ok, packetLength := r.U16();
    if !ok { return; }
    ok, boot := r.U32();
    if !ok { return; }
    ok, received := r.U64();
    if !ok { return; }
    ok, uptime := r.U64();
    if !ok { return; }
    ok, rssi := r.U32();
    if !ok { return; }
    ok, snr := r.U32();
    if !ok { return; }
    ok, frequency := r.U32();
    if !ok { return; }
    f := Fields(magic, version, length, recordId, flags, payloadLength, packetLength, boot,
                received, uptime, rssi, snr, frequency);
  }

  method ReadFields(r: Reader) returns (ok: bool, f: Fields)
    requires r.Valid()
    modifies r
    ensures r.Valid() && (ok <==> ParseFields(old(r.Rest())).Some?)
    ensures ok ==> ParseFields(old(r.Rest())) == Some((f, r.Rest()))
  {
    hide ParseU16, ParseU32, ParseFieldsTail;
    var magic: u32, version: u16, length: u16;
    f := Fields(0, 0, 0, 0, 0, 0, 0, 0, 0, 0, 0, 0, 0);
    ok, magic := r.U32();
    if !ok { return; }
    ok, version := r.U16();
    if !ok { return; }
    ok, length := r.U16();
    if !ok { return; }
    ok, f := ReadFieldsTail(r, magic, version, length);
  }

  method ReadRecord(input: seq<byte>) returns (result: Option<QueueRecord>)
    ensures result == DecodeRecord(input)
  {
    hide ParseFields, PutFields, Crc;
    if |input| < FIXED_BYTES || |input| > MAXIMUM_BYTES { return None; }
    var stored := WordAt(input, |input| - 4);
    var computed := ComputeCrc(input[..|input| - 4]);
    if stored != computed { return None; }
    var r := new Reader(input[..|input| - 4]);
    var ok, f := ReadFields(r);
    if !ok { return None; }
    var left := r.Remaining();
    if !FieldsValid(f, |input|, left) { return None; }
    ghost var rest := r.Rest();
    var read, payload := r.Bytes(left);
    assert payload == rest;
    var record := RecordOf(f, payload);
    if !TimeConsistent(record.reception) { return None; }
    return Some(record);
  }

  // ---- the codec is a bijection ----

  lemma ParsePutFields(f: Fields, rest: seq<byte>)
    ensures ParseFields(PutFields(f, rest)) == Some((f, rest))
  {
    hide PutU16, PutU32, ParseU16, ParseU32, ParseFieldsTail, PutFieldsTail;
    var tail := PutFieldsTail(f, rest);
    var r1 := PutU16(f.length) + tail;
    ParsePutU32(f.magic, PutU16(f.version) + r1);
    ParsePutU16(f.version, r1);
    ParsePutU16(f.length, tail);
    ParsePutFieldsTail(f, rest);
  }

  lemma ParsePutFieldsTail(f: Fields, rest: seq<byte>)
    ensures ParseFieldsTail(f.magic, f.version, f.length, PutFieldsTail(f, rest)) == Some((f, rest))
  {
    hide PutU16, PutU32, PutU64, ParseU8, ParseU16, ParseU32, ParseU64;
    var r9 := PutU32(f.frequency) + rest;
    var r8 := PutU32(f.snr) + r9;
    var r7 := PutU32(f.rssi) + r8;
    var r6 := PutU64(f.uptime) + r7;
    var r5 := PutU64(f.received) + r6;
    var r4 := PutU32(f.boot) + r5;
    var r3 := PutU16(f.packetLength) + r4;
    var r2 := [f.payloadLength] + r3;
    var r1 := [f.flags] + r2;
    ParsePutU64(f.recordId, r1);
    ParsePutU8(f.flags, r2);
    ParsePutU8(f.payloadLength, r3);
    ParsePutU16(f.packetLength, r4);
    ParsePutU32(f.boot, r5);
    ParsePutU64(f.received, r6);
    ParsePutU64(f.uptime, r7);
    ParsePutU32(f.rssi, r8);
    ParsePutU32(f.snr, r9);
    ParsePutU32(f.frequency, rest);
  }

  /** What a valid set of fields says is exactly what its record would write. */
  lemma FieldsRecord(f: Fields, payload: seq<byte>)
    requires FieldsValid(f, FIXED_BYTES + |payload|, |payload|)
    requires TimeConsistent(RecordOf(f, payload).reception)
    ensures Encodable(RecordOf(f, payload)) && FieldsOf(RecordOf(f, payload)) == f
  {
  }

  lemma BodyBijection(body: seq<byte>, r: QueueRecord)
    ensures DecodeBody(body) == Some(r) <==> Encodable(r) && body == Body(r)
  {
    hide ParseFields, PutFields;
    if DecodeBody(body) == Some(r) {
      var (f, payload) := ParseFields(body).value;
      FieldsRecord(f, payload);
    } else if Encodable(r) && body == Body(r) {
      ParsePutFields(FieldsOf(r), r.payload);
    }
  }

  /** A file decodes to a record exactly when it is that record's encoding. */
  lemma RecordBijection(s: seq<byte>, r: QueueRecord)
    ensures DecodeRecord(s) == Some(r) <==> Encodable(r) && s == EncodeRecord(r)
  {
    hide DecodeBody, Crc, PutU32, Body, WordAt;
    if DecodeRecord(s) == Some(r) {
      var body := s[..|s| - 4];
      BodyBijection(body, r);
      assert s == body + s[|s| - 4..|s|];
    } else if Encodable(r) && s == EncodeRecord(r) {
      var body := Body(r);
      assert s[..|s| - 4] == body && s[|s| - 4..|s|] == PutU32(Crc(body));
      PutU32Injective(WordAt(s, |s| - 4), Crc(body));
      BodyBijection(body, r);
    }
  }

  // ---- torn and damaged files ----

  lemma LengthField(r: QueueRecord)
    requires Encodable(r)
    ensures EncodeRecord(r)[6..8] == PutU16(|EncodeRecord(r)|)
  {
    hide PutFieldsTail, PutU32, Crc;
    var f := FieldsOf(r);
    var tail := PutFieldsTail(f, r.payload);
    assert Body(r) == PutU32(f.magic) + PutU16(f.version) + PutU16(f.length) + tail;
  }

  lemma SameLengthField(r: QueueRecord, s: seq<byte>)
    requires Encodable(r) && DecodeRecord(s).Some?
    requires s[6..8] == EncodeRecord(r)[6..8]
    ensures |s| == |EncodeRecord(r)|
  {
    hide EncodeRecord;
    var q := DecodeRecord(s).value;
    RecordBijection(s, q);
    LengthField(r);
    LengthField(q);
    PutU16Injective(|s|, |EncodeRecord(r)|);
  }

  /** No proper prefix and no extension of a record is a record: a file cut short by
      a power loss, or one with bytes left over, never decodes. */
  lemma TornRejected(r: QueueRecord, s: seq<byte>)
    requires Encodable(r)
    requires s < EncodeRecord(r) || EncodeRecord(r) < s
    ensures DecodeRecord(s) == None
  {
    hide EncodeRecord, ChecksumMatches, DecodeBody;
    if DecodeRecord(s).Some? { SameLengthField(r, s); }
  }

  /** Damage confined to the four-byte trailer is always noticed. */
  lemma TrailerDamageRejected(r: QueueRecord, trailer: seq<byte>)
    requires Encodable(r) && |trailer| == 4 && trailer != PutU32(Crc(Body(r)))
    ensures DecodeRecord(Body(r) + trailer) == None
  {
    hide DecodeBody, Crc, PutU32, Body, WordAt;
    var s := Body(r) + trailer;
    assert s[..|s| - 4] == Body(r) && s[|s| - 4..|s|] == trailer;
  }

  /** So is damage confined to any four consecutive bytes before the trailer. */
  lemma BodyDamageRejected(r: QueueRecord, head: seq<byte>, w: seq<byte>, w': seq<byte>, tail: seq<byte>)
    requires Encodable(r) && Body(r) == head + w + tail
    requires |w| == |w'| <= 4 && w != w'
    ensures DecodeRecord(head + w' + tail + PutU32(Crc(Body(r)))) == None
  {
    WindowDetected(head, w, w', tail);
    DamageRejected(r, head + w' + tail);
  }

  /** And every error burst of at most 32 bits, however it straddles bytes. */
  lemma BurstRejected(r: QueueRecord, damaged: seq<byte>, start: nat, burst: u32)
    requires Encodable(r) && |damaged| == |Body(r)| && start <= 8 * |damaged|
    requires burst != 0 && Difference(Body(r), damaged) == Bitwise.Shl(burst, start)
    ensures DecodeRecord(damaged + PutU32(Crc(Body(r)))) == None
  {
    BurstDetected(Body(r), damaged, start, burst);
    DamageRejected(r, damaged);
  }

  lemma DamageRejected(r: QueueRecord, damaged: seq<byte>)
    requires Encodable(r) && |damaged| == |Body(r)| && Crc(damaged) != Crc(Body(r))
    ensures DecodeRecord(damaged + PutU32(Crc(Body(r)))) == None
  {
    hide DecodeBody, Crc, PutU32, Body, WordAt;
    var s := damaged + PutU32(Crc(Body(r)));
    assert s[..|s| - 4] == damaged && s[|s| - 4..|s|] == PutU32(Crc(Body(r)));
    if ChecksumMatches(s) { PutU32Injective(Crc(damaged), Crc(Body(r))); }
  }
}
