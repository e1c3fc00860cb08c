/** Where each field of the packets and of the queue record lies, byte by byte. */
module WireFormats {
  import opened Words
  import opened Protocol
  import opened QueueRecords
  import opened TelemetryKeys
  import opened RecentKeys
  import opened CommandStores
  import Crc32

  /** The word of n bytes at an offset. */
  function At(s: seq<byte>, at: nat, n: nat): (v: nat)
    requires at + n <= |s|
  {
    Number(s[at..at + n])
  }

  lemma HalfAtIs(s: seq<byte>, at: nat, v: u16)
    requires at + 2 <= |s| && s[at..at + 2] == PutU16(v)
    ensures At(s, at, 2) == v
  {
    PutNumber(v, 0, 0);
  }

  lemma WordAtIs(s: seq<byte>, at: nat, v: u32)
    requires at + 4 <= |s| && s[at..at + 4] == PutU32(v)
    ensures At(s, at, 4) == v
  {
    hide PutU32;
    PutNumber(0, v, 0);
  }

  lemma WideAtIs(s: seq<byte>, at: nat, v: u64)
    requires at + 8 <= |s| && s[at..at + 8] == PutU64(v)
    ensures At(s, at, 8) == v
  {
    hide PutU64;
    PutNumber(0, 0, v);
  }

  // ---- telemetry ----

  lemma MeasurementParts(m: Measurement, rest: seq<byte>)
    ensures var s := PutMeasurement(m, rest);
            s[0..4] == PutU32(m.session) && s[4..8] == PutU32(m.sequence) && s[8..12] == PutU32(m.medianEchoUs) &&
            s[12..16] == PutU32(m.rawDistanceMm) && s[16..20] == PutU32(m.acceptedDistanceMm) &&
            s[20..22] == PutU16(m.madMm) && s[22..24] == PutU16(BitsOfI16(m.temperatureCentiC)) &&
            s[24..26] == PutU16(m.humidityCentiPercent) && s[26..28] == PutU16(m.batteryMv) &&
            s[28] == m.validSamples && s[29] == m.totalSamples && s[30..] == rest
  {
    hide PutU32, PutU16, BitsOfI16;
  }

  lemma StatusParts(p: NodeStatus, rest: seq<byte>)
    ensures var s := PutStatus(p, rest);
            s[0] == p.filterState && s[1..3] == PutU16(p.qualityFlags) && s[3..5] == PutU16(p.healthFlags) &&
            s[5] == p.bootReason && s[6] == p.rtcState && s[7..11] == PutU32(p.rtcUnixTime) &&
            s[11] == p.pollIntervalMinutes && s[12] == p.scheduleState &&
            s[13..17] == PutU32(p.scheduledMaintenanceUnix) && s[17..21] == PutU32(p.lastCommandId) &&
            s[21] == p.lastCommandType && s[22] == p.lastCommandResult &&
            s[23..27] == PutU32(p.referenceDistanceMm) && s[27..] == rest
  {
    hide PutU32, PutU16;
  }

  /** A header is "GT", version 3, the type and the length-prefixed node id. */
  predicate Headed(s: seq<byte>, kind: byte, nodeId: seq<byte>) {
    |nodeId| < 25 && |s| >= 5 + |nodeId| &&
    s[..5] == [0x47, 0x54, 3, kind, |nodeId|] && s[5..5 + |nodeId|] == nodeId
  }

  lemma HeaderParts(kind: byte, nodeId: seq<byte>, rest: seq<byte>)
    requires |nodeId| < NODE_ID_CAPACITY
    ensures Headed(PutHeader(kind, nodeId, rest), kind, nodeId) && PutHeader(kind, nodeId, rest)[5 + |nodeId|..] == rest
  {
  }

  /** The measurement on air; the temperature as its two's complement. */
  predicate MeasurementAt(b: seq<byte>, m: Measurement)
    requires |b| >= 30
  {
    At(b, 0, 4) == m.session && At(b, 4, 4) == m.sequence && At(b, 8, 4) == m.medianEchoUs &&
    At(b, 12, 4) == m.rawDistanceMm && At(b, 16, 4) == m.acceptedDistanceMm && At(b, 20, 2) == m.madMm &&
    At(b, 22, 2) == m.temperatureCentiC % 0x1_0000 && At(b, 24, 2) == m.humidityCentiPercent &&
    At(b, 26, 2) == m.batteryMv && b[28] == m.validSamples && b[29] == m.totalSamples
  }

  predicate StatusAt(b: seq<byte>, p: NodeStatus)
    requires |b| >= 27
  {
    b[0] == p.filterState && At(b, 1, 2) == p.qualityFlags && At(b, 3, 2) == p.healthFlags &&
    b[5] == p.bootReason && b[6] == p.rtcState && At(b, 7, 4) == p.rtcUnixTime && b[11] == p.pollIntervalMinutes &&
    b[12] == p.scheduleState && At(b, 13, 4) == p.scheduledMaintenanceUnix && At(b, 17, 4) == p.lastCommandId &&
    b[21] == p.lastCommandType && b[22] == p.lastCommandResult && At(b, 23, 4) == p.referenceDistanceMm
  }

  lemma MeasurementOnAir(m: Measurement, rest: seq<byte>)
    ensures MeasurementAt(PutMeasurement(m, rest), m) && PutMeasurement(m, rest)[30..] == rest
  {
    hide PutMeasurement, PutU32, PutU16, BitsOfI16, At;
    MeasurementParts(m, rest);
    var s := PutMeasurement(m, rest);
    WordAtIs(s, 0, m.session);
    WordAtIs(s, 4, m.sequence);
    WordAtIs(s, 8, m.medianEchoUs);
    WordAtIs(s, 12, m.rawDistanceMm);
    WordAtIs(s, 16, m.acceptedDistanceMm);
    HalfAtIs(s, 20, m.madMm);
    HalfAtIs(s, 22, BitsOfI16(m.temperatureCentiC));
    HalfAtIs(s, 24, m.humidityCentiPercent);
    HalfAtIs(s, 26, m.batteryMv);
    TwosComplement(m.temperatureCentiC, 0, 0);
  }

  lemma StatusOnAir(p: NodeStatus, rest: seq<byte>)
    ensures StatusAt(PutStatus(p, rest), p) && PutStatus(p, rest)[27..] == rest
  {
    hide PutStatus, PutU32, PutU16, At;
    StatusParts(p, rest);
    var s := PutStatus(p, rest);
    HalfAtIs(s, 1, p.qualityFlags);
    HalfAtIs(s, 3, p.healthFlags);
    WordAtIs(s, 7, p.rtcUnixTime);
    WordAtIs(s, 13, p.scheduledMaintenanceUnix);
    WordAtIs(s, 17, p.lastCommandId);
    WordAtIs(s, 23, p.referenceDistanceMm);
  }

  /** A telemetry packet is the header of type 1, 30 bytes of measurement and 27 bytes of
      node status, all numbers most significant byte first. */
  lemma TelemetryOnAir(p: TelemetryPacket)
    requires TelemetryEncodable(p)
    ensures var s := EncodeTelemetry(p);
            var body := s[5 + |p.nodeId|..];
            Headed(s, 1, p.nodeId) && |body| == 57 && MeasurementAt(body, p.m) && StatusAt(body[30..], p.status)
  {
    hide PutHeader, PutMeasurement, PutStatus, MeasurementAt, StatusAt;
    HeaderParts(TELEMETRY, p.nodeId, PutMeasurement(p.m, PutStatus(p.status, [])));
    MeasurementOnAir(p.m, PutStatus(p.status, []));
    StatusOnAir(p.status, []);
  }

  /** What a decoder reads out of an accepted frame is what lies at those offsets. */
  lemma TelemetryReadsOffsets(s: seq<byte>, p: TelemetryPacket)
    requires DecodeTelemetry(s) == Accepted(p)
    ensures Headed(s, 1, p.nodeId) && |s| == 62 + |p.nodeId| &&
            var body := s[5 + |p.nodeId|..];
            MeasurementAt(body, p.m) && StatusAt(body[30..], p.status)
  {
    hide DecodeTelemetry, EncodeTelemetry, MeasurementAt, StatusAt, Headed;
    TelemetryBijection(s, p);
    TelemetryOnAir(p);
  }

  /** Every code of the node status exists, and the poll interval is not zero. */
  predicate CodesExist(b: seq<byte>)
    requires |b| >= 27
  {
    b[0] <= 7 && b[5] <= 5 && b[6] <= 3 && b[11] > 0 && b[12] <= 3 && b[21] <= 3 && (b[22] <= 7 || b[22] == 0xFF)
  }

  /** No time without a valid clock, no date without a schedule, no id without a command. */
  predicate Agrees(b: seq<byte>)
    requires |b| >= 27
  {
    (b[6] != 0 ==> At(b, 7, 4) == 0) && (b[12] == 0 ==> At(b, 13, 4) == 0) && (b[21] == 0 ==> At(b, 17, 4) == 0)
  }

  /** Letters, digits, hyphen and underscore. */
  predicate NameByte(v: byte) {
    ('A' as int <= v <= 'Z' as int) || ('a' as int <= v <= 'z' as int) || ('0' as int <= v <= '9' as int) ||
    v == '-' as int || v == '_' as int
  }

  lemma AllowedIff(b: seq<byte>, p: NodeStatus)
    requires |b| >= 27 && StatusAt(b, p)
    ensures CodesExist(b) <==> EnumsInRange(p)
    ensures Agrees(b) <==> FieldsAgree(p)
  {
    hide At;
  }

  lemma NameIff(nodeId: seq<byte>)
    ensures NodeIdValid(nodeId) <==> 1 <= |nodeId| <= 24 && forall v | v in nodeId :: NameByte(v)
  {
    forall v: byte
      ensures ValidNodeByte(v) <==> NameByte(v)
    {
    }
    hide ValidNodeByte, NameByte;
    assert forall i | 0 <= i < |nodeId| :: nodeId[i] in nodeId;
  }

  // ---- acknowledgement and command result ----

  lemma AckParts(p: AckCommandPacket, rest: seq<byte>)
    ensures var s := PutAckFixed(p, rest);
            s[0..4] == PutU32(p.session) && s[4..8] == PutU32(p.sequence) && s[8..12] == PutU32(p.gatewayUnixTime) &&
            s[12] == (if p.timeValid then 1 else 0) && s[13..17] == PutU32(p.commandId) && s[17] == p.commandType &&
            s[18] == CommandPayloadLength(p.commandType) && s[19..] == rest
  {
    hide PutU32;
  }

  /** An acknowledgement is the header of type 2, 19 fixed bytes and the argument of the
      command: one byte of minutes, four bytes of time, or nothing. */
  lemma AckOnAir(p: AckCommandPacket)
    requires AckEncodable(p)
    ensures var s := EncodeAck(p);
            var body := s[5 + |p.nodeId|..];
            Headed(s, 2, p.nodeId) && |body| >= 19 && At(body, 0, 4) == p.session && At(body, 4, 4) == p.sequence &&
            At(body, 8, 4) == p.gatewayUnixTime && body[12] == (if p.timeValid then 1 else 0) &&
            At(body, 13, 4) == p.commandId && body[17] == p.commandType && body[18] == |body| - 19 &&
            (if p.commandType == 3 then body[19..] == [p.pollIntervalMinutes]
             else if p.commandType == 2 then |body| == 23 && At(body, 19, 4) == p.scheduledMaintenanceUnix
             else body[19..] == [])
  {
    hide PutHeader, PutAckFixed, PutU32, At;
    HeaderParts(ACK_COMMAND, p.nodeId, PutAckFixed(p, PutArgument(p)));
    AckParts(p, PutArgument(p));
    var body := PutAckFixed(p, PutArgument(p));
    WordAtIs(body, 0, p.session);
    WordAtIs(body, 4, p.sequence);
    WordAtIs(body, 8, p.gatewayUnixTime);
    WordAtIs(body, 13, p.commandId);
    if p.commandType == SCHEDULE_MAINTENANCE_AT { WordAtIs(body, 19, p.scheduledMaintenanceUnix); }
  }

  lemma ResultParts(p: CommandResultPacket, rest: seq<byte>)
    ensures var s := PutResultBody(p, rest);
            s[0..4] == PutU32(p.session) && s[4..8] == PutU32(p.commandId) && s[8] == p.commandType &&
            s[9] == p.resultCode && s[10] == p.effectivePollIntervalMinutes &&
            s[11..15] == PutU32(p.scheduledMaintenanceUnix) && s[15..] == rest
  {
    hide PutU32;
  }

  /** A command result is the header of type 3 and 15 bytes. */
  lemma ResultOnAir(p: CommandResultPacket)
    requires ResultEncodable(p)
    ensures var s := EncodeResult(p);
            var body := s[5 + |p.nodeId|..];
            Headed(s, 3, p.nodeId) && |body| == 15 && At(body, 0, 4) == p.session && At(body, 4, 4) == p.commandId &&
            body[8] == p.commandType && body[9] == p.resultCode && body[10] == p.effectivePollIntervalMinutes &&
            At(body, 11, 4) == p.scheduledMaintenanceUnix
  {
    hide PutHeader, PutResultBody, PutU32, At;
    HeaderParts(COMMAND_RESULT, p.nodeId, PutResultBody(p, []));
    ResultParts(p, []);
    var body := PutResultBody(p, []);
    WordAtIs(body, 0, p.session);
    WordAtIs(body, 4, p.commandId);
    WordAtIs(body, 11, p.scheduledMaintenanceUnix);
  }

  /** The frame starts with a header of this type and names a node; what follows is the
      rest of it. */
  predicate Addressed(s: seq<byte>, kind: byte) {
    |s| >= 5 && s[..4] == [0x47, 0x54, 3, kind] && 1 <= s[4] <= 24 && |s| - 5 >= s[4] &&
    forall v | v in s[5..5 + s[4]] :: NameByte(v)
  }

  function After(s: seq<byte>): (b: seq<byte>)
    requires |s| >= 5 && |s| - 5 >= s[4]
  {
    s[5 + s[4]..]
  }

  /** The header parser takes exactly that. */
  lemma AddressedIff(s: seq<byte>, kind: byte)
    ensures ParseHeader(s, kind).Accepted? <==> Addressed(s, kind)
    ensures Addressed(s, kind) ==> ParseHeader(s, kind).packet.1 == After(s)
  {
    hide NameByte, NodeBytes, ValidNodeByte, NodeIdValid;
    if ParseHeader(s, kind).Accepted? {
      var (nodeId, body) := ParseHeader(s, kind).packet;
      ShortName(nodeId);
      HeaderParts(kind, nodeId, body);
      assert s[..4] == s[..5][..4];
      NameIff(nodeId);
    } else if Addressed(s, kind) {
      var nodeId := s[5..5 + s[4]];
      NameIff(nodeId);
      assert s[5..] == nodeId + After(s);
      assert s == PutHeader(kind, nodeId, After(s)) by {
        assert s == s[..4] + [s[4]] + s[5..];
      }
      ParsePutHeader(kind, nodeId, After(s));
    }
  }

  lemma ShortName(nodeId: seq<byte>)
    requires NodeIdValid(nodeId)
    ensures 0 < |nodeId| < NODE_ID_CAPACITY
  {
  }

  /** Why the header parser rejects a frame: the first of these that applies. */
  lemma HeaderErrors(s: seq<byte>, kind: byte)
    requires !Addressed(s, kind)
    ensures ParseHeader(s, kind) ==
            Rejected(if |s| < 5 then BufferTooSmall
                     else if s[..2] != [0x47, 0x54] then BadMagic
                     else if s[2] != 3 then UnsupportedVersion
                     else if s[3] != kind then WrongType
                     else InvalidNodeId)
  {
    hide Addressed;
    AddressedIff(s, kind);
    if |s| >= 5 {
      assert s[..2] == [s[0], s[1]];
    }
  }

  /** In the bytes of the frame: what the telemetry decoder does with it. It accepts 57
      bytes of known codes and fields that agree; otherwise it reports the first of these. */
  lemma TelemetryVerdict(s: seq<byte>)
    ensures if !Addressed(s, 1) then DecodeTelemetry(s) == Rejected(ParseHeader(s, 1).status)
            else
              var b := After(s);
              if |b| < 57 then DecodeTelemetry(s) == Rejected(BufferTooSmall)
              else if !CodesExist(b[30..]) then DecodeTelemetry(s) == Rejected(InvalidEnum)
              else if !Agrees(b[30..]) then DecodeTelemetry(s) == Rejected(InvalidFlags)
              else if |b| > 57 then DecodeTelemetry(s) == Rejected(TrailingData)
              else DecodeTelemetry(s).Accepted?
  {
    hide ParseHeader, Addressed, ParseMeasurement, ParseStatus, MeasurementAt, StatusAt, CodesExist, Agrees,
         EnumsInRange, FieldsAgree;
    AddressedIff(s, TELEMETRY);
    if Addressed(s, 1) && |After(s)| >= 57 {
      var b := After(s);
      var (m, rest) := ParseMeasurement(b).value;
      var (status, none) := ParseStatus(rest).value;
      MeasurementOnAir(m, rest);
      StatusOnAir(status, none);
      AllowedIff(b[30..], status);
    }
  }

  /** In the bytes of the frame: what the decoder of acknowledgements does with it. Time
      only with its flag, and a command only with an id and the argument its type has. */
  lemma AckVerdict(s: seq<byte>)
    ensures if !Addressed(s, 2) then DecodeAck(s) == Rejected(ParseHeader(s, 2).status)
            else if |After(s)| < 19 then DecodeAck(s) == Rejected(BufferTooSmall)
            else
              var b := After(s);
              if b[12] > 1 then DecodeAck(s) == Rejected(InvalidFlags)
              else if b[17] > 3 || b[18] != (if b[17] == 2 then 4 else if b[17] == 3 then 1 else 0) then
                DecodeAck(s) == Rejected(InvalidCommand)
              else if |b| - 19 < b[18] then DecodeAck(s) == Rejected(BufferTooSmall)
              else if (b[12] == 0 && At(b, 8, 4) != 0) || (b[17] == 0 && At(b, 13, 4) != 0) ||
                      (b[17] != 0 && At(b, 13, 4) == 0) || (b[17] == 2 && At(b, 19, 4) == 0) ||
                      (b[17] == 3 && b[19] == 0) then DecodeAck(s) == Rejected(InvalidCommand)
              else if |b| - 19 > b[18] then DecodeAck(s) == Rejected(TrailingData)
              else DecodeAck(s).Accepted?
  {
    hide ParseHeader, Addressed, At, ParseAckFixed, ParseU32, ParseU8, PutU32;
    AddressedIff(s, ACK_COMMAND);
    if Addressed(s, 2) && |After(s)| >= 19 {
      var b := After(s);
      var (f, rest) := ParseAckFixed(b).value;
      FixedParts(f, rest);
      if f.kind == SET_POLL_INTERVAL && |rest| >= 1 { assert rest[0] == b[19]; }
      if f.kind == SCHEDULE_MAINTENANCE_AT && |rest| >= 4 {
        var (unix, more) := ParseU32(rest).value;
        assert b[19..23] == rest[..4] == PutU32(unix);
        WordAtIs(b, 19, unix);
      }
    }
  }

  lemma FixedParts(f: AckFixed, rest: seq<byte>)
    ensures var s := PutU32(f.session) + (PutU32(f.sequence) + (PutU32(f.unix) + ([f.flags] +
                     (PutU32(f.commandId) + ([f.kind] + ([f.payloadLength] + rest))))));
            |s| == 19 + |rest| && s[12] == f.flags && At(s, 8, 4) == f.unix && At(s, 13, 4) == f.commandId &&
            s[17] == f.kind && s[18] == f.payloadLength && s[19..] == rest
  {
    hide PutU32, At;
    var s := PutU32(f.session) + (PutU32(f.sequence) + (PutU32(f.unix) + ([f.flags] +
             (PutU32(f.commandId) + ([f.kind] + ([f.payloadLength] + rest))))));
    assert s[8..12] == PutU32(f.unix) && s[13..17] == PutU32(f.commandId);
    WordAtIs(s, 8, f.unix);
    WordAtIs(s, 13, f.commandId);
  }

  /** In the bytes of the frame: what the decoder of command results does with it. */
  lemma ResultVerdict(s: seq<byte>)
    ensures if !Addressed(s, 3) then DecodeResult(s) == Rejected(ParseHeader(s, 3).status)
            else if |After(s)| < 15 then DecodeResult(s) == Rejected(BufferTooSmall)
            else
              var b := After(s);
              if At(b, 4, 4) == 0 || b[8] == 0 || b[8] > 3 || b[9] > 7 then DecodeResult(s) == Rejected(InvalidCommand)
              else if |b| > 15 then DecodeResult(s) == Rejected(TrailingData)
              else DecodeResult(s).Accepted?
  {
    hide ParseHeader, Addressed, At, ParseResultBody, PutResultBody, PutU32;
    AddressedIff(s, COMMAND_RESULT);
    if Addressed(s, 3) && |After(s)| >= 15 {
      var b := After(s);
      var (p, rest) := ParseResultBody(ParseHeader(s, COMMAND_RESULT).packet.0, b).value;
      ResultParts(p, rest);
      WordAtIs(b, 4, p.commandId);
    }
  }

  // ---- the queue record ----

  lemma FieldParts(f: Fields, rest: seq<byte>)
    ensures var s := PutFields(f, rest);
            s[0..4] == PutU32(f.magic) && s[4..6] == PutU16(f.version) && s[6..8] == PutU16(f.length) &&
            s[8..] == PutFieldsTail(f, rest)
  {
    hide PutU32, PutU16, PutFieldsTail;
  }

  lemma FieldTailParts(f: Fields, rest: seq<byte>)
    ensures var s := PutFieldsTail(f, rest);
            s[0..8] == PutU64(f.recordId) && s[8] == f.flags && s[9] == f.payloadLength &&
            s[10..12] == PutU16(f.packetLength) && s[12..16] == PutU32(f.boot) && s[16..24] == PutU64(f.received) &&
            s[24..32] == PutU64(f.uptime) && s[32..36] == PutU32(f.rssi) && s[36..40] == PutU32(f.snr) &&
            s[40..44] == PutU32(f.frequency) && s[44..] == rest
  {
    hide PutU64, PutU32, PutU16;
  }

  /** A record file is "GTQ1", version 1, its own length, the id and the reception in 44
      bytes, the frame as received, and the checksum of all of that. */
  lemma RecordOnFlash(r: QueueRecord)
    requires Encodable(r)
    ensures var s, m := EncodeRecord(r), r.reception;
            |s| == 56 + |r.payload| && At(s, 0, 4) == 0x4754_5131 && At(s, 4, 2) == 1 && At(s, 6, 2) == |s| &&
            RecordTailAt(s[8..], r) && s[52..|s| - 4] == r.payload &&
            At(s, |s| - 4, 4) == Crc32.Crc(s[..|s| - 4])
  {
    hide PutFields, PutFieldsTail, PutU32, PutU16, At, Crc32.Crc, RecordTailAt;
    var s, f := EncodeRecord(r), FieldsOf(r);
    var body := PutFields(f, r.payload);
    FieldParts(f, r.payload);
    assert s[..|s| - 4] == body && s[|s| - 4..|s| - 4 + 4] == PutU32(Crc32.Crc(body));
    WordAtIs(s, |s| - 4, Crc32.Crc(body));
    SameAt(body, s, 0, 4);
    SameAt(body, s, 4, 2);
    SameAt(body, s, 6, 2);
    WordAtIs(body, 0, f.magic);
    HalfAtIs(body, 4, f.version);
    HalfAtIs(body, 6, f.length);
    assert s[8..] == body[8..] + PutU32(Crc32.Crc(body));
    RecordTail(r, PutU32(Crc32.Crc(body)));
  }

  /** Id, flags, lengths and reception; signed numbers as their two's complement. */
  predicate RecordTailAt(b: seq<byte>, r: QueueRecord)
    requires |b| >= 44
  {
    var m := r.reception;
    At(b, 0, 8) == r.recordId && b[8] == (if m.timeTrusted then 1 else 0) && b[9] == |r.payload| &&
    At(b, 10, 2) == m.packetLength && At(b, 12, 4) == m.bootSessionId &&
    At(b, 16, 8) == m.receivedUnixMs % 0x1_0000_0000_0000_0000 && At(b, 24, 8) == m.uptimeMs &&
    At(b, 32, 4) == m.rssiBits && At(b, 36, 4) == m.snrBits && At(b, 40, 4) == m.frequencyErrorHz % 0x1_0000_0000
  }

  lemma SameAt(a: seq<byte>, s: seq<byte>, at: nat, n: nat)
    requires at + n <= |a| <= |s| && s[..|a|] == a
    ensures At(s, at, n) == At(a, at, n)
  {
    assert s[..|a|][at..at + n] == s[at..at + n];
  }

  lemma RecordTail(r: QueueRecord, trailer: seq<byte>)
    requires Encodable(r)
    ensures var b := PutFieldsTail(FieldsOf(r), r.payload);
            RecordTailAt(b + trailer, r) && b[44..] == r.payload
  {
    hide PutFieldsTail, PutU64, PutU32, PutU16, At, BitsOfI64, BitsOfI32;
    var f, m := FieldsOf(r), r.reception;
    var s := PutFieldsTail(f, r.payload);
    FieldTailParts(f, r.payload);
    var b := s + trailer;
    WideAtIs(b, 0, f.recordId);
    HalfAtIs(b, 10, f.packetLength);
    WordAtIs(b, 12, f.boot);
    WideAtIs(b, 16, f.received);
    WideAtIs(b, 24, f.uptime);
    WordAtIs(b, 32, f.rssi);
    WordAtIs(b, 36, f.snr);
    WordAtIs(b, 40, f.frequency);
    TwosComplement(0, m.frequencyErrorHz, m.receivedUnixMs);
  }

  /** In the bytes of the file: which files are queue records. */
  lemma RecordAcceptedIff(s: seq<byte>)
    ensures DecodeRecord(s).Some? <==>
            57 <= |s| <= 152 && At(s, |s| - 4, 4) == Crc32.Crc(s[..|s| - 4]) &&
            At(s, 0, 4) == 0x4754_5131 && At(s, 4, 2) == 1 && At(s, 6, 2) == |s| && At(s, 8, 8) != 0 &&
            s[17] == |s| - 56 && At(s, 18, 2) == |s| - 56 &&
            (if s[16] == 0 then At(s, 24, 8) == 0xFFFF_FFFF_FFFF_FFFF
             else s[16] == 1 && At(s, 24, 8) < 0x8000_0000_0000_0000)
  {
    hide At, Crc32.Crc, ParseFields, PutFields, PutU32;
    if 57 <= |s| <= 152 {
      WordAtIs(s, |s| - 4, WordAt(s, |s| - 4));
      var body := s[..|s| - 4];
      var (f, payload) := ParseFields(body).value;
      FieldsOnFlash(f, payload, s);
    }
  }

  lemma FieldsOnFlash(f: Fields, payload: seq<byte>, s: seq<byte>)
    requires |s| >= 56 && s[..|s| - 4] == PutFields(f, payload)
    ensures At(s, 0, 4) == f.magic && At(s, 4, 2) == f.version && At(s, 6, 2) == f.length &&
            At(s, 8, 8) == f.recordId && s[16] == f.flags && s[17] == f.payloadLength &&
            At(s, 18, 2) == f.packetLength && At(s, 24, 8) == f.received
  {
    hide PutFields, PutFieldsTail, PutU64, PutU32, PutU16, At;
    FieldParts(f, payload);
    FieldTailParts(f, payload);
    var b := s[..|s| - 4];
    var tail := b[8..];
    assert b[8..16] == tail[0..8] && b[18..20] == tail[10..12] && b[24..32] == tail[16..24];
    assert b[16] == tail[8] && b[17] == tail[9];
    WordAtIs(b, 0, f.magic);
    HalfAtIs(b, 4, f.version);
    HalfAtIs(b, 6, f.length);
    WideAtIs(b, 8, f.recordId);
    HalfAtIs(b, 18, f.packetLength);
    WideAtIs(b, 24, f.received);
    SameAt(b, s, 0, 4);
    SameAt(b, s, 4, 2);
    SameAt(b, s, 6, 2);
    SameAt(b, s, 8, 8);
    SameAt(b, s, 18, 2);
    SameAt(b, s, 24, 8);
  }

  // ---- the ring file ----

  /** Each key is its length-prefixed id, its session and its sequence number. */
  ghost predicate KeysAt(b: seq<byte>, ks: seq<TelemetryKey>)
    decreases |ks|
  {
    if ks == [] then b == []
    else
      var name := CStr(ks[0].nodeId);
      var n := |name|;
      |b| >= n + 9 && b[0] == n && b[1..n + 1] == name && At(b, n + 1, 4) == ks[0].session &&
      At(b, n + 5, 4) == ks[0].sequence && KeysAt(b[n + 9..], ks[1..])
  }

  lemma KeyParts(k: TelemetryKey, rest: seq<byte>)
    ensures var s, n := PutKey(k, rest), |CStr(k.nodeId)|;
            |s| == n + 9 + |rest| && s[0] == n && s[1..n + 1] == CStr(k.nodeId) &&
            s[n + 1..n + 5] == PutU32(k.session) && s[n + 5..n + 9] == PutU32(k.sequence) && s[n + 9..] == rest
  {
    hide PutU32, StrLen;
  }

  lemma {:induction false} KeysOnFlash(ks: seq<TelemetryKey>)
    ensures KeysAt(PutKeys(ks), ks)
    decreases |ks|
  {
    hide PutU32, PutKey, CStr, At;
    if ks != [] {
      var rest := PutKeys(ks[1..]);
      KeyParts(ks[0], rest);
      KeysOnFlash(ks[1..]);
      var s, n := PutKey(ks[0], rest), |CStr(ks[0].nodeId)|;
      WordAtIs(s, n + 1, ks[0].session);
      WordAtIs(s, n + 5, ks[0].sequence);
    }
  }

  /** The ring file is "GTD1", the number of keys, the keys oldest first, and the checksum. */
  lemma RingOnFlash(ks: seq<TelemetryKey>)
    requires |ks| <= RECENT_CAPACITY
    ensures var s := RecentFile(ks);
            |s| >= 9 && At(s, 0, 4) == 0x4754_4431 && s[4] == |ks| && KeysAt(s[5..|s| - 4], ks) &&
            At(s, |s| - 4, 4) == Crc32.Crc(s[..|s| - 4])
  {
    hide PutU32, PutKeys, At, Crc32.Crc, KeysAt;
    var s, body := RecentFile(ks), RecentBody(ks);
    assert s[..|s| - 4] == body && s[|s| - 4..|s| - 4 + 4] == PutU32(Crc32.Crc(body));
    WordAtIs(s, |s| - 4, Crc32.Crc(body));
    assert s[0..4] == PutU32(RECENT_MAGIC);
    WordAtIs(s, 0, RECENT_MAGIC);
    assert s[5..|s| - 4] == PutKeys(ks);
    KeysOnFlash(ks);
  }

  // ---- the command record ----

  /** Reference: the number that bytes spell, least significant first. */
  function LittleNumber(s: seq<byte>): (v: nat)
    decreases |s|
  {
    if s == [] then 0 else s[0] + 0x100 * LittleNumber(s[1..])
  }

  function LittleAt(s: seq<byte>, at: nat, n: nat): (v: nat)
    requires at + n <= |s|
  {
    LittleNumber(s[at..at + n])
  }

  lemma LittleTwo(s: seq<byte>)
    requires |s| == 2
    ensures LittleNumber(s) == s[0] + 0x100 * (s[1] as int)
  {
    var tail := s[1..];
    assert tail[1..] == [] && tail[0] == s[1];
    assert LittleNumber(tail) == s[1];
  }

  lemma {:induction false} LittleJoined(s: seq<byte>, t: seq<byte>)
    requires |s| == 2 || |s| == 4
    ensures LittleNumber(s + t)
         == LittleNumber(s) + (if |s| == 2 then 0x1_0000 else 0x1_0000_0000) * LittleNumber(t)
    decreases |s|
  {
    if |s| == 2 {
      LittleTwo(s);
      assert (s + t)[1..] == s[1..] + t && (s[1..] + t)[1..] == t && (s[1..] + t)[0] == s[1];
    } else {
      LittleJoined(s[..2], s[2..] + t);
      LittleJoined(s[2..], t);
      LittleJoined(s[..2], s[2..]);
      assert s[..2] + (s[2..] + t) == s + t && s[..2] + s[2..] == s;
    }
  }

  lemma Low16At(s: seq<byte>, at: nat, v: u16)
    requires at + 2 <= |s| && s[at..at + 2] == Low16(v)
    ensures LittleAt(s, at, 2) == v
  {
    LittleTwo(Low16(v));
  }

  lemma Low32Number(v: u32)
    ensures LittleNumber(Low32(v)) == v
  {
    var s := Low32(v);
    Low32Value(v);
    LittleTwo(s[..2]);
    LittleTwo(s[2..]);
    LittleJoined(s[..2], s[2..]);
    assert s[..2] + s[2..] == s;
  }

  lemma Low32At(s: seq<byte>, at: nat, v: u32)
    requires at + 4 <= |s| && s[at..at + 4] == Low32(v)
    ensures LittleAt(s, at, 4) == v
  {
    hide Low32;
    Low32Number(v);
  }

  lemma Low64At(s: seq<byte>, at: nat, v: u64)
    requires at + 8 <= |s| && s[at..at + 8] == Low64(v)
    ensures LittleAt(s, at, 8) == v
  {
    hide Low32;
    Low32Number(v % 0x1_0000_0000);
    Low32Number(v / 0x1_0000_0000);
    Low32Value(v % 0x1_0000_0000);
    LittleJoined(Low32(v % 0x1_0000_0000), Low32(v / 0x1_0000_0000));
  }

  /** The command record in memory order: least significant byte first, each field aligned
      to its size, padding zero up to the checksum. */
  lemma CommandOnFlash(r: Record)
    ensures var s, c := Image(r), r.command;
            |s| == 72 && LittleAt(s, 0, 4) == r.magic && LittleAt(s, 4, 2) == r.schema && LittleAt(s, 6, 2) == r.size &&
            LittleAt(s, 8, 4) == r.next && s[12..16] == [0, 0, 0, 0] && LittleAt(s, 16, 4) == c.id &&
            s[20..24] == [c.kind, c.state, c.pollIntervalMinutes, 0] &&
            LittleAt(s, 24, 4) == c.scheduledMaintenanceUnix && s[28..32] == [0, 0, 0, 0] &&
            LittleAt(s, 32, 8) == c.createdUnixMs % 0x1_0000_0000_0000_0000 &&
            LittleAt(s, 40, 8) == c.lastSentUnixMs % 0x1_0000_0000_0000_0000 && LittleAt(s, 48, 4) == c.sendCount &&
            s[52..56] == [c.result, c.effectivePollIntervalMinutes, 0, 0] &&
            LittleAt(s, 56, 4) == c.effectiveMaintenanceUnix && s[60..64] == [0, 0, 0, 0] &&
            LittleAt(s, 64, 4) == r.checksum
  {
    hide Low16, Low32, Low64, LittleAt, BitsOfI64, Image;
    ImageParts(r);
    var s, c := Image(r), r.command;
    Low32At(s, 0, r.magic);
    Low16At(s, 4, r.schema);
    Low16At(s, 6, r.size);
    Low32At(s, 8, r.next);
    Low32At(s, 16, c.id);
    Low32At(s, 24, c.scheduledMaintenanceUnix);
    Low64At(s, 32, BitsOfI64(c.createdUnixMs));
    Low64At(s, 40, BitsOfI64(c.lastSentUnixMs));
    Low32At(s, 48, c.sendCount);
    Low32At(s, 56, c.effectiveMaintenanceUnix);
    Low32At(s, 64, r.checksum);
    TwosComplement(0, 0, c.createdUnixMs);
    TwosComplement(0, 0, c.lastSentUnixMs);
  }

  lemma ImageParts(r: Record)
    ensures var s, c := Image(r), r.command;
            |s| == 72 && s[0..4] == Low32(r.magic) && s[4..6] == Low16(r.schema) && s[6..8] == Low16(r.size) &&
            s[8..12] == Low32(r.next) && s[12..16] == [0, 0, 0, 0] && s[16..20] == Low32(c.id) &&
            s[20..24] == [c.kind, c.state, c.pollIntervalMinutes, 0] &&
            s[24..28] == Low32(c.scheduledMaintenanceUnix) && s[28..32] == [0, 0, 0, 0] &&
            s[32..40] == Low64(BitsOfI64(c.createdUnixMs)) && s[40..48] == Low64(BitsOfI64(c.lastSentUnixMs)) &&
            s[48..52] == Low32(c.sendCount) && s[52..56] == [c.result, c.effectivePollIntervalMinutes, 0, 0] &&
            s[56..60] == Low32(c.effectiveMaintenanceUnix) && s[60..64] == [0, 0, 0, 0] &&
            s[64..68] == Low32(r.checksum)
  {
    Widths(r);
    hide Low16, Low32, Low64, BitsOfI64;
  }

  lemma Widths(r: Record)
    ensures forall v: u16 :: |Low16(v)| == 2
    ensures forall v: u32 :: |Low32(v)| == 4
    ensures forall v: u64 :: |Low64(v)| == 8
  {
  }
}
