/** The Protocol 3 encoders and decoders as the gateway runs them: cursors moving
    over a radio buffer, proved against the wire forms of Protocol. */
module ProtocolCodec {
  import opened Words
  import opened Cursors
  import opened Protocol

  method NodeIdIsValid(nodeId: seq<byte>) returns (ok: bool)
    ensures ok <==> NodeIdValid(nodeId)
  {
    if |nodeId| == 0 || |nodeId| >= NODE_ID_CAPACITY { return false; }
    for i := 0 to |nodeId|
      invariant forall j | 0 <= j < i :: ValidNodeByte(nodeId[j])
    {
      if !ValidNodeByte(nodeId[i]) { return false; }
    }
    return true;
  }

  method WriteHeader(w: Writer, kind: byte, nodeId: seq<byte>, ghost rest: seq<byte>) returns (ok: bool)
    requires w.Valid()
    modifies w, w.data
    ensures w.Valid() && (ok ==> NodeIdValid(nodeId) && w.position == old(w.position) + 5 + |nodeId|)
    ensures ok <==> NodeIdValid(nodeId) && old(w.position) + 5 + |nodeId| <= w.data.Length
    ensures ok ==> w.Written() + rest == old(w.Written()) + PutHeader(kind, nodeId, rest)
  {
    ok := NodeIdIsValid(nodeId);
    if !ok { return; }
    ghost var r5 := nodeId + rest;
    ghost var r4 := [|nodeId| as byte] + r5;
    ghost var r3 := [kind] + r4;
    ghost var r2 := [VERSION] + r3;
    ghost var r1 := [MAGIC1] + r2;
    assert [MAGIC0] + r1 == PutHeader(kind, nodeId, rest);
    ok := w.U8(MAGIC0, r1);
    if !ok { return; }
    ok := w.U8(MAGIC1, r2);
    if !ok { return; }
    ok := w.U8(VERSION, r3);
    if !ok { return; }
    ok := w.U8(kind, r4);
    if !ok { return; }
    ok := w.U8(|nodeId|, r5);
    if !ok { return; }
    ok := w.Bytes(nodeId, rest);
  }

  method ReadPreamble(r: Reader)
    returns (ok: bool, m0: byte, m1: byte, version: byte, kind: byte, length: byte)
    requires r.Valid()
    modifies r
    ensures r.Valid() && (ok <==> |old(r.Rest())| >= 5)
    ensures ok ==> old(r.Rest()) == [m0, m1, version, kind, length] + r.Rest()
  {
    hide ParseU8;
    m0, m1, version, kind, length := 0, 0, 0, 0, 0;
    ok, m0 := r.U8();
    if !ok { return; }
    ok, m1 := r.U8();
    if !ok { return; }
    ok, version := r.U8();
    if !ok { return; }
    ok, kind := r.U8();
    if !ok { return; }
    ok, length := r.U8();
    if !ok { return; }
    assert [m0, m1, version, kind, length] + r.Rest()
        == [m0] + ([m1] + ([version] + ([kind] + ([length] + r.Rest()))));
  }

  method ReadHeader(r: Reader, expected: byte) returns (h: Decoded<seq<byte>>)
    requires r.Valid()
    modifies r
    ensures r.Valid()
    ensures match ParseHeader(old(r.Rest()), expected)
            case Rejected(status) => h == Rejected(status)
            case Accepted((nodeId, rest)) => h == Accepted(nodeId) && r.Rest() == rest
  {
    ghost var all := r.Rest();
    var ok, m0, m1, version, kind, length := ReadPreamble(r);
    if !ok { return Rejected(BufferTooSmall); }
    ghost var body := r.Rest();
    assert all[5..] == body;
    if m0 != MAGIC0 || m1 != MAGIC1 { return Rejected(BadMagic); }
    if version != VERSION { return Rejected(UnsupportedVersion); }
    if kind != expected { return Rejected(WrongType); }
    if length == 0 || length >= NODE_ID_CAPACITY { return Rejected(InvalidNodeId); }
    var nodeId: seq<byte>;
    ok, nodeId := r.Bytes(length);
    if !ok { return Rejected(InvalidNodeId); }
    assert nodeId == body[..length] && r.Rest() == body[length..];
    for i := 0 to |nodeId|
      invariant forall j | 0 <= j < i :: ValidNodeByte(nodeId[j])
    {
      if !ValidNodeByte(nodeId[i]) { return Rejected(InvalidNodeId); }
    }
    return Accepted(nodeId);
  }

  // ---- telemetry ----

  method WriteMeasurement(w: Writer, m: Measurement, ghost rest: seq<byte>) returns (ok: bool)
    requires w.Valid()
    modifies w, w.data
    ensures w.Valid() && (ok ==> w.position == old(w.position) + 30)
    ensures ok <==> old(w.position) + 30 <= w.data.Length
    ensures ok ==> w.Written() + rest == old(w.Written()) + PutMeasurement(m, rest)
  {
    hide PutU32, PutU16;
    ghost var r10 := [m.totalSamples] + rest;
    ghost var r9 := [m.validSamples] + r10;
    ghost var r8 := PutU16(m.batteryMv) + r9;
    ghost var r7 := PutU16(m.humidityCentiPercent) + r8;
    ghost var r6 := PutU16(BitsOfI16(m.temperatureCentiC)) + r7;
    ghost var r5 := PutU16(m.madMm) + r6;
    ghost var r4 := PutU32(m.acceptedDistanceMm) + r5;
    ghost var r3 := PutU32(m.rawDistanceMm) + r4;
    ghost var r2 := PutU32(m.medianEchoUs) + r3;
    ghost var r1 := PutU32(m.sequence) + r2;
    ok := w.U32(m.session, r1);
    if !ok { return; }
    ok := w.U32(m.sequence, r2);
    if !ok { return; }
    ok := w.U32(m.medianEchoUs, r3);
    if !ok { return; }
    ok := w.U32(m.rawDistanceMm, r4);
    if !ok { return; }
    ok := w.U32(m.acceptedDistanceMm, r5);
    if !ok { return; }
    ok := w.U16(m.madMm, r6);
    if !ok { return; }
    ok := w.U16(BitsOfI16(m.temperatureCentiC), r7);
    if !ok { return; }
    ok := w.U16(m.humidityCentiPercent, r8);
    if !ok { return; }
    ok := w.U16(m.batteryMv, r9);
    if !ok { return; }
    ok := w.U8(m.validSamples, r10);
    if !ok { return; }
    ok := w.U8(m.totalSamples, rest);
  }

  method WriteStatus(w: Writer, p: NodeStatus, ghost rest: seq<byte>) returns (ok: bool)
    requires w.Valid()
    modifies w, w.data
    ensures w.Valid() && (ok ==> w.position == old(w.position) + 27)
    ensures ok <==> old(w.position) + 27 <= w.data.Length
    ensures ok ==> w.Written() + rest == old(w.Written()) + PutStatus(p, rest)
  {
    hide PutU32, PutU16;
    ghost var r12 := PutU32(p.referenceDistanceMm) + rest;
    ghost var r11 := [p.lastCommandResult] + r12;
    ghost var r10 := [p.lastCommandType] + r11;
    ghost var r9 := PutU32(p.lastCommandId) + r10;
    ghost var r8 := PutU32(p.scheduledMaintenanceUnix) + r9;
    ghost var r7 := [p.scheduleState] + r8;
    ghost var r6 := [p.pollIntervalMinutes] + r7;
    ghost var r5 := PutU32(p.rtcUnixTime) + r6;
    ghost var r4 := [p.rtcState] + r5;
    ghost var r3 := [p.bootReason] + r4;
    ghost var r2 := PutU16(p.healthFlags) + r3;
    ghost var r1 := PutU16(p.qualityFlags) + r2;
    ok := w.U8(p.filterState, r1);
    if !ok { return; }
    ok := w.U16(p.qualityFlags, r2);
    if !ok { return; }
    ok := w.U16(p.healthFlags, r3);
    if !ok { return; }
    ok := w.U8(p.bootReason, r4);
    if !ok { return; }
    ok := w.U8(p.rtcState, r5);
    if !ok { return; }
    ok := w.U32(p.rtcUnixTime, r6);
    if !ok { return; }
    ok := w.U8(p.pollIntervalMinutes, r7);
    if !ok { return; }
    ok := w.U8(p.scheduleState, r8);
    if !ok { return; }
    ok := w.U32(p.scheduledMaintenanceUnix, r9);
    if !ok { return; }
    ok := w.U32(p.lastCommandId, r10);
    if !ok { return; }
    ok := w.U8(p.lastCommandType, r11);
    if !ok { return; }
    ok := w.U8(p.lastCommandResult, r12);
    if !ok { return; }
    ok := w.U32(p.referenceDistanceMm, rest);
  }

  method WriteTelemetry(p: TelemetryPacket, output: array<byte>) returns (ok: bool, written: nat)
    modifies output
    ensures ok <==> TelemetryEncodable(p) && 62 + |p.nodeId| <= output.Length
    ensures ok ==> written <= output.Length && output[..written] == EncodeTelemetry(p)
    ensures !ok ==> written == 0
  {
    hide PutHeader, PutMeasurement, PutStatus;
    written := 0;
    if p.status.pollIntervalMinutes == 0 { return false, 0; }
    var w := new Writer(output);
    ghost var r2 := PutStatus(p.status, []);
    ghost var r1 := PutMeasurement(p.m, r2);
    ok := WriteHeader(w, TELEMETRY, p.nodeId, r1);
    if !ok { return; }
    ok := WriteMeasurement(w, p.m, r2);
    if !ok { return; }
    ok := WriteStatus(w, p.status, []);
    if !ok { return; }
    written := w.position;
    assert w.Written() == w.Written() + [] == EncodeTelemetry(p);
  }

  method ReadMeasurement(r: Reader) returns (ok: bool, m: Measurement)
    requires r.Valid()
    modifies r
    ensures r.Valid() && (ok <==> ParseMeasurement(old(r.Rest())).Some?)
    ensures ok ==> ParseMeasurement(old(r.Rest())) == Some((m, r.Rest()))
  {
    hide ParseU32, ParseU16, ParseU8;
    var session: u32, sequence: u32, echo: u32, raw: u32, accepted: u32;
    var mad: u16, temperature: u16, humidity: u16, battery: u16;
    var valid: byte, total: byte;
    m := Measurement(0, 0, 0, 0, 0, 0, 0, 0, 0, 0, 0);
    ok, session := r.U32();
    if !ok { return; }
    ok, sequence := r.U32();
    if !ok { return; }
    ok, echo := r.U32();
    if !ok { return; }
    ok, raw := r.U32();
    if !ok { return; }
    ok, accepted := r.U32();
    if !ok { return; }
    ok, mad := r.U16();
    if !ok { return; }
    ok, temperature := r.U16();
    if !ok { return; }
    ok, humidity := r.U16();
    if !ok { return; }
    ok, battery := r.U16();
    if !ok { return; }
    ok, valid := r.U8();
    if !ok { return; }
    ok, total := r.U8();
    if !ok { return; }
    m := Measurement(session, sequence, echo, raw, accepted, mad, I16OfBits(temperature),
                     humidity, battery, valid, total);
  }

  method ReadStatus(r: Reader) returns (ok: bool, p: NodeStatus)
    requires r.Valid()
    modifies r
    ensures r.Valid() && (ok <==> ParseStatus(old(r.Rest())).Some?)
    ensures ok ==> ParseStatus(old(r.Rest())) == Some((p, r.Rest()))
  {
    hide ParseU32, ParseU16, ParseU8;
    var filter: byte, boot: byte, rtc: byte, poll: byte, schedule: byte, kind: byte, result: byte;
    var quality: u16, health: u16;
    var rtcUnix: u32, maintenance: u32, command: u32, reference: u32;
    p := NodeStatus(0, 0, 0, 0, 0, 0, 0, 0, 0, 0, 0, 0, 0);
    ok, filter := r.U8();
    if !ok { return; }
    ok, quality := r.U16();
    if !ok { return; }
    ok, health := r.U16();
    if !ok { return; }
    ok, boot := r.U8();
    if !ok { return; }
    ok, rtc := r.U8();
    if !ok { return; }
    ok, rtcUnix := r.U32();
    if !ok { return; }
    ok, poll := r.U8();
    if !ok { return; }
    ok, schedule := r.U8();
    if !ok { return; }
    ok, maintenance := r.U32();
    if !ok { return; }
    ok, command := r.U32();
    if !ok { return; }
    ok, kind := r.U8();
    if !ok { return; }
    ok, result := r.U8();
    if !ok { return; }
    ok, reference := r.U32();
    if !ok { return; }
    p := NodeStatus(filter, quality, health, boot, rtc, rtcUnix, poll, schedule, maintenance,
                    command, kind, result, reference);
  }

  method ReadTelemetryBody(r: Reader, nodeId: seq<byte>) returns (result: Decoded<TelemetryPacket>)
    requires r.Valid()
    modifies r
    ensures result == DecodeTelemetryBody(nodeId, old(r.Rest()))
  {
    hide ParseMeasurement, PutMeasurement, ParseStatus, PutStatus, CheckTelemetry;
    var ok, m := ReadMeasurement(r);
    if !ok { return Rejected(BufferTooSmall); }
    var read, status := ReadStatus(r);
    if !read { return Rejected(BufferTooSmall); }
    var left := r.Remaining();
    return CheckTelemetry(TelemetryPacket(nodeId, m, status), left);
  }

  method ReadTelemetry(input: seq<byte>) returns (result: Decoded<TelemetryPacket>)
    ensures result == DecodeTelemetry(input)
  {
    hide ParseHeader, PutHeader, DecodeTelemetryBody;
    var r := new Reader(input);
    var header := ReadHeader(r, TELEMETRY);
    if header.Rejected? { return Rejected(header.status); }
    result := ReadTelemetryBody(r, header.packet);
  }

  // ---- acknowledgement ----

  method WriteAckFixed(w: Writer, p: AckCommandPacket, ghost rest: seq<byte>) returns (ok: bool)
    requires w.Valid()
    modifies w, w.data
    ensures w.Valid() && (ok ==> w.position == old(w.position) + 19)
    ensures ok <==> old(w.position) + 19 <= w.data.Length
    ensures ok ==> w.Written() + rest == old(w.Written()) + PutAckFixed(p, rest)
  {
    hide PutU32;
    var flags: byte := if p.timeValid then 1 else 0;
    ghost var r6 := [CommandPayloadLength(p.commandType)] + rest;
    ghost var r5 := [p.commandType] + r6;
    ghost var r4 := PutU32(p.commandId) + r5;
    ghost var r3 := [flags] + r4;
    ghost var r2 := PutU32(p.gatewayUnixTime) + r3;
    ghost var r1 := PutU32(p.sequence) + r2;
    ok := w.U32(p.session, r1);
    if !ok { return; }
    ok := w.U32(p.sequence, r2);
    if !ok { return; }
    ok := w.U32(p.gatewayUnixTime, r3);
    if !ok { return; }
    ok := w.U8(flags, r4);
    if !ok { return; }
    ok := w.U32(p.commandId, r5);
    if !ok { return; }
    ok := w.U8(p.commandType, r6);
    if !ok { return; }
    ok := w.U8(CommandPayloadLength(p.commandType), rest);
  }

  method WriteAck(p: AckCommandPacket, output: array<byte>) returns (ok: bool, written: nat)
    modifies output
    ensures ok <==> AckEncodable(p) && 24 + |p.nodeId| + CommandPayloadLength(p.commandType) <= output.Length
    ensures ok ==> written <= output.Length && output[..written] == EncodeAck(p)
    ensures !ok ==> written == 0
  {
    hide PutU32, PutHeader, PutAckFixed;
    written := 0;
    if !AckValid(p) { return false, 0; }
    var w := new Writer(output);
    ghost var argument := PutArgument(p);
    ok := WriteHeader(w, ACK_COMMAND, p.nodeId, PutAckFixed(p, argument));
    if !ok { return; }
    ok := WriteAckFixed(w, p, argument);
    if !ok { return; }
    assert argument == argument + [];
    if p.commandType == SET_POLL_INTERVAL {
      ok := w.U8(p.pollIntervalMinutes, []);
      if !ok { return; }
    }
    if p.commandType == SCHEDULE_MAINTENANCE_AT {
      ok := w.U32(p.scheduledMaintenanceUnix, []);
      if !ok { return; }
    }
    written := w.position;
    assert w.Written() == w.Written() + [];
  }

  method ReadAckFixed(r: Reader) returns (ok: bool, f: AckFixed)
    requires r.Valid()
    modifies r
    ensures r.Valid() && (ok <==> ParseAckFixed(old(r.Rest())).Some?)
    ensures ok ==> ParseAckFixed(old(r.Rest())) == Some((f, r.Rest()))
  {
    hide ParseU32, ParseU8;
    var session: u32, sequence: u32, unix: u32, commandId: u32;
    var flags: byte, kind: byte, payloadLength: byte;
    f := AckFixed(0, 0, 0, 0, 0, 0, 0);
    ok, session := r.U32();
    if !ok { return; }
    ok, sequence := r.U32();
    if !ok { return; }
    ok, unix := r.U32();
    if !ok { return; }
    ok, flags := r.U8();
    if !ok { return; }
    ok, commandId := r.U32();
    if !ok { return; }
    ok, kind := r.U8();
    if !ok { return; }
    ok, payloadLength := r.U8();
    if !ok { return; }
    f := AckFixed(session, sequence, unix, flags, commandId, kind, payloadLength);
  }

  method ReadAckBody(r: Reader, nodeId: seq<byte>) returns (result: Decoded<AckCommandPacket>)
    requires r.Valid()
    modifies r
    ensures result == DecodeAckBody(nodeId, old(r.Rest()))
  {
    hide ParseAckFixed, DecodeArgument, CommandPayloadLength;
    var ok, f := ReadAckFixed(r);
    if !ok { return Rejected(BufferTooSmall); }
    if f.flags > 1 { return Rejected(InvalidFlags); }
    if !ValidCommand(f.kind) || f.payloadLength != CommandPayloadLength(f.kind) {
      return Rejected(InvalidCommand);
    }
    var p := AckCommandPacket(nodeId, f.session, f.sequence, f.unix, f.flags == 1, f.commandId, f.kind, 0, 0);
    result := ReadArgument(r, p);
  }

  method ReadAck(input: seq<byte>) returns (result: Decoded<AckCommandPacket>)
    ensures result == DecodeAck(input)
  {
    hide ParseHeader, DecodeAckBody;
    var r := new Reader(input);
    var header := ReadHeader(r, ACK_COMMAND);
    if header.Rejected? { return Rejected(header.status); }
    result := ReadAckBody(r, header.packet);
  }

  method ReadArgument(r: Reader, p: AckCommandPacket) returns (result: Decoded<AckCommandPacket>)
    requires r.Valid()
    modifies r
    ensures result == DecodeArgument(p, old(r.Rest()))
  {
    hide ParseU8, ParseU32;
    var q := p;
    if p.commandType == SET_POLL_INTERVAL {
      var read, minutes := r.U8();
      if !read { return Rejected(BufferTooSmall); }
      q := q.(pollIntervalMinutes := minutes);
    }
    if p.commandType == SCHEDULE_MAINTENANCE_AT {
      var read, unix := r.U32();
      if !read { return Rejected(BufferTooSmall); }
      q := q.(scheduledMaintenanceUnix := unix);
    }
    if !AckValid(q) { return Rejected(InvalidCommand); }
    var left := r.Remaining();
    if left != 0 { return Rejected(TrailingData); }
    return Accepted(q);
  }

  // ---- command results ----

  method WriteResult(p: CommandResultPacket, output: array<byte>) returns (ok: bool, written: nat)
    modifies output
    ensures ok <==> ResultEncodable(p) && 20 + |p.nodeId| <= output.Length
    ensures ok ==> written <= output.Length && output[..written] == EncodeResult(p)
    ensures !ok ==> written == 0
  {
    hide PutU32, PutHeader;
    written := 0;
    if p.commandId == 0 || p.commandType == COMMAND_NONE || !ValidResult(p.resultCode, false) {
      return false, 0;
    }
    var w := new Writer(output);
    ghost var r5 := PutU32(p.scheduledMaintenanceUnix) + [];
    ghost var r4 := [p.effectivePollIntervalMinutes] + r5;
    ghost var r3 := [p.resultCode] + r4;
    ghost var r2 := [p.commandType] + r3;
    ghost var r1 := PutU32(p.commandId) + r2;
    ok := WriteHeader(w, COMMAND_RESULT, p.nodeId, PutResultBody(p, []));
    if !ok { return; }
    ok := w.U32(p.session, r1);
    if !ok { return; }
    ok := w.U32(p.commandId, r2);
    if !ok { return; }
    ok := w.U8(p.commandType, r3);
    if !ok { return; }
    ok := w.U8(p.resultCode, r4);
    if !ok { return; }
    ok := w.U8(p.effectivePollIntervalMinutes, r5);
    if !ok { return; }
    ok := w.U32(p.scheduledMaintenanceUnix, []);
    if !ok { return; }
    written := w.position;
    assert w.Written() == w.Written() + [];
  }

  method ReadResultBody(r: Reader, nodeId: seq<byte>) returns (ok: bool, p: CommandResultPacket)
    requires r.Valid()
    modifies r
    ensures r.Valid() && (ok <==> ParseResultBody(nodeId, old(r.Rest())).Some?)
    ensures ok ==> ParseResultBody(nodeId, old(r.Rest())) == Some((p, r.Rest()))
  {
    hide ParseU8, ParseU32;
    var session: u32, commandId: u32, maintenance: u32;
    var kind: byte, code: byte, poll: byte;
    p := CommandResultPacket(nodeId, 0, 0, 0, 0, 0, 0);
    ok, session := r.U32();
    if !ok { return; }
    ok, commandId := r.U32();
    if !ok { return; }
    ok, kind := r.U8();
    if !ok { return; }
    ok, code := r.U8();
    if !ok { return; }
    ok, poll := r.U8();
    if !ok { return; }
    ok, maintenance := r.U32();
    if !ok { return; }
    p := CommandResultPacket(nodeId, session, commandId, kind, code, poll, maintenance);
  }

  method ReadResult(input: seq<byte>) returns (result: Decoded<CommandResultPacket>)
    ensures result == DecodeResult(input)
  {
    hide ParseHeader, PutHeader, ParseResultBody, PutResultBody;
    var r := new Reader(input);
    var header := ReadHeader(r, COMMAND_RESULT);
    if header.Rejected? { return Rejected(header.status); }
    ghost var body := r.Rest();
    assert ParseHeader(input, COMMAND_RESULT) == Accepted((header.packet, body));
    var ok, p := ReadResultBody(r, header.packet);
    if !ok { return Rejected(BufferTooSmall); }
    var left := r.Remaining();
    hide CheckResult;
    return CheckResult(p, left);
  }
}
