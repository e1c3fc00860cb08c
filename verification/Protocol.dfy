/** Protocol 3 packets: their wire form, the checks a decoder applies in order, and
    proofs that each decoder accepts exactly what its encoder can produce. */
module Protocol {
  import opened Words

  const NODE_ID_CAPACITY := 25
  const RADIO_PACKET_CAPACITY := 96

  const MAGIC0: byte := 0x47
  const MAGIC1: byte := 0x54
  const VERSION: byte := 3

  const TELEMETRY: byte := 1
  const ACK_COMMAND: byte := 2
  const COMMAND_RESULT: byte := 3

  // Enumerations travel as their underlying byte.
  const FILTER_INVALID: byte := 7
  const BOOT_UNKNOWN: byte := 5
  const RTC_VALID: byte := 0
  const RTC_I2C_ERROR: byte := 3
  const SCHEDULE_NONE: byte := 0
  const SCHEDULE_FAILED: byte := 3
  const COMMAND_NONE: byte := 0
  const ENTER_MAINTENANCE_NOW: byte := 1
  const SCHEDULE_MAINTENANCE_AT: byte := 2
  const SET_POLL_INTERVAL: byte := 3
  const RESULT_INTERNAL_ERROR: byte := 7
  const RESULT_NONE: byte := 0xFF

  datatype DecodeStatus =
    | BufferTooSmall | BadMagic | UnsupportedVersion | WrongType | InvalidNodeId
    | InvalidEnum | InvalidFlags | InvalidCommand | TrailingData

  datatype Decoded<+T> = Accepted(packet: T) | Rejected(status: DecodeStatus) {
    predicate IsFailure() { Rejected? }

    function PropagateFailure<U>(): Decoded<U>
      requires Rejected?
    {
      Rejected(status)
    }

    function Extract(): T
      requires Accepted?
    {
      packet
    }
  }

  /** The first half of a telemetry payload. */
  datatype Measurement = Measurement(
    session: u32, sequence: u32, medianEchoUs: u32, rawDistanceMm: u32,
    acceptedDistanceMm: u32, madMm: u16, temperatureCentiC: i16, humidityCentiPercent: u16,
    batteryMv: u16, validSamples: byte, totalSamples: byte)

  /** The second half: node state, schedule and the last command it ran. */
  datatype NodeStatus = NodeStatus(
    filterState: byte, qualityFlags: u16, healthFlags: u16, bootReason: byte, rtcState: byte,
    rtcUnixTime: u32, pollIntervalMinutes: byte, scheduleState: byte,
    scheduledMaintenanceUnix: u32, lastCommandId: u32, lastCommandType: byte,
    lastCommandResult: byte, referenceDistanceMm: u32)

  datatype TelemetryPacket = TelemetryPacket(nodeId: seq<byte>, m: Measurement, status: NodeStatus)

  datatype AckCommandPacket = AckCommandPacket(
    nodeId: seq<byte>, session: u32, sequence: u32, gatewayUnixTime: u32, timeValid: bool,
    commandId: u32, commandType: byte, pollIntervalMinutes: byte, scheduledMaintenanceUnix: u32)

  datatype CommandResultPacket = CommandResultPacket(
    nodeId: seq<byte>, session: u32, commandId: u32, commandType: byte, resultCode: byte,
    effectivePollIntervalMinutes: byte, scheduledMaintenanceUnix: u32)

  // ---- header ----

  predicate ValidNodeByte(v: byte) {
    0x41 <= v <= 0x5A || 0x61 <= v <= 0x7A || 0x30 <= v <= 0x39 || v == 0x2D || v == 0x5F
  }

  predicate NodeBytes(n: seq<byte>) {
    forall i | 0 <= i < |n| :: ValidNodeByte(n[i])
  }

  predicate NodeIdValid(n: seq<byte>) {
    0 < |n| < NODE_ID_CAPACITY && NodeBytes(n)
  }

  function PutHeader(kind: byte, nodeId: seq<byte>, rest: seq<byte>): (s: seq<byte>)
    requires |nodeId| < NODE_ID_CAPACITY
    ensures |s| == 5 + |nodeId| + |rest|
  {
    [MAGIC0, MAGIC1, VERSION, kind, |nodeId|] + (nodeId + rest)
  }

  function ParseHeader(s: seq<byte>, expected: byte): (r: Decoded<(seq<byte>, seq<byte>)>)
    ensures r.Accepted? ==> NodeIdValid(r.packet.0) && s == PutHeader(expected, r.packet.0, r.packet.1)
  {
    if |s| < 5 then Rejected(BufferTooSmall)
    else if s[0] != MAGIC0 || s[1] != MAGIC1 then Rejected(BadMagic)
    else if s[2] != VERSION then Rejected(UnsupportedVersion)
    else if s[3] != expected then Rejected(WrongType)
    else
      var length, body := s[4], s[5..];
      if length == 0 || length >= NODE_ID_CAPACITY || |body| < length then Rejected(InvalidNodeId)
      else if !NodeBytes(body[..length]) then Rejected(InvalidNodeId)
      else
        assert s == [MAGIC0, MAGIC1, VERSION, expected, length] + body;
        assert body == body[..length] + body[length..];
        Accepted((body[..length], body[length..]))
  }

  lemma ParsePutHeader(kind: byte, nodeId: seq<byte>, rest: seq<byte>)
    requires NodeIdValid(nodeId)
    ensures ParseHeader(PutHeader(kind, nodeId, rest), kind) == Accepted((nodeId, rest))
  {
    var s := PutHeader(kind, nodeId, rest);
    assert s[5..] == nodeId + rest;
    assert s[5..][..|nodeId|] == nodeId && s[5..][|nodeId|..] == rest;
  }

  // ---- telemetry ----

  function PutMeasurement(m: Measurement, rest: seq<byte>): (s: seq<byte>)
    ensures |s| == 30 + |rest|
  {
    PutU32(m.session) + (PutU32(m.sequence) + (PutU32(m.medianEchoUs) +
    (PutU32(m.rawDistanceMm) + (PutU32(m.acceptedDistanceMm) + (PutU16(m.madMm) +
    (PutU16(BitsOfI16(m.temperatureCentiC)) + (PutU16(m.humidityCentiPercent) +
    (PutU16(m.batteryMv) + ([m.validSamples] + ([m.totalSamples] + rest))))))))))
  }

  function ParseMeasurement(s: seq<byte>): (r: Option<(Measurement, seq<byte>)>)
    ensures r.Some? <==> |s| >= 30
    ensures r.Some? ==> s == PutMeasurement(r.value.0, r.value.1)
  {
    var (session, s) :- ParseU32(s);
    var (sequence, s) :- ParseU32(s);
    var (echo, s) :- ParseU32(s);
    var (raw, s) :- ParseU32(s);
    var (accepted, s) :- ParseU32(s);
    var (mad, s) :- ParseU16(s);
    var (temperature, s) :- ParseU16(s);
    var (humidity, s) :- ParseU16(s);
    var (battery, s) :- ParseU16(s);
    var (valid, s) :- ParseU8(s);
    var (total, s) :- ParseU8(s);
    Some((Measurement(session, sequence, echo, raw, accepted, mad, I16OfBits(temperature),
                      humidity, battery, valid, total), s))
  }

  lemma ParsePutMeasurement(m: Measurement, rest: seq<byte>)
    ensures ParseMeasurement(PutMeasurement(m, rest)) == Some((m, rest))
  {
    hide PutU32, PutU16, ParseU32, ParseU16, ParseU8;
    var r10 := [m.totalSamples] + rest;
    var r9 := [m.validSamples] + r10;
    var r8 := PutU16(m.batteryMv) + r9;
    var r7 := PutU16(m.humidityCentiPercent) + r8;
    var r6 := PutU16(BitsOfI16(m.temperatureCentiC)) + r7;
    var r5 := PutU16(m.madMm) + r6;
    var r4 := PutU32(m.acceptedDistanceMm) + r5;
    var r3 := PutU32(m.rawDistanceMm) + r4;
    var r2 := PutU32(m.medianEchoUs) + r3;
    var r1 := PutU32(m.sequence) + r2;
    ParsePutU32(m.session, r1);
    ParsePutU32(m.sequence, r2);
    ParsePutU32(m.medianEchoUs, r3);
    ParsePutU32(m.rawDistanceMm, r4);
    ParsePutU32(m.acceptedDistanceMm, r5);
    ParsePutU16(m.madMm, r6);
    ParsePutU16(BitsOfI16(m.temperatureCentiC), r7);
    ParsePutU16(m.humidityCentiPercent, r8);
    ParsePutU16(m.batteryMv, r9);
    ParsePutU8(m.validSamples, r10);
    ParsePutU8(m.totalSamples, rest);
  }

  function PutStatus(p: NodeStatus, rest: seq<byte>): (s: seq<byte>)
    ensures |s| == 27 + |rest|
  {
    [p.filterState] + (PutU16(p.qualityFlags) + (PutU16(p.healthFlags) + ([p.bootReason] +
    ([p.rtcState] + (PutU32(p.rtcUnixTime) + ([p.pollIntervalMinutes] + ([p.scheduleState] +
    (PutU32(p.scheduledMaintenanceUnix) + (PutU32(p.lastCommandId) + ([p.lastCommandType] +
    ([p.lastCommandResult] + (PutU32(p.referenceDistanceMm) + rest))))))))))))
  }

  function ParseStatus(s: seq<byte>): (r: Option<(NodeStatus, seq<byte>)>)
    ensures r.Some? <==> |s| >= 27
    ensures r.Some? ==> s == PutStatus(r.value.0, r.value.1)
  {
    var (filter, s) :- ParseU8(s);
    var (quality, s) :- ParseU16(s);
    var (health, s) :- ParseU16(s);
    var (boot, s) :- ParseU8(s);
    var (rtc, s) :- ParseU8(s);
    var (rtcUnix, s) :- ParseU32(s);
    var (poll, s) :- ParseU8(s);
    var (schedule, s) :- ParseU8(s);
    var (maintenance, s) :- ParseU32(s);
    var (command, s) :- ParseU32(s);
    var (kind, s) :- ParseU8(s);
    var (result, s) :- ParseU8(s);
    var (reference, s) :- ParseU32(s);
    Some((NodeStatus(filter, quality, health, boot, rtc, rtcUnix, poll, schedule, maintenance,
                     command, kind, result, reference), s))
  }

  lemma ParsePutStatus(p: NodeStatus, rest: seq<byte>)
    ensures ParseStatus(PutStatus(p, rest)) == Some((p, rest))
  {
    hide PutU32, PutU16, ParseU32, ParseU16, ParseU8;
    var r12 := PutU32(p.referenceDistanceMm) + rest;
    var r11 := [p.lastCommandResult] + r12;
    var r10 := [p.lastCommandType] + r11;
    var r9 := PutU32(p.lastCommandId) + r10;
    var r8 := PutU32(p.scheduledMaintenanceUnix) + r9;
    var r7 := [p.scheduleState] + r8;
    var r6 := [p.pollIntervalMinutes] + r7;
    var r5 := PutU32(p.rtcUnixTime) + r6;
    var r4 := [p.rtcState] + r5;
    var r3 := [p.bootReason] + r4;
    var r2 := PutU16(p.healthFlags) + r3;
    var r1 := PutU16(p.qualityFlags) + r2;
    ParsePutU8(p.filterState, r1);
    ParsePutU16(p.qualityFlags, r2);
    ParsePutU16(p.healthFlags, r3);
    ParsePutU8(p.bootReason, r4);
    ParsePutU8(p.rtcState, r5);
    ParsePutU32(p.rtcUnixTime, r6);
    ParsePutU8(p.pollIntervalMinutes, r7);
    ParsePutU8(p.scheduleState, r8);
    ParsePutU32(p.scheduledMaintenanceUnix, r9);
    ParsePutU32(p.lastCommandId, r10);
    ParsePutU8(p.lastCommandType, r11);
    ParsePutU8(p.lastCommandResult, r12);
    ParsePutU32(p.referenceDistanceMm, rest);
  }

  predicate ValidCommand(v: byte) { v <= SET_POLL_INTERVAL }

  predicate ValidResult(v: byte, allowNone: bool) {
    v <= RESULT_INTERNAL_ERROR || (allowNone && v == RESULT_NONE)
  }

  predicate EnumsInRange(p: NodeStatus) {
    p.filterState <= FILTER_INVALID && p.bootReason <= BOOT_UNKNOWN &&
    p.rtcState <= RTC_I2C_ERROR && p.scheduleState <= SCHEDULE_FAILED &&
    ValidCommand(p.lastCommandType) && ValidResult(p.lastCommandResult, true) &&
    p.pollIntervalMinutes != 0
  }

  predicate FieldsAgree(p: NodeStatus) {
    (p.rtcState != RTC_VALID ==> p.rtcUnixTime == 0) &&
    (p.scheduleState == SCHEDULE_NONE ==> p.scheduledMaintenanceUnix == 0) &&
    (p.lastCommandType == COMMAND_NONE ==> p.lastCommandId == 0)
  }

  /** The packets a node may send. */
  predicate WellFormed(p: TelemetryPacket) {
    NodeIdValid(p.nodeId) && EnumsInRange(p.status) && FieldsAgree(p.status)
  }

  /** Encoding checks only the node id and the poll interval. */
  predicate TelemetryEncodable(p: TelemetryPacket) {
    p.status.pollIntervalMinutes != 0 && NodeIdValid(p.nodeId)
  }

  function EncodeTelemetry(p: TelemetryPacket): (s: seq<byte>)
    requires TelemetryEncodable(p)
    ensures |s| == 62 + |p.nodeId|
  {
    PutHeader(TELEMETRY, p.nodeId, PutMeasurement(p.m, PutStatus(p.status, [])))
  }

  function DecodeTelemetry(s: seq<byte>): (r: Decoded<TelemetryPacket>) {
    var (nodeId, body) :- ParseHeader(s, TELEMETRY);
    DecodeTelemetryBody(nodeId, body)
  }

  function DecodeTelemetryBody(nodeId: seq<byte>, body: seq<byte>): (r: Decoded<TelemetryPacket>) {
    match ParseMeasurement(body)
    case None => Rejected(BufferTooSmall)
    case Some((m, body)) =>
      match ParseStatus(body)
      case None => Rejected(BufferTooSmall)
      case Some((status, body)) => CheckTelemetry(TelemetryPacket(nodeId, m, status), |body|)
  }

  /** The checks on a telemetry packet whose fields have all been read. */
  function CheckTelemetry(p: TelemetryPacket, remaining: nat): (r: Decoded<TelemetryPacket>) {
    if !EnumsInRange(p.status) then Rejected(InvalidEnum)
    else if !FieldsAgree(p.status) then Rejected(InvalidFlags)
    else if remaining != 0 then Rejected(TrailingData)
    else Accepted(p)
  }

  /** The telemetry codec is a bijection between well-formed packets and the byte
      strings the decoder accepts. */
  lemma TelemetryBijection(s: seq<byte>, p: TelemetryPacket)
    ensures DecodeTelemetry(s) == Accepted(p) <==> WellFormed(p) && s == EncodeTelemetry(p)
  {
    hide PutMeasurement, PutStatus, ParseMeasurement, ParseStatus, ParseHeader, PutHeader;
    if WellFormed(p) && s == EncodeTelemetry(p) {
      var tail := PutStatus(p.status, []);
      ParsePutHeader(TELEMETRY, p.nodeId, PutMeasurement(p.m, tail));
      ParsePutMeasurement(p.m, tail);
      ParsePutStatus(p.status, []);
    }
  }

  // ---- acknowledgement with at most one command ----

  function CommandPayloadLength(kind: byte): (n: byte) {
    if kind == COMMAND_NONE || kind == ENTER_MAINTENANCE_NOW then 0
    else if kind == SET_POLL_INTERVAL then 1
    else if kind == SCHEDULE_MAINTENANCE_AT then 4
    else 0xFF
  }

  predicate AckValid(p: AckCommandPacket) {
    if !p.timeValid && p.gatewayUnixTime != 0 then false
    else if p.commandType == COMMAND_NONE then p.commandId == 0
    else if p.commandId == 0 then false
    else if p.commandType == SET_POLL_INTERVAL then p.pollIntervalMinutes >= 1
    else if p.commandType == SCHEDULE_MAINTENANCE_AT then p.scheduledMaintenanceUnix != 0
    else p.commandType == ENTER_MAINTENANCE_NOW
  }

  /** The payload carries only the argument that belongs to the command. */
  function PutArgument(p: AckCommandPacket): (s: seq<byte>) {
    if p.commandType == SET_POLL_INTERVAL then [p.pollIntervalMinutes]
    else if p.commandType == SCHEDULE_MAINTENANCE_AT then PutU32(p.scheduledMaintenanceUnix)
    else []
  }

  function PutAckFixed(p: AckCommandPacket, rest: seq<byte>): (s: seq<byte>)
    ensures |s| == 19 + |rest|
  {
    PutU32(p.session) + (PutU32(p.sequence) + (PutU32(p.gatewayUnixTime) +
    ([if p.timeValid then 1 else 0] + (PutU32(p.commandId) + ([p.commandType] +
    ([CommandPayloadLength(p.commandType)] + rest))))))
  }

  predicate AckEncodable(p: AckCommandPacket) {
    AckValid(p) && NodeIdValid(p.nodeId)
  }

  function EncodeAck(p: AckCommandPacket): (s: seq<byte>)
    requires AckEncodable(p)
    ensures |s| == 24 + |p.nodeId| + CommandPayloadLength(p.commandType)
  {
    PutHeader(ACK_COMMAND, p.nodeId, PutAckFixed(p, PutArgument(p)))
  }

  /** What the fixed part of an acknowledgement says before it is checked. */
  datatype AckFixed = AckFixed(session: u32, sequence: u32, unix: u32, flags: byte,
                               commandId: u32, kind: byte, payloadLength: byte)

  function ParseAckFixed(s: seq<byte>): (r: Option<(AckFixed, seq<byte>)>)
    ensures r.Some? <==> |s| >= 19
    ensures r.Some? ==>
      var (f, rest) := r.value;
      s == PutU32(f.session) + (PutU32(f.sequence) + (PutU32(f.unix) + ([f.flags] +
           (PutU32(f.commandId) + ([f.kind] + ([f.payloadLength] + rest))))))
  {
    var (session, s) :- ParseU32(s);
    var (sequence, s) :- ParseU32(s);
    var (unix, s) :- ParseU32(s);
    var (flags, s) :- ParseU8(s);
    var (commandId, s) :- ParseU32(s);
    var (kind, s) :- ParseU8(s);
    var (payloadLength, s) :- ParseU8(s);
    Some((AckFixed(session, sequence, unix, flags, commandId, kind, payloadLength), s))
  }

  function DecodeAck(s: seq<byte>): (r: Decoded<AckCommandPacket>) {
    var (nodeId, body) :- ParseHeader(s, ACK_COMMAND);
    DecodeAckBody(nodeId, body)
  }

  function DecodeAckBody(nodeId: seq<byte>, body: seq<byte>): (r: Decoded<AckCommandPacket>) {
    match ParseAckFixed(body)
    case None => Rejected(BufferTooSmall)
    case Some((f, body)) =>
      if f.flags > 1 then Rejected(InvalidFlags)
      else if !ValidCommand(f.kind) then Rejected(InvalidCommand)
      else if f.payloadLength != CommandPayloadLength(f.kind) then Rejected(InvalidCommand)
      else
        var p := AckCommandPacket(nodeId, f.session, f.sequence, f.unix, f.flags == 1,
                                  f.commandId, f.kind, 0, 0);
        DecodeArgument(p, body)
  }

  /** The command argument, the cross-field checks and the trailing-data check. */
  function DecodeArgument(p: AckCommandPacket, body: seq<byte>): (r: Decoded<AckCommandPacket>) {
    if p.commandType == SET_POLL_INTERVAL then
      match ParseU8(body)
      case None => Rejected(BufferTooSmall)
      case Some((minutes, rest)) => FinishAck(p.(pollIntervalMinutes := minutes), rest)
    else if p.commandType == SCHEDULE_MAINTENANCE_AT then
      match ParseU32(body)
      case None => Rejected(BufferTooSmall)
      case Some((unix, rest)) => FinishAck(p.(scheduledMaintenanceUnix := unix), rest)
    else
      FinishAck(p, body)
  }

  function FinishAck(p: AckCommandPacket, rest: seq<byte>): (r: Decoded<AckCommandPacket>) {
    if !AckValid(p) then Rejected(InvalidCommand)
    else if rest != [] then Rejected(TrailingData)
    else Accepted(p)
  }

  /** The packet with the arguments that do not travel set to zero. */
  function Canonical(p: AckCommandPacket): (q: AckCommandPacket) {
    p.(pollIntervalMinutes := if p.commandType == SET_POLL_INTERVAL then p.pollIntervalMinutes else 0,
       scheduledMaintenanceUnix :=
         if p.commandType == SCHEDULE_MAINTENANCE_AT then p.scheduledMaintenanceUnix else 0)
  }

  /** Decoding an encoded acknowledgement returns everything that travels. */
  lemma AckRoundTrip(p: AckCommandPacket)
    requires AckEncodable(p)
    ensures DecodeAck(EncodeAck(p)) == Accepted(Canonical(p))
  {
    var argument := PutArgument(p);
    var flags: byte := if p.timeValid then 1 else 0;
    ParsePutHeader(ACK_COMMAND, p.nodeId, PutAckFixed(p, argument));
    ParsePutAckFixed(AckFixed(p.session, p.sequence, p.gatewayUnixTime, flags, p.commandId,
                              p.commandType, CommandPayloadLength(p.commandType)), argument);
    hide PutHeader, ParseHeader, ParseAckFixed, PutU32, PutArgument, DecodeArgument;
    ArgumentRoundTrip(p);
  }

  lemma ArgumentRoundTrip(p: AckCommandPacket)
    requires AckValid(p)
    ensures DecodeArgument(p.(pollIntervalMinutes := 0, scheduledMaintenanceUnix := 0), PutArgument(p))
            == Accepted(Canonical(p))
  {
    hide PutU32, ParseU32, ParseU8;
    assert PutArgument(p) + [] == PutArgument(p);
    if p.commandType == SET_POLL_INTERVAL { ParsePutU8(p.pollIntervalMinutes, []); }
    if p.commandType == SCHEDULE_MAINTENANCE_AT { ParsePutU32(p.scheduledMaintenanceUnix, []); }
  }

  lemma ParsePutAckFixed(f: AckFixed, rest: seq<byte>)
    ensures ParseAckFixed(PutU32(f.session) + (PutU32(f.sequence) + (PutU32(f.unix) + ([f.flags] +
              (PutU32(f.commandId) + ([f.kind] + ([f.payloadLength] + rest))))))) == Some((f, rest))
  {
    hide PutU32, ParseU32, ParseU8;
    var r6 := [f.payloadLength] + rest;
    var r5 := [f.kind] + r6;
    var r4 := PutU32(f.commandId) + r5;
    var r3 := [f.flags] + r4;
    var r2 := PutU32(f.unix) + r3;
    var r1 := PutU32(f.sequence) + r2;
    ParsePutU32(f.session, r1);
    ParsePutU32(f.sequence, r2);
    ParsePutU32(f.unix, r3);
    ParsePutU8(f.flags, r4);
    ParsePutU32(f.commandId, r5);
    ParsePutU8(f.kind, r6);
    ParsePutU8(f.payloadLength, rest);
  }

  /** The decoder accepts exactly the encodings of canonical packets. */
  lemma AckBijection(s: seq<byte>, p: AckCommandPacket)
    ensures DecodeAck(s) == Accepted(p) <==>
            AckEncodable(p) && Canonical(p) == p && s == EncodeAck(p)
  {
    hide PutHeader, ParseHeader, ParseAckFixed, PutU32, ParseU32, ParseU8;
    if DecodeAck(s) == Accepted(p) {
      var (nodeId, body) := ParseHeader(s, ACK_COMMAND).packet;
      var (f, rest) := ParseAckFixed(body).value;
      assert rest == PutArgument(p) + [] == PutArgument(p);
    } else if AckEncodable(p) && Canonical(p) == p && s == EncodeAck(p) {
      AckRoundTrip(p);
    }
  }

  // ---- command results ----

  predicate ResultEncodable(p: CommandResultPacket) {
    p.commandId != 0 && p.commandType != COMMAND_NONE && ValidResult(p.resultCode, false) &&
    NodeIdValid(p.nodeId)
  }

  function PutResultBody(p: CommandResultPacket, rest: seq<byte>): (s: seq<byte>)
    ensures |s| == 15 + |rest|
  {
    PutU32(p.session) + (PutU32(p.commandId) + ([p.commandType] + ([p.resultCode] +
    ([p.effectivePollIntervalMinutes] + (PutU32(p.scheduledMaintenanceUnix) + rest)))))
  }

  function EncodeResult(p: CommandResultPacket): (s: seq<byte>)
    requires ResultEncodable(p)
    ensures |s| == 20 + |p.nodeId|
  {
    PutHeader(COMMAND_RESULT, p.nodeId, PutResultBody(p, []))
  }

  function ParseResultBody(nodeId: seq<byte>, s: seq<byte>): (r: Option<(CommandResultPacket, seq<byte>)>)
    ensures r.Some? <==> |s| >= 15
    ensures r.Some? ==> r.value.0.nodeId == nodeId && s == PutResultBody(r.value.0, r.value.1)
  {
    var (session, s) :- ParseU32(s);
    var (commandId, s) :- ParseU32(s);
    var (kind, s) :- ParseU8(s);
    var (result, s) :- ParseU8(s);
    var (poll, s) :- ParseU8(s);
    var (maintenance, s) :- ParseU32(s);
    Some((CommandResultPacket(nodeId, session, commandId, kind, result, poll, maintenance), s))
  }

  function DecodeResult(s: seq<byte>): (r: Decoded<CommandResultPacket>) {
    var (nodeId, body) :- ParseHeader(s, COMMAND_RESULT);
    match ParseResultBody(nodeId, body)
    case None => Rejected(BufferTooSmall)
    case Some((p, rest)) => CheckResult(p, |rest|)
  }

  function CheckResult(p: CommandResultPacket, remaining: nat): (r: Decoded<CommandResultPacket>) {
    if !ValidCommand(p.commandType) || p.commandType == COMMAND_NONE ||
       !ValidResult(p.resultCode, false) || p.commandId == 0 then Rejected(InvalidCommand)
    else if remaining != 0 then Rejected(TrailingData)
    else Accepted(p)
  }

  /** The encoder does not look at the upper end of the command range; on commands
      that exist, encoding and decoding are inverse. */
  lemma ResultBijection(s: seq<byte>, p: CommandResultPacket)
    ensures DecodeResult(s) == Accepted(p) <==>
            ResultEncodable(p) && ValidCommand(p.commandType) && s == EncodeResult(p)
  {
    if ResultEncodable(p) && s == EncodeResult(p) {
      ParsePutHeader(COMMAND_RESULT, p.nodeId, PutResultBody(p, []));
      ParsePutResultBody(p, []);
    }
    hide PutHeader, ParseHeader, ParseResultBody, PutResultBody;
  }

  lemma ParsePutResultBody(p: CommandResultPacket, rest: seq<byte>)
    ensures ParseResultBody(p.nodeId, PutResultBody(p, rest)) == Some((p, rest))
  {
    hide PutU32, ParseU32, ParseU8;
    var r5 := PutU32(p.scheduledMaintenanceUnix) + rest;
    var r4 := [p.effectivePollIntervalMinutes] + r5;
    var r3 := [p.resultCode] + r4;
    var r2 := [p.commandType] + r3;
    var r1 := PutU32(p.commandId) + r2;
    ParsePutU32(p.session, r1);
    ParsePutU32(p.commandId, r2);
    ParsePutU8(p.commandType, r3);
    ParsePutU8(p.resultCode, r4);
    ParsePutU8(p.effectivePollIntervalMinutes, r5);
    ParsePutU32(p.scheduledMaintenanceUnix, rest);
  }

  // ---- building and matching an acknowledgement ----

  function MakeAck(telemetry: TelemetryPacket, gatewayUnix: u32, timeValid: bool): (ack: AckCommandPacket) {
    AckCommandPacket(telemetry.nodeId, telemetry.m.session, telemetry.m.sequence,
                     if timeValid then gatewayUnix else 0, timeValid, 0, COMMAND_NONE, 0, 0)
  }

  predicate AckMatches(ack: AckCommandPacket, telemetry: TelemetryPacket) {
    ack.nodeId == telemetry.nodeId && ack.session == telemetry.m.session &&
    ack.sequence == telemetry.m.sequence
  }
}
