/** Building and sending the acknowledgement of one reading, with the pending command. */
module AckTransmissions {
  import opened Words
  import opened Protocol
  import opened ProtocolCodec
  import opened CommandStores
  import CommandHistory

  datatype TimeSnapshot = TimeSnapshot(trusted: bool, unixMs: i64)

  /** The clock is used only if it is trusted and its seconds fit 32 bits. */
  predicate Usable(now: TimeSnapshot) {
    now.trusted && now.unixMs >= 0 && now.unixMs / 1000 <= U32_MAX
  }

  function AckFor(p: TelemetryPacket, now: TimeSnapshot, pending: Option<Command>): (ack: AckCommandPacket) {
    var ack := MakeAck(p, if Usable(now) then now.unixMs / 1000 else 0, Usable(now));
    match pending
    case None => ack
    case Some(c) => ack.(commandId := c.id, commandType := c.kind, pollIntervalMinutes := c.pollIntervalMinutes,
                         scheduledMaintenanceUnix := c.scheduledMaintenanceUnix)
  }

  /** What the node reads: which of its readings is meant; the gateway's seconds if the
      clock is trusted and they fit 32 bits, otherwise that there is no time; and a command
      exactly if the last one is pending or sent, with the argument its type has. */
  ghost predicate Tells(got: AckCommandPacket, p: TelemetryPacket, now: TimeSnapshot, c: Command) {
    got.nodeId == p.nodeId && got.session == p.m.session && got.sequence == p.m.sequence &&
    (got.timeValid <==> now.trusted && 0 <= now.unixMs && now.unixMs / 1000 <= U32_MAX) &&
    got.gatewayUnixTime == (if got.timeValid then now.unixMs / 1000 else 0) &&
    (if c.state == PENDING || c.state == SENT then
       got.commandId == c.id && got.commandType == c.kind &&
       (c.kind == SET_POLL_INTERVAL ==> got.pollIntervalMinutes == c.pollIntervalMinutes) &&
       (c.kind == SCHEDULE_MAINTENANCE_AT ==> got.scheduledMaintenanceUnix == c.scheduledMaintenanceUnix)
     else got.commandId == 0 && got.commandType == COMMAND_NONE)
  }

  /** For every reading that was decoded, every clock and every command state a run can
      reach, saved records loading or not, the acknowledgement encodes, fits the radio, and
      decodes on the node to what it should tell; an active command is a real one. */
  lemma CommandNeverBlocksAck(start: CommandHistory.Store, run: seq<CommandHistory.Event>,
                              frame: seq<byte>, p: TelemetryPacket, now: TimeSnapshot)
    requires CommandHistory.Initial(start)
    requires CommandHistory.Run(start, run).on && DecodeTelemetry(frame) == Accepted(p)
    ensures var ram := CommandHistory.Run(start, run).ram;
            var ack := AckFor(p, now, PendingForAck(ram));
            Sendable(ack) &&
            DecodeAck(EncodeAck(ack)).Accepted? && Tells(DecodeAck(EncodeAck(ack)).packet, p, now, ram.command) &&
            (Active(ram.command) ==> ram.command.id != 0 && ram.command.kind != COMMAND_NONE)
  {
    hide CommandHistory.Run, CommandHistory.Consistent, DecodeTelemetry, EncodeTelemetry, EncodeAck, DecodeAck,
         Checksum, AckFor, Tells, AckEncodable, PendingForAck, Usable;
    CommandHistory.ConfirmedWasHeard(start, run);
    TelemetryBijection(frame, p);
    AckFits(CommandHistory.Run(start, run).ram, p, now);
  }

  lemma AckFits(r: Record, p: TelemetryPacket, now: TimeSnapshot)
    requires CommandHistory.Consistent(r) && WellFormed(p)
    ensures var ack := AckFor(p, now, PendingForAck(r));
            Sendable(ack) &&
            DecodeAck(EncodeAck(ack)).Accepted? && Tells(DecodeAck(EncodeAck(ack)).packet, p, now, r.command) &&
            (Active(r.command) ==> r.command.id != 0 && r.command.kind != COMMAND_NONE)
  {
    hide EncodeAck, DecodeAck, Checksum, NodeBytes, Fresh, Tells;
    CommandHistory.FreshCommand();
    AckTells(r, p, now);
    var ack := AckFor(p, now, PendingForAck(r));
    assert |EncodeAck(ack)| == 24 + |ack.nodeId| + CommandPayloadLength(ack.commandType);
  }

  /** Whatever the command record holds, an acknowledgement that encodes tells the node
      that. */
  lemma AckTells(r: Record, p: TelemetryPacket, now: TimeSnapshot)
    ensures var ack := AckFor(p, now, PendingForAck(r));
            AckEncodable(ack) ==>
              DecodeAck(EncodeAck(ack)).Accepted? && Tells(DecodeAck(EncodeAck(ack)).packet, p, now, r.command)
  {
    hide EncodeAck, DecodeAck, Checksum;
    var ack := AckFor(p, now, PendingForAck(r));
    if AckEncodable(ack) { AckRoundTrip(ack); }
  }

  /** The command record once an acknowledgement has gone out and the save works: its
      command marked sent, if it carried one. */
  function AfterSending(r: Record, p: TelemetryPacket, now: TimeSnapshot, done: bool,
      sentAt: TimeSnapshot): (c: Option<Record>) {
    if !done then None
    else Marking(r, AckFor(p, now, PendingForAck(r)).commandId, if sentAt.trusted then sentAt.unixMs else -1)
  }

  /** Exactly an active command that was carried is marked: sent, once more, at the trusted
      time if there is one. Nothing else of the record changes but its checksum. */
  lemma SendingMarksOnlyTheCommand(r: Record, p: TelemetryPacket, now: TimeSnapshot, done: bool, sentAt: TimeSnapshot)
    ensures var c := AfterSending(r, p, now, done, sentAt);
            (c.Some? <==> done && (r.command.state == PENDING || r.command.state == SENT) && r.command.id != 0) &&
            (c.Some? ==>
               c.value == Sealed(r.(command := c.value.command)) &&
               c.value.command == r.command.(state := SENT, sendCount := c.value.command.sendCount,
                                             lastSentUnixMs := if sentAt.trusted then sentAt.unixMs else -1) &&
               c.value.command.sendCount == if r.command.sendCount < U32_MAX then r.command.sendCount + 1 else 0)
  {
    hide Checksum;
  }

  /** A command that can be created reaches the node even if power is lost right after: once
      the record is loaded again, the next acknowledgement carries the id that was handed
      out and what was asked for. */
  lemma CommandReachesNode(s: CommandHistory.Store, request: Request, saves: bool, p: TelemetryPacket,
                           now: TimeSnapshot)
    requires CommandHistory.Sound(s) && s.on && WellFormed(p)
    requires Creatable(s.ram, request)
    ensures var run := [CommandHistory.Create(request, true), CommandHistory.PowerLoss,
                        CommandHistory.Boot(true, saves)];
            var ram := CommandHistory.Run(s, run).ram;
            var ack := AckFor(p, now, PendingForAck(ram));
            AckEncodable(ack) && DecodeAck(EncodeAck(ack)).Accepted? &&
            var got := DecodeAck(EncodeAck(ack)).packet;
            got.commandId == s.ram.next && got.commandType == request.kind &&
            (request.kind == SET_POLL_INTERVAL ==> got.pollIntervalMinutes == request.minutes) &&
            (request.kind == SCHEDULE_MAINTENANCE_AT ==> got.scheduledMaintenanceUnix == request.unix)
  {
    hide EncodeAck, DecodeAck, Checksum, AckFor, AckEncodable, PendingForAck, CommandHistory.Consistent,
         CommandHistory.Run, WellFormed, Tells, Sendable, Creatable;
    var create, off, boot := CommandHistory.Create(request, true), CommandHistory.PowerLoss,
                             CommandHistory.Boot(true, saves);
    CommandHistory.RunThree(s, create, off, boot);
    CreatingIff(s.ram, request);
    CommandHistory.CreatedStays(s, request, saves);
    var ram := CommandHistory.Run(s, [create, off, boot]).ram;
    AckFits(ram, p, now);
    SendableEncodes(AckFor(p, now, PendingForAck(ram)));
    TellsCommand(DecodeAck(EncodeAck(AckFor(p, now, PendingForAck(ram)))).packet, p, now, ram.command);
  }

  lemma SendableEncodes(ack: AckCommandPacket)
    requires Sendable(ack)
    ensures AckEncodable(ack)
  {
  }

  lemma TellsCommand(got: AckCommandPacket, p: TelemetryPacket, now: TimeSnapshot, c: Command)
    requires Tells(got, p, now, c) && c.state == PENDING
    ensures got.commandId == c.id && got.commandType == c.kind
    ensures c.kind == SET_POLL_INTERVAL ==> got.pollIntervalMinutes == c.pollIntervalMinutes
    ensures c.kind == SCHEDULE_MAINTENANCE_AT ==> got.scheduledMaintenanceUnix == c.scheduledMaintenanceUnix
  {
  }

  /** The acknowledgement encodes and fits one radio packet. */
  predicate Sendable(ack: AckCommandPacket) {
    AckEncodable(ack) && |EncodeAck(ack)| <= RADIO_PACKET_CAPACITY
  }

  datatype Report = Report(attempted: bool, success: bool, receiveRestored: bool)

  /** Send the acknowledgement; record a command as sent only after its acknowledgement
      went out and the radio listens again. */
  method TransmitAck(store: CommandStore, p: TelemetryPacket, now: TimeSnapshot, transmits: bool,
                     restores: bool, sentAt: TimeSnapshot, saves: bool, output: array<byte>)
    returns (report: Report, sent: Option<seq<byte>>)
    requires output.Length == RADIO_PACKET_CAPACITY
    modifies store, store.backend, output
    ensures var ack := AckFor(p, now, PendingForAck(old(store.record)));
            report.attempted == Sendable(ack) &&
            report.success == (report.attempted && transmits) && report.receiveRestored == restores &&
            sent == (if report.attempted then Some(EncodeAck(ack)) else None)
    ensures sent.Some? ==>
              DecodeAck(sent.value).Accepted? &&
              Tells(DecodeAck(sent.value).packet, p, now, old(store.record).command)
    ensures var marked := AfterSending(old(store.record), p, now, report.success && restores && saves, sentAt);
            store.record == (if marked.Some? then marked.value else old(store.record)) &&
            store.backend.saved == if marked.Some? then marked else old(store.backend.saved)
  {
    hide Checksum, EncodeAck, DecodeAck, AckEncodable, Tells;
    AckTells(store.record, p, now);
    var pending := if Active(store.record.command) then Some(store.record.command) else None;
    var ack := AckFor(p, now, pending);
    sent := None;
    var encoded, length := WriteAck(ack, output);
    if !encoded { return Report(false, false, restores), sent; }
    sent := Some(output[..length]);
    report := Report(true, transmits, restores);
    if report.success && report.receiveRestored && ack.commandId != 0 {
      var _ := store.MarkSent(ack.commandId, if sentAt.trusted then sentAt.unixMs else -1, saves);
    }
  }
}
