/** What happens to one received frame: decoding, gating, deduplication, the durable
    enqueue and only then the acknowledgement. */
module PacketProcessors {
  import opened Words
  import opened Protocol
  import opened ProtocolCodec
  import opened TelemetryKeys
  import opened RecentKeys
  import opened QueueRecords
  import opened QueueCore
  import opened DurableQueues
  import opened CommandStores
  import opened AckTransmissions
  import opened Metrics
  import QueueQueries
  import QueueEnqueue
  import CommandHistory

  datatype Disposition =
    | DecodeRejected | PairingCandidate | UnpairedIgnored | UnknownNodeIgnored
    | DurableEnqueueFailed | NewAcknowledged | DuplicateAcknowledged | AckFailed
    | CommandResultConfirmed | CommandResultDuplicate | CommandResultIgnored

  datatype Stats = Stats(
    validProtocolPackets: nat, validTelemetryPackets: nat, validCommandResultPackets: nat,
    decodeErrors: nat, unknownNodePackets: nat, duplicates: nat, ackSent: nat, ackFailures: nat,
    durableEnqueueFailures: nat, commandResultsConfirmed: nat, commandResultsIgnored: nat)

  const NO_STATS := Stats(0, 0, 0, 0, 0, 0, 0, 0, 0, 0, 0)

  /** What the world does while a frame is processed. */
  datatype Circumstances = Circumstances(
    unreadable: set<RecordId>, fate: EnqueueFate, now: TimeSnapshot, transmits: bool, restores: bool,
    sentAt: TimeSnapshot, saves: bool, observedUs: nat, startUs: nat, completedUs: nat)

  datatype Pairing = Pairing(mode: bool, nodeId: seq<byte>)

  // ---- the counters as a table ----

  predicate IsResult(d: Disposition) {
    d.CommandResultConfirmed? || d.CommandResultDuplicate? || d.CommandResultIgnored?
  }

  /** The counters after one more frame with this outcome. */
  function Count(s: Stats, d: Disposition, duplicate: bool): (r: Stats) {
    if d.DecodeRejected? then s.(decodeErrors := s.decodeErrors + 1)
    else if IsResult(d) then
      Settle(s.(validProtocolPackets := s.validProtocolPackets + 1,
                validCommandResultPackets := s.validCommandResultPackets + 1), d, duplicate)
    else
      Settle(s.(validProtocolPackets := s.validProtocolPackets + 1,
                validTelemetryPackets := s.validTelemetryPackets + 1), d, duplicate)
  }

  /** The counters of what became of a decoded frame. */
  function Settle(s: Stats, d: Disposition, duplicate: bool): (r: Stats) {
    var s := s.(duplicates := s.duplicates + if duplicate then 1 else 0);
    match d
    case UnpairedIgnored | UnknownNodeIgnored => s.(unknownNodePackets := s.unknownNodePackets + 1)
    case DurableEnqueueFailed => s.(durableEnqueueFailures := s.durableEnqueueFailures + 1)
    case NewAcknowledged | DuplicateAcknowledged => s.(ackSent := s.ackSent + 1)
    case AckFailed => s.(ackFailures := s.ackFailures + 1)
    case CommandResultConfirmed | CommandResultDuplicate =>
      s.(commandResultsConfirmed := s.commandResultsConfirmed + 1)
    case CommandResultIgnored => s.(commandResultsIgnored := s.commandResultsIgnored + 1)
    case _ => s
  }

  datatype Outcome = Outcome(disposition: Disposition, duplicate: bool)

  /** Only a reading that reached the acknowledgement can be a duplicate. */
  predicate Possible(o: Outcome) {
    o.duplicate ==> o.disposition.DuplicateAcknowledged? || o.disposition.AckFailed?
  }

  function CountAll(s: Stats, os: seq<Outcome>): (r: Stats)
    decreases |os|
  {
    if os == [] then s else CountAll(Count(s, os[0].disposition, os[0].duplicate), os[1..])
  }

  function Candidates(os: seq<Outcome>): (n: nat)
    decreases |os|
  {
    if os == [] then 0 else (if os[0].disposition.PairingCandidate? then 1 else 0) + Candidates(os[1..])
  }

  /** Nothing is lost and nothing counted twice. */
  predicate Conserved(s: Stats, frames: nat, candidates: nat) {
    frames == s.decodeErrors + s.validProtocolPackets &&
    s.validProtocolPackets == s.validTelemetryPackets + s.validCommandResultPackets &&
    s.validTelemetryPackets
      == candidates + s.unknownNodePackets + s.durableEnqueueFailures + s.ackSent + s.ackFailures &&
    s.validCommandResultPackets == s.commandResultsConfirmed + s.commandResultsIgnored &&
    s.duplicates <= s.ackSent + s.ackFailures
  }

  lemma CountConserves(s: Stats, o: Outcome, frames: nat, candidates: nat)
    requires Conserved(s, frames, candidates) && Possible(o)
    ensures Conserved(Count(s, o.disposition, o.duplicate), frames + 1, candidates + Candidates([o]))
  {
    assert Candidates([o]) == if o.disposition.PairingCandidate? then 1 else 0 by { OneCandidate(o); }
    hide Candidates;
  }

  lemma OneCandidate(o: Outcome)
    ensures Candidates([o]) == if o.disposition.PairingCandidate? then 1 else 0
  {
    assert [o][1..] == [];
  }

  /** Over every sequence of outcomes the counters balance. */
  lemma {:induction false} CountersConserve(s: Stats, os: seq<Outcome>, frames: nat, candidates: nat)
    requires Conserved(s, frames, candidates) && forall o | o in os :: Possible(o)
    ensures Conserved(CountAll(s, os), frames + |os|, candidates + Candidates(os))
    decreases |os|
  {
    hide Conserved, Count, Possible;
    if os != [] {
      assert os[0] in os && forall o | o in os[1..] :: o in os;
      assert [os[0]][1..] == [] && Candidates(os) == Candidates([os[0]]) + Candidates(os[1..]);
      CountConserves(s, os[0], frames, candidates);
      CountersConserve(Count(s, os[0].disposition, os[0].duplicate), os[1..], frames + 1,
                       candidates + Candidates([os[0]]));
    }
  }

  function One(o: Outcome, d: Disposition): (n: nat) { if o.disposition == d then 1 else 0 }

  /** How many of the outcomes are of this kind. */
  function Tally(os: seq<Outcome>, d: Disposition): (n: nat)
    decreases |os|
  {
    if os == [] then 0 else One(os[0], d) + Tally(os[1..], d)
  }

  function Duplicates(os: seq<Outcome>): (n: nat)
    decreases |os|
  {
    if os == [] then 0 else (if os[0].duplicate then 1 else 0) + Duplicates(os[1..])
  }

  function Results(os: seq<Outcome>): (n: nat) {
    Tally(os, CommandResultConfirmed) + Tally(os, CommandResultDuplicate) + Tally(os, CommandResultIgnored)
  }

  /** What one outcome adds to each counter. */
  lemma CountOne(s: Stats, o: Outcome)
    requires Possible(o)
    ensures var r, d := Count(s, o.disposition, o.duplicate), o.disposition;
            r.decodeErrors == s.decodeErrors + One(o, DecodeRejected) &&
            r.validProtocolPackets == s.validProtocolPackets + 1 - One(o, DecodeRejected) &&
            r.validCommandResultPackets == s.validCommandResultPackets + (if IsResult(d) then 1 else 0) &&
            r.validTelemetryPackets == s.validTelemetryPackets + (if IsResult(d) || d.DecodeRejected? then 0 else 1) &&
            r.unknownNodePackets == s.unknownNodePackets + One(o, UnpairedIgnored) + One(o, UnknownNodeIgnored) &&
            r.duplicates == s.duplicates + (if o.duplicate then 1 else 0) &&
            r.ackSent == s.ackSent + One(o, NewAcknowledged) + One(o, DuplicateAcknowledged) &&
            r.ackFailures == s.ackFailures + One(o, AckFailed) &&
            r.durableEnqueueFailures == s.durableEnqueueFailures + One(o, DurableEnqueueFailed) &&
            r.commandResultsConfirmed
              == s.commandResultsConfirmed + One(o, CommandResultConfirmed) + One(o, CommandResultDuplicate) &&
            r.commandResultsIgnored == s.commandResultsIgnored + One(o, CommandResultIgnored)
  {
  }

  /** Which outcomes each counter counts. */
  lemma {:induction false} CountersByOutcome(s: Stats, os: seq<Outcome>)
    requires forall o | o in os :: Possible(o)
    ensures var r := CountAll(s, os);
            r.decodeErrors == s.decodeErrors + Tally(os, DecodeRejected) &&
            r.validProtocolPackets == s.validProtocolPackets + |os| - Tally(os, DecodeRejected) &&
            r.validCommandResultPackets == s.validCommandResultPackets + Results(os) &&
            r.validTelemetryPackets == s.validTelemetryPackets + |os| - Tally(os, DecodeRejected) - Results(os) &&
            r.unknownNodePackets
              == s.unknownNodePackets + Tally(os, UnpairedIgnored) + Tally(os, UnknownNodeIgnored) &&
            r.duplicates == s.duplicates + Duplicates(os) &&
            r.ackSent == s.ackSent + Tally(os, NewAcknowledged) + Tally(os, DuplicateAcknowledged) &&
            r.ackFailures == s.ackFailures + Tally(os, AckFailed) &&
            r.durableEnqueueFailures == s.durableEnqueueFailures + Tally(os, DurableEnqueueFailed) &&
            r.commandResultsConfirmed
              == s.commandResultsConfirmed + Tally(os, CommandResultConfirmed) + Tally(os, CommandResultDuplicate) &&
            r.commandResultsIgnored == s.commandResultsIgnored + Tally(os, CommandResultIgnored)
    decreases |os|
  {
    hide Count, Possible;
    if os != [] {
      assert os[0] in os && forall o | o in os[1..] :: o in os;
      CountOne(s, os[0]);
      CountersByOutcome(Count(s, os[0].disposition, os[0].duplicate), os[1..]);
    }
  }

  lemma {:induction false} CountOneMore(s: Stats, os: seq<Outcome>, o: Outcome)
    ensures CountAll(s, os + [o]) == Count(CountAll(s, os), o.disposition, o.duplicate)
    decreases |os|
  {
    hide Count;
    if os == [] {
      assert [o][1..] == [] && [] + [o] == [o];
      assert CountAll(Count(s, o.disposition, o.duplicate), []) == Count(s, o.disposition, o.duplicate);
    } else {
      assert (os + [o])[1..] == os[1..] + [o];
      CountOneMore(Count(s, os[0].disposition, os[0].duplicate), os[1..], o);
    }
  }

  // ---- gating ----

  /** Why a frame does not reach the queue, if it does not. */
  function Gate(frame: seq<byte>, pairing: Pairing): (d: Option<Disposition>) {
    match DecodeTelemetry(frame)
    case Rejected(_) => Some(DecodeRejected)
    case Accepted(p) =>
      if pairing.mode then Some(PairingCandidate)
      else if pairing.nodeId == [] then Some(UnpairedIgnored)
      else if p.nodeId != pairing.nodeId then Some(UnknownNodeIgnored)
      else None
  }

  /** Results count only for the paired node, in the session last heard of. */
  predicate Relevant(p: CommandResultPacket, pairing: Pairing, latest: Option<TelemetryPacket>) {
    pairing.nodeId != [] && latest.Some? && p.nodeId == pairing.nodeId && latest.value.m.session == p.session
  }

  /** The header says it is a command result. */
  predicate LooksLikeResult(frame: seq<byte>) {
    |frame| >= 4 && frame[3] == COMMAND_RESULT
  }

  /** The type byte sends each frame to the decoder that may accept it. */
  lemma RoutedRight(frame: seq<byte>)
    ensures DecodeResult(frame).Accepted? ==> LooksLikeResult(frame)
    ensures DecodeTelemetry(frame).Accepted? ==> !LooksLikeResult(frame)
  {
  }

  /** Every way for a reading to be safe. */
  ghost predicate Held(q: Core, files: Files, recent: seq<TelemetryKey>, k: TelemetryKey) {
    Knows(recent, k) || k in Keys(q.entries, files)
  }

  /** A hit, in the ring or verified on flash, is never wrong. */
  lemma HitIsHeld(q: Core, files: Files, recent: seq<TelemetryKey>, frame: seq<byte>, unreadable: set<RecordId>)
    requires Inv(q, files) && DecodeTelemetry(frame).Accepted?
    ensures var k := KeyOf(DecodeTelemetry(frame).packet);
            Knows(recent, k) || Contains(q, files, k, unreadable) ==> Held(q, files, recent, k)
  {
    hide Inv, Keys, KeyEqual, Contains, DecodeTelemetry, EncodeTelemetry, Proper;
    var p := DecodeTelemetry(frame).packet;
    TelemetryBijection(frame, p);
    ProperKeyOf(p);
    QueueQueries.ContainsKeys(q, files, KeyOf(p), unreadable);
  }

  lemma EnqueuedIsHeld(q: Core, files: Files, recent: seq<TelemetryKey>, r: QueueRecord, fate: EnqueueFate)
    requires Inv(q, files) && DecodeTelemetry(r.payload).Accepted?
    requires Enqueue(q, files, r, fate).ok
    ensures var run := Enqueue(q, files, r, fate);
            Held(run.q, run.files, recent, KeyOf(DecodeTelemetry(r.payload).packet))
  {
    hide Inv, Keys, Knows, DecodeTelemetry, EncodeRecord, Stored, KeyHash, Enqueue, QueueEnqueue.Effect, KeyOf;
    QueueEnqueue.InvBounds(q, files);
    var run := Enqueue(q, files, r, fate);
    QueueEnqueue.EnqueueKeeps(q, files, r, fate);
    QueueEnqueue.KeysAfter(q, files, run, QueueEnqueue.NewBytes(q, r), KeyHash(QueueEnqueue.NewKey(r)),
                           QueueEnqueue.NewKey(r));
  }

  /** A reading that passed the gate is made durable unless it is known already. */
  ghost predicate Secured(p: TelemetryPacket, frame: seq<byte>, reception: Reception, c: Circumstances,
                          q: Core, files: Files, recent: seq<TelemetryKey>, q': Core, files': Files,
                          duplicate: bool, held: bool)
    requires q.capacity > 0
  {
    var run := Enqueue(q, files, QueueRecord(0, reception, frame), c.fate);
    duplicate == (Knows(recent, KeyOf(p)) || Contains(q, files, KeyOf(p), c.unreadable)) &&
    held == (duplicate || run.ok) &&
    q' == (if duplicate then q else run.q) && files' == (if duplicate then files else run.files) &&
    (held ==> Held(q', files', recent, KeyOf(p)))
  }

  /** What is sent is the acknowledgement of that reading with the pending command, which
      is marked sent once it has gone out. */
  ghost predicate Answered(p: TelemetryPacket, c: Circumstances, record: Record, record': Record, duplicate: bool,
                           d: Disposition, sent: Option<seq<byte>>) {
    var marked := AfterSending(record, p, c.now, sent.Some? && c.transmits && c.restores && c.saves, c.sentAt);
    record' == (if marked.Some? then marked.value else record) &&
    (var ack := AckFor(p, c.now, PendingForAck(record));
     sent == if Sendable(ack) then Some(EncodeAck(ack)) else None) &&
    d == if sent.Some? && c.transmits && c.restores
         then (if duplicate then DuplicateAcknowledged else NewAcknowledged) else AckFailed
  }

  /** How a frame that is not a command result leaves the gateway. A frame that fails
      the gate touches nothing. Any other is secured first: a bounded enqueue unless it
      is known. An acknowledgement goes out only for a reading that is held. */
  ghost predicate TelemetryOutcome(frame: seq<byte>, reception: Reception, pairing: Pairing, c: Circumstances,
                                   q: Core, files: Files, recent: seq<TelemetryKey>, record: Record,
                                   q': Core, files': Files, record': Record, d: Disposition, duplicate: bool,
                                   sent: Option<seq<byte>>)
    requires q.capacity > 0
  {
    if Gate(frame, pairing).Some? then
      d == Gate(frame, pairing).value && !duplicate && sent == None && q' == q && files' == files && record' == record
    else
      var p := DecodeTelemetry(frame).packet;
      var held := d != DurableEnqueueFailed;
      Secured(p, frame, reception, c, q, files, recent, q', files', duplicate, held) &&
      (if held then Answered(p, c, record, record', duplicate, d, sent) &&
                    (sent.Some? ==> Held(q', files', recent, KeyOf(p)))
       else sent == None && record' == record)
  }

  /** How a command result leaves the gateway: confirmed exactly if it is relevant and
      matches the active command and the save works, a duplicate exactly if that command
      is confirmed already, and nothing else changes the command record. */
  ghost predicate ResultOutcome(frame: seq<byte>, pairing: Pairing, latest: Option<TelemetryPacket>, saves: bool,
                                record: Record, record': Record, d: Disposition) {
    var p := DecodeResult(frame);
    var counts := p.Accepted? && Relevant(p.packet, pairing, latest);
    (d.DecodeRejected? || IsResult(d)) && (d.DecodeRejected? <==> p.Rejected?) &&
    (d.CommandResultDuplicate? <==>
       counts && ResultMatches(record.command, p.packet) && record.command.state == CONFIRMED) &&
    (d.CommandResultConfirmed? <==> counts && saves && Confirming(record, p.packet).Some?) &&
    record' == if d.CommandResultConfirmed? then Confirming(record, p.packet).value else record
  }

  // ---- the whole outcome, in terms of the frame ----

  /** A reading of the paired node outside pairing mode. It is a duplicate exactly if the
      ring or a readable queued record knows it, and then the queue stays as it is; otherwise
      it is enqueued. It fails exactly if that enqueue does; else an acknowledgement that
      tells the node what it should goes out, and the outcome says whether the radio managed. */
  lemma ReadingOutcome(frame: seq<byte>, p: TelemetryPacket, reception: Reception, pairing: Pairing, c: Circumstances,
                       q: Core, files: Files, recent: seq<TelemetryKey>, record: Record, q': Core, files': Files,
                       record': Record, d: Disposition, duplicate: bool, sent: Option<seq<byte>>)
    requires Inv(q, files) && CommandHistory.Consistent(record)
    requires DecodeTelemetry(frame) == Accepted(p) && !pairing.mode && pairing.nodeId == p.nodeId
    requires TelemetryOutcome(frame, reception, pairing, c, q, files, recent, record, q', files', record', d,
                              duplicate, sent)
    ensures var r := QueueRecord(0, reception, frame);
            var run := Enqueue(q, files, r, c.fate);
            var held := duplicate || (QueueEnqueue.Admissible(q, r) && QueueEnqueue.MakesRoom(q, c.fate));
            (duplicate <==> Knows(recent, KeyOf(p)) || Contains(q, files, KeyOf(p), c.unreadable)) &&
            q' == (if duplicate then q else run.q) && files' == (if duplicate then files else run.files) &&
            d == (if !held then DurableEnqueueFailed else if !(c.transmits && c.restores) then AckFailed
                  else if duplicate then DuplicateAcknowledged else NewAcknowledged) &&
            (sent.Some? <==> held) &&
            (held ==> DecodeAck(sent.value).Accepted? &&
                      Tells(DecodeAck(sent.value).packet, p, c.now, record.command))
  {
    hide Inv, DecodeTelemetry, EncodeTelemetry, EncodeAck, DecodeAck, Enqueue, Held, Knows, Contains, KeyOf, AckFor,
         Tells, AfterSending, PendingForAck, Checksum, CommandHistory.Consistent, QueueEnqueue.Admissible,
         QueueEnqueue.MakesRoom;
    TelemetryBijection(frame, p);
    QueueEnqueue.InvBounds(q, files);
    QueueEnqueue.EnqueueSucceedsIff(q, files, QueueRecord(0, reception, frame), c.fate);
    AckFits(record, p, c.now);
  }

  /** A decoded command result confirms exactly if it comes from the paired node, in the
      session of the latest reading, names the active command by id and type, and the save
      works; then the command takes over what the node reports. For a command confirmed
      before it is a duplicate. Otherwise it is ignored, and nothing changes. */
  lemma ResultOutcomeIff(frame: seq<byte>, p: CommandResultPacket, pairing: Pairing, latest: Option<TelemetryPacket>,
                         saves: bool, record: Record, record': Record, d: Disposition)
    requires DecodeResult(frame) == Accepted(p)
    requires ResultOutcome(frame, pairing, latest, saves, record, record', d)
    ensures var c := record.command;
            var ours := latest.Some? && p.nodeId == pairing.nodeId && p.session == latest.value.m.session &&
                        p.commandId == c.id && p.commandType == c.kind;
            d == (if ours && c.state == CONFIRMED then CommandResultDuplicate
                  else if ours && saves && (c.state == PENDING || c.state == SENT) then CommandResultConfirmed
                  else CommandResultIgnored) &&
            (if d.CommandResultConfirmed? then Some(record') == Confirming(record, p) else record' == record)
  {
    hide DecodeResult, Checksum, EncodeResult, Confirming;
    ResultBijection(frame, p);
    ConfirmingIff(record, p);
  }

  lemma GateCases(frame: seq<byte>, reception: Reception, pairing: Pairing, c: Circumstances,
                  q: Core, files: Files, recent: seq<TelemetryKey>, record: Record)
    requires q.capacity > 0
    ensures var decoded := DecodeTelemetry(frame);
            var gate := Gate(frame, pairing);
            (decoded.Rejected? <==> gate == Some(DecodeRejected)) &&
            (decoded.Accepted? ==>
               (pairing.mode <==> gate == Some(PairingCandidate)) &&
               (!pairing.mode && pairing.nodeId == [] <==> gate == Some(UnpairedIgnored)) &&
               (!pairing.mode && pairing.nodeId != [] && decoded.packet.nodeId != pairing.nodeId
                <==> gate == Some(UnknownNodeIgnored)) &&
               (!pairing.mode && pairing.nodeId != [] && decoded.packet.nodeId == pairing.nodeId <==> gate == None)) &&
            (gate.Some? ==>
               TelemetryOutcome(frame, reception, pairing, c, q, files, recent, record, q, files, record,
                   gate.value, false, None))
  {
    hide DecodeTelemetry;
  }

  lemma SecuredOutcome(frame: seq<byte>, reception: Reception, pairing: Pairing, c: Circumstances,
                       q: Core, files: Files, recent: seq<TelemetryKey>, record: Record, q': Core, files': Files,
                       record': Record, held: bool, d: Disposition, duplicate: bool, sent: Option<seq<byte>>)
    requires q.capacity > 0 && Gate(frame, pairing) == None
    requires var p := DecodeTelemetry(frame).packet;
             Secured(p, frame, reception, c, q, files, recent, q', files', duplicate, held) &&
             (if held then d != DurableEnqueueFailed && Answered(p, c, record, record', duplicate, d, sent)
              else d == DurableEnqueueFailed && sent == None && record' == record)
    ensures TelemetryOutcome(frame, reception, pairing, c, q, files, recent, record, q', files', record', d,
        duplicate, sent)
  {
    hide DecodeTelemetry, Gate, Enqueue, Held, Knows, Contains, KeyOf, Answered;
  }

  class PacketProcessor {
    const queue: DurableQueue
    const commands: CommandStore
    const latency: AckLatencyStatistics
    var stats: Stats
    var latest: Option<TelemetryPacket>
    /** The outcome of every frame so far. */
    ghost var outcomes: seq<Outcome>

    /** The parts are sound and the counters are those of the outcomes. */
    ghost predicate Valid()
      reads this, queue, queue.storage, queue.core, queue.recent, queue.recent.keys,
            latency, latency.rxToStart, latency.rxToComplete, latency.txDuration
    {
      queue.Valid() && latency.Valid() && latency.rxToStart.count <= stats.ackSent &&
      stats == CountAll(NO_STATS, outcomes) && forall o | o in outcomes :: Possible(o)
    }

    constructor (queue: DurableQueue, commands: CommandStore)
      requires queue.Valid()
      ensures Valid() && this.queue == queue && this.commands == commands
      ensures outcomes == [] && latest == None && fresh(latency)
    {
      this.queue := queue;
      this.commands := commands;
      latency := new AckLatencyStatistics();
      stats := NO_STATS;
      latest := None;
      outcomes := [];
    }

    /** Every frame is accounted for. */
    lemma Balanced()
      requires Valid()
      ensures Conserved(stats, |outcomes|, Candidates(outcomes))
    {
      hide Conserved, Count, Possible, DurableQueue.Valid, AckLatencyStatistics.Valid;
      NothingCounted();
      CountersConserve(NO_STATS, outcomes, 0, 0);
    }

    method ProcessResult(frame: seq<byte>, pairing: Pairing, saves: bool) returns (d: Disposition)
      modifies this`stats, commands, commands.backend
      ensures stats == Count(old(stats), d, false)
      ensures d.DecodeRejected? || IsResult(d)
      ensures ResultOutcome(frame, pairing, latest, saves, old(commands.record), commands.record, d)
    {
      hide DecodeResult, Checksum;
      var decoded := ReadResult(frame);
      if decoded.Rejected? {
        stats := stats.(decodeErrors := stats.decodeErrors + 1);
        return DecodeRejected;
      }
      stats := stats.(validProtocolPackets := stats.validProtocolPackets + 1,
                      validCommandResultPackets := stats.validCommandResultPackets + 1);
      if !Relevant(decoded.packet, pairing, latest) {
        stats := stats.(commandResultsIgnored := stats.commandResultsIgnored + 1);
        return CommandResultIgnored;
      }
      var confirmed, duplicate := commands.Confirm(decoded.packet, saves);
      if !confirmed {
        stats := stats.(commandResultsIgnored := stats.commandResultsIgnored + 1);
        return CommandResultIgnored;
      }
      stats := stats.(commandResultsConfirmed := stats.commandResultsConfirmed + 1);
      return if duplicate then CommandResultDuplicate else CommandResultConfirmed;
    }

    /** Make the reading durable unless it is already; nothing is sent here. */
    method Secure(p: TelemetryPacket, frame: seq<byte>, reception: Reception, c: Circumstances)
      returns (duplicate: bool, held: bool)
      requires queue.Valid() && DecodeTelemetry(frame) == Accepted(p)
      modifies this`stats, queue, queue.storage, queue.core
      ensures queue.Valid() && queue.recent.Contents() == old(queue.recent.Contents())
      ensures Secured(p, frame, reception, c, old(queue.core.Value()), old(queue.storage.files),
                      queue.recent.Contents(), queue.core.Value(), queue.storage.files, duplicate, held)
      ensures duplicate ==> held
      ensures queue.recordsDeduplicated == old(queue.recordsDeduplicated) + if duplicate then 1 else 0
      ensures stats == old(stats).(duplicates := old(stats).duplicates + (if duplicate then 1 else 0),
                                   durableEnqueueFailures := old(stats).durableEnqueueFailures + if held then 0 else 1)
    {
      hide Inv, Knows, Contains, Enqueue, DecodeTelemetry, KeyOf, Held;
      ghost var q, files, recent := queue.core.Value(), queue.storage.files, queue.recent.Contents();
      var k := KeyOf(p);
      duplicate := queue.Contains(k, c.unreadable);
      HitIsHeld(q, files, recent, frame, c.unreadable);
      if duplicate {
        stats := stats.(duplicates := stats.duplicates + 1);
        queue.RecordDuplicate();
        return true, true;
      }
      var dropped: bool;
      held, dropped := queue.Enqueue(QueueRecord(0, reception, frame), c.fate);
      if held {
        EnqueuedIsHeld(q, files, recent, QueueRecord(0, reception, frame), c.fate);
      } else {
        stats := stats.(durableEnqueueFailures := stats.durableEnqueueFailures + 1);
      }
    }

    /** Send the acknowledgement and record how long it took. */
    method Acknowledge(p: TelemetryPacket, duplicate: bool, c: Circumstances)
      returns (d: Disposition, sent: Option<seq<byte>>)
      requires latency.Valid() && latency.rxToStart.count <= stats.ackSent
      modifies this`stats, commands, commands.backend, latency.rxToStart, latency.rxToComplete, latency.txDuration
      ensures latency.Valid() && latency.rxToStart.count <= stats.ackSent
      ensures Answered(p, c, old(commands.record), commands.record, duplicate, d, sent)
      ensures d.AckFailed? || d == if duplicate then DuplicateAcknowledged else NewAcknowledged
      ensures var timed := !d.AckFailed? && c.observedUs <= c.startUs <= c.completedUs;
              latency.rxToStart.samples
                  == old(latency.rxToStart.samples) + (if timed then [c.startUs - c.observedUs] else []) &&
              latency.rxToComplete.samples
                  == old(latency.rxToComplete.samples) + (if timed then [c.completedUs - c.observedUs] else [])
      ensures stats == if d.AckFailed? then old(stats).(ackFailures := old(stats).ackFailures + 1)
                       else old(stats).(ackSent := old(stats).ackSent + 1)
    {
      hide Checksum, EncodeAck, DecodeAck, Sendable, AckFor, AfterSending, Tells, AckLatencyStatistics.Valid,
           RunningStatistics.Valid;
      var buffer := new byte[RADIO_PACKET_CAPACITY];
      var report: Report;
      report, sent := TransmitAck(commands, p, c.now, c.transmits, c.restores, c.sentAt, c.saves, buffer);
      if report.success && report.receiveRestored {
        stats := stats.(ackSent := stats.ackSent + 1);
        if c.startUs >= c.observedUs && c.completedUs >= c.observedUs {
          latency.Record(c.startUs - c.observedUs, c.completedUs - c.observedUs);
        }
        d := if duplicate then DuplicateAcknowledged else NewAcknowledged;
      } else {
        stats := stats.(ackFailures := stats.ackFailures + 1);
        d := AckFailed;
      }
    }

    /** A reading of the paired node: durable first, then the acknowledgement. */
    method Accept(p: TelemetryPacket, frame: seq<byte>, reception: Reception, pairing: Pairing, c: Circumstances)
      returns (d: Disposition, duplicate: bool, sent: Option<seq<byte>>)
      requires queue.Valid() && latency.Valid() && latency.rxToStart.count <= stats.ackSent
      requires DecodeTelemetry(frame) == Accepted(p) && Gate(frame, pairing) == None
      modifies this`stats, queue, queue.storage, queue.core, commands, commands.backend,
               latency.rxToStart, latency.rxToComplete, latency.txDuration
      ensures queue.Valid() && latency.Valid() && latency.rxToStart.count <= stats.ackSent
      ensures stats == Settle(old(stats), d, duplicate) && Possible(Outcome(d, duplicate)) && !IsResult(d) &&
          !d.DecodeRejected?
      ensures queue.recent.Contents() == old(queue.recent.Contents())
      ensures TelemetryOutcome(frame, reception, pairing, c, old(queue.core.Value()), old(queue.storage.files),
                               queue.recent.Contents(), old(commands.record), queue.core.Value(),
                               queue.storage.files, commands.record, d, duplicate, sent)
    {
      hide Gate, Enqueue, DecodeTelemetry, TelemetryOutcome, Secured, Answered, Checksum, Inv,
           RecentDeduplicator.Valid, RecentDeduplicator.Contents, AckLatencyStatistics.Valid, RunningStatistics.Valid,
           Held, KeyOf, Knows, Keys;
      ghost var q, files, recent := queue.core.Value(), queue.storage.files, queue.recent.Contents();
      QueueEnqueue.InvBounds(q, files);
      hide DurableQueue.Valid;
      sent := None;
      var held: bool;
      duplicate, held := Secure(p, frame, reception, c);
      ghost var q', files' := queue.core.Value(), queue.storage.files;
      if held {
        d, sent := Acknowledge(p, duplicate, c);
      } else {
        d := DurableEnqueueFailed;
      }
      SecuredOutcome(frame, reception, pairing, c, q, files, recent, old(commands.record), q', files',
                     commands.record, held, d, duplicate, sent);
    }

    method ProcessTelemetry(frame: seq<byte>, reception: Reception, pairing: Pairing, c: Circumstances)
      returns (d: Disposition, duplicate: bool, sent: Option<seq<byte>>)
      requires queue.Valid() && latency.Valid() && latency.rxToStart.count <= stats.ackSent
      modifies this`stats, this`latest, queue, queue.storage, queue.core, commands, commands.backend,
               latency.rxToStart, latency.rxToComplete, latency.txDuration
      ensures queue.Valid() && latency.Valid() && latency.rxToStart.count <= stats.ackSent
      ensures stats == Count(old(stats), d, duplicate) && Possible(Outcome(d, duplicate)) && !IsResult(d)
      ensures queue.recent.Contents() == old(queue.recent.Contents())
      ensures TelemetryOutcome(frame, reception, pairing, c, old(queue.core.Value()), old(queue.storage.files),
                               queue.recent.Contents(), old(commands.record), queue.core.Value(),
                               queue.storage.files, commands.record, d, duplicate, sent)
      ensures latest == if Gate(frame, pairing).None? then Some(DecodeTelemetry(frame).packet) else old(latest)
    {
      hide Gate, DecodeTelemetry, TelemetryOutcome, Checksum, Inv,
           RecentDeduplicator.Valid, RecentDeduplicator.Contents, AckLatencyStatistics.Valid;
      QueueEnqueue.InvBounds(queue.core.Value(), queue.storage.files);
      hide DurableQueue.Valid;
      duplicate, sent := false, None;
      var decoded := ReadTelemetry(frame);
      GateCases(frame, reception, pairing, c, queue.core.Value(), queue.storage.files, queue.recent.Contents(),
                commands.record);
      if decoded.Rejected? {
        stats := stats.(decodeErrors := stats.decodeErrors + 1);
        return DecodeRejected, false, None;
      }
      stats := stats.(validProtocolPackets := stats.validProtocolPackets + 1,
                      validTelemetryPackets := stats.validTelemetryPackets + 1);
      if pairing.mode { return PairingCandidate, false, None; }
      if pairing.nodeId == [] {
        stats := stats.(unknownNodePackets := stats.unknownNodePackets + 1);
        return UnpairedIgnored, false, None;
      }
      if decoded.packet.nodeId != pairing.nodeId {
        stats := stats.(unknownNodePackets := stats.unknownNodePackets + 1);
        return UnknownNodeIgnored, false, None;
      }
      latest := Some(decoded.packet);
      hide Settle;
      d, duplicate, sent := Accept(decoded.packet, frame, reception, pairing, c);
    }

    /** One frame. */
    method Process(frame: seq<byte>, reception: Reception, pairing: Pairing, c: Circumstances)
      returns (d: Disposition, sent: Option<seq<byte>>)
      requires Valid() && |frame| <= RADIO_PACKET_CAPACITY
      modifies this, queue, queue.storage, queue.core, commands, commands.backend,
               latency.rxToStart, latency.rxToComplete, latency.txDuration
      ensures Valid() && |outcomes| == |old(outcomes)| + 1 && outcomes[..|old(outcomes)|] == old(outcomes)
      ensures outcomes[|outcomes| - 1].disposition == d
      ensures queue.recent.Contents() == old(queue.recent.Contents())
      ensures latest == if !LooksLikeResult(frame) && Gate(frame, pairing).None?
                        then Some(DecodeTelemetry(frame).packet) else old(latest)
      ensures if LooksLikeResult(frame) then
                sent == None && (IsResult(d) || d.DecodeRejected?) && latest == old(latest) &&
                queue.core.Value() == old(queue.core.Value()) && queue.storage.files == old(queue.storage.files) &&
                ResultOutcome(frame, pairing, latest, c.saves, old(commands.record), commands.record, d)
              else
                TelemetryOutcome(frame, reception, pairing, c, old(queue.core.Value()), old(queue.storage.files),
                                 queue.recent.Contents(), old(commands.record), queue.core.Value(),
                                 queue.storage.files, commands.record, d, outcomes[|outcomes| - 1].duplicate, sent)
    {
      hide Inv, TelemetryOutcome, ResultOutcome, Count, DecodeTelemetry, Gate, Checksum;
      var duplicate := false;
      if LooksLikeResult(frame) {
        d := ProcessResult(frame, pairing, c.saves);
        sent := None;
        ResultLeavesAcks(old(stats), d);
      } else {
        d, duplicate, sent := ProcessTelemetry(frame, reception, pairing, c);
      }
      CountOneMore(NO_STATS, outcomes, Outcome(d, duplicate));
      outcomes := outcomes + [Outcome(d, duplicate)];
    }
  }

  lemma NothingCounted()
    ensures Conserved(NO_STATS, 0, 0)
  {
  }

  lemma ResultLeavesAcks(s: Stats, d: Disposition)
    requires d.DecodeRejected? || IsResult(d)
    ensures Count(s, d, false).ackSent == s.ackSent
  {
  }
}
