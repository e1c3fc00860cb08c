/** The objects the two tasks run and the steps of the gateway are the same behaviour. */
module GatewayObjects {
  import opened Words
  import opened Protocol
  import opened TelemetryKeys
  import opened RecentKeys
  import opened QueueRecords
  import opened QueueCore
  import opened QueueEnqueue
  import opened QueueRecovery
  import opened QueueFinish
  import opened DurableQueues
  import opened CommandStores
  import opened PacketProcessors
  import opened BackendWorkers
  import opened Gateway
  import GatewaySafety
  import BackendContract

  /** A frame with the type byte of a command result is no telemetry. */
  lemma ResultsAreNoReadings(frame: seq<byte>)
    requires LooksLikeResult(frame)
    ensures DecodeTelemetry(frame).Rejected?
  {
  }

  /** The events of one processed frame; the acknowledgement succeeds if one was sent. */
  function FrameEvents(frame: seq<byte>, reception: Reception, pairing: Pairing, c: Circumstances,
      sent: bool): (es: seq<Event>) {
    [Receive(frame, reception, pairing.nodeId, pairing.mode, c.unreadable), Enter(c.fate), Acknowledge(sent)]
  }

  lemma FrameStopped(s: State, frame: seq<byte>, reception: Reception, pairing: Pairing, c: Circumstances)
    requires s.power.On? && s.power.radio.Listening? && Gate(frame, pairing).Some?
    ensures Run(s, FrameEvents(frame, reception, pairing, c, false)) == s
  {
    hide DecodeTelemetry, KeyOf, Knows, Contains, NewKey, Run;
    GatewaySafety.RunThree(s, Receive(frame, reception, pairing.nodeId, pairing.mode, c.unreadable), Enter(c.fate),
                           Acknowledge(false));
  }

  lemma FramePassed(s: State, frame: seq<byte>, reception: Reception, pairing: Pairing, c: Circumstances, sent: bool)
    requires s.power.On? && s.power.radio.Listening? && Gate(frame, pairing).None? && s.power.q.capacity > 0
    ensures DecodeTelemetry(frame).Accepted?
    ensures var k := KeyOf(DecodeTelemetry(frame).packet);
            var known := Knows(s.power.recent, k) || Contains(s.power.q, s.files, k, c.unreadable);
            var run := Enqueue(s.power.q, s.files, QueueRecord(0, reception, frame), c.fate);
            var t := Run(s, FrameEvents(frame, reception, pairing, c, sent));
            t.power == s.power.(q := if known then s.power.q else run.q) &&
            t.files == (if known then s.files else run.files) &&
            t.acked == s.acked + (if sent && (known || run.ok) then {k} else {})
  {
    hide DecodeTelemetry, KeyOf, Knows, Contains, NewKey, Run, Enqueue, Keys;
    GatewaySafety.RunThree(s, Receive(frame, reception, pairing.nodeId, pairing.mode, c.unreadable), Enter(c.fate),
                           Acknowledge(sent));
    GatewaySafety.FrameKey(frame, reception);
  }

  /** One call that processes a frame other than a command result leaves queue, files and
      ring as the three radio events do, and acknowledges the same key. */
  lemma ProcessIsThreeEvents(s: State, frame: seq<byte>, reception: Reception, pairing: Pairing, c: Circumstances,
                             record: Record, q': Core, files': Files, record': Record, d: Disposition,
                             duplicate: bool, sent: Option<seq<byte>>)
    requires s.power.On? && s.power.radio.Listening? && s.power.q.capacity > 0
    requires TelemetryOutcome(frame, reception, pairing, c, s.power.q, s.files, s.power.recent, record,
                              q', files', record', d, duplicate, sent)
    ensures var t := Run(s, FrameEvents(frame, reception, pairing, c, sent.Some?));
            t.power == s.power.(q := q') && t.files == files' &&
            (sent.Some? ==> DecodeTelemetry(frame).Accepted?) &&
            t.acked == s.acked + (if sent.Some? then {KeyOf(DecodeTelemetry(frame).packet)} else {})
  {
    hide DecodeTelemetry, KeyOf, Knows, Contains, NewKey, Run, Enqueue, Keys, Gate, Held, FrameEvents;
    if Gate(frame, pairing).Some? {
      FrameStopped(s, frame, reception, pairing, c);
    } else {
      FramePassed(s, frame, reception, pairing, c, sent.Some?);
    }
  }

  /** A command result changes nothing that the gateway's steps are about. */
  lemma ResultIsNoEvent(s: State, frame: seq<byte>, reception: Reception, pairing: Pairing, c: Circumstances)
    requires s.power.On? && s.power.radio.Listening? && LooksLikeResult(frame)
    ensures Run(s, FrameEvents(frame, reception, pairing, c, false)) == s
  {
    hide DecodeTelemetry, Run, FrameEvents;
    ResultsAreNoReadings(frame);
    FrameStopped(s, frame, reception, pairing, c);
  }

  /** Handling a response leaves queue, files, ring and ring file as the response and finish
      events do, on whatever the queue has become since the batch was taken. */
  lemma ResponseIsTwoEvents(s: State, httpStatus: int, answer: Option<seq<BackendContract.Item>>, stuck: set<RecordId>,
                            saved: bool, q': Core, files': Files, recent': seq<TelemetryKey>,
                            ring': Option<seq<byte>>, completed: bool, success: bool)
    requires s.power.On? && s.power.upload.Batched? && |s.power.recent| <= RECENT_CAPACITY
    requires ResponseOutcome(s.power.q, s.files, s.power.recent, s.ring, s.power.upload.batch, httpStatus, answer,
                             stuck, saved, q', files', recent', ring', completed, success)
    ensures var t := Run(s, [Respond(httpStatus, answer), Finish(stuck, saved)]);
            t.power == s.power.(q := q', recent := recent', upload := Resting) && t.files == files' && t.ring == ring'
  {
    hide FinishAll, Actions, AnsweredKeys, AnsweredDecode, BackendContract.Parse, BackendContract.InRange, Run,
         RecentFile;
    var batch := s.power.upload.batch;
    GatewaySafety.RunTwo(s, Respond(httpStatus, answer), Finish(stuck, saved));
    if BackendContract.Parse(answer, |batch|).Some? { BackendContract.ParsedResults(answer, |batch|); }
  }

  /** A start of the queue object leaves queue, files, ring and ring file as the boot event
      does, and the gateway runs exactly when it reports success. */
  lemma BeginIsBoot(s: State, capacity: nat, listable: bool, fate: RecoverFate, ringReadable: bool, unlinked: bool,
                    q': Core, files': Files, recent': seq<TelemetryKey>, ring': Option<seq<byte>>, ok: bool)
    requires s.power.Off? && capacity > 0 && (listable ==> Listing(s.files, fate.listed))
    requires BeginOutcome(s.files, s.ring, capacity, listable, fate, ringReadable, unlinked,
                          q', files', recent', ring', ok)
    ensures var t := Run(s, if listable then [Boot(capacity, fate, ringReadable, unlinked)] else []);
            t.power == (if ok then On(q', recent', Listening, Resting) else Off) &&
            t.files == files' && t.ring == ring' && t.acked == s.acked && t.terminal == s.terminal
  {
    hide Recover, Listing, LoadedRing, RingLoads, Run, Unread, DiskKeys, Keys;
    if listable {
      GatewaySafety.RunOne(s, Boot(capacity, fate, ringReadable, unlinked));
    } else {
      GatewaySafety.RunNone(s);
    }
  }
}
