/** What became of each acknowledged frame, in terms of the readings the records hold. */
module GatewayReadings {
  import opened Words
  import opened Protocol
  import opened TelemetryKeys
  import opened RecentKeys
  import opened QueueRecords
  import opened QueueCore
  import opened QueueEnqueue
  import opened QueueRecovery
  import opened QueueQueries
  import opened QueueFinish
  import opened Gateway
  import opened GatewaySafety
  import opened GatewayHistory
  import BackendContract

  // ---- readings instead of keys ----

  /** The frame reports this reading: node, session and sequence number. */
  ghost predicate Reports(frame: seq<byte>, p: TelemetryPacket) {
    DecodeTelemetry(frame).Accepted? && SameReading(DecodeTelemetry(frame).packet, p)
  }

  /** The file is a record with its own id whose frame reports the reading. */
  ghost predicate Holds(files: Files, id: RecordId, p: TelemetryPacket) {
    id in files && DecodeRecord(files[id]).Some? && DecodeRecord(files[id]).value.recordId == id &&
    Reports(DecodeRecord(files[id]).value.payload, p)
  }

  /** The reading is on flash and, while the gateway runs, in its index. */
  ghost predicate Committed(s: State, p: TelemetryPacket) {
    exists id: RecordId :: Holds(s.files, id, p) && (s.power.On? ==> id in Ids(s.power.q.entries))
  }

  lemma ReportsIff(frame: seq<byte>, p: TelemetryPacket)
    requires NodeIdValid(p.nodeId) && DecodeTelemetry(frame).Accepted?
    ensures KeyOf(DecodeTelemetry(frame).packet) == KeyOf(p) <==> Reports(frame, p)
  {
    hide DecodeTelemetry, EncodeTelemetry, KeyOf, SameReading;
    TelemetryBijection(frame, DecodeTelemetry(frame).packet);
    KeyOfIff(DecodeTelemetry(frame).packet, p);
  }

  lemma HoldsIff(files: Files, id: RecordId, p: TelemetryPacket)
    requires NodeIdValid(p.nodeId)
    ensures KeyFor(files, id) == Some(KeyOf(p)) <==> Holds(files, id, p)
  {
    hide DecodeTelemetry, DecodeRecord, KeyOf, Reports;
    if id in files && DecodeRecord(files[id]).Some? {
      var frame := DecodeRecord(files[id]).value.payload;
      if DecodeTelemetry(frame).Accepted? { ReportsIff(frame, p); } else { NotReported(frame, p); }
    }
  }

  lemma NotReported(frame: seq<byte>, p: TelemetryPacket)
    requires DecodeTelemetry(frame).Rejected?
    ensures !Reports(frame, p)
  {
  }

  lemma CommittedIff(s: State, p: TelemetryPacket)
    requires NodeIdValid(p.nodeId)
    ensures KeyOf(p) in Live(s) <==> Committed(s, p)
  {
    hide KeyFor, KeyOf, Holds;
    forall id: RecordId
      ensures KeyFor(s.files, id) == Some(KeyOf(p)) <==> Holds(s.files, id, p)
    {
      HoldsIff(s.files, id, p);
    }
    SameFiles(s.files, s.files);
    if s.power.On? {
      if KeyOf(p) in Live(s) {
        var e :| e in s.power.q.entries && KeyFor(s.files, e.id) == Some(KeyOf(p));
        assert e.id in Ids(s.power.q.entries) && Holds(s.files, e.id, p);
      }
    } else {
      if KeyOf(p) in Live(s) {
        var id :| id in s.files && KeyFor(s.files, id) == Some(KeyOf(p));
        assert Holds(s.files, id, p);
      }
    }
  }

  /** The queue answers for a reading exactly if an indexed record that can be read holds
      it, whatever the hashes. */
  lemma QueueKnowsIff(q: Core, files: Files, p: TelemetryPacket, unreadable: set<RecordId>)
    requires Inv(q, files) && NodeIdValid(p.nodeId)
    ensures Contains(q, files, KeyOf(p), unreadable) <==>
            exists e :: e in q.entries && e.id !in unreadable && Holds(files, e.id, p)
  {
    hide KeyFor, KeyIn, KeyHash, KeyEqual, KeyOf, Inv, DecodeRecord, EncodeRecord, DecodeTelemetry, Proper, Holds,
         NodeBytes;
    ProperKeyOf(p);
    var k := KeyOf(p);
    if i :| 0 <= i < |q.entries| && QueueCore.Answers(files, q.entries[i], k, unreadable) {
      var e := q.entries[i];
      EntryFile(q, files, e);
      ProperEqual(KeyFor(files, e.id).value, k);
      HoldsIff(files, e.id, p);
      assert e in q.entries && e.id !in unreadable && Holds(files, e.id, p);
    }
    if e :| e in q.entries && e.id !in unreadable && Holds(files, e.id, p) {
      HoldsIff(files, e.id, p);
      EntryFile(q, files, e);
      ProperEqual(KeyFor(files, e.id).value, k);
      var i :| 0 <= i < |q.entries| && q.entries[i] == e;
      assert QueueCore.Answers(files, q.entries[i], k, unreadable);
    }
  }

  /** The ring answers for a reading exactly if it lists its node, session and sequence
      number. */
  lemma RingKnowsIff(recent: seq<TelemetryKey>, p: TelemetryPacket)
    requires NodeIdValid(p.nodeId)
    ensures Knows(recent, KeyOf(p)) <==>
            exists k :: k in recent && CStr(k.nodeId) == p.nodeId && k.session == p.m.session &&
                        k.sequence == p.m.sequence
  {
    hide StrEqual, NodeBytes, StrLen;
    KeyKeepsId(p.nodeId, p.m.session, p.m.sequence);
    forall k: TelemetryKey
      ensures KeyEqual(k, KeyOf(p)) <==>
              CStr(k.nodeId) == p.nodeId && k.session == p.m.session && k.sequence == p.m.sequence
    {
      StrEqualIff(k.nodeId, KeyOf(p).nodeId);
    }
    hide KeyEqual, KeyOf;
    if k :| k in recent && KeyEqual(k, KeyOf(p)) {
      var i :| 0 <= i < |recent| && recent[i] == k;
    }
  }

  // ---- the events ----

  /** The step erases a file of the reading for room: that of the head of a full queue, or
      of one of the oldest records beyond capacity at a start. */
  ghost predicate ErasesForRoom(s: State, e: Event, p: TelemetryPacket) {
    if s.power.On? then
      (e.Enter? || e.EnterCut?) && |s.power.q.entries| >= s.power.q.capacity > 0 &&
      Holds(s.files, s.power.q.entries[0].id, p) && s.power.q.entries[0].id !in Step(s, e).files
    else
      (e.Boot? || e.BootCut?) &&
      exists x :: x in Oldest(s.files, e.recovery.unreadable, Size(e.capacity)) && Holds(s.files, x.id, p) &&
                  x.id !in Step(s, e).files
  }

  /** A start that can read none of the records of the reading, and leaves it behind. */
  ghost predicate CannotRead(s: State, e: Event, p: TelemetryPacket) {
    s.power.Off? && (e.Boot? || e.BootCut?) && Committed(s, p) && !Committed(Step(s, e), p) &&
    forall id: RecordId | Holds(s.files, id, p) :: id in e.recovery.unreadable
  }

  /** A response with status 200 names a record of the batch that holds the reading, with a
      terminal status. */
  ghost predicate Finishes(s: State, e: Event, p: TelemetryPacket) {
    e.Respond? && s.power.On? && s.power.upload.Batched? && e.httpStatus == 200 && e.answer.Some? &&
    var batch := s.power.upload.batch;
    exists item :: item in e.answer.value && BackendContract.UsableItem(item, |batch|) &&
                   Reports(batch[item.index.value].payload, p)
  }

  lemma GivenUpErases(s: State, e: Event, p: TelemetryPacket)
    requires NodeIdValid(p.nodeId) && GivenUp(s, e, KeyOf(p))
    ensures ErasesForRoom(s, e, p)
  {
    hide KeyFor, KeyOf, Holds, Step, Oldest;
    forall id: RecordId
      ensures KeyFor(s.files, id) == Some(KeyOf(p)) <==> Holds(s.files, id, p)
    {
      HoldsIff(s.files, id, p);
    }
  }

  lemma LeftUnreadIff(s: State, e: Event, p: TelemetryPacket)
    requires NodeIdValid(p.nodeId) && LeftUnread(s, e, KeyOf(p))
    ensures CannotRead(s, e, p)
  {
    hide KeyFor, KeyOf, Holds, Step, Committed;
    forall id: RecordId
      ensures KeyFor(s.files, id) == Some(KeyOf(p)) <==> Holds(s.files, id, p)
    {
      HoldsIff(s.files, id, p);
    }
    CommittedIff(s, p);
    CommittedIff(Step(s, e), p);
  }

  /** Only the key of a decodable frame is that of a reading. */
  lemma KeyReports(r: QueueRecord, p: TelemetryPacket)
    requires NodeIdValid(p.nodeId) && NewKey(r) == KeyOf(p)
    ensures Reports(r.payload, p)
  {
    hide DecodeTelemetry, NodeBytes, Reports;
    KeyKeepsId(p.nodeId, p.m.session, p.m.sequence);
    NamelessKey();
    if DecodeTelemetry(r.payload).Accepted? { ReportsIff(r.payload, p); }
  }

  lemma NamelessKey()
    ensures CStr(MakeKey([], 0, 0).nodeId) == []
  {
  }

  lemma AnswersFinishes(s: State, e: Event, p: TelemetryPacket)
    requires NodeIdValid(p.nodeId) && GatewayHistory.Answers(s, e, KeyOf(p))
    ensures Finishes(s, e, p)
  {
    hide KeyOf, NewKey, Reports, BackendContract.Parse, BackendContract.UsableItem, BackendContract.DistinctItems;
    var batch := s.power.upload.batch;
    var results := BackendContract.Parse(e.answer, |batch|).value;
    BackendContract.AcceptedIff(e.answer, |batch|);
    var a :| a in Actions(batch, results) && a.key == KeyOf(p);
    var j :| 0 <= j < |results| && Actions(batch, results)[j] == a;
    KeyReports(batch[results[j].index], p);
    var item := e.answer.value[j];
    assert item in e.answer.value && item.index == Some(results[j].index);
  }

  // ---- whole runs ----

  /** The reading was lost at event i: committed before it, never again after it, and the
      event erased it for room or could read none of its records. */
  ghost predicate ReadingLostAt(s: State, run: seq<Event>, i: nat, p: TelemetryPacket) {
    i < |run| && Committed(Run(s, run[..i]), p) &&
    (forall j | i < j <= |run| :: !Committed(Run(s, run[..j]), p)) &&
    (ErasesForRoom(Run(s, run[..i]), run[i], p) || CannotRead(Run(s, run[..i]), run[i], p))
  }

  ghost predicate FinishedAt(s: State, run: seq<Event>, i: nat, p: TelemetryPacket) {
    i < |run| && Finishes(Run(s, run[..i]), run[i], p)
  }

  /** The history before the run says that the backend had given a terminal result. */
  ghost predicate FinishedBefore(s: State, p: TelemetryPacket) {
    exists k :: k in s.terminal && CStr(k.nodeId) == p.nodeId && k.session == p.m.session &&
                k.sequence == p.m.sequence
  }

  lemma LostReading(s: State, run: seq<Event>, i: nat, p: TelemetryPacket)
    requires NodeIdValid(p.nodeId) && LostAt(s, run, i, KeyOf(p))
    ensures ReadingLostAt(s, run, i, p)
  {
    hide KeyOf, Run, Live, Committed, GivenUp, LeftUnread, ErasesForRoom, CannotRead, NodeBytes;
    var t := Run(s, run[..i]);
    CommittedIff(t, p);
    forall j | i < j <= |run|
      ensures !Committed(Run(s, run[..j]), p)
    {
      CommittedIff(Run(s, run[..j]), p);
    }
    if GivenUp(t, run[i], KeyOf(p)) { GivenUpErases(t, run[i], p); } else { LeftUnreadIff(t, run[i], p); }
  }

  /** An acknowledgement for this frame goes out at event i. */
  ghost predicate AcknowledgedAt(s: State, run: seq<Event>, i: nat, frame: seq<byte>) {
    i < |run| && run[i] == Acknowledge(true) &&
    var t := Run(s, run[..i]);
    t.power.On? && (t.power.radio.Committed? || (t.power.radio.Checked? && t.power.radio.duplicate)) &&
    t.power.radio.record.payload == frame
  }

  /** The event brings this frame, from the paired node and outside pairing mode. */
  ghost predicate Hears(e: Event, frame: seq<byte>) {
    e.Receive? && e.frame == frame && !e.pairing && DecodeTelemetry(frame).Accepted? &&
    DecodeTelemetry(frame).packet.nodeId == e.pairedId
  }

  /** The frame in the hands of the radio task is the one it had or the one it hears now. */
  lemma RadioHas(s: State, e: Event)
    requires Step(s, e).power.On? && !Step(s, e).power.radio.Listening?
    ensures (s.power.On? && !s.power.radio.Listening? &&
             s.power.radio.record.payload == Step(s, e).power.radio.record.payload) ||
            Hears(e, Step(s, e).power.radio.record.payload)
  {
    hide FinishAll, Enqueue, Recover, Peek, Contains, Knows, DecodeTelemetry, KeyOf, BackendContract.Parse,
         BackendContract.InRange, KeyFor, Keys, AnsweredKeys, Actions, IndexOf, CutPoint, RingLoads, LoadedRing,
         Listing, Given, NewKey, AnsweredDecode, DiskKeys, Unread, CutFiles;
  }

  lemma {:induction false} HeardBefore(s: State, run: seq<Event>)
    requires s.power.Off? && Run(s, run).power.On? && !Run(s, run).power.radio.Listening?
    ensures exists j: nat :: j < |run| && Hears(run[j], Run(s, run).power.radio.record.payload)
    decreases |run|
  {
    hide Step, Hears;
    if run != [] {
      var m := |run| - 1;
      RunLast(s, run);
      RadioHas(Run(s, run[..m]), run[m]);
      if !Hears(run[m], Run(s, run).power.radio.record.payload) {
        HeardBefore(s, run[..m]);
        var j: nat :| j < m && Hears(run[..m][j], Run(s, run[..m]).power.radio.record.payload);
        assert run[..m][j] == run[j];
      }
    }
  }

  /** An acknowledgement goes out only for a frame that was heard in the same run, from the
      node that was paired then. */
  lemma AckedFrameWasHeard(s: State, run: seq<Event>, i: nat, frame: seq<byte>)
    requires Initial(s) && AcknowledgedAt(s, run, i, frame)
    ensures DecodeTelemetry(frame).Accepted? && exists j: nat :: j < i && Hears(run[j], frame)
  {
    hide Run, DecodeTelemetry;
    HeardBefore(s, run[..i]);
    var j: nat :| j < i && Hears(run[..i][j], frame);
    assert run[..i][j] == run[j];
  }

  lemma AckedIsKept(s: State, run: seq<Event>, i: nat, frame: seq<byte>, p: TelemetryPacket)
    requires AcknowledgedAt(s, run, i, frame) && DecodeTelemetry(frame) == Accepted(p)
    ensures KeyOf(p) in Run(s, run).acked
  {
    hide Run, NewKey, DecodeTelemetry, KeyOf;
    var t := Run(s, run[..i]);
    RecordKey(t.power.radio.record, p);
    assert run[..i + 1] == run[..i] + [run[i]] && run == run[..i + 1] + run[i + 1..];
    RunAppend(s, run[..i], [run[i]]);
    RunOne(t, run[i]);
    RunAppend(s, run[..i + 1], run[i + 1..]);
    AckedStays(Run(s, run[..i + 1]), run[i + 1..]);
  }

  lemma RecordKey(r: QueueRecord, p: TelemetryPacket)
    requires DecodeTelemetry(r.payload) == Accepted(p)
    ensures NewKey(r) == KeyOf(p)
  {
    hide DecodeTelemetry, KeyOf;
  }

  lemma {:induction false} AckedStays(s: State, run: seq<Event>)
    ensures s.acked <= Run(s, run).acked
    decreases |run|
  {
    hide Step;
    if run != [] {
      AckedGrows(s, run[0]);
      AckedStays(Step(s, run[0]), run[1..]);
    }
  }

  /** Over every run, for every frame an acknowledgement went out for: a record whose frame
      reports the same node, session and sequence number is committed, or a response of the
      run answered such a record, or an event of the run lost the reading for room or as
      unreadable, or it was finished before the run. */
  lemma AckedFramesAccountedFor(s: State, run: seq<Event>, n: nat, i: nat, frame: seq<byte>)
    requires Initial(s) && Bounded(s.files, n) && n + |run| < U64_MAX && AcknowledgedAt(s, run, i, frame)
    ensures DecodeTelemetry(frame).Accepted?
    ensures var p := DecodeTelemetry(frame).packet;
            Committed(Run(s, run), p) || FinishedBefore(s, p) || (exists j: nat :: FinishedAt(s, run, j, p)) ||
            (exists j: nat :: ReadingLostAt(s, run, j, p))
  {
    hide Run, DecodeTelemetry, EncodeTelemetry, KeyOf, NewKey, Live, Committed, AnsweredAt, LostAt, FinishedAt,
         ReadingLostAt, Bounded, Initial, AcknowledgedAt, NodeBytes;
    AckedFrameWasHeard(s, run, i, frame);
    var p := DecodeTelemetry(frame).packet;
    AckedIsKept(s, run, i, frame, p);
    TelemetryBijection(frame, p);
    AckedReadingsAccountedFor(s, run, n, KeyOf(p));
    CommittedIff(Run(s, run), p);
    if KeyOf(p) in s.terminal { KnownBefore(s, p); }
    if j: nat :| AnsweredAt(s, run, j, KeyOf(p)) { AnsweredFinishes(s, run, j, p); }
    if j: nat :| LostAt(s, run, j, KeyOf(p)) { LostReading(s, run, j, p); }
  }

  lemma KnownBefore(s: State, p: TelemetryPacket)
    requires NodeIdValid(p.nodeId) && KeyOf(p) in s.terminal
    ensures FinishedBefore(s, p)
  {
    hide NodeBytes;
    KeyKeepsId(p.nodeId, p.m.session, p.m.sequence);
  }

  lemma AnsweredFinishes(s: State, run: seq<Event>, j: nat, p: TelemetryPacket)
    requires NodeIdValid(p.nodeId) && AnsweredAt(s, run, j, KeyOf(p))
    ensures FinishedAt(s, run, j, p)
  {
    hide Run, KeyOf, GatewayHistory.Answers, Finishes, NodeBytes;
    AnswersFinishes(Run(s, run[..j]), run[j], p);
  }
}
