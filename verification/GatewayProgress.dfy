/** When storage works, readings are acknowledged and batches leave the queue, whatever
    the other task does in between. */
module GatewayProgress {
  import opened Words
  import opened Protocol
  import opened TelemetryKeys
  import opened RecentKeys
  import opened QueueRecords
  import opened QueueCore
  import opened QueueEnqueue
  import opened QueueQueries
  import opened QueueFinish
  import opened QueueRecovery
  import opened Gateway
  import opened GatewaySafety
  import opened GatewayUpload
  import BackendContract

  predicate BackendEvent(e: Event) { e.TakeBatch? || e.Respond? || e.Finish? }

  predicate RadioEvent(e: Event) { e.Receive? || e.Enter? || e.Acknowledge? }

  // ---- a reading is acknowledged ----

  lemma {:induction false} FinishFrame(q: Core, files: Files, recent: seq<TelemetryKey>, actions: seq<Action>,
                                       stuck: set<RecordId>)
    requires |recent| <= RECENT_CAPACITY
    ensures var run := FinishAll(q, files, recent, actions, stuck); run.q == q.(entries := run.q.entries)
    decreases |actions|
  {
    hide Remembered, Knows, IndexOfId;
    if actions != [] && actions[0].id != 0 {
      var removal := Remove(q, files, actions[0].id, actions[0].id !in stuck);
      if removal.ok {
        FinishFrame(removal.q, removal.files, Remembered(recent, RECENT_CAPACITY, actions[0].key), actions[1..], stuck);
      } else {
        FinishFrame(q, files, recent, actions[1..], stuck);
      }
    } else if actions != [] {
      FinishFrame(q, files, recent, actions[1..], stuck);
    }
  }

  /** What the radio task sees of a backend event. */
  ghost predicate SameRadio(s: State, t: State) {
    s.power.On? && t.power.On? && t.power.radio == s.power.radio && t.acked == s.acked &&
    t.power.q == s.power.q.(entries := t.power.q.entries)
  }

  lemma BackendStep(s: State, e: Event)
    requires s.power.On? && BackendEvent(e)
    ensures SameRadio(s, Step(s, e))
  {
    hide FinishAll, Peek, BackendContract.Parse, BackendContract.InRange, AnsweredKeys, Actions, AnsweredDecode;
    if e.Finish? && FinishEnabled(s) {
      var p := s.power;
      FinishFrame(p.q, s.files, p.recent, Actions(p.upload.batch, p.upload.results), e.stuck);
    }
  }

  lemma {:induction false} BackendRun(s: State, run: seq<Event>, n: nat)
    requires Sound(s) && Fits(s, n) && n + |run| < U64_MAX && s.power.On?
    requires forall e | e in run :: BackendEvent(e)
    ensures SameRadio(s, Run(s, run)) && Sound(Run(s, run)) && Fits(Run(s, run), n + |run|)
    decreases |run|
  {
    hide Sound, Fits, Step, BackendEvent;
    if run != [] {
      assert run[0] in run && forall e | e in run[1..] :: e in run;
      StepKeeps(s, run[0], n);
      BackendStep(s, run[0]);
      BackendRun(Step(s, run[0]), run[1..], n + 1);
    }
  }

  lemma AdmissibleStays(q: Core, other: Core, r: QueueRecord)
    requires Admissible(q, r) && other.next == q.next
    ensures Admissible(other, r)
  {
  }

  lemma OfferedReading(s: State, e: Event, p: TelemetryPacket)
    requires s.power.On? && s.power.radio.Listening? && e.Receive? && !e.pairing
    requires DecodeTelemetry(e.frame) == Accepted(p) && e.pairedId == p.nodeId
    ensures var t := Step(s, e);
            t.power.On? && t.power.q == s.power.q && t.power.radio.Checked? &&
            t.power.radio.record == QueueRecord(0, e.reception, e.frame) && t.acked == s.acked
  {
    hide DecodeTelemetry, EncodeTelemetry, KeyOf, Contains, Knows;
    TelemetryBijection(e.frame, p);
  }

  /** The looked-up reading is known, or the enqueue can make it durable. */
  ghost predicate Securable(s: State, fate: EnqueueFate)
    requires s.power.On? && s.power.radio.Checked?
  {
    s.power.radio.duplicate || MakesRoom(s.power.q, fate)
  }

  lemma EnterWorks(s: State, fate: EnqueueFate)
    requires Sound(s) && s.power.On? && s.power.radio.Checked? && Admissible(s.power.q, s.power.radio.record)
    requires Securable(s, fate)
    ensures var t := Step(s, Enter(fate));
            t.power.On? && (t.power.radio.Committed? || (t.power.radio.Checked? && t.power.radio.duplicate)) &&
            t.power.radio.record == s.power.radio.record
  {
    hide SavedOk, RingOk, RadioOk, UploadOk, Enqueue, Admissible, KeyFor, KeyHash, Keys, NewKey, MakesRoom;
    EnqueueSucceedsIff(s.power.q, s.files, s.power.radio.record, fate);
  }

  lemma AcknowledgeWorks(s: State)
    requires s.power.On? && (s.power.radio.Committed? || (s.power.radio.Checked? && s.power.radio.duplicate))
    ensures NewKey(s.power.radio.record) in Step(s, Acknowledge(true)).acked
  {
    hide NewKey;
  }

  /** The frame has been looked up, and backend events have passed. */
  lemma UntilEnter(s: State, e: Event, p: TelemetryPacket, a: seq<Event>, n: nat)
    requires Sound(s) && Fits(s, n) && n + |a| + 1 < U64_MAX
    requires s.power.On? && s.power.radio.Listening? && e.Receive? && !e.pairing && e.pairedId == p.nodeId
    requires DecodeTelemetry(e.frame) == Accepted(p) && Admissible(s.power.q, QueueRecord(0, e.reception, e.frame))
    requires forall x | x in a :: BackendEvent(x)
    ensures var t := Run(s, [e] + a);
            Sound(t) && Fits(t, n + 1 + |a|) && t.power.On? && t.power.radio.Checked? &&
            t.power.radio.record == QueueRecord(0, e.reception, e.frame) &&
            Admissible(t.power.q, t.power.radio.record)
  {
    hide DecodeTelemetry, Step, Run, Sound, Fits, Admissible, BackendEvent;
    OfferedReading(s, e, p);
    StepKeeps(s, e, n);
    RunOne(s, e);
    BackendRun(Run(s, [e]), a, n + 1);
    RunAppend(s, [e], a);
    AdmissibleStays(s.power.q, Run(s, [e] + a).power.q, QueueRecord(0, e.reception, e.frame));
  }

  lemma FromEnter(s: State, fate: EnqueueFate, b: seq<Event>, n: nat)
    requires Sound(s) && Fits(s, n) && n + |b| + 1 < U64_MAX && s.power.On? && s.power.radio.Checked?
    requires Admissible(s.power.q, s.power.radio.record) && Securable(s, fate)
    requires forall x | x in b :: BackendEvent(x)
    ensures NewKey(s.power.radio.record) in Run(s, [Enter(fate)] + b + [Acknowledge(true)]).acked
  {
    hide Step, Run, Sound, Fits, Admissible, NewKey, BackendEvent, Securable;
    EnterWorks(s, fate);
    StepKeeps(s, Enter(fate), n);
    RunOne(s, Enter(fate));
    BackendRun(Run(s, [Enter(fate)]), b, n + 1);
    RunAppend(s, [Enter(fate)], b);
    var t := Run(s, [Enter(fate)] + b);
    AcknowledgeWorks(t);
    RunOne(t, Acknowledge(true));
    RunAppend(s, [Enter(fate)] + b, [Acknowledge(true)]);
  }

  /** A reading of the paired node that fits a record, new or not, full queue or not, is
      acknowledged if it is known or can be made durable, with any backend events between
      the steps of the radio task. */
  lemma ReadingIsAcknowledged(s: State, e: Event, p: TelemetryPacket, a: seq<Event>, fate: EnqueueFate, b: seq<Event>,
                              n: nat)
    requires Sound(s) && Fits(s, n) && n + |a| + |b| + 2 < U64_MAX
    requires s.power.On? && s.power.radio.Listening? && e.Receive? && !e.pairing && e.pairedId == p.nodeId
    requires DecodeTelemetry(e.frame) == Accepted(p) && Admissible(s.power.q, QueueRecord(0, e.reception, e.frame))
    requires (forall x | x in a :: BackendEvent(x)) && forall x | x in b :: BackendEvent(x)
    requires var t := Run(s, [e] + a); t.power.On? && t.power.radio.Checked? ==> Securable(t, fate)
    ensures KeyOf(p) in Run(s, ([e] + a) + ([Enter(fate)] + b + [Acknowledge(true)])).acked
  {
    hide DecodeTelemetry, Step, Run, Sound, Fits, Admissible, KeyOf, NewKey, BackendEvent, Securable;
    UntilEnter(s, e, p, a, n);
    FromEnter(Run(s, [e] + a), fate, b, n + 1 + |a|);
    RunAppend(s, [e] + a, [Enter(fate)] + b + [Acknowledge(true)]);
    FrameKey(e.frame, e.reception);
  }

  /** When every storage call works, it can always be made durable. */
  lemma WorkingIsSecurable(s: State)
    requires s.power.On? && s.power.radio.Checked?
    ensures Securable(s, WORKING)
  {
  }

  // ---- a batch leaves the queue ----

  /** The response answers every record of a batch of m, in any order and with any of the
      terminal results. */
  predicate CompleteAnswer(m: nat, httpStatus: int, answer: Option<seq<BackendContract.Item>>) {
    BackendContract.MayDequeue(httpStatus) && BackendContract.Parse(answer, m).Some? &&
    BackendContract.Complete(m, BackendContract.Parse(answer, m).value)
  }

  /** When no erase fails, no named record is left, whatever was evicted before. */
  lemma {:induction false} FinishDrains(q: Core, files: Files, recent: seq<TelemetryKey>, actions: seq<Action>)
    requires Inv(q, files) && |recent| <= RECENT_CAPACITY && forall a | a in actions :: a.id != 0
    ensures forall a | a in actions :: a.id !in Ids(FinishAll(q, files, recent, actions, {}).q.entries)
    decreases |actions|
  {
    hide Inv, Tidy, Keys, KeyFor, Remove, Remembered, Knows, Ids, Targets;
    if actions != [] {
      var a, rest := actions[0], actions[1..];
      assert a in actions && forall x | x in rest :: x in actions;
      assert forall x | x in actions :: x == a || x in rest;
      RemoveKeeps(q, files, a.id, true);
      var removal := Remove(q, files, a.id, true);
      if removal.ok {
        FinishDrains(removal.q, removal.files, Remembered(recent, RECENT_CAPACITY, a.key), rest);
        FinishShrinks(removal.q, removal.files, Remembered(recent, RECENT_CAPACITY, a.key), rest);
      } else {
        FinishDrains(q, files, recent, rest);
        FinishShrinks(q, files, recent, rest);
      }
    }
  }

  lemma FinishShrinks(q: Core, files: Files, recent: seq<TelemetryKey>, actions: seq<Action>)
    requires Inv(q, files) && |recent| <= RECENT_CAPACITY && forall a | a in actions :: a.id != 0
    ensures Ids(FinishAll(q, files, recent, actions, {}).q.entries) <= Ids(q.entries)
  {
    hide Inv, FinishAll, Targets;
    FinishTouches(q, files, recent, actions, {});
  }

  /** What the backend task sees of a radio event. */
  ghost predicate SameUpload(s: State, t: State) {
    s.power.On? && t.power.On? && t.power.upload == s.power.upload && t.terminal == s.terminal
  }

  lemma RadioStep(s: State, e: Event)
    requires s.power.On? && RadioEvent(e)
    ensures SameUpload(s, Step(s, e))
  {
    hide Enqueue, Contains, Knows, DecodeTelemetry, KeyOf, Keys, NewKey;
  }

  lemma {:induction false} RadioRun(s: State, run: seq<Event>, n: nat)
    requires Sound(s) && Fits(s, n) && n + |run| < U64_MAX && s.power.On?
    requires forall e | e in run :: RadioEvent(e)
    ensures SameUpload(s, Run(s, run)) && Sound(Run(s, run)) && Fits(Run(s, run), n + |run|)
    decreases |run|
  {
    hide Sound, Fits, Step, RadioEvent;
    if run != [] {
      assert run[0] in run && forall e | e in run[1..] :: e in run;
      StepKeeps(s, run[0], n);
      RadioStep(s, run[0]);
      RadioRun(Step(s, run[0]), run[1..], n + 1);
    }
  }

  function BatchSize(limit: nat, queued: nat): (m: nat) { if limit < queued then limit else queued }

  /** Every batch has a complete answer. */
  lemma AnswerExists(m: nat)
    requires 0 < m
    ensures exists answer :: CompleteAnswer(m, 200, answer)
  {
    var items := seq(m, i requires 0 <= i < m => BackendContract.Item(Some(i), Some("DUPLICATE")));
    BackendContract.ParseItemsIff(items, m, {});
    assert CompleteAnswer(m, 200, Some(items));
  }

  lemma TakeWorks(s: State, limit: nat)
    requires Sound(s) && s.power.On? && s.power.upload.Resting? && s.power.q.entries != []
    requires 0 < limit <= BackendContract.MAXIMUM_BATCH
    ensures var t := Step(s, TakeBatch(limit, {}));
            var n := BatchSize(limit, |s.power.q.entries|);
            t.power.On? && t.power.upload.Batched? && |t.power.upload.batch| == n &&
            t.power.q == s.power.q && t.files == s.files && t.terminal == s.terminal &&
            forall i | 0 <= i < n :: PeekedAs(s.files, s.power.q.entries[i], t.power.upload.batch[i])
  {
    hide Inv, Peek, PeekedAs, SavedOk, RingOk, RadioOk, UploadOk, Keys, KeyFor;
    PeekIsPrefix(s.power.q, s.files, limit, {});
  }

  lemma RespondWorks(s: State, httpStatus: int, answer: Option<seq<BackendContract.Item>>)
    requires s.power.On? && s.power.upload.Batched? && CompleteAnswer(|s.power.upload.batch|, httpStatus, answer)
    ensures var batch, t := s.power.upload.batch, Step(s, Respond(httpStatus, answer));
            t.power.On? && t.power.upload.Answered? && t.power.upload.batch == batch && t.power.q == s.power.q &&
            t.files == s.files && s.terminal <= t.terminal &&
            var results := t.power.upload.results;
            BackendContract.InRange(results, |batch|) && BackendContract.DistinctIndices(results) &&
            BackendContract.Complete(|batch|, results) && AnsweredKeys(batch, results) <= t.terminal
  {
    hide BackendContract.Parse, AnsweredKeys, BackendContract.InRange, BackendContract.DistinctIndices;
    BackendContract.ParsedResults(answer, |s.power.upload.batch|);
  }

  /** The last event: every answered record that is still queued goes, nothing else. */
  lemma FinishWorks(s: State, saved: bool)
    requires Sound(s) && s.power.On? && s.power.upload.Answered?
    ensures var t := Step(s, Finish({}, saved));
            t.power.On? && t.power.upload.Resting? && t.terminal == s.terminal && FinishEnabled(s) &&
            var actions := Actions(s.power.upload.batch, s.power.upload.results);
            Keys(s.power.q.entries, s.files) <= Keys(t.power.q.entries, t.files) + t.terminal &&
            forall e :: e in t.power.q.entries <==> e in s.power.q.entries && !Targets(actions, e.id)
  {
    hide Inv, FinishAll, Actions, ActionOk, SavedOk, RingOk, RadioOk, Keys, KeyFor, AnsweredDecode, RecentFile,
         AnsweredKeys, BatchOk, BackendContract.InRange, BackendContract.DistinctIndices, Proper;
    BatchActions(s);
    var p := s.power;
    var actions := Actions(p.upload.batch, p.upload.results);
    forall a | a in actions
      ensures a.id != 0
    {
      ActionFacts(p.q, s.files, a, s.terminal);
    }
    FinishAllKeeps(p.q, s.files, p.recent, actions, {}, s.terminal);
    FinishTouches(p.q, s.files, p.recent, actions, {});
    FinishDrains(p.q, s.files, p.recent, actions);
  }

  /** If files read and erase, one completely answered round takes exactly the records of
      its batch out of the queue and gives their readings a terminal result, with any
      frames, enqueues, evictions and acknowledgements between its steps. */
  lemma BatchIsUploaded(s: State, limit: nat, a: seq<Event>, httpStatus: int,
                        answer: Option<seq<BackendContract.Item>>, b: seq<Event>, saved: bool, n: nat)
    requires Sound(s) && Fits(s, n) && n + |a| + |b| + 3 < U64_MAX
    requires s.power.On? && s.power.upload.Resting? && s.power.q.entries != []
    requires 0 < limit <= BackendContract.MAXIMUM_BATCH
    requires CompleteAnswer(BatchSize(limit, |s.power.q.entries|), httpStatus, answer)
    requires (forall x | x in a :: RadioEvent(x)) && forall x | x in b :: RadioEvent(x)
    ensures var taken := s.power.q.entries[..BatchSize(limit, |s.power.q.entries|)];
            var run := [TakeBatch(limit, {})] + a + [Respond(httpStatus, answer)] + b;
            var before, end := Run(s, run), Run(s, run + [Finish({}, saved)]);
            before.power.On? && end.power.On? && end.power.upload.Resting? &&
            (forall e :: e in end.power.q.entries <==> e in before.power.q.entries && e.id !in Ids(taken)) &&
            (forall e | e in taken :: KeyFor(s.files, e.id).Some? && KeyFor(s.files, e.id).value in end.terminal)
  {
    hide Step, Run, Sound, Fits, KeyFor, PeekedAs, RadioEvent, CompleteAnswer, AnsweredKeys, Actions, AnsweredDecode,
         Ids, Targets;
    var m := BatchSize(limit, |s.power.q.entries|);
    var take, respond := TakeBatch(limit, {}), Respond(httpStatus, answer);
    TakeWorks(s, limit);
    StepKeeps(s, take, n);
    RunOne(s, take);
    var s1 := Run(s, [take]);
    var batch := s1.power.upload.batch;
    RadioRun(s1, a, n + 1);
    RunAppend(s, [take], a);
    var s2 := Run(s, [take] + a);
    RespondWorks(s2, httpStatus, answer);
    StepKeeps(s2, respond, n + 1 + |a|);
    RunOne(s2, respond);
    RunAppend(s, [take] + a, [respond]);
    var s3 := Run(s, [take] + a + [respond]);
    var results := s3.power.upload.results;
    RadioRun(s3, b, n + 2 + |a|);
    RunAppend(s, [take] + a + [respond], b);
    var s4 := Run(s, [take] + a + [respond] + b);
    FinishWorks(s4, saved);
    RunOne(s4, Finish({}, saved));
    RunAppend(s, [take] + a + [respond] + b, [Finish({}, saved)]);
    AnswersPrefix(s.power.q.entries, s.files, batch, results, m);
  }

  /** The actions of a complete response name exactly the records of the batch. */
  lemma AnswersPrefix(entries: seq<Entry>, files: Files, batch: seq<QueueRecord>,
                      results: seq<BackendContract.Result>, n: nat)
    requires n <= |entries| && |batch| == n && forall i | 0 <= i < n :: PeekedAs(files, entries[i], batch[i])
    requires BackendContract.InRange(results, |batch|) && BackendContract.DistinctIndices(results)
    requires BackendContract.Complete(|batch|, results)
    ensures forall id: RecordId :: Targets(Actions(batch, results), id) <==> id in Ids(entries[..n])
    ensures forall e | e in entries[..n] :: KeyFor(files, e.id).Some? &&
                                            KeyFor(files, e.id).value in AnsweredKeys(batch, results)
  {
    hide KeyFor, PeekedAs, NewKey, BackendContract.DistinctIndices, BackendContract.Complete;
    var actions := Actions(batch, results);
    forall i | 0 <= i < n
      ensures batch[i].recordId == entries[i].id && KeyFor(files, entries[i].id) == Some(NewKey(batch[i]))
    {
      PeekedKey(files, entries[i], batch[i]);
    }
    forall id: RecordId | Targets(actions, id)
      ensures id in Ids(entries[..n])
    {
      var x :| x in actions && x.id == id;
      var j :| 0 <= j < |actions| && actions[j] == x;
      assert entries[..n][results[j].index] in entries[..n];
    }
    forall e | e in entries[..n]
      ensures Targets(actions, e.id) && KeyFor(files, e.id).Some? &&
              KeyFor(files, e.id).value in AnsweredKeys(batch, results)
    {
      var i :| 0 <= i < n && entries[..n][i] == e;
      BackendContract.AnsweredEach(n, results, i);
      var j: nat :| BackendContract.AnsweredBy(results, i, j);
      assert actions[j] in actions && actions[j] == ActionOf(batch[i]);
    }
  }

  // ---- rounds until the queue is empty ----

  datatype Round = Round(httpStatus: int, answer: Option<seq<BackendContract.Item>>, saved: bool)

  function RoundEvents(limit: nat, r: Round): (es: seq<Event>) {
    [TakeBatch(limit, {}), Respond(r.httpStatus, r.answer), Finish({}, r.saved)]
  }

  ghost function Rounds(s: State, limit: nat, rs: seq<Round>): (t: State)
    decreases |rs|
  {
    if rs == [] then s else Rounds(Run(s, RoundEvents(limit, rs[0])), limit, rs[1..])
  }

  /** Every round that has something to upload is answered completely. */
  ghost predicate AllComplete(s: State, limit: nat, rs: seq<Round>)
    decreases |rs|
  {
    rs == [] ||
    (s.power.On? &&
     (s.power.q.entries != [] ==>
        CompleteAnswer(BatchSize(limit, |s.power.q.entries|), rs[0].httpStatus, rs[0].answer)) &&
     AllComplete(Run(s, RoundEvents(limit, rs[0])), limit, rs[1..]))
  }

  lemma {:induction false} OrderedSame(a: seq<Entry>, b: seq<Entry>)
    requires Ordered(a) && Ordered(b) && forall e :: e in a <==> e in b
    ensures a == b
    decreases |a|
  {
    assert a != [] ==> a[0] in b;
    assert b != [] ==> b[0] in a;
    if a != [] {
      assert a[0].id <= b[0].id && b[0].id <= a[0].id;
      assert a[0] == b[0];
      OrderedTail(a, 1);
      OrderedTail(b, 1);
      forall e
        ensures e in a[1..] <==> e in b[1..]
      {
        assert e in a[1..] <==> e in a && e != a[0];
        assert e in b[1..] <==> e in b && e != b[0];
      }
      OrderedSame(a[1..], b[1..]);
    }
  }

  lemma WithoutPrefix(s: seq<Entry>, m: nat, t: seq<Entry>)
    requires Ordered(s) && Ordered(t) && m <= |s|
    requires forall e :: e in t <==> e in s && e.id !in Ids(s[..m])
    ensures t == s[m..]
  {
    PartsApart(s, m);
    OrderedTail(s, m);
    assert s == s[..m] + s[m..];
    assert forall e | e in s[..m] :: e.id in Ids(s[..m]);
    assert forall e | e in s[m..] :: e.id !in Ids(s[..m]);
    OrderedSame(t, s[m..]);
  }

  /** With the radio silent, a complete round leaves exactly the rest of the queue, and a
      terminal result for whatever has gone. */
  lemma QuietRound(s: State, limit: nat, r: Round, n: nat)
    requires Sound(s) && Fits(s, n) && n + 3 < U64_MAX && s.power.On? && s.power.upload.Resting?
    requires 0 < limit <= BackendContract.MAXIMUM_BATCH
    requires s.power.q.entries != [] ==>
               CompleteAnswer(BatchSize(limit, |s.power.q.entries|), r.httpStatus, r.answer)
    ensures var t := Run(s, RoundEvents(limit, r));
            Sound(t) && Fits(t, n + 3) && t.power.On? && t.power.upload.Resting? &&
            t.power.q.entries == s.power.q.entries[BatchSize(limit, |s.power.q.entries|)..] &&
            s.terminal <= t.terminal &&
            Keys(s.power.q.entries, s.files) <= Keys(t.power.q.entries, t.files) + t.terminal
  {
    hide Step, Run, Sound, Fits, CompleteAnswer, Ids, KeyFor, Keys, Inv, RoundEvents;
    var t := Run(s, RoundEvents(limit, r));
    RoundRun(s, limit, r, n);
    if s.power.q.entries == [] {
      EmptyRound(s, limit, r);
    } else {
      QuietEntries(s, limit, r, n);
      QuietKeys(s, limit, r, n);
      SoundQueue(s);
      SoundQueue(t);
      InvOrdered(s.power.q, s.files);
      InvOrdered(t.power.q, t.files);
      WithoutPrefix(s.power.q.entries, BatchSize(limit, |s.power.q.entries|), t.power.q.entries);
    }
  }

  lemma QuietEntries(s: State, limit: nat, r: Round, n: nat)
    requires Sound(s) && Fits(s, n) && n + 3 < U64_MAX && s.power.On? && s.power.upload.Resting?
    requires 0 < limit <= BackendContract.MAXIMUM_BATCH && s.power.q.entries != []
    requires CompleteAnswer(BatchSize(limit, |s.power.q.entries|), r.httpStatus, r.answer)
    ensures var taken, t := s.power.q.entries[..BatchSize(limit, |s.power.q.entries|)], Run(s, RoundEvents(limit, r));
            t.power.On? && t.power.upload.Resting? &&
            forall e :: e in t.power.q.entries <==> e in s.power.q.entries && e.id !in Ids(taken)
  {
    hide Step, Run, Sound, Fits, CompleteAnswer, Ids, KeyFor, RoundEvents;
    var take, respond, finish := TakeBatch(limit, {}), Respond(r.httpStatus, r.answer), Finish({}, r.saved);
    BatchIsUploaded(s, limit, [], r.httpStatus, r.answer, [], r.saved, n);
    assert [take] + [] + [respond] + [] == [take, respond];
    assert [take, respond] + [finish] == [take, respond, finish];
    QuietHalf(s, limit, r);
    RoundUnfolds(limit, r);
  }

  lemma QuietKeys(s: State, limit: nat, r: Round, n: nat)
    requires Sound(s) && Fits(s, n) && n + 3 < U64_MAX && s.power.On? && s.power.upload.Resting?
    requires 0 < limit <= BackendContract.MAXIMUM_BATCH && s.power.q.entries != []
    requires CompleteAnswer(BatchSize(limit, |s.power.q.entries|), r.httpStatus, r.answer)
    ensures var t := Run(s, RoundEvents(limit, r));
            t.power.On? && s.terminal <= t.terminal &&
            Keys(s.power.q.entries, s.files) <= Keys(t.power.q.entries, t.files) + t.terminal
  {
    hide Step, Run, Sound, Fits, CompleteAnswer, Keys, RoundEvents, Actions, Targets;
    var take, respond, finish := TakeBatch(limit, {}), Respond(r.httpStatus, r.answer), Finish({}, r.saved);
    QuietHalf(s, limit, r);
    RunKeeps(s, [take, respond], n);
    var u := Run(s, [take, respond]);
    FinishWorks(u, r.saved);
    RunOne(u, finish);
    RunAppend(s, [take, respond], [finish]);
    RoundUnfolds(limit, r);
    assert [take, respond] + [finish] == [take, respond, finish];
  }

  lemma RoundUnfolds(limit: nat, r: Round)
    ensures RoundEvents(limit, r) == [TakeBatch(limit, {}), Respond(r.httpStatus, r.answer), Finish({}, r.saved)]
  {
  }

  lemma RoundRun(s: State, limit: nat, r: Round, n: nat)
    requires Sound(s) && Fits(s, n) && n + 3 < U64_MAX && s.power.On? && s.power.upload.Resting?
    ensures var t := Run(s, RoundEvents(limit, r));
            Sound(t) && Fits(t, n + 3) && t.power.On?
  {
    hide Sound, Fits, Step, Run;
    RunKeeps(s, RoundEvents(limit, r), n);
    forall x | x in RoundEvents(limit, r)
      ensures BackendEvent(x)
    {
    }
    BackendRun(s, RoundEvents(limit, r), n);
  }

  lemma EmptyRound(s: State, limit: nat, r: Round)
    requires s.power.On? && s.power.upload.Resting? && s.power.q.entries == []
    ensures Run(s, RoundEvents(limit, r)) == s
  {
    hide Run, Peek, DecodeRecord;
    RunThree(s, TakeBatch(limit, {}), Respond(r.httpStatus, r.answer), Finish({}, r.saved));
    assert Peek(s.power.q, s.files, limit, {}) == Some([]) by { PeekNothing(s.power.q, s.files, limit); }
  }

  lemma PeekNothing(q: Core, files: Files, limit: nat)
    requires q.entries == []
    ensures Peek(q, files, limit, {}) == Some([])
  {
  }

  /** Taking and answering do not touch the queue. */
  lemma QuietHalf(s: State, limit: nat, r: Round)
    requires Sound(s) && s.power.On? && s.power.upload.Resting? && s.power.q.entries != []
    requires 0 < limit <= BackendContract.MAXIMUM_BATCH
    requires CompleteAnswer(BatchSize(limit, |s.power.q.entries|), r.httpStatus, r.answer)
    ensures var t := Run(s, [TakeBatch(limit, {}), Respond(r.httpStatus, r.answer)]);
            t.power.On? && t.power.upload.Answered? && t.power.q == s.power.q && t.files == s.files &&
            s.terminal <= t.terminal
  {
    hide Step, Run, Sound, CompleteAnswer, PeekedAs, AnsweredKeys, BackendContract.InRange,
         BackendContract.DistinctIndices, BackendContract.Complete;
    TakeWorks(s, limit);
    RunTwo(s, TakeBatch(limit, {}), Respond(r.httpStatus, r.answer));
    RespondWorks(Step(s, TakeBatch(limit, {})), r.httpStatus, r.answer);
  }

  /** While the radio is silent and files read and erase, completely answered rounds empty
      the queue, as many as it takes to cover it by batches, and every reading that was
      queued has a terminal result. */
  lemma {:induction false} RoundsDrain(s: State, limit: nat, rs: seq<Round>, n: nat)
    requires Sound(s) && Fits(s, n) && n + 3 * |rs| < U64_MAX && s.power.On? && s.power.upload.Resting?
    requires 0 < limit <= BackendContract.MAXIMUM_BATCH && AllComplete(s, limit, rs)
    requires |s.power.q.entries| <= limit * |rs|
    ensures var end := Rounds(s, limit, rs);
            end.power.On? && end.power.q.entries == [] &&
            Keys(s.power.q.entries, s.files) + s.terminal <= end.terminal
    decreases |rs|
  {
    hide Run, Sound, Fits, CompleteAnswer, RoundEvents, KeyFor;
    if rs != [] {
      QuietRound(s, limit, rs[0], n);
      var t := Run(s, RoundEvents(limit, rs[0]));
      assert |t.power.q.entries| <= limit * (|rs| - 1);
      RoundsDrain(t, limit, rs[1..], n + 3);
    }
  }
}
