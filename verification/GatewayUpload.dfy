/** What an upload may take out of the queue. */
module GatewayUpload {
  import opened Words
  import opened Protocol
  import opened TelemetryKeys
  import opened RecentKeys
  import opened QueueRecords
  import opened QueueCore
  import opened QueueEnqueue
  import opened QueueQueries
  import opened QueueFinish
  import opened Gateway
  import opened GatewaySafety
  import BackendContract

  // ---- finish removes exactly what was answered ----

  predicate Targets(actions: seq<Action>, id: RecordId) {
    exists a | a in actions :: a.id == id
  }

  lemma {:induction false} FinishTouches(q: Core, files: Files, recent: seq<TelemetryKey>, actions: seq<Action>,
                                         stuck: set<RecordId>)
    requires Inv(q, files) && |recent| <= RECENT_CAPACITY && forall a | a in actions :: a.id != 0
    ensures var run := FinishAll(q, files, recent, actions, stuck);
            (forall id | id in files && id !in run.files :: id in Ids(q.entries) && Targets(actions, id)) &&
            (forall e | e in q.entries && !Targets(actions, e.id) :: e in run.q.entries) &&
            (forall e | e in run.q.entries :: e in q.entries) &&
            (run.ok ==> forall a | a in actions :: a.id !in Ids(run.q.entries))
    decreases |actions|
  {
    hide Inv, Tidy, Keys, KeyFor, Remove, Remembered, Knows;
    if actions != [] {
      var a, rest := actions[0], actions[1..];
      assert a in actions && forall x | x in rest :: x in actions;
      assert forall x | x in actions :: x == a || x in rest;
      var removal := Remove(q, files, a.id, a.id !in stuck);
      RemoveKeeps(q, files, a.id, a.id !in stuck);
      forall id | Targets(rest, id)
        ensures Targets(actions, id)
      {
        var x :| x in rest && x.id == id;
      }
      if removal.ok {
        FinishTouches(removal.q, removal.files, Remembered(recent, RECENT_CAPACITY, a.key), rest, stuck);
        var run := FinishAll(q, files, recent, actions, stuck);
        assert forall e | e in run.q.entries :: e in removal.q.entries;
      } else {
        FinishTouches(q, files, recent, rest, stuck);
      }
    }
  }

  /** The record was answered by the response. */
  ghost predicate AnsweredRecord(batch: seq<QueueRecord>, results: seq<BackendContract.Result>, r: QueueRecord) {
    exists j | 0 <= j < |results| :: results[j].index < |batch| && batch[results[j].index] == r
  }

  lemma TargetIsAnswered(batch: seq<QueueRecord>, results: seq<BackendContract.Result>, id: RecordId)
    requires BackendContract.InRange(results, |batch|)
    ensures Targets(Actions(batch, results), id) <==>
            exists r :: r in batch && r.recordId == id && AnsweredRecord(batch, results, r)
  {
    hide NewKey;
    var actions := Actions(batch, results);
    if Targets(actions, id) {
      var a :| a in actions && a.id == id;
      var i :| 0 <= i < |actions| && actions[i] == a;
      var r := batch[results[i].index];
      assert r in batch && AnsweredRecord(batch, results, r);
    }
    if r :| r in batch && r.recordId == id && AnsweredRecord(batch, results, r) {
      var j :| 0 <= j < |results| && results[j].index < |batch| && batch[results[j].index] == r;
      assert actions[j] in actions && actions[j].id == id;
    }
  }

  /** However many enqueues, evictions and failures lie between peek and finish: a file
      that finish removes holds the exact bytes of a record of the batch that the
      backend answered, and every other indexed record keeps its file and entry. */
  lemma FinishRemovesOnlyAnswered(s: State, stuck: set<RecordId>, saved: bool)
    requires Sound(s) && s.power.On? && s.power.upload.Answered? && FinishEnabled(s)
    ensures var s' := FinishStep(s, stuck, saved);
            var batch, results := s.power.upload.batch, s.power.upload.results;
            (forall id | id in s.files && id !in s'.files ::
               exists r :: r in batch && r.recordId == id && AnsweredRecord(batch, results, r) &&
                           Encodable(r) && s.files[id] == EncodeRecord(r)) &&
            (forall id | id in s'.files :: id in s.files && s'.files[id] == s.files[id]) &&
            (forall e | e in s.power.q.entries && e !in s'.power.q.entries ::
               exists r :: r in batch && r.recordId == e.id && AnsweredRecord(batch, results, r))
  {
    hide Inv, Tidy, KeyFor, Keys, RingOk, SavedOk, NewKey, ActionOk, FinishAll, Actions, AnsweredKeys, Proper,
         DecodeTelemetry, EncodeRecord, Encodable, Stored, AnsweredRecord, RecentFile, Targets;
    var p, s' := s.power, FinishStep(s, stuck, saved);
    var batch, results := p.upload.batch, p.upload.results;
    var actions := Actions(batch, results);
    BatchActions(s);
    assert forall a | a in actions :: a.id != 0 by {
      forall a | a in actions
        ensures a.id != 0
      {
        ActionFacts(p.q, s.files, a, s.terminal);
      }
    }
    FinishTouches(p.q, s.files, p.recent, actions, stuck);
    FinishAllKeeps(p.q, s.files, p.recent, actions, stuck, s.terminal);
    forall id | id in s.files && id !in s'.files
      ensures exists r :: r in batch && r.recordId == id && AnsweredRecord(batch, results, r) &&
                          Encodable(r) && s.files[id] == EncodeRecord(r)
    {
      TargetIsAnswered(batch, results, id);
      var r :| r in batch && r.recordId == id && AnsweredRecord(batch, results, r);
      assert Names(p.q, s.files, r);
    }
    forall e | e in p.q.entries && e !in s'.power.q.entries
      ensures exists r :: r in batch && r.recordId == e.id && AnsweredRecord(batch, results, r)
    {
      TargetIsAnswered(batch, results, e.id);
    }
  }

  /** A record of the batch that the response leaves out stays queued. */
  lemma UnansweredStays(s: State, stuck: set<RecordId>, saved: bool, r: QueueRecord)
    requires Sound(s) && s.power.On? && s.power.upload.Answered? && FinishEnabled(s)
    requires r in s.power.upload.batch && r.recordId in Ids(s.power.q.entries)
    requires !AnsweredRecord(s.power.upload.batch, s.power.upload.results, r)
    ensures var s' := FinishStep(s, stuck, saved);
            r.recordId in Ids(s'.power.q.entries) && r.recordId in s'.files &&
            s'.files[r.recordId] == s.files[r.recordId]
  {
    hide Inv, Tidy, KeyFor, Keys, RingOk, SavedOk, NewKey, FinishAll, Actions, AnsweredKeys, Proper,
         DecodeTelemetry, EncodeRecord, Encodable, Stored, AnsweredRecord, RecentFile, ActionOk, FinishEnabled;
    var batch, s' := s.power.upload.batch, FinishStep(s, stuck, saved);
    FinishRemovesOnlyAnswered(s, stuck, saved);
    var e :| e in s.power.q.entries && e.id == r.recordId;
    InvBounds(s.power.q, s.files);
    forall x | x in batch && x.recordId == r.recordId
      ensures x == r
    {
      SameRecord(batch, x, r);
    }
  }

  lemma SameRecord(batch: seq<QueueRecord>, x: QueueRecord, r: QueueRecord)
    requires forall i, j | 0 <= i < j < |batch| :: batch[i].recordId < batch[j].recordId
    requires x in batch && r in batch && x.recordId == r.recordId
    ensures x == r
  {
    var i :| 0 <= i < |batch| && batch[i] == x;
    var j :| 0 <= j < |batch| && batch[j] == r;
  }

  /** Every action names a record; a complete response names them all. */
  lemma ActionIds(batch: seq<QueueRecord>, results: seq<BackendContract.Result>)
    requires BackendContract.InRange(results, |batch|) && BackendContract.DistinctIndices(results)
    requires forall r | r in batch :: r.recordId != 0
    ensures forall a | a in Actions(batch, results) :: a.id != 0
    ensures BackendContract.Complete(|batch|, results) ==>
              forall r | r in batch :: exists a :: a in Actions(batch, results) && a.id == r.recordId
  {
    hide NewKey;
    var actions := Actions(batch, results);
    forall a | a in actions
      ensures a.id != 0
    {
      var i :| 0 <= i < |actions| && actions[i] == a;
      assert batch[results[i].index] in batch;
    }
    if BackendContract.Complete(|batch|, results) {
      BackendContract.CompleteIsPermutation(|batch|, results);
      forall r | r in batch
        ensures exists a :: a in actions && a.id == r.recordId
      {
        var i :| 0 <= i < |batch| && batch[i] == r;
        assert i in BackendContract.Indices(results);
        var x :| x in results && x.index == i;
        var j :| 0 <= j < |results| && results[j] == x;
        assert actions[j] in actions && actions[j].id == r.recordId;
      }
    }
  }

  /** If the response is complete and finish reports success, no record of the batch is
      queued any more. */
  lemma CompleteUploadDrains(s: State, stuck: set<RecordId>)
    requires Sound(s) && s.power.On? && s.power.upload.Answered? && FinishEnabled(s)
    requires BackendContract.Complete(|s.power.upload.batch|, s.power.upload.results)
    ensures var p := s.power;
            var run := FinishAll(p.q, s.files, p.recent, Actions(p.upload.batch, p.upload.results), stuck);
            run.ok ==> forall r | r in p.upload.batch :: r.recordId !in Ids(run.q.entries)
  {
    hide Inv, Tidy, KeyFor, Keys, RingOk, SavedOk, NewKey, FinishAll, AnsweredKeys, Proper, DecodeTelemetry,
         EncodeRecord, Encodable, Stored, RecentFile, ActionOk;
    var p := s.power;
    var batch, results := p.upload.batch, p.upload.results;
    var actions := Actions(batch, results);
    BatchActions(s);
    BatchIds(s);
    ActionIds(batch, results);
    FinishTouches(p.q, s.files, p.recent, actions, stuck);
  }

  lemma BatchIds(s: State)
    requires Sound(s) && s.power.On? && s.power.upload.Answered?
    ensures BackendContract.DistinctIndices(s.power.upload.results)
    ensures forall r | r in s.power.upload.batch :: r.recordId != 0
  {
    hide Inv, RingOk, SavedOk, RadioOk, Secure, Encodable, Proper, NewKey, Stored, DecodeTelemetry;
    var p := s.power;
    assert forall r | r in p.upload.batch :: Names(p.q, s.files, r);
  }

  /** The same over whole runs: in every reachable state, whatever was interleaved. */
  lemma ReachableFinishIsExact(s0: State, run: seq<Event>, n: nat, stuck: set<RecordId>, saved: bool, id: RecordId)
    requires Initial(s0) && Bounded(s0.files, n) && n + |run| < U64_MAX
    requires FinishEnabled(Run(s0, run))
    requires id in Run(s0, run).files && id !in FinishStep(Run(s0, run), stuck, saved).files
    ensures var s := Run(s0, run);
            exists r :: r in s.power.upload.batch && r.recordId == id &&
                        AnsweredRecord(s.power.upload.batch, s.power.upload.results, r) &&
                        Encodable(r) && s.files[id] == EncodeRecord(r)
  {
    hide Run, FinishStep, EncodeRecord, Encodable, AnsweredRecord, Sound, Fits, KeyFor, Initial;
    SoundRun(s0, run, n);
    AnsweredOn(Run(s0, run));
    FinishRemovesOnlyAnswered(Run(s0, run), stuck, saved);
  }

  lemma SoundRun(s0: State, run: seq<Event>, n: nat)
    requires Initial(s0) && Bounded(s0.files, n) && n + |run| < U64_MAX
    ensures Sound(Run(s0, run))
  {
    hide Run, KeyFor;
    InitialSound(s0);
    RunKeeps(s0, run, n);
  }
}
