/** The upload task: take a batch, hand the response to the queue, and back off. */
module BackendWorkers {
  import opened Words
  import opened Protocol
  import opened ProtocolCodec
  import opened TelemetryKeys
  import opened RecentKeys
  import opened QueueRecords
  import opened QueueCore
  import opened QueueFinish
  import opened DurableQueues
  import BackendContract
  import QueueEnqueue
  import QueueQueries
  import Gateway
  import GatewayUpload

  // ---- backoff ----

  function Doubled(n: nat, k: nat): (r: nat) { if k == 0 then n else 2 * Doubled(n, k - 1) }

  /** The delay after k failures in a row: the initial one doubled k - 1 times, capped. */
  function Delay(initial: nat, maximum: nat, k: nat): (d: nat) {
    if k == 0 then 0
    else if Doubled(initial, k - 1) > maximum then maximum else Doubled(initial, k - 1)
  }

  lemma {:induction false} DoubledPositive(n: nat, k: nat)
    requires n > 0
    ensures Doubled(n, k) > 0
  {
    if k > 0 { DoubledPositive(n, k - 1); }
  }

  /** Doubling what is in force and capping it is the closed form, without overflow. */
  lemma DelayAdvances(initial: u32, maximum: u32, k: nat)
    requires 0 < initial <= maximum
    ensures var current := Delay(initial, maximum, k);
            current <= maximum && (current == 0 <==> k == 0) &&
            Delay(initial, maximum, k + 1)
              == if k == 0 then initial else if current * 2 > maximum then maximum else current * 2
  {
    if k > 0 { DoubledPositive(initial, k - 1); }
  }

  /** From some number of failures on the delay is the maximum. */
  lemma {:induction false} DelayReachesMaximum(initial: nat, maximum: nat, k: nat)
    requires 0 < initial && k > maximum
    ensures Delay(initial, maximum, k) == maximum
  {
    DoubledGrows(initial, k - 1);
  }

  lemma {:induction false} DoubledGrows(n: nat, k: nat)
    requires n > 0
    ensures Doubled(n, k) > k
  {
    if k > 0 { DoubledGrows(n, k - 1); }
  }

  lemma Wrapped(x: nat, n: nat)
    requires n > 0
    ensures x % n < n && (x < n ==> x % n == x)
  {
  }

  // ---- a response ----

  /** The response may change the queue. */
  ghost predicate Usable(batch: seq<QueueRecord>, httpStatus: int, answer: Option<seq<BackendContract.Item>>) {
    BackendContract.MayDequeue(httpStatus) &&
    BackendContract.Parse(answer, |batch|).Some? &&
    BackendContract.InRange(BackendContract.Parse(answer, |batch|).value, |batch|) &&
    Gateway.AnsweredDecode(batch, BackendContract.Parse(answer, |batch|).value)
  }

  /** In the words of the response: status 200, and a list that answers the batch with
      usable items only, none of them for the same record. */
  ghost predicate Answers(batch: seq<QueueRecord>, httpStatus: int, answer: Option<seq<BackendContract.Item>>) {
    httpStatus == 200 && batch != [] && answer.Some? && |answer.value| <= |batch| &&
    BackendContract.DistinctItems(answer.value) &&
    forall i | 0 <= i < |answer.value| :: BackendContract.UsableItem(answer.value[i], |batch|)
  }

  /** For a batch of readings that is exactly when the queue may change. */
  lemma UsableIff(batch: seq<QueueRecord>, httpStatus: int, answer: Option<seq<BackendContract.Item>>)
    requires forall r | r in batch :: DecodeTelemetry(r.payload).Accepted?
    ensures Usable(batch, httpStatus, answer) <==> Answers(batch, httpStatus, answer)
  {
    hide DecodeTelemetry, BackendContract.Parse, BackendContract.UsableItem, BackendContract.DistinctItems;
    BackendContract.AcceptedIff(answer, |batch|);
    if BackendContract.Parse(answer, |batch|).Some? { BackendContract.ParsedResults(answer, |batch|); }
  }

  /** Any other status, and any item with another status, without an index of the batch, or
      for a record named before, leaves queue, files, ring and ring file as they are. */
  lemma OtherwiseRetained(q: Core, files: Files, recent: seq<TelemetryKey>, ring: Option<seq<byte>>,
                          batch: seq<QueueRecord>, httpStatus: int, answer: Option<seq<BackendContract.Item>>,
                          stuck: set<RecordId>, saved: bool, q': Core, files': Files, recent': seq<TelemetryKey>,
                          ring': Option<seq<byte>>, completed: bool, success: bool)
    requires ResponseOutcome(q, files, recent, ring, batch, httpStatus, answer, stuck, saved, q', files', recent',
                             ring', completed, success)
    requires !Answers(batch, httpStatus, answer)
    ensures q' == q && files' == files && recent' == recent && ring' == ring && !completed && !success
  {
    hide FinishAll, Gateway.Actions, BackendContract.Parse, BackendContract.InRange, Gateway.AnsweredDecode,
         FinishOutcome, BackendContract.UsableItem, BackendContract.DistinctItems;
    BackendContract.AcceptedIff(answer, |batch|);
  }

  /** A response that answers a batch of queued readings takes out exactly the queued
      records whose index it names and whose file can be erased. */
  lemma AnsweredLeave(q: Core, files: Files, recent: seq<TelemetryKey>, ring: Option<seq<byte>>,
                      batch: seq<QueueRecord>, httpStatus: int, answer: Option<seq<BackendContract.Item>>,
                      stuck: set<RecordId>, saved: bool, q': Core, files': Files, recent': seq<TelemetryKey>,
                      ring': Option<seq<byte>>, completed: bool, success: bool, i: nat)
    requires Ordered(q.entries) && forall r | r in batch :: r.recordId != 0 && DecodeTelemetry(r.payload).Accepted?
    requires forall j, k | 0 <= j < k < |batch| :: batch[j].recordId != batch[k].recordId
    requires ResponseOutcome(q, files, recent, ring, batch, httpStatus, answer, stuck, saved, q', files', recent',
                             ring', completed, success)
    requires Answers(batch, httpStatus, answer) && i < |batch| && batch[i].recordId in Ids(q.entries)
    ensures batch[i].recordId !in Ids(q'.entries) <==>
            Names(answer.value, i) && batch[i].recordId !in stuck
  {
    hide FinishAll, BackendContract.Parse, DecodeTelemetry, BackendContract.UsableItem, Removed, Adds, Ordered,
         BackendContract.DistinctItems, BackendContract.StatusOf, RememberAll, Erasable, BackendContract.InRange;
    UsableIff(batch, httpStatus, answer);
    BackendContract.AcceptedIff(answer, |batch|);
    BackendContract.ParsedResults(answer, |batch|);
    var results := BackendContract.Parse(answer, |batch|).value;
    FinishLeaves(q, files, recent, Gateway.Actions(batch, results), stuck);
    ErasableIff(batch, results, answer.value, stuck, i);
    var e :| e in q.entries && e.id == batch[i].recordId;
  }

  /** The round succeeds exactly if the response answers the whole batch, every record of it
      is still queued and can be erased, and the ring is saved if it changes. */
  lemma SucceedsIff(q: Core, files: Files, recent: seq<TelemetryKey>, ring: Option<seq<byte>>,
                    batch: seq<QueueRecord>, httpStatus: int, answer: Option<seq<BackendContract.Item>>,
                    stuck: set<RecordId>, saved: bool, q': Core, files': Files, recent': seq<TelemetryKey>,
                    ring': Option<seq<byte>>, completed: bool, success: bool)
    requires Ordered(q.entries) && forall r | r in batch :: r.recordId != 0 && DecodeTelemetry(r.payload).Accepted?
    requires forall j, k | 0 <= j < k < |batch| :: batch[j].recordId != batch[k].recordId
    requires |batch| <= BackendContract.MAXIMUM_BATCH
    requires ResponseOutcome(q, files, recent, ring, batch, httpStatus, answer, stuck, saved, q', files', recent',
                             ring', completed, success)
    ensures success <==>
            Answers(batch, httpStatus, answer) && (recent' != recent ==> saved) &&
            forall i | 0 <= i < |batch| ::
              Names(answer.value, i) && Removable(batch, Ids(q.entries), stuck, i)
  {
    hide FinishAll, BackendContract.Parse, DecodeTelemetry, BackendContract.UsableItem, Removed, Adds, Ordered,
         BackendContract.DistinctItems, BackendContract.StatusOf, RememberAll, Erasable, BackendContract.InRange,
         BackendContract.DistinctIndices, Gateway.Actions, Names, Ids, Answers;
    if Answers(batch, httpStatus, answer) {
      UsableIff(batch, httpStatus, answer);
      NonEmpty(batch, httpStatus, answer);
      BackendContract.AcceptedIff(answer, |batch|);
      BackendContract.ParsedResults(answer, |batch|);
      var results := BackendContract.Parse(answer, |batch|).value;
      var actions, ids := Gateway.Actions(batch, results), Ids(q.entries);
      FinishLeaves(q, files, recent, actions, stuck);
      AddsChanges(recent, Removed(ids, actions, stuck));
      ActionsDiffer(batch, results);
      AllRemoved(ids, actions, stuck);
      NamesEach(batch, results, answer.value);
      if BackendContract.Complete(|batch|, results) { WholeBatch(batch, results, ids, stuck); }
    } else {
      OtherwiseRetained(q, files, recent, ring, batch, httpStatus, answer, stuck, saved, q', files', recent', ring',
                        completed, success);
    }
  }

  lemma NonEmpty(batch: seq<QueueRecord>, httpStatus: int, answer: Option<seq<BackendContract.Item>>)
    requires Answers(batch, httpStatus, answer)
    ensures batch != [] && answer.Some?
  {
  }

  lemma ActionsDiffer(batch: seq<QueueRecord>, results: seq<BackendContract.Result>)
    requires BackendContract.InRange(results, |batch|) && BackendContract.DistinctIndices(results)
    requires forall j, k | 0 <= j < k < |batch| :: batch[j].recordId != batch[k].recordId
    ensures var actions := Gateway.Actions(batch, results);
            |actions| == |results| &&
            (forall i | 0 <= i < |actions| :: actions[i].id == batch[results[i].index].recordId) &&
            forall i, j | 0 <= i < j < |actions| :: actions[i].id != actions[j].id
  {
    hide QueueEnqueue.NewKey;
    forall i, j | 0 <= i < j < |results|
      ensures batch[results[i].index].recordId != batch[results[j].index].recordId
    {
      var x, y := results[i].index, results[j].index;
      assert if x < y then batch[x].recordId != batch[y].recordId else batch[y].recordId != batch[x].recordId;
    }
  }

  /** The response is complete exactly if it names every index. */
  lemma NamesEach(batch: seq<QueueRecord>, results: seq<BackendContract.Result>, items: seq<BackendContract.Item>)
    requires batch != [] && BackendContract.InRange(results, |batch|) && BackendContract.DistinctIndices(results)
    requires |items| == |results| && forall j | 0 <= j < |results| :: items[j].index == Some(results[j].index)
    ensures BackendContract.Complete(|batch|, results) <==> forall i | 0 <= i < |batch| :: Names(items, i)
  {
    hide BackendContract.DistinctIndices, BackendContract.Complete, BackendContract.InRange;
    BackendContract.CompleteIsPermutation(|batch|, results);
    forall i: nat | i < |batch|
      ensures i in BackendContract.Indices(results) <==> Names(items, i)
    {
      if i in BackendContract.Indices(results) {
        var x :| x in results && x.index == i;
        var j :| 0 <= j < |results| && results[j] == x;
        assert items[j].index == Some(i);
      }
      if Names(items, i) {
        var j :| 0 <= j < |items| && items[j].index == Some(i);
        assert results[j] in results;
      }
    }
  }

  /** A complete response is about the whole batch. */
  lemma WholeBatch(batch: seq<QueueRecord>, results: seq<BackendContract.Result>, ids: set<RecordId>,
                   stuck: set<RecordId>)
    requires BackendContract.InRange(results, |batch|) && BackendContract.DistinctIndices(results)
    requires BackendContract.Complete(|batch|, results) && forall r | r in batch :: r.recordId != 0
    ensures (forall i | 0 <= i < |results| :: Removable(batch, ids, stuck, results[i].index))
            <==> forall i | 0 <= i < |batch| :: Removable(batch, ids, stuck, i)
  {
    hide BackendContract.DistinctIndices, BackendContract.Complete, Removable;
    if forall i | 0 <= i < |results| :: Removable(batch, ids, stuck, results[i].index) {
      forall i | 0 <= i < |batch|
        ensures Removable(batch, ids, stuck, i)
      {
        BackendContract.AnsweredEach(|batch|, results, i);
        var j: nat :| BackendContract.AnsweredBy(results, i, j);
        assert Removable(batch, ids, stuck, results[j].index);
      }
    }
  }

  /** The record of the batch is still queued and can be erased. */
  ghost predicate Removable(batch: seq<QueueRecord>, ids: set<RecordId>, stuck: set<RecordId>, i: nat)
    requires i < |batch|
  {
    batch[i].recordId != 0 && batch[i].recordId in ids && batch[i].recordId !in stuck
  }

  ghost predicate Names(items: seq<BackendContract.Item>, i: nat) {
    exists j :: 0 <= j < |items| && items[j].index == Some(i)
  }

  lemma ErasableIff(batch: seq<QueueRecord>, results: seq<BackendContract.Result>, items: seq<BackendContract.Item>,
                    stuck: set<RecordId>, i: nat)
    requires BackendContract.InRange(results, |batch|) && |results| == |items| && i < |batch|
    requires forall j | 0 <= j < |results| :: items[j].index == Some(results[j].index)
    requires forall r | r in batch :: r.recordId != 0
    requires forall j, k | 0 <= j < k < |batch| :: batch[j].recordId != batch[k].recordId
    ensures batch[i].recordId in Erasable(Gateway.Actions(batch, results), stuck) <==>
            Names(items, i) && batch[i].recordId !in stuck
  {
    hide QueueEnqueue.NewKey;
    var actions := Gateway.Actions(batch, results);
    assert batch[i] in batch;
    if j: int :| 0 <= j < |items| && items[j].index == Some(i) {
      assert actions[j] in actions && actions[j].id == batch[i].recordId;
    }
    if a :| a in actions && a.id == batch[i].recordId {
      var j :| 0 <= j < |actions| && actions[j] == a;
      assert batch[results[j].index].recordId == batch[i].recordId;
      assert items[j].index == Some(i);
    }
  }

  /** What finishing a usable response does to the queue: a record leaves it only if it
      was answered, and a complete response that is carried out leaves no record of the
      batch behind. */
  lemma ResponseEffect(q: Core, files: Files, recent: seq<TelemetryKey>, batch: seq<QueueRecord>,
                       results: seq<BackendContract.Result>, stuck: set<RecordId>)
    requires Inv(q, files) && |recent| <= RECENT_CAPACITY && forall r | r in batch :: r.recordId != 0
    requires BackendContract.InRange(results, |batch|) && BackendContract.DistinctIndices(results)
    ensures var run := FinishAll(q, files, recent, Gateway.Actions(batch, results), stuck);
            (forall e | e in q.entries && e !in run.q.entries ::
               exists r :: r in batch && r.recordId == e.id && GatewayUpload.AnsweredRecord(batch, results, r)) &&
            (run.ok && BackendContract.Complete(|batch|, results) ==>
               forall r | r in batch :: r.recordId !in Ids(run.q.entries))
  {
    hide Inv, FinishAll, Gateway.Actions, GatewayUpload.AnsweredRecord, GatewayUpload.Targets;
    var actions := Gateway.Actions(batch, results);
    GatewayUpload.ActionIds(batch, results);
    GatewayUpload.FinishTouches(q, files, recent, actions, stuck);
    forall e | e in q.entries && e !in FinishAll(q, files, recent, actions, stuck).q.entries
      ensures exists r :: r in batch && r.recordId == e.id && GatewayUpload.AnsweredRecord(batch, results, r)
    {
      GatewayUpload.TargetIsAnswered(batch, results, e.id);
    }
  }

  /** A round on one batch: only records of the batch leave the queue, and all of them
      do if the round succeeds. */
  lemma RoundEffect(q: Core, files: Files, recent: seq<TelemetryKey>, ring: Option<seq<byte>>, limit: nat,
                    unreadable: set<RecordId>, httpStatus: int, answer: Option<seq<BackendContract.Item>>,
                    stuck: set<RecordId>, saved: bool, q': Core, files': Files, recent': seq<TelemetryKey>,
                    ring': Option<seq<byte>>, completed: bool, success: bool)
    requires Inv(q, files) && Peek(q, files, limit, unreadable).Some?
    requires ResponseOutcome(q, files, recent, ring, Peek(q, files, limit, unreadable).value, httpStatus, answer, stuck,
                             saved, q', files', recent', ring', completed, success)
    ensures var n := if limit < |q.entries| then limit else |q.entries|;
            (forall e | e in q.entries && e !in q'.entries :: e in q.entries[..n]) &&
            (success ==> forall e | e in q.entries[..n] :: e.id !in Ids(q'.entries)) &&
            (success ==> httpStatus == 200)
  {
    hide Inv, Peek, FinishAll, Gateway.Actions, GatewayUpload.AnsweredRecord, BackendContract.ParseItems,
        Gateway.AnsweredDecode,
         QueueQueries.PeekedAs;
    var batch := Peek(q, files, limit, unreadable).value;
    PeekedIds(q, files, limit, unreadable);
    if Usable(batch, httpStatus, answer) {
      var results := BackendContract.Parse(answer, |batch|).value;
      BackendContract.ParsedResults(answer, |batch|);
      ResponseEffect(q, files, recent, batch, results, stuck);
      forall e | e in q.entries && e !in q'.entries
        ensures e in q.entries[..|batch|]
      {
        var r :| r in batch && r.recordId == e.id && GatewayUpload.AnsweredRecord(batch, results, r);
      }
    }
  }

  lemma PeekedIds(q: Core, files: Files, limit: nat, unreadable: set<RecordId>)
    requires Inv(q, files) && Peek(q, files, limit, unreadable).Some?
    ensures var n := if limit < |q.entries| then limit else |q.entries|;
            var batch := Peek(q, files, limit, unreadable).value;
            |batch| == n && (forall r | r in batch :: r.recordId != 0) &&
            (forall e, r | e in q.entries && r in batch && r.recordId == e.id :: e in q.entries[..n]) &&
            (forall e | e in q.entries[..n] :: exists r :: r in batch && r.recordId == e.id)
  {
    hide Inv, Peek;
    var n := if limit < |q.entries| then limit else |q.entries|;
    var batch := Peek(q, files, limit, unreadable).value;
    PeekedInOrder(q, files, limit, unreadable);
    forall e, r | e in q.entries && r in batch && r.recordId == e.id
      ensures e in q.entries[..n]
    {
      var i :| 0 <= i < n && batch[i] == r;
      var j :| 0 <= j < |q.entries| && q.entries[j] == e;
      OneEntry(q, files, i, j);
      assert q.entries[..n][i] == e;
    }
    forall e | e in q.entries[..n]
      ensures exists r :: r in batch && r.recordId == e.id
    {
      var i :| 0 <= i < n && q.entries[..n][i] == e;
      assert batch[i] in batch;
    }
    BatchNumbered(q, batch, n);
  }

  lemma BatchNumbered(q: Core, batch: seq<QueueRecord>, n: nat)
    requires |batch| == n <= |q.entries| && forall i | 0 <= i < n :: batch[i].recordId == q.entries[i].id
    ensures forall r | r in batch :: r.recordId != 0
  {
  }

  lemma PeekedInOrder(q: Core, files: Files, limit: nat, unreadable: set<RecordId>)
    requires Inv(q, files) && Peek(q, files, limit, unreadable).Some?
    ensures var n := if limit < |q.entries| then limit else |q.entries|;
            var batch := Peek(q, files, limit, unreadable).value;
            |batch| == n && forall i | 0 <= i < n :: batch[i].recordId == q.entries[i].id
  {
    hide Inv, Peek, QueueQueries.PeekedAs;
    var n := if limit < |q.entries| then limit else |q.entries|;
    QueueQueries.PeekIsPrefix(q, files, limit, unreadable);
    forall i | 0 <= i < n
      ensures Peek(q, files, limit, unreadable).value[i].recordId == q.entries[i].id
    {
      QueueQueries.PeekedKey(files, q.entries[i], Peek(q, files, limit, unreadable).value[i]);
    }
  }

  lemma OneEntry(q: Core, files: Files, i: nat, j: nat)
    requires Inv(q, files) && i < |q.entries| && j < |q.entries| && q.entries[i].id == q.entries[j].id
    ensures i == j
  {
    hide KeyFor, KeyHash;
  }

  /** The two ways a response ends. */
  lemma OutcomeUnusable(q: Core, files: Files, recent: seq<TelemetryKey>, ring: Option<seq<byte>>,
                        batch: seq<QueueRecord>, httpStatus: int, answer: Option<seq<BackendContract.Item>>,
                        stuck: set<RecordId>, saved: bool)
    requires |recent| <= RECENT_CAPACITY && !Usable(batch, httpStatus, answer)
    ensures ResponseOutcome(q, files, recent, ring, batch, httpStatus, answer, stuck, saved, q, files, recent, ring,
                            false, false)
  {
    hide Usable;
  }

  lemma OutcomeFinished(q: Core, files: Files, recent: seq<TelemetryKey>, ring: Option<seq<byte>>,
                        batch: seq<QueueRecord>, httpStatus: int, answer: Option<seq<BackendContract.Item>>,
                        stuck: set<RecordId>, saved: bool, q': Core, files': Files, recent': seq<TelemetryKey>,
                        ring': Option<seq<byte>>, completed: bool)
    requires |recent| <= RECENT_CAPACITY && Usable(batch, httpStatus, answer)
    requires var actions := Gateway.Actions(batch, BackendContract.Parse(answer, |batch|).value);
             FinishOutcome(FinishAll(q, files, recent, actions, stuck), saved, q', files', recent', ring, ring',
                           completed)
    ensures ResponseOutcome(q, files, recent, ring, batch, httpStatus, answer, stuck, saved, q', files', recent', ring',
                            completed,
                            completed &&
                            BackendContract.Complete(|batch|, BackendContract.Parse(answer, |batch|).value))
  {
    hide FinishAll, Gateway.Actions, BackendContract.Parse, BackendContract.InRange, Gateway.AnsweredDecode,
         RecentFile;
  }

  lemma NothingToFinish(q: Core, files: Files, recent: seq<TelemetryKey>, ring: Option<seq<byte>>,
                        actions: seq<Action>, stuck: set<RecordId>, saved: bool)
    requires |recent| <= RECENT_CAPACITY && actions == []
    ensures FinishOutcome(FinishAll(q, files, recent, actions, stuck), saved, q, files, recent, ring, ring, true)
  {
    hide RecentFile;
  }

  class BackendWorker {
    const queue: DurableQueue
    var batchSize: nat
    var initialBackoffMs: u32
    var maximumBackoffMs: u32
    var currentBackoffMs: u32
    var consecutiveFailures: u32
    var telemetryUploadFailureCount: nat
    var telemetryUploadSuccessCount: nat
    /** Failures that advance the backoff since the last success or configuration. */
    ghost var failures: nat

    /** The delay in force is the closed form. */
    ghost predicate Backoff()
      reads this
    {
      batchSize <= BackendContract.MAXIMUM_BATCH && 0 < initialBackoffMs <= maximumBackoffMs &&
      currentBackoffMs == Delay(initialBackoffMs, maximumBackoffMs, failures)
    }

    constructor (queue: DurableQueue, batchSize: nat, initialBackoffMs: u32, maximumBackoffMs: u32)
      requires 0 < initialBackoffMs <= maximumBackoffMs && batchSize <= BackendContract.MAXIMUM_BATCH
      ensures Backoff() && this.queue == queue && failures == 0 && this.batchSize == batchSize
      ensures this.initialBackoffMs == initialBackoffMs && this.maximumBackoffMs == maximumBackoffMs
    {
      this.queue := queue;
      this.batchSize, this.initialBackoffMs, this.maximumBackoffMs := batchSize, initialBackoffMs, maximumBackoffMs;
      currentBackoffMs, consecutiveFailures := 0, 0;
      telemetryUploadFailureCount, telemetryUploadSuccessCount := 0, 0;
      failures := 0;
    }

    /** A new configuration starts afresh, whatever the bounds were before. */
    method ApplyConfig(batchSize: nat, initialBackoffMs: u32, maximumBackoffMs: u32)
      requires 0 < initialBackoffMs <= maximumBackoffMs && batchSize <= BackendContract.MAXIMUM_BATCH
      modifies this
      ensures Backoff() && failures == 0 && currentBackoffMs == 0 && this.batchSize == batchSize
      ensures this.initialBackoffMs == initialBackoffMs && this.maximumBackoffMs == maximumBackoffMs
    {
      this.batchSize, this.initialBackoffMs, this.maximumBackoffMs := batchSize, initialBackoffMs, maximumBackoffMs;
      currentBackoffMs, failures := 0, 0;
    }

    method SetFailure(advanceBackoff: bool, telemetryOperationFailure: bool)
      requires Backoff()
      modifies this`currentBackoffMs, this`consecutiveFailures, this`telemetryUploadFailureCount, this`failures
      ensures Backoff() && failures == old(failures) + if advanceBackoff then 1 else 0
      ensures telemetryUploadFailureCount
           == old(telemetryUploadFailureCount) + if telemetryOperationFailure then 1 else 0
      ensures consecutiveFailures == if telemetryOperationFailure && old(consecutiveFailures) != U32_MAX
                                     then old(consecutiveFailures) + 1 else old(consecutiveFailures)
    {
      if telemetryOperationFailure {
        telemetryUploadFailureCount := telemetryUploadFailureCount + 1;
        if consecutiveFailures != U32_MAX { consecutiveFailures := consecutiveFailures + 1; }
      }
      if advanceBackoff {
        DelayAdvances(initialBackoffMs, maximumBackoffMs, failures);
        if currentBackoffMs == 0 {
          currentBackoffMs := initialBackoffMs;
        } else {
          var doubled: u64 := currentBackoffMs * 2;
          currentBackoffMs := if doubled > maximumBackoffMs then maximumBackoffMs else doubled;
        }
        failures := failures + 1;
      }
    }

    method SetSuccess()
      requires Backoff()
      modifies this`currentBackoffMs, this`consecutiveFailures, this`telemetryUploadSuccessCount, this`failures
      ensures Backoff() && failures == 0 && currentBackoffMs == 0 && consecutiveFailures == 0
      ensures telemetryUploadSuccessCount == old(telemetryUploadSuccessCount) + 1
    {
      currentBackoffMs, consecutiveFailures, failures := 0, 0, 0;
      telemetryUploadSuccessCount := telemetryUploadSuccessCount + 1;
    }

    /** How long to wait after a failed round, with up to a fifth of jitter. */
    method Pause(random: u32) returns (ms: nat)
      requires Backoff()
      ensures currentBackoffMs <= ms && 5 * ms <= 6 * maximumBackoffMs
      ensures random <= currentBackoffMs / 5 ==> ms == currentBackoffMs + random
    {
      DelayAdvances(initialBackoffMs, maximumBackoffMs, failures);
      hide Delay;
      Wrapped(random, currentBackoffMs / 5 + 1);
      var jitter := if currentBackoffMs == 0 then 0 else random % (currentBackoffMs / 5 + 1);
      assert jitter <= currentBackoffMs / 5;
      return currentBackoffMs + jitter;
    }

    /** One action for each result; nothing if a payload no longer decodes. */
    method BuildActions(batch: seq<QueueRecord>, results: seq<BackendContract.Result>)
      returns (actions: Option<seq<Action>>, rejected: seq<bool>)
      requires BackendContract.InRange(results, |batch|)
      ensures actions.Some? <==> Gateway.AnsweredDecode(batch, results)
      ensures actions.Some? ==>
                actions.value == Gateway.Actions(batch, results) && |rejected| == |results| == |actions.value| &&
                forall i | 0 <= i < |results| :: rejected[i] <==> results[i].status.RejectedInvalid?
    {
      hide DecodeTelemetry, KeyOf;
      var list: seq<Action> := [];
      rejected := [];
      for i := 0 to |results|
        invariant |list| == |rejected| == i
        invariant forall j | 0 <= j < i :: DecodeTelemetry(batch[results[j].index].payload).Accepted?
        invariant forall j | 0 <= j < i :: list[j] == Gateway.Actions(batch, results)[j]
        invariant forall j | 0 <= j < i :: rejected[j] <==> results[j].status.RejectedInvalid?
      {
        var record := batch[results[i].index];
        var telemetry := ReadTelemetry(record.payload);
        if telemetry.Rejected? { return None, []; }
        list := list + [Action(record.recordId, KeyOf(telemetry.packet))];
        rejected := rejected + [results[i].status.RejectedInvalid?];
      }
      return Some(list), rejected;
    }

    /** The records stay; a failed upload is counted with the queue as well. */
    method Retain(telemetryOperationFailure: bool)
      requires Backoff() && queue.Valid()
      modifies this`currentBackoffMs, this`consecutiveFailures, this`telemetryUploadFailureCount, this`failures,
               queue`uploadRetries
      ensures Backoff() && queue.Valid() && failures == old(failures) + 1
      ensures var retry := if telemetryOperationFailure then 1 else 0;
              telemetryUploadFailureCount == old(telemetryUploadFailureCount) + retry &&
              queue.uploadRetries == old(queue.uploadRetries) + retry
    {
      hide Inv, BackendWorker.Backoff;
      SetFailure(true, telemetryOperationFailure);
      if telemetryOperationFailure { queue.RecordUploadRetry(); }
    }

    /** Finish what a response answers, unless it is unusable. */
    method Dequeue(batch: seq<QueueRecord>, httpStatus: int, answer: Option<seq<BackendContract.Item>>,
                   stuck: set<RecordId>, saved: bool)
      returns (results: Option<seq<BackendContract.Result>>, completed: bool)
      requires queue.Valid() && |batch| <= BackendContract.MAXIMUM_BATCH
      modifies queue, queue.storage, queue.core, queue.recent, queue.recent.keys
      ensures queue.Valid() && queue.uploadRetries == old(queue.uploadRetries)
      ensures results == if BackendContract.MayDequeue(httpStatus) then BackendContract.Parse(answer, |batch|) else None
      ensures completed ==> results.Some?
      ensures ResponseOutcome(old(queue.core.Value()), old(queue.storage.files), old(queue.recent.Contents()),
                              old(queue.ring), batch, httpStatus, answer, stuck, saved, queue.core.Value(),
                              queue.storage.files, queue.recent.Contents(), queue.ring, completed,
                              completed && BackendContract.Complete(|batch|, results.value))
    {
      hide Inv, FinishAll, BackendContract.Parse, BackendContract.InRange, Gateway.AnsweredDecode, Gateway.Actions,
           RecentDeduplicator.Contents, RecentFile, ResponseOutcome, FinishOutcome;
      queue.recent.Fits();
      hide DurableQueue.Valid;
      ghost var q, files, recent, ring := queue.core.Value(), queue.storage.files, queue.recent.Contents(), queue.ring;
      if !Usable(batch, httpStatus, answer) {
        OutcomeUnusable(q, files, recent, ring, batch, httpStatus, answer, stuck, saved);
      }
      if !BackendContract.MayDequeue(httpStatus) { return None, false; }
      results := BackendContract.ParseResponse(answer, |batch|);
      if results.None? { return None, false; }
      BackendContract.ParsedResults(answer, |batch|);
      var actions, rejected := BuildActions(batch, results.value);
      if actions.None? { return results, false; }
      if |actions.value| == 0 {
        completed := true;
        NothingToFinish(q, files, recent, ring, actions.value, stuck, saved);
      } else {
        completed := queue.Finish(actions.value, rejected, stuck, saved);
      }
      OutcomeFinished(q, files, recent, ring, batch, httpStatus, answer, stuck, saved, queue.core.Value(),
                      queue.storage.files, queue.recent.Contents(), queue.ring, completed);
    }

    /** The second half of a round, on whatever the queue has become since the batch was
        taken. */
    method HandleResponse(batch: seq<QueueRecord>, httpStatus: int, answer: Option<seq<BackendContract.Item>>,
                          stuck: set<RecordId>, saved: bool) returns (completed: bool, success: bool)
      requires Backoff() && queue.Valid() && |batch| <= BackendContract.MAXIMUM_BATCH
      modifies this, queue, queue.storage, queue.core, queue.recent, queue.recent.keys
      ensures Backoff() && queue.Valid() && (success ==> completed)
      ensures failures == if success then 0 else old(failures) + 1
      ensures telemetryUploadSuccessCount == old(telemetryUploadSuccessCount) + if success then 1 else 0
      ensures var retry := if completed then !success
                           else !BackendContract.MayDequeue(httpStatus) || BackendContract.Parse(answer, |batch|).None?;
              telemetryUploadFailureCount == old(telemetryUploadFailureCount) + (if retry then 1 else 0) &&
              queue.uploadRetries == old(queue.uploadRetries) + (if retry then 1 else 0)
      ensures ResponseOutcome(old(queue.core.Value()), old(queue.storage.files), old(queue.recent.Contents()),
                              old(queue.ring), batch, httpStatus, answer, stuck, saved, queue.core.Value(),
                              queue.storage.files, queue.recent.Contents(), queue.ring, completed, success)
    {
      hide Inv, BackendContract.Parse, BackendWorker.Backoff, DurableQueue.Valid, RecentDeduplicator.Contents,
           ResponseOutcome;
      var results: Option<seq<BackendContract.Result>>;
      results, completed := Dequeue(batch, httpStatus, answer, stuck, saved);
      success := completed && BackendContract.Complete(|batch|, results.value);
      if success {
        SetSuccess();
      } else {
        Retain(completed || results.None?);
      }
    }

    /** One round: take the oldest records, post them, act on the response. */
    method UploadOnce(unreadable: set<RecordId>, serializes: bool, httpStatus: int,
                      answer: Option<seq<BackendContract.Item>>, stuck: set<RecordId>, saved: bool)
      returns (completed: bool, success: bool)
      requires Backoff() && queue.Valid()
      modifies this, queue, queue.storage, queue.core, queue.recent, queue.recent.keys
      ensures Backoff() && queue.Valid()
      ensures failures == if success then 0 else old(failures) + 1
      ensures success ==> completed && httpStatus == 200 && old(queue.core.entries) != []
      ensures var peeked := QueueCore.Peek(old(queue.core.Value()), old(queue.storage.files), old(batchSize),
                                           unreadable);
              if peeked.None? || peeked.value == [] || !serializes then
                queue.core.Value() == old(queue.core.Value()) && queue.storage.files == old(queue.storage.files) &&
                queue.recent.Contents() == old(queue.recent.Contents()) && queue.ring == old(queue.ring) &&
                !completed &&
                queue.filesystemErrors
                  == old(queue.filesystemErrors) + (if peeked.None? || peeked.value == [] then 1 else 0)
              else
                ResponseOutcome(old(queue.core.Value()), old(queue.storage.files), old(queue.recent.Contents()),
                                old(queue.ring), peeked.value, httpStatus, answer, stuck, saved, queue.core.Value(),
                                queue.storage.files, queue.recent.Contents(), queue.ring, completed, success)
      ensures var n := if old(batchSize) < |old(queue.core.entries)| then old(batchSize) else |old(queue.core.entries)|;
              (forall e | e in old(queue.core.entries) && e !in queue.core.entries ::
                 e in old(queue.core.entries)[..n]) &&
              (success ==> forall e | e in old(queue.core.entries)[..n] :: e.id !in Ids(queue.core.entries))
    {
      hide Inv, QueueCore.Peek, Delay, RecentDeduplicator.Contents, RecentDeduplicator.Valid, ResponseOutcome, Ids;
      ghost var q, files, recent, ring := queue.core.Value(), queue.storage.files, queue.recent.Contents(), queue.ring;
      ghost var limit := batchSize;
      completed, success := false, false;
      var records := queue.Peek(batchSize, unreadable);
      if records.None? || |records.value| == 0 {
        SetFailure(true, false);
        queue.RecordFilesystemError();
        return;
      }
      if !serializes {
        SetFailure(true, false);
        return;
      }
      PeekedIds(q, files, limit, unreadable);
      completed, success := HandleResponse(records.value, httpStatus, answer, stuck, saved);
      RoundEffect(q, files, recent, ring, limit, unreadable, httpStatus, answer, stuck, saved, queue.core.Value(),
                  queue.storage.files, queue.recent.Contents(), queue.ring, completed, success);
    }
  }

  /** An unusable response leaves the queue alone. A usable one is finished as a whole,
      and the round succeeds exactly when every record was answered and removed and the
      ring could be saved. */
  ghost predicate ResponseOutcome(q: Core, files: Files, recent: seq<TelemetryKey>, ring: Option<seq<byte>>,
                                  batch: seq<QueueRecord>, httpStatus: int,
                                  answer: Option<seq<BackendContract.Item>>, stuck: set<RecordId>, saved: bool,
                                  q': Core, files': Files, recent': seq<TelemetryKey>, ring': Option<seq<byte>>,
                                  completed: bool, success: bool) {
    |recent| <= RECENT_CAPACITY &&
    if !Usable(batch, httpStatus, answer) then
      q' == q && files' == files && recent' == recent && ring' == ring && !completed && !success
    else
      var results := BackendContract.Parse(answer, |batch|).value;
      var run := FinishAll(q, files, recent, Gateway.Actions(batch, results), stuck);
      FinishOutcome(run, saved, q', files', recent', ring, ring', completed) &&
      success == (completed && BackendContract.Complete(|batch|, results))
  }
}
