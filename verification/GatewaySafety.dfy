/** No acknowledged reading is lost, in any interleaving and across any power loss. */
module GatewaySafety {
  import opened Words
  import opened Protocol
  import opened TelemetryKeys
  import opened RecentKeys
  import opened QueueRecords
  import opened QueueCore
  import opened QueueEnqueue
  import opened QueueRecovery
  import opened QueueQueries
  import opened QueueFinish
  import opened Gateway
  import BackendContract

  /** Committed and, while running, still indexed. */
  ghost function Live(s: State): (ks: set<TelemetryKey>) {
    if s.power.On? then Keys(s.power.q.entries, s.files) else DiskKeys(s.files)
  }

  /** The keys whose reading is committed or finished. */
  ghost function Safe(s: State): (ks: set<TelemetryKey>) {
    Live(s) + s.terminal
  }

  /** The keys whose reading is accounted for. */
  ghost function Secure(s: State): (ks: set<TelemetryKey>) {
    Live(s) + s.terminal + s.evicted + s.discarded
  }

  /** A batch still names the records it was peeked from: an id below the next one is
      never given to another record. */
  ghost predicate Names(q: Core, files: Files, r: QueueRecord) {
    r.recordId != 0 && Encodable(r) && DecodeTelemetry(r.payload).Accepted? && Proper(NewKey(r)) &&
    Stored(r.recordId, EncodeRecord(r)) == Some(NewKey(r)) &&
    r.recordId < Limit(q.next) &&
    (r.recordId in Ids(q.entries) ==> r.recordId in files && files[r.recordId] == EncodeRecord(r))
  }

  ghost predicate BatchOk(q: Core, files: Files, batch: seq<QueueRecord>) {
    (forall r | r in batch :: Names(q, files, r)) &&
    forall i, j | 0 <= i < j < |batch| :: batch[i].recordId < batch[j].recordId
  }

  ghost predicate RadioOk(s: State)
    requires s.power.On?
  {
    match s.power.radio
    case Listening => true
    case Checked(r, duplicate) =>
      DecodeTelemetry(r.payload).Accepted? && Proper(NewKey(r)) && (duplicate ==> NewKey(r) in Safe(s))
    case Committed(r) => NewKey(r) in Safe(s)
  }

  ghost predicate UploadOk(s: State)
    requires s.power.On?
  {
    match s.power.upload
    case Resting => true
    case Batched(batch) => BatchOk(s.power.q, s.files, batch)
    case Answered(batch, results) =>
      BatchOk(s.power.q, s.files, batch) &&
      BackendContract.DistinctIndices(results) && BackendContract.InRange(results, |batch|) &&
      AnsweredKeys(batch, results) <= s.terminal
  }

  ghost predicate Sound(s: State) {
    s.acked <= Secure(s) && SavedOk(s.ring, s.terminal) &&
    (s.power.On? ==> Inv(s.power.q, s.files) && RingOk(s.power.recent, s.terminal) && RadioOk(s) && UploadOk(s))
  }

  ghost predicate Bounded(files: Files, n: nat) {
    forall id: RecordId | KeyFor(files, id).Some? :: id <= n
  }

  /** No id beyond n has been used, so the 64-bit counter has not wrapped. */
  ghost predicate Fits(s: State, n: nat) {
    Bounded(s.files, n) &&
    (s.power.On? ==> 1 <= s.power.q.next <= n + 1)
  }

  // ---- small facts ----

  lemma IndexedOnDisk(q: Core, files: Files)
    requires Inv(q, files)
    ensures Keys(q.entries, files) <= DiskKeys(files)
  {
    InvBounds(q, files);
    hide KeyFor, Inv;
  }

  lemma FrameKey(frame: seq<byte>, reception: Reception)
    requires DecodeTelemetry(frame).Accepted?
    ensures NewKey(QueueRecord(0, reception, frame)) == KeyOf(DecodeTelemetry(frame).packet)
    ensures Proper(KeyOf(DecodeTelemetry(frame).packet))
  {
    hide DecodeTelemetry, Proper, KeyOf;
    TelemetryBijection(frame, DecodeTelemetry(frame).packet);
    ProperKeyOf(DecodeTelemetry(frame).packet);
  }

  lemma KnownIsTerminal(ks: seq<TelemetryKey>, terminal: set<TelemetryKey>, k: TelemetryKey)
    requires RingOk(ks, terminal) && Proper(k) && Knows(ks, k)
    ensures k in terminal
  {
    hide Proper, KeyEqual, Distinct;
    var i :| 0 <= i < |ks| && KeyEqual(ks[i], k);
    assert ks[i] in ks;
    ProperEqual(ks[i], k);
  }

  lemma RingGrows(ks: seq<TelemetryKey>, terminal: set<TelemetryKey>, k: TelemetryKey)
    requires RingOk(ks, terminal) && Proper(k) && k in terminal
    ensures RingOk(Remembered(ks, RECENT_CAPACITY, k), terminal)
  {
    hide Proper, KeyEqual;
  }

  lemma SavedStays(ring: Option<seq<byte>>, terminal: set<TelemetryKey>, more: set<TelemetryKey>)
    requires SavedOk(ring, terminal) && terminal <= more
    ensures SavedOk(ring, more)
  {
    hide RingOk, DecodeRecent, RememberAll;
    if ring.Some? && DecodeRecent(ring.value).Some? {
      RingStays(RememberAll([], RECENT_CAPACITY, DecodeRecent(ring.value).value), terminal, more);
    }
  }

  /** A ring that is saved reads back at boot as exactly the keys it held. */
  lemma RingSaved(ks: seq<TelemetryKey>, terminal: set<TelemetryKey>)
    requires RingOk(ks, terminal)
    ensures SavedOk(Some(RecentFile(ks)), terminal)
  {
    hide RecentFile, Distinct, Proper, DecodeRecent, RememberAll;
    assert forall i | 0 <= i < |ks| :: ks[i] in ks;
    PersistThenLoad(ks);
  }

  lemma RingReloads(s: State, readable: bool)
    requires SavedOk(s.ring, s.terminal)
    ensures RingOk(LoadedRing(s.ring, readable), s.terminal)
  {
    hide Proper, Distinct, DecodeRecent, RememberAll;
    NoKeys(s.terminal);
  }

  lemma NoKeys(terminal: set<TelemetryKey>)
    ensures RingOk([], terminal)
  {
  }

  // ---- the radio task ----

  lemma ReceiveKeeps(s: State, e: Event, n: nat)
    requires Sound(s) && Fits(s, n) && e.Receive? && s.power.On? && s.power.radio.Listening?
    ensures Sound(ReceiveStep(s, e)) && Fits(ReceiveStep(s, e), n)
  {
    hide DecodeTelemetry, KeyOf, Proper, KeyFor, Inv, Keys, Contains, Knows, SavedOk, RingOk, BatchOk, NewKey;
    match DecodeTelemetry(e.frame)
    case Rejected(_) =>
    case Accepted(p) =>
      var k := KeyOf(p);
      FrameKey(e.frame, e.reception);
      if Knows(s.power.recent, k) { KnownIsTerminal(s.power.recent, s.terminal, k); }
      ContainsKeys(s.power.q, s.files, k, e.unreadable);
      var s' := ReceiveStep(s, e);
      assert Live(s') == Live(s);
  }

  lemma AcknowledgeKeeps(s: State, sent: bool, n: nat)
    requires Sound(s) && Fits(s, n) && s.power.On? && !s.power.radio.Listening?
    requires s.power.radio.Checked? ==> s.power.radio.duplicate
    ensures Sound(AcknowledgeStep(s, sent)) && Fits(AcknowledgeStep(s, sent), n)
  {
    hide Inv, Keys, KeyFor, SavedOk, RingOk, BatchOk, NewKey, Proper, DecodeTelemetry, AnsweredKeys,
         BackendContract.InRange, BackendContract.DistinctIndices;
    var s' := AcknowledgeStep(s, sent);
    assert Live(s') == Live(s);
  }

  lemma NextGrows(q: Core, files: Files, run: EnqueueRun, bytes: seq<byte>, hash: u64)
    requires Effect(q, files, run, bytes, hash) && q.next != U64_MAX
    ensures q.next != 0 && q.next <= run.q.next && Limit(q.next) <= Limit(run.q.next)
  {
    hide Ids;
  }

  lemma NamesAfter(q: Core, files: Files, run: EnqueueRun, bytes: seq<byte>, hash: u64, r: QueueRecord)
    requires Inv(q, files) && Inv(run.q, run.files) && Effect(q, files, run, bytes, hash)
    requires Names(q, files, r) && q.next != U64_MAX
    ensures Names(run.q, run.files, r)
  {
    hide Stored, EncodeRecord, Encodable, NewKey, DecodeTelemetry, Proper, Inv, Effect;
    NextGrows(q, files, run, bytes, hash);
    Survivors(q, files, run, bytes, hash);
    var rest := q.entries[|run.dropped|..];
    assert forall e | e in rest :: e in q.entries;
    if r.recordId in Ids(run.q.entries) {
      var e :| e in run.q.entries && e.id == r.recordId;
      assert e.id < q.next;
      assert e in rest;
    }
  }

  lemma BatchAfter(q: Core, files: Files, run: EnqueueRun, bytes: seq<byte>, hash: u64, batch: seq<QueueRecord>)
    requires Inv(q, files) && Inv(run.q, run.files) && Effect(q, files, run, bytes, hash)
    requires BatchOk(q, files, batch) && q.next != U64_MAX
    ensures BatchOk(run.q, run.files, batch)
  {
    hide Inv, Effect, Names;
    forall r | r in batch
      ensures Names(run.q, run.files, r)
    {
      NamesAfter(q, files, run, bytes, hash, r);
    }
  }

  lemma FitsAfter(q: Core, files: Files, run: EnqueueRun, bytes: seq<byte>, hash: u64, n: nat)
    requires Effect(q, files, run, bytes, hash) && 1 <= q.next <= n + 1 < U64_MAX
    requires Bounded(files, n)
    ensures Bounded(run.files, n + 1)
    ensures 1 <= run.q.next <= n + 2
  {
    hide Stored;
    forall id: RecordId | KeyFor(run.files, id).Some? && id != q.next
      ensures id <= n
    {
      assert id in run.files - {q.next};
      assert id in files && run.files[id] == files[id] by {
        assert (run.files - {q.next})[id] == (files - {q.next} - Ids(run.dropped))[id];
      }
      assert KeyFor(files, id).Some?;
    }
  }

  lemma EnterKeeps(s: State, fate: EnqueueFate, n: nat)
    requires Sound(s) && Fits(s, n) && n + 1 < U64_MAX
    requires s.power.On? && s.power.radio.Checked? && s.power.q.capacity > 0
    ensures Sound(EnterStep(s, fate)) && Fits(EnterStep(s, fate), n + 1)
  {
    hide DecodeTelemetry, EncodeRecord, Stored, Proper, KeyFor, KeyHash, Inv, Keys, SavedOk, RingOk, BatchOk,
         NewKey, Effect, Admissible, Enqueue, BackendContract.InRange, BackendContract.DistinctIndices;
    var p, r := s.power, s.power.radio.record;
    var run, s' := Enqueue(p.q, s.files, r, fate), EnterStep(s, fate);
    EnqueueKeeps(p.q, s.files, r, fate);
    if Admissible(p.q, r) {
      var bytes, hash := NewBytes(p.q, r), KeyHash(NewKey(r));
      NextOf(p.q, r);
      KeysAfter(p.q, s.files, run, bytes, hash, NewKey(r));
      FitsAfter(p.q, s.files, run, bytes, hash, n);
      if p.upload.Batched? || p.upload.Answered? {
        BatchAfter(p.q, s.files, run, bytes, hash, p.upload.batch);
      }
    } else {
      NothingDropped(s.files);
    }
    assert Secure(s) <= Secure(s');
  }

  lemma NextOf(q: Core, r: QueueRecord)
    requires Admissible(q, r)
    ensures q.next != 0
  {
  }

  lemma NothingDropped(files: Files)
    ensures Keys([], files) == {}
  {
  }

  /** Losing power between two storage calls of an enqueue. */
  lemma EnterCutKeeps(s: State, fate: EnqueueFate, after: nat, n: nat)
    requires Sound(s) && Fits(s, n) && n + 1 < U64_MAX
    requires s.power.On? && s.power.radio.Checked? && s.power.q.capacity > 0
    ensures Sound(EnterCutStep(s, fate, after)) && Fits(EnterCutStep(s, fate, after), n + 1)
  {
    hide DecodeTelemetry, EncodeRecord, Stored, Proper, KeyFor, KeyHash, Inv, SavedOk, RingOk, BatchOk,
         NewKey, Effect, Admissible, Enqueue, Interrupted, Keys, DiskKeys, Given;
    var q, r := s.power.q, s.power.radio.record;
    var run := Enqueue(q, s.files, r, fate);
    IndexedOnDisk(q, s.files);
    if after < |run.trace| {
      var f := run.trace[after];
      EnqueueKeeps(q, s.files, r, fate);
      if Admissible(q, r) {
        NextOf(q, r);
        EnterTrace(q, s.files, r, fate, f);
        CutKeys(q, s.files, NewBytes(q, r), f, n);
      }
    }
  }

  lemma EnterTrace(q: Core, files: Files, r: QueueRecord, fate: EnqueueFate, f: Files)
    requires Inv(q, files) && Admissible(q, r) && f in Enqueue(q, files, r, fate).trace
    ensures Interrupted(q, files, NewBytes(q, r), f)
  {
    hide DecodeTelemetry, EncodeRecord, KeyHash, Inv, Commit, Interrupted;
    InvBounds(q, files);
    TraceStates(q, files, NewBytes(q, r), KeyHash(NewKey(r)), fate);
  }

  /** Whatever storage call an enqueue was cut after, every indexed record is still on
      flash, except that a full queue may have given up its head. */
  lemma OnlyHeadGone(q: Core, files: Files, bytes: seq<byte>, f: Files)
    requires Inv(q, files) && q.next != 0 && Interrupted(q, files, bytes, f)
    ensures forall e | e in q.entries && e.id !in f :: |q.entries| >= q.capacity && e == q.entries[0]
    ensures forall e | e in q.entries && e.id in f :: KeyFor(f, e.id) == KeyFor(files, e.id)
  {
    hide Inv, KeyFor;
    InvBounds(q, files);
    InvOrdered(q, files);
    SameFiles(files, f);
    forall e | e in q.entries && e.id !in f
      ensures |q.entries| >= q.capacity && e == q.entries[0]
    {
      assert e.id != q.next && e.id == q.entries[0].id;
      var i :| 0 <= i < |q.entries| && q.entries[i] == e;
    }
  }

  lemma CutKeys(q: Core, files: Files, bytes: seq<byte>, f: Files, n: nat)
    requires Inv(q, files) && q.next != 0 && Interrupted(q, files, bytes, f) && q.next <= n + 1
    requires Bounded(files, n)
    ensures Keys(q.entries, files) <= DiskKeys(f) + Given(q, files, f)
    ensures Bounded(f, n + 1)
  {
    hide Inv, KeyFor, Ordered;
    InvBounds(q, files);
    OnlyHeadGone(q, files, bytes, f);
    SameFiles(files, f);
    forall e | e in q.entries && KeyFor(files, e.id).Some?
      ensures KeyFor(files, e.id).value in DiskKeys(f) + Given(q, files, f)
    {
      if e.id !in f { assert q.entries[..1][0] == e; }
    }
    forall id: RecordId | KeyFor(f, id).Some? && id != q.next
      ensures id <= n
    {
      assert id in f && id in files && f[id] == files[id];
    }
  }

  // ---- the backend task ----

  lemma PeekedNames(q: Core, files: Files, e: Entry, r: QueueRecord)
    requires Inv(q, files) && e in q.entries && PeekedAs(files, e, r)
    ensures Names(q, files, r)
  {
    hide Stored, EncodeRecord, DecodeRecord, Encodable, DecodeTelemetry, Proper, KeyHash, NewKey;
    EntryFile(q, files, e);
    NextKey(files, e.id, files[e.id]);
  }

  lemma PeekedBatch(q: Core, files: Files, limit: nat, unreadable: set<RecordId>)
    requires Inv(q, files) && Peek(q, files, limit, unreadable).Some?
    ensures BatchOk(q, files, Peek(q, files, limit, unreadable).value)
  {
    hide Inv, Peek, PeekedAs, Names;
    var batch := Peek(q, files, limit, unreadable).value;
    PeekIsPrefix(q, files, limit, unreadable);
    InvOrdered(q, files);
    forall r | r in batch
      ensures Names(q, files, r)
    {
      var i :| 0 <= i < |batch| && batch[i] == r;
      PeekedNames(q, files, q.entries[i], r);
    }
    forall i | 0 <= i < |batch|
      ensures batch[i].recordId == q.entries[i].id
    {
      PeekedKey(files, q.entries[i], batch[i]);
    }
  }

  lemma TakeBatchKeeps(s: State, limit: nat, unreadable: set<RecordId>, n: nat)
    requires Sound(s) && Fits(s, n) && s.power.On? && Peek(s.power.q, s.files, limit, unreadable).Some?
    ensures var s' := s.(power := s.power.(upload := Batched(Peek(s.power.q, s.files, limit, unreadable).value)));
            Sound(s') && Fits(s', n)
  {
    hide Inv, Peek, Keys, KeyFor, SavedOk, RingOk, BatchOk, NewKey, Proper, DecodeTelemetry;
    PeekedBatch(s.power.q, s.files, limit, unreadable);
    var s' := s.(power := s.power.(upload := Batched(Peek(s.power.q, s.files, limit, unreadable).value)));
    assert Live(s') == Live(s);
  }

  lemma RespondKeeps(s: State, e: Event, n: nat)
    requires Sound(s) && Fits(s, n) && e.Respond? && s.power.On? && s.power.upload.Batched?
    ensures Sound(RespondStep(s, e)) && Fits(RespondStep(s, e), n)
  {
    hide Inv, Keys, KeyFor, SavedOk, RingOk, BatchOk, NewKey, AnsweredKeys, Proper, DecodeTelemetry,
         BackendContract.Parse, BackendContract.InRange, BackendContract.DistinctIndices;
    var batch, s' := s.power.upload.batch, RespondStep(s, e);
    if BackendContract.Parse(e.answer, |batch|).Some? { BackendContract.ParsedResults(e.answer, |batch|); }
    SavedStays(s.ring, s.terminal, s'.terminal);
    RingStays(s.power.recent, s.terminal, s'.terminal);
    assert Live(s') == Live(s) && Secure(s) <= Secure(s');
  }

  lemma RingStays(ks: seq<TelemetryKey>, terminal: set<TelemetryKey>, more: set<TelemetryKey>)
    requires RingOk(ks, terminal) && terminal <= more
    ensures RingOk(ks, more)
  {
    hide Proper, Distinct;
  }

  /** An action that, if its id is still indexed, is about the very record it names. */
  ghost predicate ActionOk(q: Core, files: Files, a: Action, terminal: set<TelemetryKey>) {
    a.id != 0 && Proper(a.key) && a.key in terminal &&
    (a.id in Ids(q.entries) ==> KeyFor(files, a.id) == Some(a.key))
  }

  lemma ActionStays(q: Core, files: Files, id: RecordId, a: Action, terminal: set<TelemetryKey>)
    requires Inv(q, files) && ActionOk(q, files, a, terminal)
    ensures var run := Remove(q, files, id, true); ActionOk(run.q, run.files, a, terminal)
  {
    hide KeyFor, Proper, Inv, Keys, Remove;
    RemoveKeeps(q, files, id, true);
    Remaining(files, id);
  }

  /** Finishing any list of sound actions takes only keys with a terminal result out of
      the queue, and remembers only such keys. */
  lemma {:induction false} FinishAllKeeps(q: Core, files: Files, recent: seq<TelemetryKey>, actions: seq<Action>,
                                          stuck: set<RecordId>, terminal: set<TelemetryKey>)
    requires Inv(q, files) && RingOk(recent, terminal)
    requires forall a | a in actions :: ActionOk(q, files, a, terminal)
    ensures var run := FinishAll(q, files, recent, actions, stuck);
            Inv(run.q, run.files) && RingOk(run.recent, terminal) &&
            (Tidy(q, files) ==> Tidy(run.q, run.files)) &&
            run.q == q.(entries := run.q.entries) &&
            (forall id | id in run.files :: id in files && run.files[id] == files[id]) &&
            Keys(run.q.entries, run.files) <= Keys(q.entries, files) <= Keys(run.q.entries, run.files) + terminal
    decreases |actions|
  {
    hide Inv, Tidy, KeyFor, Keys, RingOk, ActionOk, Proper, Remove, Knows, Remembered;
    assert |recent| <= RECENT_CAPACITY by { RingBound(recent, terminal); }
    if actions != [] {
      var a, rest := actions[0], actions[1..];
      assert a in actions && forall x | x in rest :: x in actions;
      ActionFacts(q, files, a, terminal);
      var removal := Remove(q, files, a.id, a.id !in stuck);
      RemoveKeeps(q, files, a.id, a.id !in stuck);
      if removal.ok {
        RingGrows(recent, terminal, a.key);
        forall x | x in rest
          ensures ActionOk(removal.q, removal.files, x, terminal)
        {
          ActionStays(q, files, a.id, x, terminal);
        }
        RingBound(Remembered(recent, RECENT_CAPACITY, a.key), terminal);
        FinishAllKeeps(removal.q, removal.files, Remembered(recent, RECENT_CAPACITY, a.key), rest, stuck, terminal);
      } else {
        FinishAllKeeps(q, files, recent, rest, stuck, terminal);
      }
    }
  }

  lemma RingBound(ks: seq<TelemetryKey>, terminal: set<TelemetryKey>)
    requires RingOk(ks, terminal)
    ensures |ks| <= RECENT_CAPACITY
  {
  }

  lemma ActionFacts(q: Core, files: Files, a: Action, terminal: set<TelemetryKey>)
    requires ActionOk(q, files, a, terminal)
    ensures a.id != 0 && Proper(a.key) && a.key in terminal
    ensures a.id in Ids(q.entries) ==> KeyFor(files, a.id) == Some(a.key)
  {
  }

  lemma BatchActions(s: State)
    requires Sound(s) && s.power.On? && s.power.upload.Answered?
    ensures FinishEnabled(s) && AnsweredDecode(s.power.upload.batch, s.power.upload.results)
    ensures forall a | a in Actions(s.power.upload.batch, s.power.upload.results) ::
              ActionOk(s.power.q, s.files, a, s.terminal)
  {
    hide Inv, KeyFor, Keys, Proper, DecodeTelemetry, EncodeRecord, Stored, NewKey, SavedOk, Encodable, Distinct;
    var p := s.power;
    var batch, results := p.upload.batch, p.upload.results;
    forall a | a in Actions(batch, results)
      ensures ActionOk(p.q, s.files, a, s.terminal)
    {
      var i :| 0 <= i < |results| && a == ActionOf(batch[results[i].index]);
      var r := batch[results[i].index];
      assert r in batch && Names(p.q, s.files, r);
      assert a.key in AnsweredKeys(batch, results);
      if r.recordId in Ids(p.q.entries) { NextKey(s.files, r.recordId, EncodeRecord(r)); }
    }
    forall r | r in batch
      ensures DecodeTelemetry(r.payload).Accepted?
    {
      assert Names(p.q, s.files, r);
    }
  }

  lemma FinishKeeps(s: State, stuck: set<RecordId>, saved: bool, n: nat)
    requires Sound(s) && Fits(s, n) && FinishEnabled(s)
    ensures Sound(FinishStep(s, stuck, saved)) && Fits(FinishStep(s, stuck, saved), n)
  {
    hide Inv, Tidy, KeyFor, Keys, RingOk, SavedOk, BatchOk, NewKey, ActionOk, FinishAll, Actions, RecentFile,
         AnsweredKeys, Proper, DecodeTelemetry, BackendContract.InRange, BackendContract.DistinctIndices;
    var p, s' := s.power, FinishStep(s, stuck, saved);
    var actions := Actions(p.upload.batch, p.upload.results);
    BatchActions(s);
    FinishAllKeeps(p.q, s.files, p.recent, actions, stuck, s.terminal);
    var run := FinishAll(p.q, s.files, p.recent, actions, stuck);
    RingBound(run.recent, s.terminal);
    RingSaved(run.recent, s.terminal);
    FewerFiles(s.files, run.files, n);
    assert Secure(s) <= Secure(s');
  }

  lemma FewerFiles(files: Files, fewer: Files, n: nat)
    requires forall id | id in fewer :: id in files && fewer[id] == files[id]
    requires Bounded(files, n)
    ensures forall id | KeyFor(fewer, id).Some? :: KeyFor(files, id) == KeyFor(fewer, id)
    ensures Bounded(fewer, n)
  {
    hide Stored;
    forall id | KeyFor(fewer, id).Some?
      ensures KeyFor(files, id) == KeyFor(fewer, id)
    {
    }
  }

  lemma FinishCutKeeps(s: State, stuck: set<RecordId>, after: nat, n: nat)
    requires Sound(s) && Fits(s, n) && FinishEnabled(s)
    ensures Sound(FinishCutStep(s, stuck, after)) && Fits(FinishCutStep(s, stuck, after), n)
  {
    hide Inv, Tidy, KeyFor, Keys, DiskKeys, RingOk, SavedOk, BatchOk, NewKey, ActionOk, FinishAll, Actions,
         AnsweredKeys, Proper, DecodeTelemetry, BackendContract.InRange, BackendContract.DistinctIndices;
    var p := s.power;
    var actions := Actions(p.upload.batch, p.upload.results);
    var done := if after < |actions| then actions[..after] else actions;
    BatchActions(s);
    assert forall a | a in done :: a in actions;
    FinishAllKeeps(p.q, s.files, p.recent, done, stuck, s.terminal);
    var run := FinishAll(p.q, s.files, p.recent, done, stuck);
    IndexedOnDisk(run.q, run.files);
    FewerFiles(s.files, run.files, n);
    var s' := FinishCutStep(s, stuck, after);
    assert Secure(s) <= Secure(s');
  }

  // ---- power ----

  lemma PowerLossKeeps(s: State, n: nat)
    requires Sound(s) && Fits(s, n)
    ensures Sound(s.(power := Off)) && Fits(s.(power := Off), n)
  {
    hide Inv, KeyFor, Keys, DiskKeys, RingOk, SavedOk, RadioOk, UploadOk;
    if s.power.On? { IndexedOnDisk(s.power.q, s.files); }
  }

  /** Every readable record is indexed, and only those are. */
  lemma IndexReads(files: Files, unreadable: set<RecordId>)
    ensures var index := IndexOf(files, Kept(files, unreadable));
            (forall e | e in index :: e.id in files && e.id !in unreadable && KeyFor(files, e.id).Some?) &&
            (forall id | KeyFor(files, id).Some? && id !in unreadable :: exists e :: e in index && e.id == id)
  {
    hide IndexOf, Stored;
    var index := IndexOf(files, Kept(files, unreadable));
    IndexFacts(files, Kept(files, unreadable));
    assert forall e | e in index :: e.id in Ids(index);
    forall id | KeyFor(files, id).Some? && id !in unreadable
      ensures exists e :: e in index && e.id == id
    {
      assert id in Ids(index);
    }
  }

  lemma KeysJoin(a: seq<Entry>, b: seq<Entry>, files: Files)
    ensures Keys(a + b, files) == Keys(a, files) + Keys(b, files)
  {
    hide KeyFor;
    assert forall e :: e in a + b <==> e in a || e in b;
  }

  /** The committed readings that recovery neither keeps nor drops are exactly those
      without a readable record. */
  lemma DiskSplit(files: Files, unreadable: set<RecordId>, index: seq<Entry>, d: nat)
    requires index == IndexOf(files, Kept(files, unreadable)) && d <= |index|
    ensures DiskKeys(files) == Keys(index[d..], files) + Keys(index[..d], files) + Unread(files, unreadable)
    ensures Unread(files, unreadable) !! Keys(index[d..], files) + Keys(index[..d], files)
  {
    hide IndexOf, KeyFor, Kept;
    IndexReads(files, unreadable);
    assert index == index[..d] + index[d..];
    KeysJoin(index[..d], index[d..], files);
    SplitKeys(files, unreadable, index);
  }

  lemma SplitKeys(files: Files, unreadable: set<RecordId>, index: seq<Entry>)
    requires forall e | e in index :: e.id in files && e.id !in unreadable && KeyFor(files, e.id).Some?
    requires forall id | KeyFor(files, id).Some? && id !in unreadable :: exists e :: e in index && e.id == id
    ensures DiskKeys(files) == Keys(index, files) + Unread(files, unreadable)
    ensures Unread(files, unreadable) !! Keys(index, files)
  {
    hide KeyFor;
    forall k | k in DiskKeys(files) && !NoneReadable(files, unreadable, k)
      ensures k in Keys(index, files)
    {
      var id: RecordId :| KeyFor(files, id) == Some(k) && id !in unreadable;
      var e :| e in index && e.id == id;
    }
  }

  /** One start loses a committed reading, other than to make room, exactly when none of
      its records can be read. */
  lemma BootLosesIff(files: Files, capacity: nat, fate: RecoverFate, k: TelemetryKey)
    requires k in DiskKeys(files)
    ensures var run := Recover(files, capacity, fate);
            k !in Keys(run.q.entries, run.files) + Keys(run.dropped, files)
            <==> forall id: RecordId | KeyFor(files, id) == Some(k) :: id in fate.unreadable
  {
    hide IndexOf, KeyFor, DiskKeys, Keys, Recover;
    RecoverSplit(files, capacity, fate);
  }

  lemma BootKeeps(s: State, e: Event, n: nat)
    requires Sound(s) && Fits(s, n) && n < U64_MAX && s.power.Off? && e.Boot?
    requires Listing(s.files, e.recovery.listed)
    ensures Sound(BootStep(s, e)) && Fits(BootStep(s, e), n)
  {
    hide Inv, Tidy, KeyFor, Keys, DiskKeys, RingOk, SavedOk, Recover, Unread, IndexOf, LoadedRing, NoLeftover, Kept;
    var c := Size(e.capacity);
    var run, s' := Recover(s.files, c, e.recovery), BootStep(s, e);
    KeptBound(s.files, e.recovery.unreadable, n);
    RecoverEstablishes(s.files, c, e.recovery);
    RecoverFiles(s.files, c, e.recovery);
    FewerFiles(s.files, run.files, n);
    RingReloads(s, e.ringReadable);
    RecoverKeys(s.files, c, e.recovery, n);
    NothingSaved(s.terminal);
    assert Secure(s) <= Secure(s');
  }

  lemma NothingSaved(terminal: set<TelemetryKey>)
    ensures SavedOk(None, terminal)
  {
  }

  lemma KeptBound(files: Files, unreadable: set<RecordId>, n: nat)
    requires Bounded(files, n)
    ensures forall id | id in Kept(files, unreadable) :: id <= n
  {
    hide KeyFor;
  }

  lemma RecoverSplit(files: Files, capacity: nat, fate: RecoverFate)
    ensures var run := Recover(files, capacity, fate);
            DiskKeys(files) == Keys(run.q.entries, run.files) + Keys(run.dropped, files) +
                               Unread(files, fate.unreadable) &&
            Unread(files, fate.unreadable) !! Keys(run.q.entries, run.files) + Keys(run.dropped, files) &&
            Keys(run.q.entries, run.files) <= DiskKeys(run.files)
  {
    hide IndexOf, KeyFor, Kept, Discards, Unread;
    var run := Recover(files, capacity, fate);
    RecoverFiles(files, capacity, fate);
    DiskSplit(files, fate.unreadable, IndexOf(files, Kept(files, fate.unreadable)), |run.dropped|);
    assert forall e | e in run.q.entries :: e.id in Ids(run.q.entries);
  }

  lemma RecoverKeys(files: Files, capacity: nat, fate: RecoverFate, n: nat)
    requires capacity > 0 && Listing(files, fate.listed) && n < U64_MAX
    requires Bounded(files, n)
    ensures var run := Recover(files, capacity, fate);
            DiskKeys(files) == Keys(run.q.entries, run.files) + Keys(run.dropped, files) +
                               Unread(files, fate.unreadable) &&
            Keys(run.q.entries, run.files) <= DiskKeys(run.files) &&
            1 <= run.q.next <= n + 1
  {
    hide IndexOf, KeyFor, Keys, DiskKeys, Unread, Kept;
    RecoverSplit(files, capacity, fate);
    KeptBound(files, fate.unreadable, n);
    NextAboveAll(1, fate.listed, Kept(files, fate.unreadable));
  }

  lemma BootCutKeeps(s: State, e: Event, n: nat)
    requires Sound(s) && Fits(s, n) && s.power.Off? && e.BootCut?
    ensures Sound(BootCutStep(s, e)) && Fits(BootCutStep(s, e), n)
  {
    hide KeyFor, Keys, SavedOk, Unread, IndexOf, DiskKeys, Kept;
    var unreadable := e.recovery.unreadable;
    var index := IndexOf(s.files, Kept(s.files, unreadable));
    var s' := BootCutStep(s, e);
    FewerFiles(s.files, s'.files, n);
    if CutPoint(s.files, Size(e.capacity), unreadable, e.erased, e.drops) {
      DiskSplit(s.files, unreadable, index, e.drops);
      CutDisk(s.files, unreadable, index, e.erased, e.drops);
      assert Secure(s) <= Secure(s');
    }
  }

  lemma CutDisk(files: Files, unreadable: set<RecordId>, index: seq<Entry>, erased: set<RecordId>, d: nat)
    requires index == IndexOf(files, Kept(files, unreadable)) && d <= |index|
    requires erased <= Discards(files, unreadable)
    ensures Keys(index[d..], files) <= DiskKeys(files - erased - Ids(index[..d]))
  {
    hide IndexOf, Stored;
    IndexFacts(files, Kept(files, unreadable));
    OrderedParts(index, d);
    var f := files - erased - Ids(index[..d]);
    forall e | e in index[d..] && KeyFor(files, e.id).Some?
      ensures e.id in f && KeyFor(f, e.id) == KeyFor(files, e.id)
    {
      assert e.id in Ids(index[d..]) && e.id in Kept(files, unreadable);
    }
  }

  // ---- every step, every run ----

  /** Each event keeps the gateway sound and uses at most one more id. */
  lemma StepKeeps(s: State, e: Event, n: nat)
    requires Sound(s) && Fits(s, n) && n + 1 < U64_MAX
    ensures Sound(Step(s, e)) && Fits(Step(s, e), n + 1)
  {
    hide Sound, Fits, ReceiveStep, EnterStep, EnterCutStep, RespondStep, FinishStep, FinishCutStep, BootStep,
         BootCutStep, AcknowledgeStep, Peek, FinishEnabled, AnsweredDecode, NewKey, Listing;
    FitsMore(s, n);
    FitsMore(Step(s, e), n);
    match e
    case Receive(_, _, _, _, _) =>
      if s.power.On? && s.power.radio.Listening? { ReceiveKeeps(s, e, n); }
    case Enter(fate) =>
      if s.power.On? && s.power.radio.Checked? && s.power.q.capacity > 0 { EnterKeeps(s, fate, n); }
    case EnterCut(fate, after) =>
      if s.power.On? && s.power.radio.Checked? && s.power.q.capacity > 0 { EnterCutKeeps(s, fate, after, n); }
    case Acknowledge(sent) =>
      if s.power.On? && ((s.power.radio.Checked? && s.power.radio.duplicate) || s.power.radio.Committed?) {
        AcknowledgeKeeps(s, sent, n);
      }
    case TakeBatch(limit, unreadable) =>
      if s.power.On? && Peek(s.power.q, s.files, limit, unreadable).Some? { TakeBatchKeeps(s, limit, unreadable, n); }
    case Respond(_, _) =>
      if s.power.On? && s.power.upload.Batched? { RespondKeeps(s, e, n); }
    case Finish(stuck, saved) =>
      if FinishEnabled(s) {
        FinishKeeps(s, stuck, saved, n);
        AnsweredOn(s);
        BatchActions(s);
      }
    case FinishCut(stuck, after) =>
      if FinishEnabled(s) { FinishCutKeeps(s, stuck, after, n); }
    case PowerLoss => PowerLossKeeps(s, n);
    case Boot(_, recovery, _, _) =>
      if s.power.Off? && Listing(s.files, recovery.listed) { BootKeeps(s, e, n); }
    case BootCut(_, _, _, _) =>
      if s.power.Off? { BootCutKeeps(s, e, n); }
  }

  lemma FitsMore(s: State, n: nat)
    ensures Fits(s, n) ==> Fits(s, n + 1)
  {
    hide KeyFor;
  }

  lemma AnsweredOn(s: State)
    requires FinishEnabled(s)
    ensures s.power.On? && s.power.upload.Answered?
  {
  }

  lemma InitialSound(s: State)
    requires Initial(s)
    ensures Sound(s)
  {
  }

  lemma {:induction false} RunAppend(s: State, a: seq<Event>, b: seq<Event>)
    ensures Run(s, a + b) == Run(Run(s, a), b)
    decreases |a|
  {
    hide Step;
    if a == [] {
      assert a + b == b;
    } else {
      assert (a + b)[0] == a[0] && (a + b)[1..] == a[1..] + b;
      RunAppend(Step(s, a[0]), a[1..], b);
    }
  }

  lemma RunNone(s: State)
    ensures Run(s, []) == s
  {
  }

  lemma RunOne(s: State, e: Event)
    ensures Run(s, [e]) == Step(s, e)
  {
    hide Step;
    assert Run(Step(s, e), []) == Step(s, e);
  }

  lemma RunTwo(s: State, a: Event, b: Event)
    ensures Run(s, [a, b]) == Step(Step(s, a), b)
  {
    hide Step, Run;
    assert [a] + [b] == [a, b];
    RunAppend(s, [a], [b]);
    RunOne(s, a);
    RunOne(Step(s, a), b);
  }

  lemma RunThree(s: State, a: Event, b: Event, c: Event)
    ensures Run(s, [a, b, c]) == Step(Step(Step(s, a), b), c)
  {
    hide Step;
    assert [a, b, c][1..] == [b, c] && [b, c][1..] == [c] && [c][1..] == [];
    var s1 := Step(s, a);
    var s2 := Step(s1, b);
    assert Run(s2, [c]) == Run(Step(s2, c), []);
    assert Run(s1, [b, c]) == Run(s2, [c]);
  }

  lemma WorkingEnqueue(q: Core, files: Files, r: QueueRecord)
    requires Inv(q, files) && Admissible(q, r)
    ensures q.capacity > 0 && Enqueue(q, files, r, WORKING).ok
  {
    hide Inv, EncodeRecord, DecodeTelemetry, KeyHash, Encodable;
    InvBounds(q, files);
  }

  lemma SoundQueue(s: State)
    requires Sound(s) && s.power.On?
    ensures Inv(s.power.q, s.files)
  {
    hide Inv, SavedOk, RingOk, RadioOk, UploadOk, Secure;
  }

  /** The invariant holds after every run short enough not to exhaust the 64-bit ids. */
  lemma {:induction false} RunKeeps(s: State, run: seq<Event>, n: nat)
    requires Sound(s) && Fits(s, n) && n + |run| < U64_MAX
    ensures Sound(Run(s, run)) && Fits(Run(s, run), n + |run|)
    decreases |run|
  {
    hide Sound, Fits, Step;
    if run != [] {
      StepKeeps(s, run[0], n);
      RunKeeps(Step(s, run[0]), run[1..], n + 1);
    }
  }

  /** From any queue files and a ring file that lists no unfinished reading, through any
      interleaving of frames, uploads, storage failures, power losses and boots: a key ever
      acknowledged is still committed (and indexed while running), or the backend gave it a
      terminal result, or its last committed record was given up by drop-oldest or as
      unreadable at a boot. */
  lemma NoAckedReadingLost(s: State, run: seq<Event>, n: nat, k: TelemetryKey)
    requires Initial(s) && Bounded(s.files, n) && n + |run| < U64_MAX
    requires k in Run(s, run).acked
    ensures var end := Run(s, run);
            k in Live(end) || k in end.terminal || k in end.evicted || k in end.discarded
  {
    hide KeyFor, Run;
    InitialSound(s);
    RunKeeps(s, run, n);
  }

  lemma {:induction false} ReadableBootsDiscardNothing(s: State, run: seq<Event>)
    requires forall e | e in run :: ReadableBoot(e)
    ensures Run(s, run).discarded <= s.discarded
    decreases |run|
  {
    hide Step, ReadableBoot;
    if run != [] {
      assert run[0] in run && forall e | e in run[1..] :: e in run;
      StepDiscards(s, run[0]);
      ReadableBootsDiscardNothing(Step(s, run[0]), run[1..]);
    }
  }

  lemma StepDiscards(s: State, e: Event)
    requires ReadableBoot(e)
    ensures Step(s, e).discarded <= s.discarded
  {
    hide FinishAll, Enqueue, Recover, Peek, Contains, DecodeTelemetry, BackendContract.Parse, BackendContract.InRange,
         KeyFor, Keys, AnsweredKeys, Actions, IndexOf, CutPoint, RingLoads;
    assert Unread(s.files, {}) == {};
  }

  /** When committed files read back at every start, an acknowledged reading is on
      flash, has its terminal result, or was the oldest when room ran out. */
  lemma AckedReadingsSurvive(s: State, run: seq<Event>, n: nat, k: TelemetryKey)
    requires Initial(s) && Bounded(s.files, n) && n + |run| < U64_MAX
    requires (forall e | e in run :: ReadableBoot(e)) && k in Run(s, run).acked
    ensures var end := Run(s, run);
            k in Live(end) || k in end.terminal || k in end.evicted
  {
    hide KeyFor, Run, ReadableBoot, Live;
    NoAckedReadingLost(s, run, n, k);
    ReadableBootsDiscardNothing(s, run);
  }
}
