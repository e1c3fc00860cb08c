/** When the index is exact, and when queued readings are distinct. */
module GatewayDistinct {
  import opened Words
  import opened Protocol
  import opened TelemetryKeys
  import opened RecentKeys
  import opened QueueRecords
  import opened QueueCore
  import opened QueueEnqueue
  import opened QueueRecovery
  import opened QueueQueries
  import opened QueueFinish
  import opened Gateway
  import opened GatewaySafety
  import BackendContract

  // ---- the index is exact unless a start leaves a stray record ----

  /** The start leaves a valid record outside its index: it could neither read nor erase
      it, and the record does not have the next id. */
  ghost predicate Strays(s: State, e: Event) {
    e.Boot? && s.power.Off? && Listing(s.files, e.recovery.listed) &&
    exists id: RecordId :: IsStray(s.files, e.recovery, id)
  }

  ghost predicate IsStray(files: Files, fate: RecoverFate, id: RecordId) {
    KeyFor(files, id).Some? && id in fate.unreadable && id in fate.stuck &&
    id != NextAfter(1, fate.listed, Kept(files, fate.unreadable))
  }

  /** No start of the run leaves a stray record. */
  ghost predicate NoStrays(s: State, run: seq<Event>)
    decreases |run|
  {
    run == [] || (!Strays(s, run[0]) && NoStrays(Step(s, run[0]), run[1..]))
  }

  ghost predicate Exact(s: State) {
    s.power.On? ==> Tidy(s.power.q, s.files)
  }

  lemma EnterExact(s: State, fate: EnqueueFate)
    requires Sound(s) && Exact(s) && s.power.On? && s.power.radio.Checked? && s.power.q.capacity > 0
    ensures Exact(EnterStep(s, fate))
  {
    hide DecodeTelemetry, KeyFor, Inv, Tidy, Keys, SavedOk, RingOk, RadioOk, UploadOk, NewKey, Effect,
         Admissible, Enqueue, NewBytes, Stored, KeyHash;
    EnqueueKeeps(s.power.q, s.files, s.power.radio.record, fate);
  }

  lemma FinishExact(s: State, stuck: set<RecordId>, saved: bool)
    requires Sound(s) && Exact(s) && FinishEnabled(s)
    ensures Exact(FinishStep(s, stuck, saved))
  {
    hide Inv, Tidy, KeyFor, Keys, RingOk, SavedOk, RadioOk, BatchOk, ActionOk, FinishAll, Actions, RecentFile,
         AnsweredKeys, AnsweredDecode, BackendContract.InRange, BackendContract.DistinctIndices;
    AnsweredOn(s);
    var p := s.power;
    BatchActions(s);
    FinishAllKeeps(p.q, s.files, p.recent, Actions(p.upload.batch, p.upload.results), stuck, s.terminal);
  }

  /** A start that completes leaves an exact index exactly when it leaves no stray. */
  lemma BootExactIff(s: State, e: Event)
    requires s.power.Off? && e.Boot? && Listing(s.files, e.recovery.listed) && BootStep(s, e).power.On?
    ensures Exact(BootStep(s, e)) <==> !Strays(s, e)
  {
    hide Tidy, KeyFor, Keys, DiskKeys, Unread, LoadedRing, Kept, IndexOf, Listing, NextAfter;
    RecoverTidyIff(s.files, Size(e.capacity), e.recovery);
    StraysIff(s.files, e.recovery);
  }

  lemma StraysIff(files: Files, fate: RecoverFate)
    ensures (exists id: RecordId :: IsStray(files, fate, id)) <==>
            !(forall id | KeyFor(files, id).Some? && id in fate.unreadable && id in fate.stuck ::
                id == NextAfter(1, fate.listed, Kept(files, fate.unreadable)))
  {
    hide KeyFor, NextAfter, Kept;
    if id: RecordId :| KeyFor(files, id).Some? && id in fate.unreadable && id in fate.stuck &&
                       id != NextAfter(1, fate.listed, Kept(files, fate.unreadable)) {
      assert IsStray(files, fate, id);
    }
  }

  lemma StepExact(s: State, e: Event)
    requires Sound(s) && Exact(s) && !Strays(s, e)
    ensures Exact(Step(s, e))
  {
    hide Sound, EnterStep, FinishStep, BootStep, Peek, FinishEnabled, AnsweredDecode, Listing, Tidy, NewKey,
         Strays, Contains, Knows, DecodeTelemetry, BackendContract.Parse, BackendContract.InRange, AnsweredKeys,
         Actions, FinishAll, Given, CutPoint;
    match e
    case Enter(fate) =>
      if s.power.On? && s.power.radio.Checked? && s.power.q.capacity > 0 { EnterExact(s, fate); }
    case Finish(stuck, saved) =>
      if FinishEnabled(s) { FinishExact(s, stuck, saved); AnsweredOn(s); }
    case FinishCut(stuck, after) =>
      if FinishEnabled(s) { AnsweredOn(s); }
    case Boot(_, recovery, _, _) =>
      if s.power.Off? && Listing(s.files, recovery.listed) && BootStep(s, e).power.On? { BootExactIff(s, e); }
    case _ =>
  }

  lemma {:induction false} RunExact(s: State, run: seq<Event>, n: nat)
    requires Sound(s) && Fits(s, n) && Exact(s) && n + |run| < U64_MAX && NoStrays(s, run)
    ensures Exact(Run(s, run))
    decreases |run|
  {
    hide Sound, Fits, Exact, Step, Strays;
    if run != [] {
      StepKeeps(s, run[0], n);
      StepExact(s, run[0]);
      RunExact(Step(s, run[0]), run[1..], n + 1);
    }
  }

  /** From any flash, over every run in which no start leaves a stray record, whatever
      else fails: the index is increasing, bounded, below the next id and backed by its
      files, and any other valid record sits exactly at the next id. */
  lemma IndexIsExact(s: State, run: seq<Event>, n: nat)
    requires Initial(s) && Bounded(s.files, n) && n + |run| < U64_MAX && NoStrays(s, run)
    ensures var end := Run(s, run);
            end.power.On? ==> Inv(end.power.q, end.files) && Tidy(end.power.q, end.files)
  {
    hide KeyFor, Run, NoStrays, Inv, Tidy;
    InitialSound(s);
    RunKeeps(s, run, n);
    RunExact(s, run, n);
  }

  /** In particular when every start can read the committed files, or erase what it
      cannot read. */
  predicate NothingLeft(e: Event) {
    e.Boot? ==> e.recovery.unreadable * e.recovery.stuck == {}
  }

  lemma {:induction false} NothingLeftStrays(s: State, run: seq<Event>)
    requires forall e | e in run :: NothingLeft(e)
    ensures NoStrays(s, run)
    decreases |run|
  {
    hide Step, KeyFor, NextAfter, Listing;
    if run != [] {
      assert run[0] in run && forall e | e in run[1..] :: e in run;
      if run[0].Boot? { NothingLeftIsStray(s.files, run[0].recovery); }
      NothingLeftStrays(Step(s, run[0]), run[1..]);
    }
  }

  lemma NothingLeftIsStray(files: Files, fate: RecoverFate)
    requires fate.unreadable * fate.stuck == {}
    ensures forall id: RecordId :: !IsStray(files, fate, id)
  {
    hide KeyFor, NextAfter;
    assert forall id: RecordId :: !(id in fate.unreadable && id in fate.stuck) by {
      forall id: RecordId
        ensures !(id in fate.unreadable && id in fate.stuck)
      {
        assert id !in fate.unreadable * fate.stuck;
      }
    }
  }

  // ---- a lookup that misses a queued reading ----

  /** For keys the gateway builds, a lookup finds exactly the queued readings that have a
      readable record. */
  lemma ContainsIff(q: Core, files: Files, k: TelemetryKey, unreadable: set<RecordId>)
    requires Inv(q, files) && Proper(k)
    ensures Contains(q, files, k, unreadable) <==>
            exists e :: e in q.entries && KeyFor(files, e.id) == Some(k) && e.id !in unreadable
  {
    hide KeyFor, KeyIn, KeyHash, KeyEqual, Inv, DecodeRecord, EncodeRecord, DecodeTelemetry, Proper;
    if Contains(q, files, k, unreadable) {
      var i :| 0 <= i < |q.entries| && Answers(files, q.entries[i], k, unreadable);
      EntryFile(q, files, q.entries[i]);
      ProperEqual(KeyFor(files, q.entries[i].id).value, k);
    }
    if e :| e in q.entries && KeyFor(files, e.id) == Some(k) && e.id !in unreadable {
      EntryFile(q, files, e);
      ProperEqual(k, k);
      var i :| 0 <= i < |q.entries| && q.entries[i] == e;
      assert Answers(files, q.entries[i], k, unreadable);
    }
  }

  /** The key of a frame that passes the gate. */
  ghost function Offered(e: Event): (k: Option<TelemetryKey>)
    requires e.Receive?
  {
    match DecodeTelemetry(e.frame)
    case Rejected(_) => None
    case Accepted(p) =>
      if e.pairing || e.pairedId == [] || p.nodeId != e.pairedId then None else Some(KeyOf(p))
  }

  /** The reading is queued, the ring does not know it, and none of its records reads. */
  ghost predicate Missed(s: State, e: Event) {
    e.Receive? && s.power.On? && s.power.radio.Listening? && Offered(e).Some? &&
    var k := Offered(e).value;
    !Knows(s.power.recent, k) && k in Keys(s.power.q.entries, s.files) &&
    forall x | x in s.power.q.entries && KeyFor(s.files, x.id) == Some(k) :: x.id in e.unreadable
  }

  /** The gateway takes a queued reading for new exactly then. */
  lemma MissedIff(s: State, e: Event)
    requires Sound(s) && s.power.On? && s.power.radio.Listening? && e.Receive? && Offered(e).Some?
    ensures var t, k := ReceiveStep(s, e), Offered(e).value;
            t.power.On? && t == s.(power := s.power.(radio := t.power.radio)) &&
            t.power.radio.Checked? && NewKey(t.power.radio.record) == k && Proper(k) &&
            t.power.radio.record == QueueRecord(0, e.reception, e.frame) &&
            (Missed(s, e) <==> !t.power.radio.duplicate && k in Keys(s.power.q.entries, s.files))
  {
    hide DecodeTelemetry, KeyOf, Proper, KeyFor, Inv, Knows, SavedOk, RingOk, RadioOk, UploadOk, NewKey,
         Contains;
    FrameKey(e.frame, e.reception);
    ContainsIff(s.power.q, s.files, Offered(e).value, e.unreadable);
  }

  // ---- distinct readings ----

  /** No two files hold the same reading. */
  ghost predicate DistinctFiles(files: Files) {
    forall a: RecordId, b: RecordId | a != b && KeyFor(files, a).Some? && KeyFor(files, b).Some? ::
      KeyFor(files, a) != KeyFor(files, b)
  }

  /** Distinct readings, the leftover of a failed undo included, and a frame found to be
      new is still new. */
  ghost predicate Unique(s: State) {
    DistinctFiles(s.files) &&
    (s.power.On? && s.power.radio.Checked? && !s.power.radio.duplicate ==>
       NewKey(s.power.radio.record) !in Keys(s.power.q.entries, s.files))
  }

  lemma FewerDistinct(files: Files, fewer: Files)
    requires DistinctFiles(files) && forall id | id in fewer :: id in files && fewer[id] == files[id]
    ensures DistinctFiles(fewer)
  {
    hide Stored;
    SameFiles(files, fewer);
    assert forall id | KeyFor(fewer, id).Some? :: id in fewer && KeyFor(files, id) == KeyFor(fewer, id);
    hide KeyFor;
  }

  /** A new record at the next id cannot collide: anything else valid is indexed, and
      its key was looked up. */
  lemma NextDistinct(q: Core, files: Files, f: Files, bytes: seq<byte>, k: TelemetryKey)
    requires Inv(q, files) && Tidy(q, files) && DistinctFiles(files) && q.next != 0
    requires Stored(q.next, bytes) == Some(k) && k !in Keys(q.entries, files)
    requires forall id: RecordId | id in f && id != q.next :: id in files && f[id] == files[id]
    requires q.next in f ==> f[q.next] == bytes || (q.next in files && f[q.next] == files[q.next])
    ensures DistinctFiles(f)
  {
    hide Stored, KeyHash;
    forall id: RecordId | KeyFor(f, id).Some? && id != q.next
      ensures KeyFor(files, id) == KeyFor(f, id) && KeyFor(f, id).value in Keys(q.entries, files)
    {
      assert id in Ids(q.entries);
      var e :| e in q.entries && e.id == id;
    }
    assert q.next in f ==> KeyFor(f, q.next) == Some(k) ||
                           (q.next in files && KeyFor(f, q.next) == KeyFor(files, q.next));
    hide KeyFor, Inv, Keys;
  }

  lemma EffectElsewhere(q: Core, files: Files, run: EnqueueRun, bytes: seq<byte>, hash: u64)
    requires Effect(q, files, run, bytes, hash)
    ensures forall id: RecordId | id in run.files && id != q.next :: id in files && run.files[id] == files[id]
    ensures q.next in run.files ==>
              run.files[q.next] == bytes || (q.next in files && run.files[q.next] == files[q.next])
  {
    forall id: RecordId | id in run.files && id != q.next
      ensures id in files && run.files[id] == files[id]
    {
      assert id in run.files - {q.next};
      assert (run.files - {q.next})[id] == (files - {q.next} - Ids(run.dropped))[id];
    }
  }

  lemma EnterUnique(s: State, fate: EnqueueFate)
    requires Sound(s) && Exact(s) && Unique(s) && s.power.On? && s.power.q.capacity > 0
    requires s.power.radio.Checked? && !s.power.radio.duplicate
    ensures Unique(EnterStep(s, fate))
  {
    hide DecodeTelemetry, EncodeRecord, Stored, Proper, KeyFor, KeyHash, Inv, Tidy, Keys, SavedOk, RingOk,
         BatchOk, NewKey, Effect, Admissible, Enqueue, DistinctFiles;
    var q, r := s.power.q, s.power.radio.record;
    var run := Enqueue(q, s.files, r, fate);
    EnqueueKeeps(q, s.files, r, fate);
    if Admissible(q, r) {
      NextOf(q, r);
      EffectElsewhere(q, s.files, run, NewBytes(q, r), KeyHash(NewKey(r)));
      NextDistinct(q, s.files, run.files, NewBytes(q, r), NewKey(r));
    }
  }

  lemma EnterCutUnique(s: State, fate: EnqueueFate, after: nat)
    requires Sound(s) && Exact(s) && Unique(s) && s.power.On? && s.power.q.capacity > 0
    requires s.power.radio.Checked? && !s.power.radio.duplicate
    ensures Unique(EnterCutStep(s, fate, after))
  {
    hide DecodeTelemetry, EncodeRecord, Stored, Proper, KeyFor, KeyHash, Inv, Tidy, Keys, SavedOk, RingOk,
         BatchOk, NewKey, Effect, Admissible, Enqueue, DistinctFiles, Interrupted, Given;
    var q, r := s.power.q, s.power.radio.record;
    var run := Enqueue(q, s.files, r, fate);
    EnqueueKeeps(q, s.files, r, fate);
    if after < |run.trace| && Admissible(q, r) {
      NextOf(q, r);
      EnterTrace(q, s.files, r, fate, run.trace[after]);
      InterruptedElsewhere(q, s.files, NewBytes(q, r), run.trace[after]);
      NextDistinct(q, s.files, run.trace[after], NewBytes(q, r), NewKey(r));
    }
  }

  lemma InterruptedElsewhere(q: Core, files: Files, bytes: seq<byte>, f: Files)
    requires q.next != 0 && Interrupted(q, files, bytes, f)
    ensures forall id: RecordId | id in f && id != q.next :: id in files && f[id] == files[id]
    ensures q.next in f ==> f[q.next] == bytes || (q.next in files && f[q.next] == files[q.next])
  {
  }

  lemma ReceiveUnique(s: State, e: Event)
    requires Sound(s) && Unique(s) && e.Receive? && !Missed(s, e) && s.power.On? && s.power.radio.Listening?
    ensures Unique(ReceiveStep(s, e))
  {
    hide DecodeTelemetry, KeyOf, Keys, Contains, Knows, NewKey, DistinctFiles, Sound, Missed;
    if Offered(e).Some? { MissedIff(s, e); }
  }

  lemma FinishUnique(s: State, stuck: set<RecordId>, saved: bool, after: nat)
    requires Sound(s) && Unique(s) && s.power.On? && s.power.upload.Answered? && FinishEnabled(s)
    ensures Unique(FinishStep(s, stuck, saved)) && Unique(FinishCutStep(s, stuck, after))
  {
    hide Inv, Tidy, KeyFor, Keys, RingOk, SavedOk, BatchOk, NewKey, ActionOk, FinishAll, Actions, RecentFile,
         AnsweredKeys, Proper, DecodeTelemetry, DistinctFiles;
    var p := s.power;
    var actions := Actions(p.upload.batch, p.upload.results);
    var done := if after < |actions| then actions[..after] else actions;
    BatchActions(s);
    assert forall a | a in done :: a in actions;
    FinishAllKeeps(p.q, s.files, p.recent, actions, stuck, s.terminal);
    FinishAllKeeps(p.q, s.files, p.recent, done, stuck, s.terminal);
    FewerDistinct(s.files, FinishAll(p.q, s.files, p.recent, actions, stuck).files);
    FewerDistinct(s.files, FinishAll(p.q, s.files, p.recent, done, stuck).files);
  }

  lemma BootUnique(s: State, e: Event)
    requires Unique(s) && s.power.Off? && (e.Boot? || e.BootCut?)
    ensures e.Boot? ==> Unique(BootStep(s, e))
    ensures e.BootCut? ==> Unique(BootCutStep(s, e))
  {
    hide KeyFor, Keys, DiskKeys, Unread, LoadedRing, Kept, IndexOf, DistinctFiles, NewKey, RingLoads, Discards;
    if e.Boot? {
      RecoverFiles(s.files, Size(e.capacity), e.recovery);
      FewerDistinct(s.files, BootStep(s, e).files);
    } else {
      FewerDistinct(s.files, BootCutStep(s, e).files);
    }
  }

  lemma StepUnique(s: State, e: Event)
    requires Sound(s) && Exact(s) && Unique(s) && !Missed(s, e)
    ensures Unique(Step(s, e))
  {
    hide Sound, Exact, Missed, ReceiveStep, EnterStep, EnterCutStep, FinishStep, FinishCutStep, BootStep,
         BootCutStep, Peek, FinishEnabled, AnsweredDecode, NewKey, Listing, Keys, DistinctFiles, AnsweredKeys,
         BackendContract.Parse, BackendContract.InRange;
    match e
    case Receive(_, _, _, _, _) =>
      if s.power.On? && s.power.radio.Listening? { ReceiveUnique(s, e); }
    case Enter(fate) =>
      if s.power.On? && s.power.radio.Checked? && !s.power.radio.duplicate && s.power.q.capacity > 0 {
        EnterUnique(s, fate);
      }
    case EnterCut(fate, after) =>
      if s.power.On? && s.power.radio.Checked? && !s.power.radio.duplicate && s.power.q.capacity > 0 {
        EnterCutUnique(s, fate, after);
      }
    case Finish(stuck, saved) =>
      if FinishEnabled(s) { AnsweredOn(s); FinishUnique(s, stuck, saved, 0); }
    case FinishCut(stuck, after) =>
      if FinishEnabled(s) { AnsweredOn(s); FinishUnique(s, stuck, true, after); }
    case Boot(_, recovery, _, _) =>
      if s.power.Off? && Listing(s.files, recovery.listed) { BootUnique(s, e); }
    case BootCut(_, _, _, _) =>
      if s.power.Off? { BootUnique(s, e); }
    case _ =>
  }

  /** No lookup of the run misses a queued reading. */
  ghost predicate NoneMissed(s: State, run: seq<Event>)
    decreases |run|
  {
    run == [] || (!Missed(s, run[0]) && NoneMissed(Step(s, run[0]), run[1..]))
  }

  lemma {:induction false} RunUnique(s: State, run: seq<Event>, n: nat)
    requires Sound(s) && Fits(s, n) && Exact(s) && Unique(s) && n + |run| < U64_MAX
    requires NoStrays(s, run) && NoneMissed(s, run)
    ensures Unique(Run(s, run))
    decreases |run|
  {
    hide Sound, Fits, Exact, Unique, Step, Strays, Missed;
    if run != [] {
      StepKeeps(s, run[0], n);
      StepExact(s, run[0]);
      StepUnique(s, run[0]);
      RunUnique(Step(s, run[0]), run[1..], n + 1);
    }
  }

  /** From flash without duplicates, over every run whose starts leave no stray record and
      whose lookups miss no queued reading, no two committed records ever hold the same
      reading. */
  lemma DistinctUnlessMissed(s: State, run: seq<Event>, n: nat)
    requires Initial(s) && Bounded(s.files, n) && DistinctFiles(s.files) && n + |run| < U64_MAX
    requires NoStrays(s, run) && NoneMissed(s, run)
    ensures DistinctFiles(Run(s, run).files)
  {
    hide KeyFor, Run, NoStrays, DistinctFiles, NoneMissed;
    InitialSound(s);
    RunUnique(s, run, n);
  }

  /** Lookups and recoveries that can read every file. */
  predicate Clean(e: Event) {
    match e
    case Receive(_, _, _, _, unreadable) => unreadable == {}
    case _ => ReadableBoot(e)
  }

  lemma {:induction false} CleanMissesNothing(s: State, run: seq<Event>)
    requires forall e | e in run :: Clean(e)
    ensures NoneMissed(s, run)
    decreases |run|
  {
    hide Step, Missed, Clean;
    if run != [] {
      assert run[0] in run && forall e | e in run[1..] :: e in run;
      CleanFinds(s, run[0]);
      CleanMissesNothing(Step(s, run[0]), run[1..]);
    }
  }

  lemma CleanFinds(s: State, e: Event)
    requires Clean(e)
    ensures !Missed(s, e)
  {
    hide KeyFor, DecodeTelemetry, KeyOf, Knows;
  }

  /** In particular when every read succeeds; then nothing is discarded and the index is
      exact as well. */
  lemma QueuedKeysDistinct(s: State, run: seq<Event>, n: nat)
    requires Initial(s) && Bounded(s.files, n) && DistinctFiles(s.files) && n + |run| < U64_MAX
    requires forall e | e in run :: Clean(e)
    ensures var end := Run(s, run);
            DistinctFiles(end.files) && end.discarded == {} &&
            (end.power.On? ==> Inv(end.power.q, end.files) && Tidy(end.power.q, end.files))
  {
    hide KeyFor, Run, DistinctFiles, Inv, Tidy, NoneMissed, NoStrays;
    CleanMissesNothing(s, run);
    NothingLeftStrays(s, run);
    DistinctUnlessMissed(s, run, n);
    IndexIsExact(s, run, n);
    ReadableBootsDiscardNothing(s, run);
  }

  // ---- exactly when a reading is stored twice ----

  /** A successful enqueue stores a reading a second time exactly when its lookup missed
      it and the queue did not give up that very record for room. */
  lemma StoredTwiceIff(s: State, e: Event, fate: EnqueueFate)
    requires Sound(s) && Exact(s) && DistinctFiles(s.files) && s.power.On? && s.power.radio.Listening?
    requires e.Receive? && Offered(e).Some?
    requires s.power.q.capacity > 0 && Enqueue(s.power.q, s.files, QueueRecord(0, e.reception, e.frame), fate).ok
    ensures var q, k := s.power.q, Offered(e).value;
            DistinctFiles(Step(Step(s, e), Enter(fate)).files) <==>
            !Missed(s, e) || (|q.entries| >= q.capacity && KeyFor(s.files, q.entries[0].id) == Some(k))
  {
    hide DecodeTelemetry, Stored, KeyHash, KeyFor, Inv, Tidy, Keys, RadioOk, UploadOk, SavedOk, RingOk, NewKey,
         Effect, Admissible, Enqueue, DistinctFiles, Missed, ReceiveStep, Offered;
    var q, r, k := s.power.q, QueueRecord(0, e.reception, e.frame), Offered(e).value;
    var t, run := ReceiveStep(s, e), Enqueue(q, s.files, r, fate);
    MissedIff(s, e);
    EnqueueKeeps(q, s.files, r, fate);
    NextOf(q, r);
    EffectElsewhere(q, s.files, run, NewBytes(q, r), KeyHash(k));
    if k !in Keys(q.entries, s.files) {
      NextDistinct(q, s.files, run.files, NewBytes(q, r), k);
    } else {
      SecondCopy(q, s.files, run, NewBytes(q, r), KeyHash(k), k);
    }
  }

  /** A record of a queued key has been written at the next id. */
  lemma SecondCopy(q: Core, files: Files, run: EnqueueRun, bytes: seq<byte>, hash: u64, k: TelemetryKey)
    requires Inv(q, files) && Tidy(q, files) && DistinctFiles(files) && Effect(q, files, run, bytes, hash)
    requires run.ok && Stored(q.next, bytes) == Some(k) && k in Keys(q.entries, files)
    ensures DistinctFiles(run.files) <==> |q.entries| >= q.capacity && KeyFor(files, q.entries[0].id) == Some(k)
  {
    hide Stored, KeyHash, KeyFor, Inv, Tidy, DistinctFiles;
    var e :| e in q.entries && KeyFor(files, e.id) == Some(k);
    InvBounds(q, files);
    NextKey(run.files, q.next, bytes);
    if |q.entries| >= q.capacity && KeyFor(files, q.entries[0].id) == Some(k) {
      HeadReplaced(q, files, run, bytes, hash, k);
    } else {
      Survivors(q, files, run, bytes, hash);
      assert e in q.entries[|run.dropped|..];
      SameFiles(files, run.files);
      TwoCopies(run.files, e.id, q.next, k);
    }
  }

  lemma TwoCopies(files: Files, a: RecordId, b: RecordId, k: TelemetryKey)
    requires a != b && KeyFor(files, a) == Some(k) == KeyFor(files, b)
    ensures !DistinctFiles(files)
  {
    hide KeyFor;
  }

  lemma HeadReplaced(q: Core, files: Files, run: EnqueueRun, bytes: seq<byte>, hash: u64, k: TelemetryKey)
    requires Inv(q, files) && DistinctFiles(files) && Effect(q, files, run, bytes, hash) && run.ok
    requires Stored(q.next, bytes) == Some(k)
    requires |q.entries| >= q.capacity > 0 && KeyFor(files, q.entries[0].id) == Some(k)
    ensures DistinctFiles(run.files)
  {
    hide Stored, KeyHash, Inv;
    var head := q.entries[0];
    InvBounds(q, files);
    assert head in q.entries && head in run.dropped && head.id in Ids(run.dropped);
    EffectElsewhere(q, files, run, bytes, hash);
    assert head.id !in run.files by { assert head.id !in run.files - {q.next}; }
    hide Effect, Ids;
    forall id: RecordId | KeyFor(run.files, id).Some? && id != q.next
      ensures KeyFor(files, id) == KeyFor(run.files, id) && KeyFor(files, id) != Some(k)
    {
    }
    assert KeyFor(run.files, q.next) == Some(k);
    hide KeyFor;
  }

  /** A stray record is not indexed, so its reading is stored again when it comes again. */
  lemma StrayStoredTwice(s: State, e: Event, fate: EnqueueFate, stray: RecordId)
    requires Sound(s) && s.power.On? && s.power.radio.Listening? && e.Receive? && Offered(e).Some?
    requires KeyFor(s.files, stray) == Offered(e) && stray !in Ids(s.power.q.entries) && stray != s.power.q.next
    requires !Knows(s.power.recent, Offered(e).value) && Offered(e).value !in Keys(s.power.q.entries, s.files)
    requires s.power.q.capacity > 0 && Enqueue(s.power.q, s.files, QueueRecord(0, e.reception, e.frame), fate).ok
    ensures !DistinctFiles(Step(Step(s, e), Enter(fate)).files)
  {
    hide DecodeTelemetry, Stored, KeyHash, KeyFor, Inv, Tidy, Keys, RadioOk, UploadOk, SavedOk, RingOk, NewKey,
         Effect, Admissible, Enqueue, DistinctFiles, Knows, Contains, Offered, Proper, KeyOf, Ids;
    var q, r, k := s.power.q, QueueRecord(0, e.reception, e.frame), Offered(e).value;
    var run := Enqueue(q, s.files, r, fate);
    MissedIff(s, e);
    TakenForNew(s, e);
    EnqueueKeeps(q, s.files, r, fate);
    NextOf(q, r);
    StrayStays(q, s.files, run, NewBytes(q, r), KeyHash(k), stray);
    NextKey(run.files, q.next, NewBytes(q, r));
    TwoCopies(run.files, stray, q.next, k);
  }

  lemma TakenForNew(s: State, e: Event)
    requires Sound(s) && s.power.On? && s.power.radio.Listening? && e.Receive? && Offered(e).Some?
    requires !Knows(s.power.recent, Offered(e).value) && Offered(e).value !in Keys(s.power.q.entries, s.files)
    ensures Step(s, e).power.On? && Step(s, e).power.radio.Checked? && !Step(s, e).power.radio.duplicate
  {
    hide DecodeTelemetry, KeyFor, Inv, RadioOk, UploadOk, SavedOk, RingOk, Knows, Contains, Proper, KeyOf, Keys;
    FrameKey(e.frame, e.reception);
    ContainsKeys(s.power.q, s.files, Offered(e).value, e.unreadable);
  }

  lemma StrayStays(q: Core, files: Files, run: EnqueueRun, bytes: seq<byte>, hash: u64, stray: RecordId)
    requires Inv(q, files) && Effect(q, files, run, bytes, hash) && run.ok
    requires KeyFor(files, stray).Some? && stray !in Ids(q.entries) && stray != q.next
    ensures KeyFor(run.files, stray) == KeyFor(files, stray)
    ensures q.next in run.files && run.files[q.next] == bytes
  {
    hide Inv, KeyFor;
    SameFiles(files, run.files);
    assert forall x | x in run.dropped :: x in q.entries;
    assert stray in files - {q.next} - Ids(run.dropped);
    assert (run.files - {q.next})[stray] == (files - {q.next} - Ids(run.dropped))[stray];
  }
}
