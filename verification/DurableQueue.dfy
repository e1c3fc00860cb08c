/** The queue the two tasks share: the durable core, the ring of recently finished keys
    and the operational counters. */
module DurableQueues {
  import opened Words
  import opened Protocol
  import opened TelemetryKeys
  import opened RecentKeys
  import opened QueueRecords
  import opened QueueCore
  import opened QueueEnqueue
  import opened QueueRecovery
  import opened QueueFinish
  import opened DurableQueueCores

  class DurableQueue {
    const storage: Storage
    const core: DurableQueueCore
    const recent: RecentDeduplicator
    /** The ring file on flash. */
    var ring: Option<seq<byte>>
    var recordsUploaded: nat
    var recordsPermanentlyRejected: nat
    var recordsDroppedOldest: nat
    var recordsDeduplicated: nat
    var uploadRetries: nat
    var filesystemErrors: nat

    /** The parts are separate objects, and the index agrees with the files. */
    ghost predicate Valid()
      reads this, storage, core, recent, recent.keys
    {
      core.storage == storage && recent.Valid() && recent.capacity == RECENT_CAPACITY && core.Valid()
    }

    constructor (storage: Storage, filesystemBytes: u64, ring: Option<seq<byte>>)
      ensures this.storage == storage && fresh(core) && fresh(recent) && fresh(recent.keys)
      ensures Valid() && this.ring == ring && recent.Contents() == []
      ensures core.Value() == Core(DeriveCapacity(filesystemBytes), [], 1)
    {
      this.storage := storage;
      core := new DurableQueueCore(storage, DeriveCapacity(filesystemBytes));
      recent := new RecentDeduplicator(RECENT_CAPACITY);
      this.ring := ring;
      recordsUploaded, recordsPermanentlyRejected, recordsDroppedOldest := 0, 0, 0;
      recordsDeduplicated, uploadRetries, filesystemErrors := 0, 0, 0;
    }

    /** Recover the index, then the ring; a ring that cannot be loaded is dropped. */
    method Begin(listable: bool, fate: RecoverFate, ringReadable: bool, unlinked: bool) returns (ok: bool)
      requires Valid() && core.capacity > 0 && (listable ==> Listing(storage.files, fate.listed))
      modifies this, storage, core, recent, recent.keys
      ensures ok ==> var kept := Kept(old(storage.files), fate.unreadable);
                     (Valid() <==> U64_MAX !in kept || CountedLast(fate.listed, kept))
      ensures recent.Valid() &&
              BeginOutcome(old(storage.files), old(ring), core.capacity, listable, fate, ringReadable, unlinked,
                           core.Value(), storage.files, recent.Contents(), ring, ok)
      ensures ok ==>
                var loads := RingLoads(old(ring), ringReadable);
                filesystemErrors == old(filesystemErrors) + core.storageErrors + core.corruptRecords +
                  (if loads || (old(ring).None? && ringReadable) then 0 else if unlinked then 1 else 2) &&
                recordsDroppedOldest == old(recordsDroppedOldest) + core.droppedOldest
    {
      hide Inv, IndexOf, KeyFor, KeyHash, DecodeRecent, Recover, RememberAll, OnlyCuts, Discards, Kept, Listing,
           RecentDeduplicator.Contents, CountedLast, BeginOutcome, LoadedRing;
      ghost var files := storage.files;
      ok := core.Rebuild(listable, fate);
      if !ok {
        BeginFails(files, ring, core.capacity, listable, fate, ringReadable, unlinked, core.Value(), storage.files,
                   recent.Contents());
        return;
      }
      recordsDroppedOldest := recordsDroppedOldest + core.droppedOldest;
      filesystemErrors := filesystemErrors + core.storageErrors + core.corruptRecords;
      recent.Clear();
      BeginLoads(files, ring, core.capacity, fate, ringReadable, unlinked, core.Value(), storage.files);
      if ring.None? && ringReadable { return; }
      var loaded := false;
      if ringReadable {
        loaded := LoadRecent(ring.value, recent);
      }
      if !loaded {
        recent.Clear();
        filesystemErrors := filesystemErrors + 1;
        if unlinked { ring := None; } else { filesystemErrors := filesystemErrors + 1; }
      }
    }

    method Enqueue(record: QueueRecord, fate: EnqueueFate) returns (persisted: bool, dropped: bool)
      requires Valid()
      modifies this, storage, core
      ensures Valid()
      ensures var run := QueueCore.Enqueue(old(core.Value()), old(storage.files), record, fate);
              persisted == run.ok && dropped == (run.dropped != []) &&
              core.Value() == run.q && storage.files == run.files &&
              recordsDroppedOldest == old(recordsDroppedOldest) + |run.dropped| &&
              filesystemErrors == old(filesystemErrors) + run.errors
      ensures ring == old(ring) && uploadRetries == old(uploadRetries) && recordsUploaded == old(recordsUploaded) &&
              recordsPermanentlyRejected == old(recordsPermanentlyRejected) &&
              recordsDeduplicated == old(recordsDeduplicated)
    {
      hide Inv, QueueCore.Enqueue;
      InvBounds(core.Value(), storage.files);
      var beforeDropped, beforeErrors := core.droppedOldest, core.storageErrors;
      persisted := core.Append(record, fate);
      recordsDroppedOldest := recordsDroppedOldest + (core.droppedOldest - beforeDropped);
      filesystemErrors := filesystemErrors + (core.storageErrors - beforeErrors);
      dropped := core.droppedOldest != beforeDropped;
    }

    /** A reading is known if it was finished lately or is still queued. */
    method Contains(k: TelemetryKey, unreadable: set<RecordId>) returns (found: bool)
      requires Valid()
      modifies this`filesystemErrors, core`storageErrors
      ensures found <==> Knows(recent.Contents(), k) ||
                         QueueCore.Contains(core.Value(), storage.files, k, unreadable)
      ensures filesystemErrors == old(filesystemErrors) +
                (if Knows(recent.Contents(), k) then 0 else Misses(core.entries, storage.files, k, unreadable))
    {
      hide Inv, KeyEqual, QueueCore.Contains, Misses, Knows;
      var beforeErrors := core.storageErrors;
      found := recent.Contains(k);
      if !found { found := core.Holds(k, unreadable); }
      filesystemErrors := filesystemErrors + (core.storageErrors - beforeErrors);
    }

    method RecordDuplicate()
      requires Valid()
      modifies this`recordsDeduplicated
      ensures Valid() && recordsDeduplicated == old(recordsDeduplicated) + 1
    {
      recordsDeduplicated := recordsDeduplicated + 1;
    }

    method RecordUploadRetry()
      requires Valid()
      modifies this`uploadRetries
      ensures Valid() && uploadRetries == old(uploadRetries) + 1
    {
      uploadRetries := uploadRetries + 1;
    }

    method RecordFilesystemError()
      requires Valid()
      modifies this`filesystemErrors
      ensures Valid() && filesystemErrors == old(filesystemErrors) + 1
    {
      filesystemErrors := filesystemErrors + 1;
    }

    method Peek(limit: nat, unreadable: set<RecordId>) returns (records: Option<seq<QueueRecord>>)
      requires Valid()
      modifies core`storageErrors
      ensures records == QueueCore.Peek(core.Value(), storage.files, limit, unreadable)
    {
      hide Inv, QueueCore.Peek;
      records := core.PeekBatch(limit, unreadable);
    }

    /** Remove one answered record and remember its key; a removed record is counted by its
        verdict, any other action as an error. */
    method FinishAction(action: Action, rejected: bool, stuck: set<RecordId>) returns (removed: bool, added: bool)
      requires Valid()
      modifies this, storage, core, recent, recent.keys
      ensures Valid() && old(|recent.Contents()|) <= RECENT_CAPACITY
      ensures FinishRun(core.Value(), storage.files, recent.Contents(), removed, added)
           == FinishOne(FinishRun(old(core.Value()), old(storage.files), old(recent.Contents()), true, false),
                        action, stuck)
      ensures removed <==> action.id != 0 && action.id in Ids(old(core.entries)) && action.id !in stuck
      ensures |core.entries| == old(|core.entries|) - (if removed then 1 else 0)
      ensures recordsUploaded == old(recordsUploaded) + (if removed && !rejected then 1 else 0)
      ensures recordsPermanentlyRejected
           == old(recordsPermanentlyRejected) + (if removed && rejected then 1 else 0)
      ensures filesystemErrors == old(filesystemErrors) + (if removed then 0 else 1)
      ensures ring == old(ring) && recordsDroppedOldest == old(recordsDroppedOldest)
      ensures uploadRetries == old(uploadRetries)
      ensures storage.log == old(storage.log) || storage.log == old(storage.log) + [storage.files]
    {
      hide Inv, Remembered, Knows, Ids, Remove, RecentDeduplicator.Valid, RecentDeduplicator.Contents;
      recent.Fits();
      InvOrdered(core.Value(), storage.files);
      hide Ordered;
      if action.id == 0 {
        filesystemErrors := filesystemErrors + 1;
        return false, false;
      }
      RemoveOne(core.Value(), storage.files, action.id, action.id !in stuck);
      removed := core.RemoveById(action.id, action.id !in stuck);
      if !removed {
        filesystemErrors := filesystemErrors + 1;
        return false, false;
      }
      added := recent.Remember(action.key);
      if rejected {
        recordsPermanentlyRejected := recordsPermanentlyRejected + 1;
      } else {
        recordsUploaded := recordsUploaded + 1;
      }
    }

    /** Remove every answered record, remember its key, then save the ring once. The
        counters account for every action: removed ones by their verdict, the others as
        errors. */
    method Finish(actions: seq<Action>, rejected: seq<bool>, stuck: set<RecordId>, saved: bool)
      returns (success: bool)
      requires Valid() && |rejected| == |actions|
      modifies this, storage, core, recent, recent.keys
      ensures Valid() && old(|recent.Contents()|) <= RECENT_CAPACITY
      ensures FinishOutcome(FinishAll(old(core.Value()), old(storage.files), old(recent.Contents()), actions, stuck),
                            saved, core.Value(), storage.files, recent.Contents(), old(ring), ring, success)
      ensures recordsUploaded + recordsPermanentlyRejected + |core.entries|
           == old(recordsUploaded + recordsPermanentlyRejected + |core.entries|)
      ensures recordsUploaded
           == old(recordsUploaded) + Verdicts(Ids(old(core.entries)), actions, rejected, stuck, false)
      ensures recordsPermanentlyRejected
           == old(recordsPermanentlyRejected) + Verdicts(Ids(old(core.entries)), actions, rejected, stuck, true)
      ensures var run := FinishAll(old(core.Value()), old(storage.files), old(recent.Contents()), actions, stuck);
              filesystemErrors + recordsUploaded + recordsPermanentlyRejected
                == old(filesystemErrors + recordsUploaded + recordsPermanentlyRejected) + |actions| +
                   (if run.changed && !saved then 1 else 0)
      ensures recordsDroppedOldest == old(recordsDroppedOldest) && uploadRetries == old(uploadRetries)
      ensures forall f | f in storage.log :: f in old(storage.log) ||
                CutAfter(old(core.Value()), old(storage.files), old(recent.Contents()), actions, stuck, f)
    {
      hide Inv, FinishAll, FinishOne, RecentFile, Finishing, CutAfter, Ids, Verdicts,
           RecentDeduplicator.Valid, RecentDeduplicator.Contents;
      ghost var q, files, known := core.Value(), storage.files, recent.Contents();
      success := true;
      var changed := false;
      recent.Fits();
      InvOrdered(q, files);
      hide Ordered, DurableQueue.Valid;
      FinishStart(q, files, known, actions, stuck);
      NoVerdicts(Ids(q.entries), actions, rejected, stuck);
      for i := 0 to |actions|
        invariant Valid()
        invariant Finishing(q, files, known, actions, stuck, i,
                            core.Value(), storage.files, recent.Contents(), success, changed)
        invariant recordsUploaded + recordsPermanentlyRejected + |core.entries|
                    == old(recordsUploaded + recordsPermanentlyRejected + |core.entries|)
        invariant recordsUploaded
               == old(recordsUploaded) + Verdicts(Ids(q.entries), actions[..i], rejected[..i], stuck, false)
        invariant recordsPermanentlyRejected
               == old(recordsPermanentlyRejected) + Verdicts(Ids(q.entries), actions[..i], rejected[..i], stuck, true)
        invariant filesystemErrors + recordsUploaded + recordsPermanentlyRejected
                    == old(filesystemErrors + recordsUploaded + recordsPermanentlyRejected) + i
        invariant ring == old(ring) && recordsDroppedOldest == old(recordsDroppedOldest)
        invariant uploadRetries == old(uploadRetries)
        invariant forall f | f in storage.log :: f in old(storage.log) || CutAfter(q, files, known, actions, stuck, f)
      {
        FinishNext(q, files, known, actions, rejected, stuck, i,
                   core.Value(), storage.files, recent.Contents(), success, changed);
        var removed, added := FinishAction(actions[i], rejected[i], stuck);
        if !removed { success := false; }
        changed := changed || added;
      }
      FinishEnd(q, files, known, actions, stuck,
                core.Value(), storage.files, recent.Contents(), success, changed);
      assert actions[..|actions|] == actions && rejected[..|actions|] == rejected;
      if changed {
        if saved {
          var file := WriteRecent(recent);
          ring := Some(file);
        } else {
          filesystemErrors := filesystemErrors + 1;
          success := false;
        }
      }
    }
  }

  /** What a start makes of the flash: the recovered queue, then the ring; nothing if the
      directory cannot be listed, and no ring if the recovery fails. */
  ghost predicate BeginOutcome(files: Files, ring: Option<seq<byte>>, capacity: nat, listable: bool, fate: RecoverFate,
                               ringReadable: bool, unlinked: bool, q': Core, files': Files,
                               recent': seq<TelemetryKey>, ring': Option<seq<byte>>, ok: bool)
    requires capacity > 0 && (listable ==> Listing(files, fate.listed))
  {
    if !listable then !ok && files' == files && ring' == ring
    else
      var run := Recover(files, capacity, fate);
      ok == run.ok && q' == run.q && files' == run.files &&
      if ok
      then recent' == LoadedRing(ring, ringReadable) &&
           ring' == (if !RingLoads(ring, ringReadable) && unlinked then None else ring)
      else ring' == ring
  }

  lemma BeginFails(files: Files, ring: Option<seq<byte>>, capacity: nat, listable: bool, fate: RecoverFate,
                   ringReadable: bool, unlinked: bool, q': Core, files': Files, recent': seq<TelemetryKey>)
    requires capacity > 0 && (listable ==> Listing(files, fate.listed))
    requires if listable
             then !Recover(files, capacity, fate).ok && q' == Recover(files, capacity, fate).q &&
                  files' == Recover(files, capacity, fate).files
             else files' == files
    ensures BeginOutcome(files, ring, capacity, listable, fate, ringReadable, unlinked, q', files', recent', ring,
                         false)
  {
    hide Recover, Listing;
  }

  lemma BeginLoads(files: Files, ring: Option<seq<byte>>, capacity: nat, fate: RecoverFate, ringReadable: bool,
                   unlinked: bool, q': Core, files': Files)
    requires capacity > 0 && Listing(files, fate.listed)
    requires var run := Recover(files, capacity, fate); run.ok && q' == run.q && files' == run.files
    ensures var loads := RingLoads(ring, ringReadable);
            var known := if loads then RememberAll([], RECENT_CAPACITY, DecodeRecent(ring.value).value) else [];
            BeginOutcome(files, ring, capacity, true, fate, ringReadable, unlinked, q', files', known,
                         if !loads && unlinked then None else ring, true)
  {
    hide Recover, Listing, DecodeRecent, RememberAll;
  }

  /** The queue and ring a finish leaves; the ring file follows if it was saved. */
  ghost predicate FinishOutcome(run: FinishRun, saved: bool, q': Core, files': Files, recent': seq<TelemetryKey>,
                                ring: Option<seq<byte>>, ring': Option<seq<byte>>, success: bool) {
    q' == run.q && files' == run.files && recent' == run.recent && |recent'| <= RECENT_CAPACITY &&
    success == (run.ok && (run.changed ==> saved)) &&
    ring' == if run.changed && saved then Some(RecentFile(recent')) else ring
  }

  // ---- finish, as far as it has come ----

  ghost predicate Finishing(q: Core, files: Files, known: seq<TelemetryKey>, actions: seq<Action>,
                            stuck: set<RecordId>, i: nat, q': Core, files': Files,
                            known': seq<TelemetryKey>, ok: bool, changed: bool) {
    |known| <= RECENT_CAPACITY && i <= |actions| &&
    FinishAll(q, files, known, actions[..i], stuck) == FinishRun(q', files', known', ok, changed)
  }

  /** The files after some of the actions: where power may be lost. */
  ghost predicate CutAfter(q: Core, files: Files, known: seq<TelemetryKey>, actions: seq<Action>,
                           stuck: set<RecordId>, f: Files)
    requires |known| <= RECENT_CAPACITY
  {
    exists n | 0 <= n <= |actions| :: f == FinishAll(q, files, known, actions[..n], stuck).files
  }

  lemma FinishStart(q: Core, files: Files, known: seq<TelemetryKey>, actions: seq<Action>, stuck: set<RecordId>)
    requires |known| <= RECENT_CAPACITY
    ensures Finishing(q, files, known, actions, stuck, 0, q, files, known, true, false)
  {
  }

  /** How many of the actions take a record out of the index and carry this verdict; of
      several actions for one record the first does. */
  ghost function Verdicts(ids: set<RecordId>, actions: seq<Action>, rejected: seq<bool>, stuck: set<RecordId>,
                          verdict: bool): (n: nat)
    requires |rejected| == |actions|
    decreases |actions|
  {
    if actions == [] then 0
    else
      var last := |actions| - 1;
      Verdicts(ids, actions[..last], rejected[..last], stuck, verdict) +
      if TakesOut(ids, actions, stuck, last) && rejected[last] == verdict then 1 else 0
  }

  ghost predicate TakesOut(ids: set<RecordId>, actions: seq<Action>, stuck: set<RecordId>, i: nat)
    requires i < |actions|
  {
    actions[i].id != 0 && actions[i].id in ids && actions[i].id !in stuck &&
    forall j | 0 <= j < i :: actions[j].id != actions[i].id
  }

  lemma NoVerdicts(ids: set<RecordId>, actions: seq<Action>, rejected: seq<bool>, stuck: set<RecordId>)
    requires |rejected| == |actions|
    ensures Verdicts(ids, actions[..0], rejected[..0], stuck, false) == 0
    ensures Verdicts(ids, actions[..0], rejected[..0], stuck, true) == 0
  {
  }

  lemma OneVerdict(ids: set<RecordId>, actions: seq<Action>, rejected: seq<bool>, stuck: set<RecordId>, i: nat,
                   verdict: bool)
    requires |rejected| == |actions| && i < |actions|
    ensures Verdicts(ids, actions[..i + 1], rejected[..i + 1], stuck, verdict)
         == Verdicts(ids, actions[..i], rejected[..i], stuck, verdict) +
            if TakesOut(ids, actions, stuck, i) && rejected[i] == verdict then 1 else 0
  {
    SameTakes(ids, actions, stuck, i + 1, i);
    hide TakesOut;
    assert actions[..i + 1][..i] == actions[..i] && rejected[..i + 1][..i] == rejected[..i];
  }

  lemma SameTakes(ids: set<RecordId>, actions: seq<Action>, stuck: set<RecordId>, n: nat, j: nat)
    requires j < n <= |actions|
    ensures TakesOut(ids, actions[..n], stuck, j) == TakesOut(ids, actions, stuck, j)
  {
    assert forall k | 0 <= k <= j :: actions[..n][k] == actions[k];
  }

  lemma FinishNext(q: Core, files: Files, known: seq<TelemetryKey>, actions: seq<Action>, rejected: seq<bool>,
                   stuck: set<RecordId>, i: nat, q': Core, files': Files,
                   known': seq<TelemetryKey>, ok: bool, changed: bool)
    requires Finishing(q, files, known, actions, stuck, i, q', files', known', ok, changed) && i < |actions|
    requires |rejected| == |actions| && Ordered(q.entries)
    ensures |known'| <= RECENT_CAPACITY
    ensures var one := FinishOne(FinishRun(q', files', known', true, false), actions[i], stuck);
            Finishing(q, files, known, actions, stuck, i + 1, one.q, one.files, one.recent, ok && one.ok,
                      changed || one.changed) &&
            CutAfter(q, files, known, actions, stuck, one.files)
    ensures var takes := actions[i].id != 0 && actions[i].id in Ids(q'.entries) && actions[i].id !in stuck;
            forall verdict ::
              Verdicts(Ids(q.entries), actions[..i + 1], rejected[..i + 1], stuck, verdict)
                == Verdicts(Ids(q.entries), actions[..i], rejected[..i], stuck, verdict) +
                   if takes && rejected[i] == verdict then 1 else 0
  {
    hide FinishAll, Remove, Remembered, Knows, Verdicts, Removed, Adds, RememberAll, Ordered;
    FinishAppend(q, files, known, actions[..i], actions[i], stuck);
    assert actions[..i + 1] == actions[..i] + [actions[i]];
    FinishLeaves(q, files, known, actions[..i], stuck);
    TakesOutIff(q, q', actions, stuck, i);
    OneVerdict(Ids(q.entries), actions, rejected, stuck, i, false);
    OneVerdict(Ids(q.entries), actions, rejected, stuck, i, true);
  }

  lemma TakesOutIff(q: Core, q': Core, actions: seq<Action>, stuck: set<RecordId>, i: nat)
    requires i < |actions|
    requires forall e :: e in q'.entries <==> e in q.entries && e.id !in Erasable(actions[..i], stuck)
    ensures TakesOut(Ids(q.entries), actions, stuck, i) <==>
            actions[i].id != 0 && actions[i].id in Ids(q'.entries) && actions[i].id !in stuck
  {
    var a := actions[i];
    if a.id != 0 && a.id !in stuck {
      assert a.id in Erasable(actions[..i], stuck) <==> exists j :: 0 <= j < i && actions[j].id == a.id by {
        if j :| 0 <= j < i && actions[j].id == a.id { assert actions[..i][j] == actions[j]; }
      }
      if a.id in Ids(q.entries) && a.id !in Erasable(actions[..i], stuck) {
        var e :| e in q.entries && e.id == a.id;
        assert e in q'.entries;
      }
    }
  }

  lemma FinishEnd(q: Core, files: Files, known: seq<TelemetryKey>, actions: seq<Action>,
                  stuck: set<RecordId>, q': Core, files': Files,
                  known': seq<TelemetryKey>, ok: bool, changed: bool)
    requires Finishing(q, files, known, actions, stuck, |actions|, q', files', known', ok, changed)
    ensures FinishAll(q, files, known, actions, stuck) == FinishRun(q', files', known', ok, changed)
  {
    hide FinishAll;
    assert actions[..|actions|] == actions;
  }

  // ---- capacity ----

  const RESERVED := 65536
  const SLOT := MAXIMUM_BYTES + 128
  const HARD_MAXIMUM := 4096

  /** How many records a file system of this size may hold. */
  function DeriveCapacity(filesystemBytes: u64): (c: nat)
    ensures 1 <= c <= HARD_MAXIMUM
  {
    if filesystemBytes <= RESERVED then 1
    else
      var c := (filesystemBytes - RESERVED) / SLOT * 4 / 5;
      if c == 0 then 1 else if c > HARD_MAXIMUM then HARD_MAXIMUM else c
  }

  /** Four fifths of the slots of 280 bytes beyond the reserve of 64 KiB, rounded down, but
      at least one record and at most 4096. */
  lemma CapacityValue(filesystemBytes: u64)
    ensures var slots := if filesystemBytes <= 65536 then 0 else (filesystemBytes - 65536) / 280;
            var c := DeriveCapacity(filesystemBytes);
            (c > 1 ==> 5 * c <= 4 * slots) && (c < 4096 ==> 4 * slots < 5 * (c + 1))
  {
    if filesystemBytes > RESERVED {
      var slots := (filesystemBytes - RESERVED) / SLOT;
      var c := slots * 4 / 5;
      assert 5 * c <= 4 * slots < 5 * (c + 1);
    }
  }

  lemma CapacityMonotone(a: u64, b: u64)
    requires a <= b
    ensures DeriveCapacity(a) <= DeriveCapacity(b)
  {
    if a > RESERVED {
      var x, y := (a - RESERVED) / SLOT, (b - RESERVED) / SLOT;
      assert x <= y;
      assert x * 4 / 5 <= y * 4 / 5;
    }
  }

  /** A full queue and the record written before an eviction fit beside the reserve
      exactly when two records do. */
  lemma CapacityFits(filesystemBytes: u64)
    ensures (DeriveCapacity(filesystemBytes) + 1) * SLOT <= filesystemBytes - RESERVED
            <==> 2 * SLOT <= filesystemBytes - RESERVED
  {
    if filesystemBytes > RESERVED {
      var slots := (filesystemBytes - RESERVED) / SLOT;
      var c := slots * 4 / 5;
      assert slots >= 2 ==> c + 1 <= slots;
    }
  }

  /** Flash taken by records, with the estimated overhead of a file. */
  ghost function Usage(files: Files, ids: set<RecordId>): (n: nat)
    requires forall id | id in ids :: id in files
  {
    if ids == {} then 0 else
      var id := Max(ids);
      |files[id]| + 128 + Usage(files, ids - {id})
  }

  lemma {:induction false} UsageBound(files: Files, ids: set<RecordId>)
    requires forall id | id in ids :: id in files && |files[id]| <= MAXIMUM_BYTES
    ensures Usage(files, ids) <= |ids| * SLOT
  {
    if ids != {} { UsageBound(files, ids - {Max(ids)}); }
  }

  /** Between any two storage calls of an enqueue the records fit the space that was
      set aside for them. */
  lemma QueueFitsFlash(q: Core, files: Files, bytes: seq<byte>, f: Files, filesystemBytes: u64)
    requires Inv(q, files) && Tidy(q, files) && q.next != 0
    requires q.capacity == DeriveCapacity(filesystemBytes) && 2 * SLOT <= filesystemBytes - RESERVED
    requires Interrupted(q, files, bytes, f)
    ensures Usage(f, Kept(f, {})) <= filesystemBytes - RESERVED
  {
    hide Inv, Tidy, KeyFor, DeriveCapacity, Usage, Ids;
    CapacityFits(filesystemBytes);
    InvBounds(q, files);
    KeptAreKeyed(f, {});
    forall id | id in Kept(f, {})
      ensures id in f && |f[id]| <= MAXIMUM_BYTES
    {
      RecordSize(f, id);
    }
    UsageBound(f, Kept(f, {}));
    ValidIds(q, files, bytes, f);
    AtMostOneMore(q.entries, q.next);
    SubsetSize(Kept(f, {}), Ids(q.entries) + {q.next});
  }

  lemma RecordSize(files: Files, id: RecordId)
    requires KeyFor(files, id).Some?
    ensures id in files && |files[id]| <= MAXIMUM_BYTES
  {
    hide DecodeTelemetry, DecodeBody, ChecksumMatches;
  }

  lemma ValidIds(q: Core, files: Files, bytes: seq<byte>, f: Files)
    requires Tidy(q, files) && q.next != 0 && Interrupted(q, files, bytes, f)
    ensures Kept(f, {}) <= Ids(q.entries) + {q.next}
  {
    hide KeyFor, Ids;
    SameFiles(files, f);
    forall id | id in Kept(f, {})
      ensures id in Ids(q.entries) || id == q.next
    {
      if id != q.next { assert KeyFor(files, id) == KeyFor(f, id); }
    }
  }

  lemma {:induction false} AtMostOneMore(s: seq<Entry>, next: RecordId)
    ensures |Ids(s) + {next}| <= |s| + 1
    decreases |s|
  {
    if s == [] {
      assert Ids(s) + {next} == {next};
    } else {
      AtMostOneMore(s[1..], next);
      assert forall e :: e in s <==> e == s[0] || e in s[1..];
      assert Ids(s) + {next} == (Ids(s[1..]) + {next}) + {s[0].id};
    }
  }

  lemma SubsetSize(a: set<RecordId>, b: set<RecordId>)
    requires a <= b
    ensures |a| <= |b|
  {
    assert b == a + (b - a);
  }
}
