/** The durable queue as the gateway runs it: an object that updates its index in
    place and calls a storage layer whose every call may fail. */
module DurableQueueCores {
  import opened Words
  import opened Protocol
  import opened ProtocolCodec
  import opened TelemetryKeys
  import opened QueueRecords
  import opened QueueCore
  import opened QueueEnqueue
  import opened QueueRecovery
  import QueueQueries

  /** Committed files. Each call is told whether it works; a call that fails changes
      nothing. The ghost log records the files after every call that may change them. */
  class Storage {
    var files: Files
    ghost var log: seq<Files>

    constructor (files: Files)
      ensures this.files == files && log == []
    {
      this.files := files;
      log := [];
    }

    method Write(id: RecordId, bytes: seq<byte>, works: bool) returns (ok: bool)
      modifies this
      ensures ok == works
      ensures files == if ok then old(files)[id := bytes] else old(files)
      ensures log == old(log) + [files]
    {
      if works { files := files[id := bytes]; }
      log := log + [files];
      return works;
    }

    method Erase(id: RecordId, works: bool) returns (ok: bool)
      modifies this
      ensures ok == (works && id in old(files))
      ensures files == if ok then old(files) - {id} else old(files)
      ensures log == old(log) + [files]
    {
      ok := works && id in files;
      if ok { files := files - {id}; }
      log := log + [files];
    }

    method Read(id: RecordId, works: bool) returns (bytes: Option<seq<byte>>)
      ensures bytes == if works && id in files then Some(files[id]) else None
    {
      bytes := if works && id in files then Some(files[id]) else None;
    }
  }

  class DurableQueueCore {
    const storage: Storage
    const capacity: nat
    var entries: seq<Entry>
    var next: u64
    var droppedOldest: nat
    var storageErrors: nat
    var corruptRecords: nat

    ghost function Value(): (q: Core)
      reads this
    {
      Core(capacity, entries, next)
    }

    ghost predicate Valid()
      reads this, storage
    {
      Inv(Value(), storage.files)
    }

    constructor (storage: Storage, capacity: nat)
      ensures this.storage == storage && this.capacity == (if capacity == 0 then 1 else capacity)
      ensures Value() == Core(this.capacity, [], 1) && Valid()
      ensures droppedOldest == storageErrors == corruptRecords == 0
    {
      this.storage := storage;
      this.capacity := if capacity == 0 then 1 else capacity;
      entries, next := [], 1;
      droppedOldest, storageErrors, corruptRecords := 0, 0, 0;
    }

    /** Append a record, giving up the oldest one if there is no room. */
    method Append(record: QueueRecord, fate: EnqueueFate) returns (ok: bool)
      requires Valid()
      modifies this, storage
      ensures Valid()
      ensures var run := Enqueue(old(Value()), old(storage.files), record, fate);
              ok == run.ok && Value() == run.q && storage.files == run.files &&
              storage.log == old(storage.log) + run.trace &&
              droppedOldest == old(droppedOldest) + |run.dropped| &&
              storageErrors == old(storageErrors) + run.errors
      ensures corruptRecords == old(corruptRecords)
    {
      hide Inv, KeyHash, EncodeRecord, DecodeTelemetry, Stored, KeyFor, Commit;
      InvBounds(Value(), storage.files);
      EnqueueKeeps(Value(), storage.files, record, fate);
      if next == 0 {
        storageErrors := storageErrors + 1;
        assert storage.log == storage.log + [];
        return false;
      }
      var telemetry := ReadTelemetry(record.payload);
      if telemetry.Rejected? {
        assert storage.log == storage.log + [];
        return false;
      }
      var encoded, bytes := WriteRecord(record.(recordId := next));
      if !encoded {
        assert storage.log == storage.log + [];
        return false;
      }
      var hash := ComputeKeyHash(KeyOf(telemetry.packet));
      ok := WriteAndAdmit(bytes, hash, fate);
    }

    /** The storage calls of an append, in their order. */
    method WriteAndAdmit(bytes: seq<byte>, hash: u64, fate: EnqueueFate) returns (ok: bool)
      requires 0 < capacity && |entries| <= capacity && next != 0
      requires forall e | e in entries :: e.id in storage.files && e.id < next
      modifies this, storage
      ensures var run := Commit(old(Value()), old(storage.files), bytes, hash, fate);
              ok == run.ok && Value() == run.q && storage.files == run.files &&
              storage.log == old(storage.log) + run.trace &&
              droppedOldest == old(droppedOldest) + |run.dropped| &&
              storageErrors == old(storageErrors) + run.errors
      ensures corruptRecords == old(corruptRecords)
    {
      hide Admit;
      var wrote := storage.Write(next, bytes, fate.write);
      ghost var dropped: seq<Entry>, trace := [], [storage.files];
      if !wrote && |entries| >= capacity {
        assert entries[0] in entries;
        var freed := storage.Erase(entries[0].id, fate.dropFirst);
        if !freed {
          storageErrors := storageErrors + 1;
          return false;
        }
        ghost var freedFiles := storage.files;
        dropped := [entries[0]];
        entries := entries[1..];
        droppedOldest := droppedOldest + 1;
        wrote := storage.Write(next, bytes, fate.rewrite);
        trace := [old(storage.files), freedFiles, storage.files];
      }
      if !wrote {
        storageErrors := storageErrors + 1;
        return false;
      }
      if |entries| == capacity { assert entries[0] in entries; }
      AdmitAppends(Value(), storage.files, hash, dropped, trace, fate);
      ok := AdmitWritten(hash, fate);
    }

    /** The record is on flash: restore the bound, then publish it. */
    method AdmitWritten(hash: u64, fate: EnqueueFate) returns (ok: bool)
      requires 0 < capacity && |entries| <= capacity && next != 0 && next in storage.files
      requires |entries| == capacity ==> entries[0].id in storage.files && entries[0].id != next
      modifies this, storage
      ensures var run := Admit(old(Value()), old(storage.files), hash, [], [], fate);
              ok == run.ok && Value() == run.q && storage.files == run.files &&
              storage.log == old(storage.log) + run.trace &&
              droppedOldest == old(droppedOldest) + |run.dropped| &&
              storageErrors == old(storageErrors) + run.errors
      ensures corruptRecords == old(corruptRecords)
    {
      if |entries| >= capacity {
        var freed := storage.Erase(entries[0].id, fate.drop);
        if !freed {
          var _ := storage.Erase(next, fate.undo);
          storageErrors := storageErrors + 1;
          return false;
        }
        entries := entries[1..];
        droppedOldest := droppedOldest + 1;
      }
      entries := entries + [Entry(next, hash)];
      next := if next == U64_MAX then 0 else next + 1;
      return true;
    }

    /** Rebuild the index from the files. Every file map the storage goes through is a
        cut point of a recovery. */
    method Rebuild(listable: bool, fate: RecoverFate) returns (ok: bool)
      requires capacity > 0 && (listable ==> Listing(storage.files, fate.listed))
      modifies this, storage
      ensures !listable ==> !ok && Value() == Core(capacity, [], 1) && storage.files == old(storage.files)
      ensures listable ==>
                var run := Recover(old(storage.files), capacity, fate);
                ok == run.ok && Value() == run.q && storage.files == run.files &&
                droppedOldest == old(droppedOldest) + |run.dropped|
      ensures listable ==>
                var junk := Discards(old(storage.files), fate.unreadable);
                corruptRecords == old(corruptRecords) + |junk| &&
                storageErrors == old(storageErrors) + |junk * fate.stuck| + if ok then 0 else 1
      ensures OnlyCuts(storage.log, old(storage.log), old(storage.files), capacity, fate.unreadable)
      ensures ok ==> var kept := Kept(old(storage.files), fate.unreadable);
                     (Valid() <==> U64_MAX !in kept || CountedLast(fate.listed, kept))
    {
      hide Inv, Stored, KeyHash, KeyFor, IndexOf, CutState;
      entries, next := [], 1;
      if !listable {
        storageErrors := storageErrors + 1;
        return false;
      }
      ghost var was, kept := storage.files, Kept(storage.files, fate.unreadable);
      RecoverEstablishes(was, capacity, fate);
      Scan(fate);
      ghost var index := IndexOf(was, kept);
      SortedIndex(entries, was);
      entries := SortById(entries);
      assert entries == index;
      ok := Trim(was, fate);
    }

    /** Read every listed file; keep what is a record, erase the rest. */
    method Scan(fate: RecoverFate)
      requires Listing(storage.files, fate.listed) && entries == [] && next == 1
      modifies this, storage
      ensures var was := old(storage.files); var kept := Kept(was, fate.unreadable);
              DistinctIds(entries) && Ids(entries) == kept &&
              (forall e | e in entries :: e.hash == HashFor(was, e.id)) &&
              next == NextAfter(1, fate.listed, kept) &&
              storage.files == was - (Discards(was, fate.unreadable) - fate.stuck) &&
              corruptRecords == old(corruptRecords) + |Discards(was, fate.unreadable)| &&
              storageErrors == old(storageErrors) + |Discards(was, fate.unreadable) * fate.stuck|
      ensures droppedOldest == old(droppedOldest)
      ensures OnlyCuts(storage.log, old(storage.log), old(storage.files), capacity, fate.unreadable)
    {
      hide Scanned, OnlyCuts, Listing, KeyFor, KeyHash, HashFor, Kept, Discards;
      ghost var was, log := storage.files, storage.log;
      CutsStart(log, was, capacity, fate.unreadable);
      ScanStart(was, fate);
      for i := 0 to |fate.listed|
        invariant Scanned(was, fate, i, entries, next, storage.files, corruptRecords - old(corruptRecords),
            storageErrors - old(storageErrors))
        invariant droppedOldest == old(droppedOldest)
        invariant OnlyCuts(storage.log, log, was, capacity, fate.unreadable)
      {
        var id := fate.listed[i];
        var key := ReadKey(id, id !in fate.unreadable);
        if key.Some? {
          var hash := ComputeKeyHash(key.value);
          ScanKeep(was, fate, i, entries, next, storage.files, corruptRecords - old(corruptRecords),
              storageErrors - old(storageErrors));
          entries := entries + [Entry(id, hash)];
          if id >= next { next := Raised(next, id); }
        } else {
          corruptRecords := corruptRecords + 1;
          ScanDiscard(was, fate, i, entries, next, storage.files, corruptRecords - 1 - old(corruptRecords),
                      storageErrors - old(storageErrors), capacity);
          CutsGrow(storage.log, log, was, capacity, fate.unreadable,
                   if id in fate.stuck then storage.files else storage.files - {id});
          var erased := storage.Erase(id, id !in fate.stuck);
          if !erased { storageErrors := storageErrors + 1; }
        }
      }
      ScanEnd(was, fate, entries, next, storage.files, corruptRecords - old(corruptRecords),
          storageErrors - old(storageErrors));
    }

    /** The key of a stored record that reads back and carries its own id. */
    method ReadKey(id: RecordId, readable: bool) returns (key: Option<TelemetryKey>)
      ensures key == if readable then KeyFor(storage.files, id) else None
    {
      hide DecodeRecord, DecodeTelemetry, KeyOf;
      var bytes := storage.Read(id, readable);
      if bytes.None? { return None; }
      var record := ReadRecord(bytes.value);
      if record.None? || record.value.recordId != id { return None; }
      var telemetry := ReadTelemetry(record.value.payload);
      return if telemetry.Rejected? then None else Some(KeyOf(telemetry.packet));
    }

    /** Erase the oldest records until the rest fits. */
    method Trim(ghost was: Files, fate: RecoverFate) returns (ok: bool)
      requires entries == IndexOf(was, Kept(was, fate.unreadable))
      requires storage.files == was - (Discards(was, fate.unreadable) - fate.stuck)
      modifies this, storage
      ensures var run := Recover(was, capacity, fate);
              ok == run.ok && entries == run.q.entries && storage.files == run.files &&
              droppedOldest == old(droppedOldest) + |run.dropped|
      ensures next == old(next) && corruptRecords == old(corruptRecords)
      ensures storageErrors == old(storageErrors) + if ok then 0 else 1
      ensures OnlyCuts(storage.log, old(storage.log), was, capacity, fate.unreadable)
    {
      hide Trimmed, OnlyCuts, IndexOf, KeyFor, Kept, Discards, Recover;
      ghost var log, d := storage.log, 0;
      CutsStart(log, was, capacity, fate.unreadable);
      TrimStart(was, capacity, fate, entries, storage.files);
      while |entries| > capacity
        invariant Trimmed(was, capacity, fate, d, entries, storage.files)
        invariant droppedOldest == old(droppedOldest) + d
        invariant next == old(next) && corruptRecords == old(corruptRecords) && storageErrors == old(storageErrors)
        invariant OnlyCuts(storage.log, log, was, capacity, fate.unreadable)
        decreases |entries|
      {
        TrimHead(was, capacity, fate, d, entries, storage.files);
        var stuck := entries[0].id in fate.stuck;
        if stuck {
          TrimStop(was, capacity, fate, d, entries, storage.files);
        } else {
          TrimNext(was, capacity, fate, d, entries, storage.files);
        }
        CutsGrow(storage.log, log, was, capacity, fate.unreadable,
                 if stuck then storage.files else storage.files - {entries[0].id});
        var erased := storage.Erase(entries[0].id, !stuck);
        if !erased {
          storageErrors := storageErrors + 1;
          return false;
        }
        entries := entries[1..];
        droppedOldest := droppedOldest + 1;
        d := d + 1;
      }
      TrimEnd(was, capacity, fate, d, entries, storage.files);
      return true;
    }

    /** The oldest records, or nothing if one of them cannot be read. */
    method PeekBatch(limit: nat, unreadable: set<RecordId>) returns (records: Option<seq<QueueRecord>>)
      requires Valid()
      modifies this`storageErrors
      ensures records == Peek(Value(), storage.files, limit, unreadable)
      ensures storageErrors == old(storageErrors) + (if records.None? then 1 else 0)
    {
      hide Inv, DecodeRecord, PeekFrom, Peeking;
      var count := if limit < |entries| then limit else |entries|;
      ghost var front := entries[..count];
      assert front == if limit < |entries| then entries[..limit] else entries;
      var list: seq<QueueRecord> := [];
      PeekStart(front, storage.files, unreadable);
      for index := 0 to count
        invariant storageErrors == old(storageErrors)
        invariant Peeking(front, storage.files, unreadable, index, list)
      {
        PeekStep(front, storage.files, unreadable, index, list);
        var bytes := storage.Read(entries[index].id, entries[index].id !in unreadable);
        if bytes.None? {
          storageErrors := storageErrors + 1;
          return None;
        }
        var record := ReadRecord(bytes.value);
        if record.None? {
          storageErrors := storageErrors + 1;
          return None;
        }
        list := list + [record.value];
      }
      PeekEnd(front, storage.files, unreadable, list);
      return Some(list);
    }

    /** Take one record out of the queue. */
    method RemoveById(id: RecordId, works: bool) returns (ok: bool)
      requires Valid()
      modifies this, storage
      ensures Valid()
      ensures var run := Remove(old(Value()), old(storage.files), id, works);
              ok == run.ok && Value() == run.q && storage.files == run.files &&
              storageErrors == old(storageErrors) + run.errors
      ensures droppedOldest == old(droppedOldest) && corruptRecords == old(corruptRecords)
      ensures storage.log == old(storage.log) ||
              (storage.log == old(storage.log) + [storage.files] && id in Ids(old(entries)))
    {
      hide Inv, IndexOfId;
      RemoveInv(Value(), storage.files, id, works);
      var found := 0;
      while found < |entries| && entries[found].id != id
        invariant found <= |entries|
        invariant forall j | 0 <= j < found :: entries[j].id != id
      {
        found := found + 1;
      }
      FoundIndex(entries, id, found);
      if found == |entries| { return false; }
      assert entries[found] in entries;
      var erased := storage.Erase(entries[found].id, works);
      if !erased {
        storageErrors := storageErrors + 1;
        return false;
      }
      entries := entries[..found] + entries[found + 1..];
      return true;
    }

    /** Is the reading queued? Only a verified hit counts. */
    method Holds(k: TelemetryKey, unreadable: set<RecordId>) returns (found: bool)
      requires Valid()
      modifies this`storageErrors
      ensures found <==> Contains(Value(), storage.files, k, unreadable)
      ensures storageErrors == old(storageErrors) + Misses(entries, storage.files, k, unreadable)
    {
      hide Inv, KeyHash, DecodeRecord, DecodeTelemetry, KeyEqual;
      assert entries[0..] == entries;
      var expected := ComputeKeyHash(k);
      for index := 0 to |entries|
        invariant forall i | 0 <= i < index :: !Answers(storage.files, entries[i], k, unreadable)
        invariant storageErrors + Misses(entries[index..], storage.files, k, unreadable)
               == old(storageErrors) + Misses(entries, storage.files, k, unreadable)
      {
        var e := entries[index];
        assert entries[index..][0] == e && entries[index..][1..] == entries[index + 1..];
        if e.hash != expected { continue; }
        var bytes := storage.Read(e.id, e.id !in unreadable);
        if bytes.None? {
          storageErrors := storageErrors + 1;
          continue;
        }
        var record := ReadRecord(bytes.value);
        if record.None? {
          storageErrors := storageErrors + 1;
          continue;
        }
        var telemetry := ReadTelemetry(record.value.payload);
        if telemetry.Rejected? {
          storageErrors := storageErrors + 1;
          continue;
        }
        if KeyEqual(KeyOf(telemetry.packet), k) {
          assert Answers(storage.files, entries[index], k, unreadable);
          return true;
        }
      }
      return false;
    }
  }

  /** What has happened before goes in front of what admitting a record does. */
  lemma AdmitAppends(q: Core, files: Files, hash: u64, dropped: seq<Entry>, trace: seq<Files>, fate: EnqueueFate)
    requires q.capacity > 0 && q.next != 0
    ensures var run, alone := Admit(q, files, hash, dropped, trace, fate), Admit(q, files, hash, [], [], fate);
            run == alone.(dropped := dropped + alone.dropped, trace := trace + alone.trace)
  {
  }

  predicate DistinctIds(s: seq<Entry>) {
    forall i, j | 0 <= i < j < |s| :: s[i].id != s[j].id
  }

  lemma NewEntry(s: seq<Entry>, e: Entry)
    requires DistinctIds(s) && e.id !in Ids(s)
    ensures DistinctIds(s + [e]) && Ids(s + [e]) == Ids(s) + {e.id}
    ensures forall g :: g in s + [e] <==> g in s || g == e
  {
    var r := s + [e];
    assert forall g :: g in r <==> g in s || g == e;
    assert forall i | 0 <= i < |s| :: r[i] == s[i] && s[i] in s && s[i].id in Ids(s);
  }

  /** The file maps between the storage calls of a recovery. */
  ghost predicate CutState(files: Files, capacity: nat, unreadable: set<RecordId>, f: Files) {
    exists erased, drops | CutPoint(files, capacity, unreadable, erased, drops) ::
      f == CutFiles(files, unreadable, erased, drops)
  }

  lemma CutAt(files: Files, capacity: nat, unreadable: set<RecordId>, erased: set<RecordId>, drops: nat)
    requires CutPoint(files, capacity, unreadable, erased, drops)
    ensures CutState(files, capacity, unreadable, CutFiles(files, unreadable, erased, drops))
    ensures drops == 0 ==> CutFiles(files, unreadable, erased, drops) == files - erased
  {
    hide Kept, Discards, IndexOf;
  }

  /** The log has grown by cut states only. */
  ghost predicate OnlyCuts(log: seq<Files>, before: seq<Files>, files: Files, capacity: nat,
                           unreadable: set<RecordId>) {
    forall f | f in log :: f in before || CutState(files, capacity, unreadable, f)
  }

  lemma CutsStart(log: seq<Files>, files: Files, capacity: nat, unreadable: set<RecordId>)
    ensures OnlyCuts(log, log, files, capacity, unreadable)
  {
  }

  lemma CutsGrow(log: seq<Files>, before: seq<Files>, files: Files, capacity: nat,
                 unreadable: set<RecordId>, f: Files)
    requires OnlyCuts(log, before, files, capacity, unreadable) && CutState(files, capacity, unreadable, f)
    ensures OnlyCuts(log + [f], before, files, capacity, unreadable)
  {
    hide CutState;
  }

  // ---- the scan, as far as it has come ----

  ghost function Seen(listed: seq<RecordId>, i: nat): (s: set<RecordId>)
    requires i <= |listed|
  {
    set id | id in listed[..i]
  }

  /** Entries and next id after the first i files. */
  ghost predicate Indexed(was: Files, fate: RecoverFate, i: nat, s: seq<Entry>, next: u64) {
    var kept := Kept(was, fate.unreadable);
    i <= |fate.listed| && DistinctIds(s) && Ids(s) == Seen(fate.listed, i) * kept &&
    (forall e | e in s :: e.hash == HashFor(was, e.id)) &&
    NextAfter(next, fate.listed[i..], kept) == NextAfter(1, fate.listed, kept)
  }

  /** Files and corrupt-record count after the first i files. */
  ghost predicate Swept(was: Files, fate: RecoverFate, i: nat, files: Files, corrupt: int, failed: int) {
    var junk := Discards(was, fate.unreadable);
    i <= |fate.listed| && files == was - (Seen(fate.listed, i) * junk - fate.stuck) &&
    corrupt == |Seen(fate.listed, i) * junk| && failed == |Seen(fate.listed, i) * junk * fate.stuck|
  }

  ghost predicate Scanned(was: Files, fate: RecoverFate, i: nat, s: seq<Entry>, next: u64, files: Files,
      corrupt: int, failed: int) {
    Listing(was, fate.listed) && Indexed(was, fate, i, s, next) && Swept(was, fate, i, files, corrupt, failed)
  }

  lemma ScanStart(was: Files, fate: RecoverFate)
    requires Listing(was, fate.listed)
    ensures Scanned(was, fate, 0, [], 1, was, 0, 0)
  {
    hide Kept, Discards, HashFor, NextAfter;
    assert fate.listed[0..] == fate.listed && Seen(fate.listed, 0) == {} && Ids([]) == {};
    assert Seen(fate.listed, 0) * Discards(was, fate.unreadable) == {};
    assert was - {} == was;
  }

  /** The file under the cursor is new. */
  lemma SeenNext(was: Files, fate: RecoverFate, i: nat)
    requires Listing(was, fate.listed) && i < |fate.listed|
    ensures var id := fate.listed[i];
            id in was && id !in Seen(fate.listed, i) && Seen(fate.listed, i + 1) == Seen(fate.listed, i) + {id} &&
            fate.listed[i..][0] == id && fate.listed[i..][1..] == fate.listed[i + 1..]
  {
    assert fate.listed[..i + 1] == fate.listed[..i] + [fate.listed[i]];
    assert fate.listed[i] in fate.listed;
  }

  /** It is still there, so the scan judges it by its original bytes. */
  lemma Judged(was: Files, fate: RecoverFate, i: nat, files: Files, corrupt: int, failed: int)
    requires Listing(was, fate.listed) && Swept(was, fate, i, files, corrupt, failed) && i < |fate.listed|
    ensures var id := fate.listed[i];
            id in files && KeyFor(files, id) == KeyFor(was, id) &&
            (id in Kept(was, fate.unreadable) <==> id !in fate.unreadable && KeyFor(files, id).Some?) &&
            (id in Discards(was, fate.unreadable) <==> id !in Kept(was, fate.unreadable))
  {
    SeenNext(was, fate, i);
    hide KeyFor, Listing;
    var id := fate.listed[i];
    assert id in files && files[id] == was[id];
    SameFiles(was, files);
  }

  lemma MeetAdd(a: set<RecordId>, b: set<RecordId>, x: RecordId)
    ensures (a + {x}) * b == if x in b then a * b + {x} else a * b
  {
  }

  lemma LessAdd(a: set<RecordId>, stuck: set<RecordId>, x: RecordId, was: Files)
    ensures (a + {x}) - stuck == if x in stuck then a - stuck else a - stuck + {x}
    ensures was - (a - stuck + {x}) == was - (a - stuck) - {x}
  {
  }

  lemma IndexedKeep(was: Files, fate: RecoverFate, i: nat, s: seq<Entry>, next: u64)
    requires Listing(was, fate.listed) && Indexed(was, fate, i, s, next) && i < |fate.listed|
    requires fate.listed[i] in Kept(was, fate.unreadable)
    ensures var id := fate.listed[i];
            Indexed(was, fate, i + 1, s + [Entry(id, HashFor(was, id))], Raised(next, id))
  {
    hide Kept, HashFor, Seen, DistinctIds, Listing, Ids;
    SeenNext(was, fate, i);
    var id, kept := fate.listed[i], Kept(was, fate.unreadable);
    MeetAdd(Seen(fate.listed, i), kept, id);
    var e := Entry(id, HashFor(was, id));
    assert id !in Ids(s);
    NewEntry(s, e);
    hide NextAfter;
    NextStep(next, fate.listed, i, kept);
  }

  lemma NextStep(next: u64, listed: seq<RecordId>, i: nat, kept: set<RecordId>)
    requires i < |listed|
    ensures NextAfter(next, listed[i..], kept)
         == NextAfter(if listed[i] in kept then Raised(next, listed[i]) else next, listed[i + 1..], kept)
  {
    assert listed[i..][0] == listed[i] && listed[i..][1..] == listed[i + 1..];
  }

  lemma IndexedSkip(was: Files, fate: RecoverFate, i: nat, s: seq<Entry>, next: u64)
    requires Listing(was, fate.listed) && Indexed(was, fate, i, s, next) && i < |fate.listed|
    requires fate.listed[i] !in Kept(was, fate.unreadable)
    ensures Indexed(was, fate, i + 1, s, next)
  {
    hide Kept, HashFor, Seen, DistinctIds, Listing, NextAfter, Ids;
    SeenNext(was, fate, i);
    MeetAdd(Seen(fate.listed, i), Kept(was, fate.unreadable), fate.listed[i]);
    NextStep(next, fate.listed, i, Kept(was, fate.unreadable));
  }

  lemma SweptNext(was: Files, fate: RecoverFate, i: nat, files: Files, corrupt: int, failed: int)
    requires Listing(was, fate.listed) && Swept(was, fate, i, files, corrupt, failed) && i < |fate.listed|
    ensures var id := fate.listed[i];
            if id in Discards(was, fate.unreadable)
            then Swept(was, fate, i + 1, if id in fate.stuck then files else files - {id}, corrupt + 1,
                failed + if id in fate.stuck then 1 else 0)
            else Swept(was, fate, i + 1, files, corrupt, failed)
  {
    hide Discards, Seen, Listing;
    SeenNext(was, fate, i);
    var id, junk := fate.listed[i], Discards(was, fate.unreadable);
    var before := Seen(fate.listed, i) * junk;
    MeetAdd(Seen(fate.listed, i), junk, id);
    LessAdd(before, fate.stuck, id, was);
    MeetAdd(before, fate.stuck, id);
    assert id !in before;
  }

  lemma ScanKeep(was: Files, fate: RecoverFate, i: nat, s: seq<Entry>, next: u64, files: Files,
                 corrupt: int, failed: int)
    requires Scanned(was, fate, i, s, next, files, corrupt, failed) && i < |fate.listed|
    requires fate.listed[i] !in fate.unreadable && KeyFor(files, fate.listed[i]).Some?
    ensures var id := fate.listed[i];
            Scanned(was, fate, i + 1, s + [Entry(id, KeyHash(KeyFor(files, id).value))],
                    Raised(next, id), files, corrupt, failed)
  {
    hide Indexed, Swept, Listing, KeyHash, KeyFor, Kept, Discards;
    Judged(was, fate, i, files, corrupt, failed);
    IndexedKeep(was, fate, i, s, next);
    SweptNext(was, fate, i, files, corrupt, failed);
  }

  lemma ScanDiscard(was: Files, fate: RecoverFate, i: nat, s: seq<Entry>, next: u64, files: Files,
                    corrupt: int, failed: int, capacity: nat)
    requires Scanned(was, fate, i, s, next, files, corrupt, failed) && i < |fate.listed|
    requires fate.listed[i] in fate.unreadable || KeyFor(files, fate.listed[i]).None?
    ensures var id := fate.listed[i];
            var left := if id in fate.stuck then files else files - {id};
            id in files && Scanned(was, fate, i + 1, s, next, left, corrupt + 1,
                failed + if id in fate.stuck then 1 else 0) &&
            CutState(was, capacity, fate.unreadable, left)
  {
    hide Indexed, Swept, Listing, KeyFor, Kept, Discards, CutState;
    Judged(was, fate, i, files, corrupt, failed);
    IndexedSkip(was, fate, i, s, next);
    SweptNext(was, fate, i, files, corrupt, failed);
    var left := if fate.listed[i] in fate.stuck then files else files - {fate.listed[i]};
    SweptIsCut(was, fate, i + 1, left, corrupt + 1, failed + if fate.listed[i] in fate.stuck then 1 else 0, capacity);
  }

  lemma SweptIsCut(was: Files, fate: RecoverFate, i: nat, files: Files, corrupt: int, failed: int, capacity: nat)
    requires Swept(was, fate, i, files, corrupt, failed)
    ensures CutState(was, capacity, fate.unreadable, files)
  {
    hide Seen, Discards, CutState, Kept, IndexOf;
    CutAt(was, capacity, fate.unreadable, Seen(fate.listed, i) * Discards(was, fate.unreadable) - fate.stuck, 0);
  }

  lemma ScanEnd(was: Files, fate: RecoverFate, s: seq<Entry>, next: u64, files: Files, corrupt: int, failed: int)
    requires Scanned(was, fate, |fate.listed|, s, next, files, corrupt, failed)
    ensures var kept := Kept(was, fate.unreadable);
            DistinctIds(s) && Ids(s) == kept &&
            (forall e | e in s :: e.hash == HashFor(was, e.id)) &&
            next == NextAfter(1, fate.listed, kept) &&
            files == was - (Discards(was, fate.unreadable) - fate.stuck) &&
            corrupt == |Discards(was, fate.unreadable)| && failed == |Discards(was, fate.unreadable) * fate.stuck|
  {
    hide KeyFor, HashFor, DistinctIds, Ids;
    SeenAll(was, fate);
    hide Kept, Discards, Seen, Listing;
  }

  lemma SeenAll(was: Files, fate: RecoverFate)
    requires Listing(was, fate.listed)
    ensures var n := |fate.listed|;
            fate.listed[n..] == [] &&
            Seen(fate.listed, n) * Kept(was, fate.unreadable) == Kept(was, fate.unreadable) &&
            Seen(fate.listed, n) * Discards(was, fate.unreadable) == Discards(was, fate.unreadable)
  {
    hide KeyFor;
    assert fate.listed[..|fate.listed|] == fate.listed;
    assert Seen(fate.listed, |fate.listed|) == was.Keys;
  }

  // ---- the trim, as far as it has come ----

  ghost predicate Trimmed(was: Files, capacity: nat, fate: RecoverFate, d: nat, s: seq<Entry>, files: Files) {
    var index := IndexOf(was, Kept(was, fate.unreadable));
    var overflow := if |index| > capacity then |index| - capacity else 0;
    d <= overflow && s == index[d..] &&
    files == CutFiles(was, fate.unreadable, Discards(was, fate.unreadable) - fate.stuck, d) &&
    Dropping(index, overflow, fate.stuck) == d + Dropping(s, overflow - d, fate.stuck)
  }

  lemma TrimStart(was: Files, capacity: nat, fate: RecoverFate, s: seq<Entry>, files: Files)
    requires s == IndexOf(was, Kept(was, fate.unreadable))
    requires files == was - (Discards(was, fate.unreadable) - fate.stuck)
    ensures Trimmed(was, capacity, fate, 0, s, files)
  {
    hide IndexOf, Kept, Discards, Dropping;
    assert s[0..] == s && s[..0] == [] && Ids([]) == {};
    assert files - {} == files;
  }

  /** With too many records left, the oldest still has its file. */
  lemma TrimHead(was: Files, capacity: nat, fate: RecoverFate, d: nat, s: seq<Entry>, files: Files)
    requires Trimmed(was, capacity, fate, d, s, files) && |s| > capacity
    ensures s[0].id in files && CutState(was, capacity, fate.unreadable, files)
  {
    hide IndexOf, KeyFor, CutState, Kept, Ids, Dropping;
    var erased := Discards(was, fate.unreadable) - fate.stuck;
    var index := IndexOf(was, Kept(was, fate.unreadable));
    IndexFacts(was, Kept(was, fate.unreadable));
    IndexStep(index, d);
    KeptAreKeyed(was, fate.unreadable);
    hide Ordered;
    assert s[0] == index[d] && s[0].id in was && s[0].id !in erased;
    hide Discards;
    CutAt(was, capacity, fate.unreadable, erased, d);
  }

  /** If it cannot be erased, that is where recovery stops. */
  lemma TrimStop(was: Files, capacity: nat, fate: RecoverFate, d: nat, s: seq<Entry>, files: Files)
    requires Trimmed(was, capacity, fate, d, s, files) && |s| > capacity && s[0].id in fate.stuck
    ensures var run := Recover(was, capacity, fate);
            !run.ok && s == run.q.entries && files == run.files && d == |run.dropped|
  {
    hide IndexOf, Kept, Ids, Discards;
  }

  /** Otherwise it goes. */
  lemma TrimNext(was: Files, capacity: nat, fate: RecoverFate, d: nat, s: seq<Entry>, files: Files)
    requires Trimmed(was, capacity, fate, d, s, files) && |s| > capacity && s[0].id !in fate.stuck
    ensures Trimmed(was, capacity, fate, d + 1, s[1..], files - {s[0].id})
    ensures CutState(was, capacity, fate.unreadable, files - {s[0].id})
  {
    hide IndexOf, KeyFor, CutState, Kept, Ids, Discards;
    var erased := Discards(was, fate.unreadable) - fate.stuck;
    var index := IndexOf(was, Kept(was, fate.unreadable));
    IndexFacts(was, Kept(was, fate.unreadable));
    IndexStep(index, d);
    hide Ordered;
    assert s[0] == index[d] && s[1..] == index[d + 1..];
    CutAt(was, capacity, fate.unreadable, erased, d + 1);
    assert files - {s[0].id} == CutFiles(was, fate.unreadable, erased, d + 1);
  }

  lemma TrimEnd(was: Files, capacity: nat, fate: RecoverFate, d: nat, s: seq<Entry>, files: Files)
    requires Trimmed(was, capacity, fate, d, s, files) && |s| <= capacity
    ensures var run := Recover(was, capacity, fate);
            run.ok && s == run.q.entries && files == run.files && d == |run.dropped|
  {
    hide IndexOf, Kept, Discards;
  }

  lemma IndexStep(index: seq<Entry>, d: nat)
    requires d < |index| && Ordered(index)
    ensures Ids(index[..d + 1]) == Ids(index[..d]) + {index[d].id} && index[d].id !in Ids(index[..d])
    ensures index[d..][0] == index[d] && index[d..][1..] == index[d + 1..]
    ensures index[d].id in Ids(index)
  {
    assert index[..d + 1] == index[..d] + [index[d]];
    assert index[d] in index;
  }

  // ---- sorting by id ----

  function InsertById(s: seq<Entry>, e: Entry): (r: seq<Entry>)
    decreases |s|
  {
    if s == [] || e.id < s[0].id then [e] + s else [s[0]] + InsertById(s[1..], e)
  }

  function SortById(s: seq<Entry>): (r: seq<Entry>)
    decreases |s|
  {
    if s == [] then [] else InsertById(SortById(s[1..]), s[0])
  }

  lemma {:induction false} Inserted(s: seq<Entry>, e: Entry)
    requires Ordered(s) && e.id !in Ids(s)
    ensures Ordered(InsertById(s, e))
    ensures forall g :: g in InsertById(s, e) <==> g in s || g == e
    decreases |s|
  {
    if s != [] && e.id >= s[0].id {
      assert s[0] in s && s[0].id in Ids(s);
      assert forall g :: g in s <==> g == s[0] || g in s[1..];
      assert forall g | g in s[1..] :: s[0].id < g.id;
      Inserted(s[1..], e);
      Prepended(s[0], InsertById(s[1..], e));
    } else {
      assert forall g | g in s :: e.id < g.id by {
        forall g | g in s
          ensures e.id < g.id
        {
          assert s[0].id <= g.id;
        }
      }
      Prepended(e, s);
    }
  }

  lemma Prepended(e: Entry, s: seq<Entry>)
    requires Ordered(s) && forall g | g in s :: e.id < g.id
    ensures Ordered([e] + s) && forall g :: g in [e] + s <==> g == e || g in s
  {
    var r := [e] + s;
    assert forall i | 0 < i < |r| :: r[i] == s[i - 1] && s[i - 1] in s;
  }

  lemma {:induction false} Sorted(s: seq<Entry>)
    requires DistinctIds(s)
    ensures Ordered(SortById(s)) && forall g :: g in SortById(s) <==> g in s
    decreases |s|
  {
    if s != [] {
      assert forall g :: g in s <==> g == s[0] || g in s[1..];
      Sorted(s[1..]);
      Inserted(SortById(s[1..]), s[0]);
    }
  }

  /** Sorting the entries of the kept files, in whatever order they were listed, gives
      the index of those files. */
  lemma SortedIndex(s: seq<Entry>, files: Files)
    requires DistinctIds(s) && forall e | e in s :: e.hash == HashFor(files, e.id)
    ensures SortById(s) == IndexOf(files, Ids(s))
  {
    hide HashFor, IndexOf, SortById;
    Sorted(s);
    assert Ids(SortById(s)) == Ids(s);
    IndexUnique(SortById(s), files);
  }

  // ---- a peek, as far as it has come ----

  ghost predicate Peeking(front: seq<Entry>, files: Files, unreadable: set<RecordId>, index: nat,
                          list: seq<QueueRecord>) {
    index <= |front| &&
    PeekFrom(front, files, unreadable)
      == match PeekFrom(front[index..], files, unreadable)
         case None => None
         case Some(rest) => Some(list + rest)
  }

  lemma PeekStart(front: seq<Entry>, files: Files, unreadable: set<RecordId>)
    ensures Peeking(front, files, unreadable, 0, [])
  {
    hide PeekFrom;
    assert front[0..] == front;
    var all := PeekFrom(front, files, unreadable);
    if all.Some? { assert [] + all.value == all.value; }
  }

  lemma PeekStep(front: seq<Entry>, files: Files, unreadable: set<RecordId>, index: nat, list: seq<QueueRecord>)
    requires Peeking(front, files, unreadable, index, list) && index < |front|
    ensures var id := front[index].id;
            if id in files && id !in unreadable && DecodeRecord(files[id]).Some?
            then Peeking(front, files, unreadable, index + 1, list + [DecodeRecord(files[id]).value])
            else PeekFrom(front, files, unreadable) == None
  {
    hide DecodeRecord;
    var id := front[index].id;
    assert front[index..][0] == front[index] && front[index..][1..] == front[index + 1..];
    if id in files && id !in unreadable && DecodeRecord(files[id]).Some? {
      var r, left := DecodeRecord(files[id]).value, PeekFrom(front[index + 1..], files, unreadable);
      if left.Some? { assert list + ([r] + left.value) == (list + [r]) + left.value; }
    }
  }

  lemma PeekEnd(front: seq<Entry>, files: Files, unreadable: set<RecordId>, list: seq<QueueRecord>)
    requires Peeking(front, files, unreadable, |front|, list)
    ensures PeekFrom(front, files, unreadable) == Some(list)
  {
    hide DecodeRecord;
    assert front[|front|..] == [] && list + [] == list;
  }

  /** Failed reads a search meets before its first hit. */
  function Misses(s: seq<Entry>, files: Files, k: TelemetryKey, unreadable: set<RecordId>): (n: nat)
    decreases |s|
  {
    if s == [] || Answers(files, s[0], k, unreadable) then 0
    else
      var failed := s[0].hash == KeyHash(k) &&
                    (s[0].id in unreadable || s[0].id !in files || KeyIn(files[s[0].id]).None?);
      (if failed then 1 else 0) + Misses(s[1..], files, k, unreadable)
  }

  lemma RemoveInv(q: Core, files: Files, id: RecordId, works: bool)
    requires Inv(q, files)
    ensures var run := Remove(q, files, id, works); Inv(run.q, run.files)
    ensures IndexOfId(q.entries, id) < |q.entries| ==> id in files
  {
    hide Inv, Keys, KeyFor, Remove;
    QueueQueries.RemoveKeeps(q, files, id, works);
    InvBounds(q, files);
    var i := IndexOfId(q.entries, id);
    if i < |q.entries| { assert q.entries[i] in q.entries; }
  }

  lemma {:induction false} FoundIndex(s: seq<Entry>, id: RecordId, found: nat)
    requires found <= |s| && (forall j | 0 <= j < found :: s[j].id != id)
    requires found < |s| ==> s[found].id == id
    ensures IndexOfId(s, id) == found
    decreases |s|
  {
    if s != [] && s[0].id != id {
      assert forall j | 0 <= j < found - 1 :: s[1..][j] == s[j + 1];
      FoundIndex(s[1..], id, found - 1);
    }
  }
}
