/** Looking into the queue: the hash index is exact, peek returns the queue's prefix
    and remove takes out one record. */
module QueueQueries {
  import opened Words
  import opened Protocol
  import opened TelemetryKeys
  import opened QueueRecords
  import opened QueueCore
  import opened QueueEnqueue

  /** The record of an indexed file, as decoded. */
  lemma EntryFile(q: Core, files: Files, e: Entry)
    requires Inv(q, files) && e in q.entries
    ensures e.id in files && KeyFor(files, e.id).Some? && KeyIn(files[e.id]) == KeyFor(files, e.id)
    ensures Proper(KeyFor(files, e.id).value) && e.hash == KeyHash(KeyFor(files, e.id).value)
    ensures DecodeRecord(files[e.id]).Some?
    ensures var r := DecodeRecord(files[e.id]).value;
            r.recordId == e.id && Encodable(r) && EncodeRecord(r) == files[e.id] &&
            DecodeTelemetry(r.payload).Accepted? && NewKey(r) == KeyFor(files, e.id).value
  {
    hide Stored, DecodeRecord, EncodeRecord, DecodeTelemetry, KeyHash, Proper;
    assert Backed(files, e);
    StoredFacts(e.id, files[e.id]);
    RecordBijection(files[e.id], DecodeRecord(files[e.id]).value);
  }

  /** Equal keys hash alike and hits are checked against flash, so a lookup whose reads
      succeed is exact whatever the collisions. */
  lemma ContainsExact(q: Core, files: Files, k: TelemetryKey)
    requires Inv(q, files)
    ensures Contains(q, files, k, {}) <==>
            exists e :: e in q.entries && KeyFor(files, e.id).Some? && KeyEqual(KeyFor(files, e.id).value, k)
  {
    hide KeyFor, KeyIn, KeyHash, KeyEqual, Inv, DecodeRecord, EncodeRecord, DecodeTelemetry, Proper;
    if Contains(q, files, k, {}) {
      var i :| 0 <= i < |q.entries| && Answers(files, q.entries[i], k, {});
      EntryFile(q, files, q.entries[i]);
    }
    if e :| e in q.entries && KeyFor(files, e.id).Some? && KeyEqual(KeyFor(files, e.id).value, k) {
      EntryFile(q, files, e);
      EqualKeysHashAlike(KeyFor(files, e.id).value, k);
      var i :| 0 <= i < |q.entries| && q.entries[i] == e;
      assert Answers(files, q.entries[i], k, {});
    }
  }

  /** For keys the gateway builds, with reads that may fail: a hit is always true, and
      without failed reads so is a miss. */
  lemma ContainsKeys(q: Core, files: Files, k: TelemetryKey, unreadable: set<RecordId>)
    requires Inv(q, files) && Proper(k)
    ensures Contains(q, files, k, unreadable) ==> k in Keys(q.entries, files)
    ensures Contains(q, files, k, {}) <==> k in Keys(q.entries, files)
  {
    hide KeyFor, KeyIn, KeyHash, KeyEqual, Inv, DecodeRecord, EncodeRecord, DecodeTelemetry, Proper;
    if Contains(q, files, k, unreadable) {
      var i :| 0 <= i < |q.entries| && Answers(files, q.entries[i], k, unreadable);
      EntryFile(q, files, q.entries[i]);
      ProperEqual(KeyFor(files, q.entries[i].id).value, k);
    }
    ContainsExact(q, files, k);
    if e :| e in q.entries && KeyFor(files, e.id).Some? && KeyEqual(KeyFor(files, e.id).value, k) {
      EntryFile(q, files, e);
      ProperEqual(KeyFor(files, e.id).value, k);
    }
    if k in Keys(q.entries, files) {
      var e :| e in q.entries && KeyFor(files, e.id) == Some(k);
      ProperEqual(k, k);
    }
  }

  /** What peek returned for one entry. */
  ghost predicate PeekedAs(files: Files, e: Entry, r: QueueRecord) {
    e.id in files && r.recordId == e.id && Encodable(r) && EncodeRecord(r) == files[e.id] &&
    DecodeTelemetry(r.payload).Accepted? && KeyFor(files, e.id) == Some(NewKey(r))
  }

  lemma PeekedKey(files: Files, e: Entry, r: QueueRecord)
    requires PeekedAs(files, e, r)
    ensures r.recordId == e.id && KeyFor(files, e.id) == Some(NewKey(r))
  {
    hide KeyFor, EncodeRecord, DecodeTelemetry, Encodable, NewKey;
  }

  lemma {:induction false} PeekFromFacts(q: Core, files: Files, s: seq<Entry>, unreadable: set<RecordId>)
    requires Inv(q, files) && forall e | e in s :: e in q.entries
    ensures PeekFrom(s, files, unreadable).Some? <==> forall e | e in s :: e.id !in unreadable
    ensures var r := PeekFrom(s, files, unreadable);
            r.Some? ==> |r.value| == |s| && forall i | 0 <= i < |s| :: PeekedAs(files, s[i], r.value[i])
    decreases |s|
  {
    hide KeyFor, KeyIn, KeyHash, Inv, DecodeRecord, EncodeRecord, DecodeTelemetry, Proper, PeekedAs, NewKey;
    if s != [] {
      assert s[0] in s && forall e | e in s :: e == s[0] || e in s[1..];
      assert forall e | e in s[1..] :: e in s;
      EntryPeeked(q, files, s[0]);
      PeekFromFacts(q, files, s[1..], unreadable);
    }
  }

  lemma EntryPeeked(q: Core, files: Files, e: Entry)
    requires Inv(q, files) && e in q.entries
    ensures e.id in files && DecodeRecord(files[e.id]).Some?
    ensures PeekedAs(files, e, DecodeRecord(files[e.id]).value)
  {
    hide KeyFor, KeyIn, KeyHash, Inv, DecodeRecord, EncodeRecord, DecodeTelemetry, Proper, NewKey;
    EntryFile(q, files, e);
  }

  /** Peek returns the first `limit` records exactly as committed, or nothing if one of
      them cannot be read. */
  lemma PeekIsPrefix(q: Core, files: Files, limit: nat, unreadable: set<RecordId>)
    requires Inv(q, files)
    ensures var n := if limit < |q.entries| then limit else |q.entries|;
            var r := Peek(q, files, limit, unreadable);
            (r.Some? <==> forall e | e in q.entries[..n] :: e.id !in unreadable) &&
            (r.Some? ==> |r.value| == n && forall i | 0 <= i < n :: PeekedAs(files, q.entries[i], r.value[i]))
  {
    hide Inv, PeekFrom, PeekedAs;
    var n := if limit < |q.entries| then limit else |q.entries|;
    assert q.entries[..|q.entries|] == q.entries;
    assert forall e | e in q.entries[..n] :: e in q.entries;
    PeekFromFacts(q, files, q.entries[..n], unreadable);
  }

  /** Removing takes out exactly the named record and its file, or nothing. */
  lemma RemoveKeeps(q: Core, files: Files, id: RecordId, removed: bool)
    requires Inv(q, files)
    ensures var run := Remove(q, files, id, removed);
            Inv(run.q, run.files) && (Tidy(q, files) ==> Tidy(run.q, run.files)) &&
            run.ok == (removed && id in Ids(q.entries)) &&
            run.q == q.(entries := run.q.entries) &&
            (if run.ok then
               run.files == files - {id} && Ids(run.q.entries) == Ids(q.entries) - {id} &&
               (forall e :: e in run.q.entries <==> e in q.entries && e.id != id) &&
               KeyFor(files, id).Some? &&
               Keys(q.entries, files) == Keys(run.q.entries, run.files) + {KeyFor(files, id).value}
             else run.files == files && run.q == q)
  {
    hide KeyFor, KeyHash, Keys, Inv, Tidy;
    var i := IndexOfId(q.entries, id);
    InvOrdered(q, files);
    hide Ordered;
    if i < |q.entries| {
      assert q.entries[i] in q.entries;
      if removed {
        WithoutFacts(q.entries, i);
        RemoveEntry(q, files, i);
        EntryKeyed(q, files, q.entries[i]);
        SingleKey(files, q.entries[i]);
      }
    }
  }

  lemma EntryKeyed(q: Core, files: Files, e: Entry)
    requires Inv(q, files) && e in q.entries
    ensures KeyFor(files, e.id).Some?
  {
    hide KeyFor, KeyHash;
    assert Backed(files, e);
  }

  lemma SingleKey(files: Files, e: Entry)
    ensures KeyFor(files, e.id).Some? ==> Keys([e], files) == {KeyFor(files, e.id).value}
  {
    hide KeyFor;
    assert forall g :: g in [e] <==> g == e;
  }
}
