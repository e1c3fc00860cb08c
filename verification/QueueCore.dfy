/** The durable queue as values: an index in RAM over a map of committed files. Every
    operation is a function of the state and of the outcomes of its storage calls; the
    file map after each call is kept, because power may be lost there. */
module QueueCore {
  import opened Words
  import opened Protocol
  import opened TelemetryKeys
  import opened QueueRecords

  /** Record ids name files; zero is never a file name. */
  type RecordId = x: int | 0 < x < 0x1_0000_0000_0000_0000 witness 1
  type Files = map<RecordId, seq<byte>>

  datatype Entry = Entry(id: RecordId, hash: u64)

  /** Capacity, index (oldest first) and the id of the next record; zero after the
      last 64-bit id has been used. */
  datatype Core = Core(capacity: nat, entries: seq<Entry>, next: u64)

  /** The key of the reading a file holds, if the file is a decodable record. */
  function KeyIn(bytes: seq<byte>): (k: Option<TelemetryKey>) {
    match DecodeRecord(bytes)
    case None => None
    case Some(r) =>
      match DecodeTelemetry(r.payload)
      case Rejected(_) => None
      case Accepted(p) => Some(KeyOf(p))
  }

  /** The same, for a file that also carries its own id: what recovery accepts. */
  function Stored(id: RecordId, bytes: seq<byte>): (k: Option<TelemetryKey>) {
    match DecodeRecord(bytes)
    case None => None
    case Some(r) => if r.recordId == id then KeyIn(bytes) else None
  }

  /** The key a file map commits under an id. */
  function KeyFor(files: Files, id: RecordId): (k: Option<TelemetryKey>) {
    if id in files then Stored(id, files[id]) else None
  }

  lemma StoredFacts(id: RecordId, bytes: seq<byte>)
    requires Stored(id, bytes).Some?
    ensures KeyIn(bytes) == Stored(id, bytes) && Proper(KeyIn(bytes).value)
    ensures DecodeRecord(bytes).Some? && DecodeRecord(bytes).value.recordId == id
  {
    hide DecodeRecord, DecodeTelemetry, KeyOf, Proper;
    var r := DecodeRecord(bytes).value;
    var p := DecodeTelemetry(r.payload).packet;
    TelemetryBijection(r.payload, p);
    ProperKeyOf(p);
  }

  lemma StoredEncoding(r: QueueRecord, p: TelemetryPacket)
    requires Encodable(r) && DecodeTelemetry(r.payload) == Accepted(p)
    ensures Stored(r.recordId, EncodeRecord(r)) == Some(KeyOf(p))
  {
    hide DecodeRecord, DecodeTelemetry, KeyOf, EncodeRecord;
    RecordBijection(EncodeRecord(r), r);
  }

  // ---- the invariant of a running queue ----

  predicate Ordered(s: seq<Entry>) {
    forall i, j | 0 <= i < j < |s| :: s[i].id < s[j].id
  }

  function Ids(s: seq<Entry>): (r: set<RecordId>) {
    set e | e in s :: e.id
  }

  /** The file of an entry is a record with its id, and the hash is that of its key. */
  predicate Backed(files: Files, e: Entry) {
    KeyFor(files, e.id).Some? && e.hash == KeyHash(KeyFor(files, e.id).value)
  }

  function Limit(next: u64): (n: nat) { if next == 0 then U64_MAX + 1 else next }

  ghost predicate Inv(q: Core, files: Files) {
    0 < q.capacity && |q.entries| <= q.capacity && Ordered(q.entries) &&
    forall e | e in q.entries :: e.id < Limit(q.next) && Backed(files, e)
  }

  /** Apart from the indexed files, a valid record can only sit at the next id: what a
      failed undo leaves behind. */
  ghost predicate Tidy(q: Core, files: Files) {
    forall id | KeyFor(files, id).Some? :: id in Ids(q.entries) || id == q.next
  }

  ghost predicate NoLeftover(q: Core, files: Files) {
    q.next != 0 ==> KeyFor(files, q.next).None?
  }

  /** The queue a user sees: the committed bytes, oldest first. */
  ghost function Fifo(q: Core, files: Files): (s: seq<seq<byte>>)
    requires Inv(q, files)
  {
    seq(|q.entries|, i requires 0 <= i < |q.entries| =>
      assert q.entries[i] in q.entries; files[q.entries[i].id])
  }

  /** The keys that are queued. */
  ghost function Keys(s: seq<Entry>, files: Files): (r: set<TelemetryKey>) {
    set e | e in s && KeyFor(files, e.id).Some? :: KeyFor(files, e.id).value
  }

  // ---- enqueue ----

  /** What each storage call of an enqueue does, if it is reached. */
  datatype EnqueueFate = EnqueueFate(write: bool, dropFirst: bool, rewrite: bool, drop: bool, undo: bool)

  datatype EnqueueRun = EnqueueRun(q: Core, files: Files, ok: bool, dropped: seq<Entry>,
                                   errors: nat, trace: seq<Files>)

  function Enqueue(q: Core, files: Files, r: QueueRecord, fate: EnqueueFate): (run: EnqueueRun)
    requires q.capacity > 0
  {
    if q.next == 0 then EnqueueRun(q, files, false, [], 1, [])
    else
      match DecodeTelemetry(r.payload)
      case Rejected(_) => EnqueueRun(q, files, false, [], 0, [])
      case Accepted(p) =>
        var named := r.(recordId := q.next);
        if !Encodable(named) then EnqueueRun(q, files, false, [], 0, [])
        else Commit(q, files, EncodeRecord(named), KeyHash(KeyOf(p)), fate)
  }

  function Commit(q: Core, files: Files, bytes: seq<byte>, hash: u64, fate: EnqueueFate): (run: EnqueueRun)
    requires q.capacity > 0 && q.next != 0
  {
    if fate.write then
      var written := files[q.next := bytes];
      Admit(q, written, hash, [], [written], fate)
    else if |q.entries| < q.capacity then
      EnqueueRun(q, files, false, [], 1, [files])
    else if !fate.dropFirst then
      EnqueueRun(q, files, false, [], 1, [files, files])
    else
      // The file system is full: give up the oldest record and try once more.
      var shorter := q.(entries := q.entries[1..]);
      var freed := files - {q.entries[0].id};
      if !fate.rewrite then
        EnqueueRun(shorter, freed, false, [q.entries[0]], 1, [files, freed, freed])
      else
        var written := freed[q.next := bytes];
        Admit(shorter, written, hash, [q.entries[0]], [files, freed, written], fate)
  }

  /** The record is on flash; restore the bound, then publish it in the index. */
  function Admit(q: Core, files: Files, hash: u64, dropped: seq<Entry>, trace: seq<Files>,
                 fate: EnqueueFate): (run: EnqueueRun)
    requires q.capacity > 0 && q.next != 0
  {
    if |q.entries| < q.capacity then
      EnqueueRun(Publish(q, hash), files, true, dropped, 0, trace)
    else if !fate.drop then
      var undone := if fate.undo then files - {q.next} else files;
      EnqueueRun(q, undone, false, dropped, 1, trace + [files, undone])
    else
      var freed := files - {q.entries[0].id};
      EnqueueRun(Publish(q.(entries := q.entries[1..]), hash), freed, true,
                 dropped + [q.entries[0]], 0, trace + [freed])
  }

  function Publish(q: Core, hash: u64): (r: Core)
    requires q.next != 0
  {
    q.(entries := q.entries + [Entry(q.next, hash)],
       next := if q.next == U64_MAX then 0 else q.next + 1)
  }

  /** The index once the record has been admitted. */
  function Completed(q: Core, hash: u64): (s: seq<Entry>)
    requires q.next != 0 && q.capacity > 0
  {
    (if |q.entries| >= q.capacity then q.entries[1..] else q.entries) + [Entry(q.next, hash)]
  }

  // ---- peek, remove, contains ----

  function PeekFrom(entries: seq<Entry>, files: Files, unreadable: set<RecordId>): (r: Option<seq<QueueRecord>>)
    decreases |entries|
  {
    if entries == [] then Some([])
    else if entries[0].id in unreadable || entries[0].id !in files then None
    else
      var record :- DecodeRecord(files[entries[0].id]);
      var records :- PeekFrom(entries[1..], files, unreadable);
      Some([record] + records)
  }

  function Peek(q: Core, files: Files, limit: nat, unreadable: set<RecordId>): (r: Option<seq<QueueRecord>>) {
    PeekFrom(if limit < |q.entries| then q.entries[..limit] else q.entries, files, unreadable)
  }

  datatype RemoveRun = RemoveRun(q: Core, files: Files, ok: bool, errors: nat)

  function IndexOfId(s: seq<Entry>, id: RecordId): (i: nat)
    ensures i <= |s| && (i < |s| ==> s[i].id == id)
    ensures forall j | 0 <= j < i :: s[j].id != id
  {
    if s == [] || s[0].id == id then 0 else
      var i := IndexOfId(s[1..], id);
      assert forall j | 0 <= j < i + 1 :: j == 0 || s[j] == s[1..][j - 1];
      i + 1
  }

  function Remove(q: Core, files: Files, id: RecordId, removed: bool): (run: RemoveRun) {
    var i := IndexOfId(q.entries, id);
    if i == |q.entries| then RemoveRun(q, files, false, 0)
    else if !removed then RemoveRun(q, files, false, 1)
    else RemoveRun(q.(entries := q.entries[..i] + q.entries[i + 1..]), files - {id}, true, 0)
  }

  /** An entry answers for a key if its hash agrees and its file, read back, holds it. */
  predicate Answers(files: Files, e: Entry, k: TelemetryKey, unreadable: set<RecordId>) {
    e.hash == KeyHash(k) && e.id !in unreadable && e.id in files &&
    KeyIn(files[e.id]).Some? && KeyEqual(KeyIn(files[e.id]).value, k)
  }

  predicate Contains(q: Core, files: Files, k: TelemetryKey, unreadable: set<RecordId>) {
    exists i | 0 <= i < |q.entries| :: Answers(files, q.entries[i], k, unreadable)
  }

  // ---- the invariant is kept ----

  function Without(s: seq<Entry>, i: nat): (r: seq<Entry>)
    requires i < |s|
  {
    s[..i] + s[i + 1..]
  }

  lemma WithoutFacts(s: seq<Entry>, i: nat)
    requires i < |s| && Ordered(s)
    ensures Ordered(Without(s, i))
    ensures forall e :: e in Without(s, i) <==> e in s && e.id != s[i].id
    ensures Ids(Without(s, i)) == Ids(s) - {s[i].id}
    ensures |Without(s, i)| == |s| - 1
  {
    var r := Without(s, i);
    forall j | 0 <= j < |r|
      ensures r[j] == s[if j < i then j else j + 1]
    {
    }
    forall j | 0 <= j < |s| && j != i
      ensures s[j] in r
    {
      assert r[if j < i then j else j - 1] == s[j];
    }
  }

  /** Entries that survive with their files keep the invariant. */
  lemma Shrink(q: Core, files: Files, s: seq<Entry>, other: Files)
    requires Inv(q, files) && Ordered(s) && |s| <= q.capacity
    requires forall e | e in s :: e in q.entries && KeyFor(other, e.id) == KeyFor(files, e.id)
    ensures Inv(q.(entries := s), other)
    ensures Keys(s, other) <= Keys(q.entries, files)
  {
    hide KeyFor, KeyHash;
  }

  /** Removing one record and its file. */
  lemma RemoveEntry(q: Core, files: Files, i: nat)
    requires Inv(q, files) && i < |q.entries|
    ensures Inv(q.(entries := Without(q.entries, i)), files - {q.entries[i].id})
    ensures Keys(q.entries, files)
         == Keys(Without(q.entries, i), files - {q.entries[i].id}) + Keys([q.entries[i]], files)
    ensures Tidy(q, files) ==> Tidy(q.(entries := Without(q.entries, i)), files - {q.entries[i].id})
  {
    var gone, rest := q.entries[i], Without(q.entries, i);
    var freed := files - {gone.id};
    WithoutFacts(q.entries, i);
    Remaining(files, gone.id);
    hide KeyFor, KeyHash, Without, Keys;
    Shrink(q, files, rest, freed);
    KeysSplit(q.entries, files, i, freed);
  }

  /** Erasing one file leaves every other one as it was. */
  lemma Remaining(files: Files, id: RecordId)
    ensures forall o | o != id :: KeyFor(files - {id}, o) == KeyFor(files, o)
    ensures KeyFor(files - {id}, id) == None
  {
    hide Stored;
  }

  lemma KeysSplit(s: seq<Entry>, files: Files, i: nat, freed: Files)
    requires Ordered(s) && i < |s|
    requires forall e | e in Without(s, i) :: KeyFor(freed, e.id) == KeyFor(files, e.id)
    ensures Keys(s, files) == Keys(Without(s, i), freed) + Keys([s[i]], files)
  {
    WithoutFacts(s, i);
    hide KeyFor, Without;
    forall e | e in s
      ensures e in Without(s, i) || e in [s[i]]
    {
      if e.id == s[i].id {
        var j :| 0 <= j < |s| && s[j] == e;
        assert j == i;
      }
    }
  }

  lemma DropHead(q: Core, files: Files)
    requires Inv(q, files) && q.entries != []
    ensures Inv(q.(entries := q.entries[1..]), files - {q.entries[0].id})
    ensures Keys(q.entries, files)
         == Keys(q.entries[1..], files - {q.entries[0].id}) + Keys([q.entries[0]], files)
    ensures Tidy(q, files) ==> Tidy(q.(entries := q.entries[1..]), files - {q.entries[0].id})
  {
    hide KeyFor, Inv, Tidy;
    RemoveEntry(q, files, 0);
    assert Without(q.entries, 0) == q.entries[1..];
  }

  /** Which file answers for an id depends on that file alone. */
  lemma SameFiles(files: Files, other: Files)
    ensures forall id | id in files && id in other && files[id] == other[id] ::
              KeyFor(files, id) == KeyFor(other, id)
    ensures forall id | id !in files :: KeyFor(files, id) == None
    ensures forall id | id !in other :: KeyFor(other, id) == None
  {
    hide Stored;
  }

  lemma AppendEntry(q: Core, files: Files, hash: u64)
    requires Inv(q, files) && |q.entries| < q.capacity && q.next != 0
    requires Backed(files, Entry(q.next, hash))
    ensures Inv(Publish(q, hash), files)
    ensures Keys(Publish(q, hash).entries, files)
         == Keys(q.entries, files) + {KeyFor(files, q.next).value}
    ensures Tidy(q, files) ==> Tidy(Publish(q, hash), files)
  {
    hide KeyFor, KeyHash;
    var s, s' := q.entries, Publish(q, hash).entries;
    assert forall e :: e in s' <==> e in s || e == Entry(q.next, hash);
    assert forall i | 0 <= i < |s| :: s'[i] == s[i] && s[i] in s;
  }

  /** Two file maps that agree apart from one id. */
  lemma AgreeElsewhere(files: Files, other: Files, next: RecordId)
    requires other - {next} == files - {next}
    ensures forall id: RecordId | id != next ::
              (id in files <==> id in other) && (id in files ==> files[id] == other[id])
    ensures forall id: RecordId | id != next :: KeyFor(other, id) == KeyFor(files, id)
  {
    hide KeyFor;
    SameFiles(files, other);
    forall id: RecordId | id != next
      ensures (id in files <==> id in other) && (id in files ==> files[id] == other[id])
    {
      assert id in files <==> id in files - {next};
      assert id in other <==> id in other - {next};
      assert id in files ==> (files - {next})[id] == files[id];
      assert id in other ==> (other - {next})[id] == other[id];
    }
  }

  lemma EntriesBelow(q: Core, files: Files)
    requires Inv(q, files) && q.next != 0
    ensures forall e | e in q.entries :: e.id != q.next && e.id in files
  {
    hide Stored, KeyHash;
    assert forall e | e in q.entries :: Backed(files, e);
  }

  /** Writing or erasing at the next id touches nothing that is queued. */
  lemma TouchNext(q: Core, files: Files, other: Files)
    requires Inv(q, files) && q.next != 0
    requires other - {q.next} == files - {q.next}
    ensures Inv(q, other)
    ensures Keys(q.entries, other) == Keys(q.entries, files)
    ensures Tidy(q, files) ==> Tidy(q, other)
    ensures Fifo(q, other) == Fifo(q, files)
  {
    hide KeyFor, KeyHash, Inv, Ids;
    AgreeElsewhere(files, other, q.next);
    EntriesBelow(q, files);
    SameInv(q, files, other);
    hide Keys;
    SameKeys(q.entries, files, other);
    assert forall i | 0 <= i < |q.entries| :: q.entries[i] in q.entries;
  }

  lemma SameInv(q: Core, files: Files, other: Files)
    requires Inv(q, files) && forall e | e in q.entries :: KeyFor(other, e.id) == KeyFor(files, e.id)
    ensures Inv(q, other)
  {
    hide KeyFor, KeyHash;
  }

  lemma SameKeys(s: seq<Entry>, files: Files, other: Files)
    requires forall e | e in s :: KeyFor(other, e.id) == KeyFor(files, e.id)
    ensures Keys(s, other) == Keys(s, files)
  {
    hide KeyFor;
  }
}
