/** Recovery after a restart, and what a power loss during an enqueue can leave. */
module QueueRecovery {
  import opened Words
  import opened Protocol
  import opened TelemetryKeys
  import opened QueueRecords
  import opened QueueCore
  import opened QueueEnqueue

  // ---- the index a set of files stands for ----

  function HashFor(files: Files, id: RecordId): (h: u64) {
    match KeyFor(files, id)
    case None => 0
    case Some(k) => KeyHash(k)
  }

  ghost function Max(ids: set<RecordId>): (m: RecordId)
    requires ids != {}
    ensures m in ids && forall i | i in ids :: i <= m
  {
    var x :| x in ids;
    if ids == {x} then x else
      var m := Max(ids - {x});
      assert forall i | i in ids :: i == x || i in ids - {x};
      if m < x then x else m
  }

  /** One entry for each id, in increasing order. */
  ghost function IndexOf(files: Files, ids: set<RecordId>): (s: seq<Entry>) {
    if ids == {} then [] else
      var m := Max(ids);
      IndexOf(files, ids - {m}) + [Entry(m, HashFor(files, m))]
  }

  lemma {:induction false} IndexFacts(files: Files, ids: set<RecordId>)
    ensures var s := IndexOf(files, ids);
            Ids(s) == ids && Ordered(s) && forall e | e in s :: e.hash == HashFor(files, e.id)
  {
    hide HashFor, Max;
    if ids == {} {
      assert Ids([]) == {};
    } else {
      var m := Max(ids);
      IndexFacts(files, ids - {m});
      var s, last := IndexOf(files, ids - {m}), Entry(m, HashFor(files, m));
      hide Ordered;
      forall e | e in s
        ensures e.id < m
      {
        assert e.id in Ids(s);
      }
      hide Ids;
      AppendLargest(s, last);
      assert IndexOf(files, ids) == s + [last];
    }
  }

  lemma AppendLargest(s: seq<Entry>, last: Entry)
    requires Ordered(s) && forall e | e in s :: e.id < last.id
    ensures Ordered(s + [last]) && Ids(s + [last]) == Ids(s) + {last.id}
    ensures forall e :: e in s + [last] <==> e in s || e == last
  {
    var r := s + [last];
    assert forall e :: e in r <==> e in s || e == last;
    assert forall i | 0 <= i < |s| :: r[i] == s[i] && s[i] in s;
  }

  /** The last entry of an ordered index has its largest id. */
  lemma LastOf(s: seq<Entry>)
    requires Ordered(s) && s != []
    ensures var last, init := s[|s| - 1], s[..|s| - 1];
            s == init + [last] && Ordered(init) && Ids(s) != {} && Max(Ids(s)) == last.id &&
            Ids(s) - {last.id} == Ids(init) && last in s && forall e | e in init :: e in s
  {
    var last, init := s[|s| - 1], s[..|s| - 1];
    assert s == init + [last];
    assert last in s && last.id in Ids(s);
    assert forall e | e in s :: e.id <= last.id;
    assert forall e :: e in s <==> e in init || e == last;
    assert forall e | e in init :: e.id != last.id;
  }

  /** An ordered index whose hashes are right is the index of its ids. */
  lemma {:induction false} IndexUnique(s: seq<Entry>, files: Files)
    requires Ordered(s) && forall e | e in s :: e.hash == HashFor(files, e.id)
    ensures IndexOf(files, Ids(s)) == s
    decreases |s|
  {
    hide HashFor;
    if s == [] {
      assert Ids(s) == {};
    } else {
      LastOf(s);
      hide Ids, Ordered;
      IndexUnique(s[..|s| - 1], files);
    }
  }

  /** The records recovery keeps: readable files that carry their own id. */
  ghost function Kept(files: Files, unreadable: set<RecordId>): (ids: set<RecordId>) {
    set id | id in files && id !in unreadable && KeyFor(files, id).Some?
  }

  ghost function Discards(files: Files, unreadable: set<RecordId>): (ids: set<RecordId>) {
    files.Keys - Kept(files, unreadable)
  }

  function Newest(s: seq<Entry>, n: nat): (r: seq<Entry>) {
    if |s| <= n then s else s[|s| - n..]
  }

  /** The next id once a record has been kept; adding one to the last id wraps. */
  function Raised(next: u64, id: RecordId): (n: u64) {
    if id < next then next else if id == U64_MAX then 0 else id + 1
  }

  /** The next id while the listing is walked. */
  function NextAfter(next: u64, listed: seq<RecordId>, kept: set<RecordId>): (r: u64)
    decreases |listed|
  {
    if listed == [] then next
    else
      var id := listed[0];
      NextAfter(if id in kept then Raised(next, id) else next, listed[1..], kept)
  }

  /** How many of the first n entries are erased before one that cannot be. */
  function Dropping(s: seq<Entry>, n: nat, stuck: set<RecordId>): (d: nat)
    ensures d <= n && d <= |s|
    decreases n
  {
    if n == 0 || s == [] || s[0].id in stuck then 0 else 1 + Dropping(s[1..], n - 1, stuck)
  }

  /** The order of the directory listing, and the files that fail to read or to go. */
  datatype RecoverFate = RecoverFate(listed: seq<RecordId>, unreadable: set<RecordId>, stuck: set<RecordId>)

  datatype RecoverRun = RecoverRun(q: Core, files: Files, ok: bool, dropped: seq<Entry>)

  ghost predicate Listing(files: Files, listed: seq<RecordId>) {
    (forall id :: id in listed <==> id in files) &&
    forall i, j | 0 <= i < j < |listed| :: listed[i] != listed[j]
  }

  ghost function Recover(files: Files, capacity: nat, fate: RecoverFate): (run: RecoverRun) {
    var kept := Kept(files, fate.unreadable);
    var index := IndexOf(files, kept);
    var overflow := if |index| > capacity then |index| - capacity else 0;
    var d := Dropping(index, overflow, fate.stuck);
    RecoverRun(Core(capacity, index[d..], NextAfter(1, fate.listed, kept)),
               files - (Discards(files, fate.unreadable) - fate.stuck) - Ids(index[..d]),
               d == overflow, index[..d])
  }

  /** A moment between two storage calls of a recovery: some discarded files have been
      erased, then some of the oldest records beyond the capacity. */
  ghost predicate CutPoint(files: Files, capacity: nat, unreadable: set<RecordId>,
                           erased: set<RecordId>, drops: nat) {
    erased <= Discards(files, unreadable) &&
    (drops == 0 || drops + capacity <= |IndexOf(files, Kept(files, unreadable))|)
  }

  ghost function CutFiles(files: Files, unreadable: set<RecordId>, erased: set<RecordId>, drops: nat): (f: Files)
    requires drops <= |IndexOf(files, Kept(files, unreadable))|
  {
    files - erased - Ids(IndexOf(files, Kept(files, unreadable))[..drops])
  }

  // ---- the next id ----

  lemma {:induction false} NextAboveAll(next: u64, listed: seq<RecordId>, kept: set<RecordId>)
    requires next >= 1 && forall id | id in listed && id in kept :: id < U64_MAX
    ensures var r := NextAfter(next, listed, kept);
            r >= next && (forall id | id in listed && id in kept :: id < r) &&
            (r == next || (r - 1 in listed && r - 1 in kept))
    decreases |listed|
  {
    if listed != [] {
      var id := listed[0];
      assert forall x | x in listed[1..] :: x in listed;
      assert forall x | x in listed :: x == id || x in listed[1..];
      NextAboveAll(if id in kept && id >= next then id + 1 else next, listed[1..], kept);
    }
  }

  /** The recovered next id is above every recovered id exactly when the last 64-bit
      id is not among them. */
  lemma NextIsFreshIff(listed: seq<RecordId>, kept: set<RecordId>)
    ensures (forall id | id in listed && id in kept :: id < NextAfter(1, listed, kept))
            <==> !(U64_MAX in listed && U64_MAX in kept)
  {
    if !(U64_MAX in listed && U64_MAX in kept) {
      assert forall id | id in listed && id in kept :: id != U64_MAX;
      NextAboveAll(1, listed, kept);
    }
  }

  /** Once that id has been used the listing order matters: a lower id listed after it
      sets the next one again. */
  lemma NextWraps(low: RecordId, high: RecordId)
    ensures NextAfter(1, [high, U64_MAX, low], {low, high, U64_MAX}) == if low == U64_MAX then 0 else low + 1
  {
    hide Raised;
    var kept: set<RecordId> := {low, high, U64_MAX};
    assert [high, U64_MAX, low][1..] == [U64_MAX, low] && [U64_MAX, low][1..] == [low] && [low][1..] == [];
    var first := Raised(1, high);
    assert NextAfter(1, [high, U64_MAX, low], kept) == NextAfter(first, [U64_MAX, low], kept);
    assert NextAfter(first, [U64_MAX, low], kept) == NextAfter(Raised(first, U64_MAX), [low], kept);
    assert NextAfter(Raised(first, U64_MAX), [low], kept) == Raised(Raised(first, U64_MAX), low);
    LastRaises(first, low);
  }

  lemma LastRaises(next: u64, low: RecordId)
    ensures Raised(Raised(next, U64_MAX), low) == if low == U64_MAX then 0 else low + 1
  {
  }

  // ---- recovery establishes the invariant ----

  lemma IndexBacked(files: Files, ids: set<RecordId>)
    requires forall id | id in ids :: KeyFor(files, id).Some?
    ensures forall e | e in IndexOf(files, ids) :: e.id in ids && Backed(files, e)
  {
    hide KeyFor, KeyHash, IndexOf;
    IndexFacts(files, ids);
    forall e | e in IndexOf(files, ids)
      ensures e.id in ids
    {
      assert e.id in Ids(IndexOf(files, ids));
    }
  }

  lemma OrderedParts(s: seq<Entry>, d: nat)
    requires Ordered(s) && d <= |s|
    ensures Ordered(s[d..]) && Ids(s[..d]) + Ids(s[d..]) == Ids(s) && Ids(s[..d]) !! Ids(s[d..])
  {
    OrderedTail(s, d);
    PartsApart(s, d);
    hide Ordered;
    assert s == s[..d] + s[d..];
    assert forall e :: e in s <==> e in s[..d] || e in s[d..];
  }

  lemma OrderedTail(s: seq<Entry>, d: nat)
    requires Ordered(s) && d <= |s|
    ensures Ordered(s[d..])
  {
    assert forall i | 0 <= i < |s| - d :: s[d..][i] == s[d + i];
  }

  lemma PartsApart(s: seq<Entry>, d: nat)
    requires Ordered(s) && d <= |s|
    ensures forall e, g | e in s[..d] && g in s[d..] :: e.id < g.id
  {
    forall e, g | e in s[..d] && g in s[d..]
      ensures e.id < g.id
    {
      var i :| 0 <= i < d && s[i] == e;
      var j :| d <= j < |s| && s[j] == g;
    }
  }

  /** The last 64-bit id is kept, and no record listed after it is. */
  ghost predicate CountedLast(listed: seq<RecordId>, kept: set<RecordId>) {
    exists i | 0 <= i < |listed| :: listed[i] == U64_MAX && U64_MAX in kept && NoneKept(listed, i + 1, kept)
  }

  ghost predicate NoneKept(listed: seq<RecordId>, from: nat, kept: set<RecordId>) {
    forall j | from <= j < |listed| :: listed[j] !in kept
  }

  /** The next id becomes zero exactly when the last id is counted last; once zero it stays
      so only while nothing more is kept. */
  lemma {:induction false} NextZeroIff(next: u64, listed: seq<RecordId>, kept: set<RecordId>)
    ensures NextAfter(next, listed, kept) == 0 <==>
            CountedLast(listed, kept) || (next == 0 && NoneKept(listed, 0, kept))
    decreases |listed|
  {
    if listed != [] {
      var tail := listed[1..];
      NextZeroIff(if listed[0] in kept then Raised(next, listed[0]) else next, tail, kept);
      hide NextAfter;
      CountedTail(listed, kept);
      assert NoneKept(listed, 0, kept) <==> listed[0] !in kept && NoneKept(tail, 0, kept) by {
        assert forall j | 0 < j < |listed| :: listed[j] == tail[j - 1];
        assert forall j | 0 <= j < |tail| :: tail[j] == listed[j + 1];
      }
    }
  }

  lemma CountedTail(listed: seq<RecordId>, kept: set<RecordId>)
    requires listed != []
    ensures CountedLast(listed, kept) <==>
            CountedLast(listed[1..], kept) ||
            (listed[0] == U64_MAX && U64_MAX in kept && NoneKept(listed[1..], 0, kept))
  {
    var tail := listed[1..];
    assert forall j | 0 < j < |listed| :: listed[j] == tail[j - 1];
    assert forall j | 0 <= j < |tail| :: tail[j] == listed[j + 1];
    assert NoneKept(listed, 1, kept) <==> NoneKept(tail, 0, kept);
    if CountedLast(listed, kept) {
      var i :| 0 <= i < |listed| && listed[i] == U64_MAX && U64_MAX in kept && NoneKept(listed, i + 1, kept);
      if i > 0 { assert tail[i - 1] == U64_MAX && NoneKept(tail, i, kept); }
    }
    if CountedLast(tail, kept) {
      var i :| 0 <= i < |tail| && tail[i] == U64_MAX && U64_MAX in kept && NoneKept(tail, i + 1, kept);
      assert listed[i + 1] == U64_MAX && NoneKept(listed, i + 2, kept);
    }
  }

  /** A recovery that completes leaves exactly the newest `capacity` of the records it
      kept, in id order, each with its file. The queue is valid exactly when the last
      64-bit id was not kept, or no record listed after it was. When every file could be
      read, no other valid record is left on flash. */
  lemma RecoverEstablishes(files: Files, capacity: nat, fate: RecoverFate)
    requires capacity > 0 && Listing(files, fate.listed)
    ensures var run, kept := Recover(files, capacity, fate), Kept(files, fate.unreadable);
            run.q.entries == IndexOf(files, kept)[|run.dropped|..] &&
            (run.ok ==> run.q.entries == Newest(IndexOf(files, kept), capacity) &&
                        (Inv(run.q, run.files) <==> U64_MAX !in kept || CountedLast(fate.listed, kept))) &&
            (U64_MAX !in kept ==> run.q.next >= 1) && (run.q.next == 0 <==> CountedLast(fate.listed, kept)) &&
            (run.ok && fate.unreadable == {} ==>
               Tidy(run.q, run.files) && (U64_MAX !in kept ==> NoLeftover(run.q, run.files)))
  {
    hide IndexOf, KeyFor, KeyHash, Inv, CountedLast, NextAfter;
    RecoverFiles(files, capacity, fate);
    var run, kept := Recover(files, capacity, fate), Kept(files, fate.unreadable);
    NextZeroIff(1, fate.listed, kept);
    if U64_MAX !in kept { RecoverNext(files, capacity, fate); }
    if run.ok {
      if U64_MAX !in kept || run.q.next == 0 {
        RecoverInv(files, capacity, fate);
      } else {
        RecoverTop(files, capacity, fate);
        if Inv(run.q, run.files) { TopIsBounded(run.q, run.files, U64_MAX); }
      }
    }
  }

  /** Of the valid records that cannot be read, those that cannot be erased stay, outside
      the index. */
  lemma UnreadStay(files: Files, capacity: nat, fate: RecoverFate)
    ensures var run := Recover(files, capacity, fate);
            forall id | KeyFor(files, id).Some? && id in fate.unreadable ::
              id !in Ids(run.q.entries) &&
              (id in run.files <==> id in fate.stuck) && (id in run.files ==> KeyFor(run.files, id).Some?)
  {
    hide IndexOf, Stored;
    var run := Recover(files, capacity, fate);
    var index := IndexOf(files, Kept(files, fate.unreadable));
    IndexFacts(files, Kept(files, fate.unreadable));
    OrderedIds(index, |run.dropped|);
    SameFiles(files, run.files);
  }

  lemma OrderedIds(s: seq<Entry>, d: nat)
    requires d <= |s|
    ensures Ids(s[..d]) <= Ids(s) && Ids(s[d..]) <= Ids(s)
  {
  }

  /** Recovery leaves the index exact exactly when every valid record that it could neither
      read nor erase has the next id. */
  lemma RecoverTidyIff(files: Files, capacity: nat, fate: RecoverFate)
    ensures var run := Recover(files, capacity, fate);
            Tidy(run.q, run.files) <==>
            forall id | KeyFor(files, id).Some? && id in fate.unreadable && id in fate.stuck ::
              id == NextAfter(1, fate.listed, Kept(files, fate.unreadable))
  {
    hide IndexOf, KeyFor, NextAfter, Kept, Ids, Discards;
    var run := Recover(files, capacity, fate);
    UnreadStay(files, capacity, fate);
    RecoverFiles(files, capacity, fate);
    assert forall id | KeyFor(run.files, id).Some? :: id in run.files by { SameFiles(run.files, run.files); }
  }

  lemma RecoverNext(files: Files, capacity: nat, fate: RecoverFate)
    requires Listing(files, fate.listed) && U64_MAX !in Kept(files, fate.unreadable)
    ensures var run := Recover(files, capacity, fate);
            run.q.next >= 1 && forall id | id in Kept(files, fate.unreadable) :: id < run.q.next
  {
    hide IndexOf, KeyFor;
    NextAboveAll(1, fate.listed, Kept(files, fate.unreadable));
  }

  /** The newest kept record is always indexed. */
  lemma RecoverTop(files: Files, capacity: nat, fate: RecoverFate)
    requires capacity > 0 && U64_MAX in Kept(files, fate.unreadable) && Recover(files, capacity, fate).ok
    ensures U64_MAX in Ids(Recover(files, capacity, fate).q.entries)
  {
    hide IndexOf, KeyFor, Kept, Discards, Ordered;
    var index := IndexOf(files, Kept(files, fate.unreadable));
    var entries := Recover(files, capacity, fate).q.entries;
    IndexFacts(files, Kept(files, fate.unreadable));
    assert Ids([]) == {};
    LastIsTop(index);
    assert entries[|entries| - 1] == index[|index| - 1];
    assert entries[|entries| - 1] in entries;
  }

  lemma TopIsBounded(q: Core, files: Files, id: RecordId)
    requires Inv(q, files) && id in Ids(q.entries)
    ensures id < Limit(q.next)
  {
    hide KeyFor, KeyHash;
  }

  lemma RecoverInv(files: Files, capacity: nat, fate: RecoverFate)
    requires capacity > 0 && Listing(files, fate.listed) && Recover(files, capacity, fate).ok
    requires U64_MAX !in Kept(files, fate.unreadable) || Recover(files, capacity, fate).q.next == 0
    ensures Inv(Recover(files, capacity, fate).q, Recover(files, capacity, fate).files)
  {
    hide IndexOf, KeyFor, KeyHash, Kept;
    var run := Recover(files, capacity, fate);
    var kept := Kept(files, fate.unreadable);
    var index, d := IndexOf(files, kept), |run.dropped|;
    RecoverFiles(files, capacity, fate);
    if U64_MAX !in kept { RecoverNext(files, capacity, fate); }
    IndexFacts(files, kept);
    KeptAreKeyed(files, fate.unreadable);
    IndexBacked(files, kept);
    OrderedParts(index, d);
    forall e | e in run.q.entries
      ensures e.id < Limit(run.q.next) && Backed(run.files, e)
    {
      assert e in index && e.id in Ids(run.q.entries);
    }
  }

  lemma KeptAreKeyed(files: Files, unreadable: set<RecordId>)
    ensures forall id | id in Kept(files, unreadable) :: id in files && KeyFor(files, id).Some?
  {
    hide KeyFor;
  }

  /** Files that stay, and files that go. */
  lemma RecoverFiles(files: Files, capacity: nat, fate: RecoverFate)
    ensures var run := Recover(files, capacity, fate);
            (forall id | id in Ids(run.q.entries) :: id in run.files && run.files[id] == files[id] &&
                                                     KeyFor(run.files, id) == KeyFor(files, id)) &&
            (forall id | id in run.files :: id in files && run.files[id] == files[id]) &&
            (forall id | KeyFor(run.files, id).Some? ::
               KeyFor(files, id) == KeyFor(run.files, id) &&
               (id in Ids(run.q.entries) || id in fate.unreadable))
  {
    hide IndexOf, Stored, KeyHash;
    var run := Recover(files, capacity, fate);
    var kept := Kept(files, fate.unreadable);
    var index := IndexOf(files, kept);
    IndexFacts(files, kept);
    OrderedParts(index, |run.dropped|);
    assert kept !! Discards(files, fate.unreadable);
  }

  /** Exactly what a recovery leaves: a record it keeps unless it is one of those given up
      for room, and anything else only if it cannot be erased. */
  lemma RecoverLeaves(files: Files, capacity: nat, fate: RecoverFate, id: RecordId)
    ensures var run := Recover(files, capacity, fate);
            id in run.files <==>
            id in files && if KeyFor(files, id).Some? && id !in fate.unreadable then id !in Ids(run.dropped)
                           else id in fate.stuck
  {
    hide IndexOf, Stored;
    var run, kept := Recover(files, capacity, fate), Kept(files, fate.unreadable);
    var index := IndexOf(files, kept);
    IndexFacts(files, kept);
    OrderedParts(index, |run.dropped|);
  }

  /** A recovery completes exactly when each of the oldest records beyond capacity can be
      erased; otherwise it stops at the first that cannot. */
  lemma RecoverCompletesIff(files: Files, capacity: nat, fate: RecoverFate)
    ensures var run, index := Recover(files, capacity, fate), IndexOf(files, Kept(files, fate.unreadable));
            var d := |run.dropped|;
            (run.ok <==> forall i | 0 <= i < |index| - capacity :: index[i].id !in fate.stuck) &&
            run.dropped == index[..d] && run.q.entries == index[d..] &&
            (forall i | 0 <= i < d :: index[i].id !in fate.stuck) &&
            (if run.ok then |run.q.entries| == if |index| > capacity then capacity else |index|
             else d < |index| - capacity && index[d].id in fate.stuck)
  {
    hide IndexOf, Kept;
    var index := IndexOf(files, Kept(files, fate.unreadable));
    var overflow := if |index| > capacity then |index| - capacity else 0;
    DroppingIff(index, overflow, fate.stuck);
    hide Dropping;
    var run := Recover(files, capacity, fate);
    var d := |run.dropped|;
    assert d == Dropping(index, overflow, fate.stuck);
    if run.ok {
      forall i | 0 <= i < |index| - capacity
        ensures index[i].id !in fate.stuck
      {
        assert i < overflow == d;
      }
    } else {
      assert index[d].id in fate.stuck;
    }
  }

  lemma {:induction false} DroppingIff(s: seq<Entry>, n: nat, stuck: set<RecordId>)
    requires n <= |s|
    ensures var d := Dropping(s, n, stuck);
            (forall i | 0 <= i < d :: s[i].id !in stuck) && (d < n ==> s[d].id in stuck)
    decreases n
  {
    if n > 0 && s[0].id !in stuck { DroppingIff(s[1..], n - 1, stuck); }
  }

  /** Recovering twice gives the same index, as long as the first recovery erased what it
      could not read, and the same queue unless the last 64-bit id makes the next id
      depend on the order of the listing. */
  lemma RecoverIdempotent(files: Files, capacity: nat, fate: RecoverFate, again: RecoverFate)
    requires capacity > 0 && Listing(files, fate.listed) && again.unreadable == {}
    requires forall id | KeyFor(files, id).Some? && id in fate.unreadable :: id !in fate.stuck
    requires var run := Recover(files, capacity, fate); run.ok && Listing(run.files, again.listed)
    ensures var run := Recover(files, capacity, fate);
            var second := Recover(run.files, capacity, again);
            second.ok && second.q.entries == run.q.entries && second.q.capacity == run.q.capacity &&
            (U64_MAX !in Kept(files, fate.unreadable) ==> second.q == run.q)
  {
    hide Stored, KeyFor, KeyHash, IndexOf, Inv, Tidy, NoLeftover, NextAfter, CountedLast;
    var run, kept := Recover(files, capacity, fate), Kept(files, fate.unreadable);
    var index := IndexOf(files, kept);
    IndexFacts(files, kept);
    UnreadStay(files, capacity, fate);
    RecoverFiles(files, capacity, fate);
    RecoverEstablishes(files, capacity, fate);
    SameFiles(run.files, run.files);
    assert Kept(run.files, {}) == Ids(run.q.entries);
    SameIndex(run, files, index);
    if U64_MAX !in kept { SameNext(files, index, run, fate, again); }
    NothingToDrop(run.files, capacity, again);
  }

  lemma NothingToDrop(files: Files, capacity: nat, fate: RecoverFate)
    requires |IndexOf(files, Kept(files, fate.unreadable))| <= capacity
    ensures var run := Recover(files, capacity, fate);
            run.ok && run.q.entries == IndexOf(files, Kept(files, fate.unreadable))
  {
    hide IndexOf, Kept;
  }

  lemma SameIndex(run: RecoverRun, files: Files, index: seq<Entry>)
    requires Ordered(index) && forall e | e in index :: e.hash == HashFor(files, e.id)
    requires |run.dropped| <= |index| && run.q.entries == index[|run.dropped|..]
    requires forall id | id in Ids(run.q.entries) :: KeyFor(run.files, id) == KeyFor(files, id)
    ensures IndexOf(run.files, Ids(run.q.entries)) == run.q.entries
  {
    hide KeyFor, KeyHash;
    OrderedTail(index, |run.dropped|);
    forall e | e in run.q.entries
      ensures e.hash == HashFor(run.files, e.id)
    {
      assert e in index && e.id in Ids(run.q.entries);
    }
    IndexUnique(run.q.entries, run.files);
  }

  lemma SameNext(files: Files, index: seq<Entry>, run: RecoverRun, fate: RecoverFate, again: RecoverFate)
    requires Listing(files, fate.listed) && Listing(run.files, again.listed)
    requires Ordered(index) && Ids(index) == Kept(files, fate.unreadable) && U64_MAX !in Kept(files, fate.unreadable)
    requires |run.dropped| <= |index| && run.q.entries == index[|run.dropped|..]
    requires index != [] ==> run.q.entries != []
    requires Kept(run.files, {}) == Ids(run.q.entries)
    requires run.q.next == NextAfter(1, fate.listed, Kept(files, fate.unreadable))
    ensures NextAfter(1, again.listed, Kept(run.files, {})) == run.q.next
  {
    hide KeyFor, NextAfter, Ordered;
    if index != [] {
      var top := index[|index| - 1];
      assert top == run.q.entries[|run.q.entries| - 1];
      LastIsTop(index);
      OrderedIds(index, |run.dropped|);
      assert top in run.q.entries && top.id in Ids(run.q.entries);
      NextOfTop(fate.listed, Kept(files, fate.unreadable), top.id);
      NextOfTop(again.listed, Kept(run.files, {}), top.id);
    } else {
      assert Ids(index) == {} && Ids(run.q.entries) == {};
      NextAboveAll(1, fate.listed, {});
      NextAboveAll(1, again.listed, {});
    }
  }

  lemma LastIsTop(s: seq<Entry>)
    requires Ordered(s) && s != []
    ensures var top := s[|s| - 1].id; top in Ids(s) && forall id | id in Ids(s) :: id <= top
  {
    assert s[|s| - 1] in s;
    assert forall e | e in s :: e.id <= s[|s| - 1].id;
  }

  lemma NextOfTop(listed: seq<RecordId>, kept: set<RecordId>, top: RecordId)
    requires top in kept && top < U64_MAX && forall id | id in kept :: id in listed && id <= top
    ensures NextAfter(1, listed, kept) == top + 1
  {
    hide NextAfter;
    NextAboveAll(1, listed, kept);
  }

  // ---- a flash on which the next id wraps ----

  /** A packet any node may send, and the record of its reception. */
  function SamplePacket(n: u32): (p: TelemetryPacket)
    ensures WellFormed(p)
  {
    TelemetryPacket([0x41], Measurement(1, n, 0, 0, 0, 0, 0, 0, 0, 0, 0),
                    NodeStatus(0, 0, 0, 0, 0, 0, 1, 0, 0, 0, 0, RESULT_NONE, 0))
  }

  function SampleReception(): (m: Reception) { Reception(-1, false, 0, 0, 0, 0, 0, 63) }

  function SampleFrame(n: u32): (s: seq<byte>) { EncodeTelemetry(SamplePacket(n)) }

  function SampleOf(id: RecordId, n: u32): (r: QueueRecord)
    ensures Encodable(r)
  {
    QueueRecord(id, SampleReception(), SampleFrame(n))
  }

  function SampleFile(id: RecordId, n: u32): (s: seq<byte>) { EncodeRecord(SampleOf(id, n)) }

  lemma SampleDecodes(n: u32)
    ensures DecodeTelemetry(SampleFrame(n)) == Accepted(SamplePacket(n))
  {
    hide EncodeTelemetry, DecodeTelemetry;
    TelemetryBijection(SampleFrame(n), SamplePacket(n));
  }

  lemma SampleStored(id: RecordId, n: u32)
    ensures Stored(id, SampleFile(id, n)) == Some(KeyOf(SamplePacket(n)))
  {
    hide EncodeTelemetry, DecodeTelemetry, EncodeRecord, Stored, KeyOf;
    SampleDecodes(n);
    StoredEncoding(SampleOf(id, n), SamplePacket(n));
  }

  lemma {:induction false} IndexSize(files: Files, ids: set<RecordId>)
    ensures |IndexOf(files, ids)| == |ids|
  {
    hide HashFor;
    if ids != {} { IndexSize(files, ids - {Max(ids)}); }
  }

  /** Three records of that reading. */
  ghost function SampleFiles(low: RecordId, high: RecordId, n: u32): (files: Files) {
    map id: RecordId | id in {low, high, U64_MAX} :: SampleFile(id, n)
  }

  lemma SampleFilesKept(low: RecordId, high: RecordId, n: u32)
    ensures Kept(SampleFiles(low, high, n), {}) == {low, high, U64_MAX} == SampleFiles(low, high, n).Keys
  {
    hide SampleFile, Stored, KeyOf;
    SampleStored(low, n);
    SampleStored(high, n);
    SampleStored(U64_MAX, n);
  }

  /** Flash with the last 64-bit id and two lower ones, the lowest listed last: recovery
      completes with a next id that does not lie above a record it has indexed, so the
      recovered queue is not valid. */
  lemma RecoveryWraps(low: RecordId, high: RecordId, n: u32)
    requires low < high < U64_MAX
    ensures var fate := RecoverFate([high, U64_MAX, low], {}, {});
            var run := Recover(SampleFiles(low, high, n), 3, fate);
            Listing(SampleFiles(low, high, n), fate.listed) && run.ok && run.q.next == low + 1 <= high &&
            high in Ids(run.q.entries) && !Inv(run.q, run.files)
  {
    hide SampleFiles, KeyFor, Kept, IndexOf, Inv, Ordered, KeyHash, NextAfter, Raised;
    var files, fate := SampleFiles(low, high, n), RecoverFate([high, U64_MAX, low], {}, {});
    SampleFilesKept(low, high, n);
    NextWraps(low, high);
    IndexSize(files, {low, high, U64_MAX});
    IndexFacts(files, {low, high, U64_MAX});
    RecoverEstablishes(files, 3, fate);
    NothingToDrop(files, 3, fate);
  }

  // ---- power loss during an enqueue ----

  /** The file maps between the storage calls of an enqueue. */
  ghost predicate Interrupted(q: Core, files: Files, bytes: seq<byte>, f: Files)
    requires q.next != 0
  {
    f == files || f == files[q.next := bytes] || f == files - {q.next} ||
    (|q.entries| >= q.capacity > 0 &&
     (f == files - {q.entries[0].id} || f == files[q.next := bytes] - {q.entries[0].id}))
  }

  lemma TraceStates(q: Core, files: Files, bytes: seq<byte>, hash: u64, fate: EnqueueFate)
    requires 0 < q.capacity && |q.entries| <= q.capacity && q.next != 0
    requires forall e | e in q.entries :: e.id < q.next
    ensures forall f | f in Commit(q, files, bytes, hash, fate).trace :: Interrupted(q, files, bytes, f)
  {
    var written := files[q.next := bytes];
    assert written - {q.next} == files - {q.next};
    if q.entries != [] {
      assert q.entries[0] in q.entries;
      assert (files - {q.entries[0].id})[q.next := bytes] == written - {q.entries[0].id};
    }
  }

  /** What recovery makes of files in which every valid record is readable. */
  ghost function Recovered(files: Files, capacity: nat): (s: seq<Entry>) {
    Newest(IndexOf(files, Kept(files, {})), capacity)
  }

  lemma RecoveredIs(s: seq<Entry>, files: Files)
    requires Ordered(s) && (forall e | e in s :: Backed(files, e))
    requires forall id | KeyFor(files, id).Some? :: id in Ids(s)
    ensures IndexOf(files, Kept(files, {})) == s
  {
    hide Stored, KeyHash;
    assert Kept(files, {}) == Ids(s);
    IndexUnique(s, files);
  }

  lemma TidyIndex(q: Core, files: Files)
    requires Inv(q, files) && Tidy(q, files) && NoLeftover(q, files)
    ensures IndexOf(files, Kept(files, {})) == q.entries && |q.entries| <= q.capacity
  {
    hide KeyFor, KeyHash;
    RecoveredIs(q.entries, files);
  }

  lemma TidyWithNext(q: Core, files: Files, hash: u64)
    requires Inv(q, files) && Tidy(q, files) && q.next != 0 && Backed(files, Entry(q.next, hash))
    ensures IndexOf(files, Kept(files, {})) == q.entries + [Entry(q.next, hash)]
  {
    hide KeyFor, KeyHash;
    var roomy := q.(capacity := q.capacity + 1);
    AppendEntry(roomy, files, hash);
    var s := Publish(roomy, hash).entries;
    assert forall e | e in q.entries :: e in s;
    assert Entry(q.next, hash) in s;
    RecoveredIs(s, files);
  }

  /** Recovering the files of an exact queue gives its index; the leftover of a failed
      undo becomes its newest record. */
  lemma RecoveredExact(q: Core, files: Files)
    requires Inv(q, files) && Tidy(q, files)
    ensures Recovered(files, q.capacity)
         == if NoLeftover(q, files) then q.entries else Completed(q, HashFor(files, q.next))
  {
    hide Inv, Tidy, KeyFor, KeyHash, Kept, IndexOf;
    InvBounds(q, files);
    if NoLeftover(q, files) {
      TidyIndex(q, files);
    } else {
      TidyWithNext(q, files, HashFor(files, q.next));
    }
  }

  /** Stop an enqueue after any storage call, lose power, recover: the queue is the old
      one, the old one of a full queue without its head, or the completed one. If the undo
      of an earlier enqueue had failed, its record may be the one that completes the queue
      instead, and takes the place of the head that is gone. */
  lemma CrashAnywhere(q: Core, files: Files, bytes: seq<byte>, hash: u64, f: Files)
    requires Inv(q, files) && Tidy(q, files) && q.next != 0
    requires Stored(q.next, bytes).Some? && hash == KeyHash(Stored(q.next, bytes).value)
    requires Interrupted(q, files, bytes, f)
    ensures var s := Recovered(f, q.capacity);
            s == q.entries || s == Completed(q, hash) ||
            (NoLeftover(q, files) && |q.entries| == q.capacity && s == q.entries[1..]) ||
            (!NoLeftover(q, files) && s == Completed(q, HashFor(files, q.next)))
  {
    hide Inv, Tidy, Stored, KeyHash, KeyFor, Backed, Kept, IndexOf, Recovered, HashFor;
    InvBounds(q, files);
    var written := files[q.next := bytes];
    if f == files {
      RecoveredExact(q, f);
    } else if f == files - {q.next} {
      TouchNext(q, files, f);
      Remaining(files, q.next);
      RecoveredExact(q, f);
    } else if f == written {
      assert written - {q.next} == files - {q.next};
      TouchNext(q, files, f);
      WrittenHash(files, q.next, bytes);
      RecoveredExact(q, f);
    } else {
      var shorter, freed := q.(entries := q.entries[1..]), files - {q.entries[0].id};
      assert q.entries[0] in q.entries;
      DropHead(q, files);
      if f == freed {
        Remaining(files, q.entries[0].id);
        SameHash(files, f, q.next);
        RecoveredExact(shorter, f);
      } else {
        assert f == freed[q.next := bytes];
        assert f - {q.next} == freed - {q.next};
        TouchNext(shorter, freed, f);
        WrittenHash(freed, q.next, bytes);
        RecoveredExact(shorter, f);
      }
    }
  }

  lemma WrittenHash(files: Files, id: RecordId, bytes: seq<byte>)
    requires Stored(id, bytes).Some?
    ensures KeyFor(files[id := bytes], id).Some? && HashFor(files[id := bytes], id) == KeyHash(Stored(id, bytes).value)
  {
    hide Stored, KeyHash;
  }

  lemma SameHash(files: Files, other: Files, id: RecordId)
    requires KeyFor(other, id) == KeyFor(files, id)
    ensures HashFor(other, id) == HashFor(files, id)
  {
    hide KeyFor, KeyHash;
  }

  /** The same for the enqueue operation itself. */
  lemma EnqueueCrashSafe(q: Core, files: Files, r: QueueRecord, fate: EnqueueFate, f: Files)
    requires Inv(q, files) && Tidy(q, files)
    requires f == files || f in Enqueue(q, files, r, fate).trace
    ensures var s := Recovered(f, q.capacity);
            s == q.entries || (Admissible(q, r) && s == Completed(q, KeyHash(NewKey(r)))) ||
            (NoLeftover(q, files) && |q.entries| == q.capacity && s == q.entries[1..]) ||
            (!NoLeftover(q, files) && s == Completed(q, HashFor(files, q.next)))
  {
    hide Inv, Tidy, Stored, KeyHash, KeyFor, EncodeRecord, DecodeTelemetry, Commit, Recovered, NoLeftover, HashFor;
    InvBounds(q, files);
    if Admissible(q, r) {
      EnqueueKeeps(q, files, r, fate);
      TraceStates(q, files, NewBytes(q, r), KeyHash(NewKey(r)), fate);
      CrashAnywhere(q, files, NewBytes(q, r), KeyHash(NewKey(r)), f);
    } else {
      RecoveredExact(q, files);
      LeftoverHasId(q, files);
    }
  }

  lemma LeftoverHasId(q: Core, files: Files)
    ensures !NoLeftover(q, files) ==> q.next != 0
  {
  }
}
