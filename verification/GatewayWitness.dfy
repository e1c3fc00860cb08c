/** Runs that show what a failed read can cost. */
module GatewayWitness {
  import opened Words
  import opened Protocol
  import opened TelemetryKeys
  import opened QueueRecords
  import opened QueueCore
  import opened QueueEnqueue
  import opened QueueRecovery
  import opened Gateway
  import opened GatewaySafety
  import opened GatewayDistinct

  /** A start that finds no record and no ring. */
  ghost function FirstStart(capacity: nat): (e: Event) {
    Boot(capacity, RecoverFate([], {}, {}), false, true)
  }

  lemma EmptyRecovery(files: Files, capacity: nat)
    requires files.Keys == {}
    ensures var run := Recover(files, capacity, RecoverFate([], {}, {}));
            run.q == Core(capacity, [], 1) && run.files.Keys == {} && run.ok && run.dropped == []
    ensures Listing(files, [])
  {
    hide KeyFor;
    assert Kept(files, {}) == {};
    assert IndexOf(files, {}) == [];
  }

  lemma NothingUnread(files: Files)
    requires files.Keys == {}
    ensures Unread(files, {}) == {}
  {
    hide KeyFor;
  }

  lemma FirstBoot(s: State, capacity: nat)
    requires Initial(s) && s.files.Keys == {}
    ensures var t := Step(s, FirstStart(capacity));
            t.power == On(Core(Size(capacity), [], 1), [], Listening, Resting) && t.files.Keys == {} &&
            t.terminal == s.terminal && t.evicted == {} && t.discarded == {}
  {
    hide SavedOk, Recover, Unread, Listing, Keys, DiskKeys;
    EmptyRecovery(s.files, Size(capacity));
    NothingUnread(s.files);
    NothingDropped(s.files);
  }

  /** The frame is taken for new by an empty gateway. */
  lemma FirstReceive(t: State, capacity: nat, e: Event)
    requires t.power == On(Core(capacity, [], 1), [], Listening, Resting)
    requires e.Receive? && Offered(e).Some?
    ensures Step(t, e) == t.(power := t.power.(radio := Checked(QueueRecord(0, e.reception, e.frame), false)))
    ensures NewKey(QueueRecord(0, e.reception, e.frame)) == Offered(e).value
  {
    hide DecodeTelemetry, KeyOf;
    FrameKey(e.frame, e.reception);
  }

  lemma FirstEnqueue(capacity: nat, files: Files, r: QueueRecord)
    requires capacity > 0 && files.Keys == {} && Admissible(Core(capacity, [], 1), r)
    ensures var run, k := Enqueue(Core(capacity, [], 1), files, r, WORKING), NewKey(r);
            run.ok && run.q == Core(capacity, [Entry(1, KeyHash(k))], 2) && run.dropped == [] &&
            run.files.Keys == {1} && KeyFor(run.files, 1) == Some(k)
  {
    hide DecodeTelemetry, EncodeRecord, KeyHash, Encodable, Stored, KeyOf;
    var q := Core(capacity, [], 1);
    assert Inv(q, files);
    EnqueueKeeps(q, files, r, WORKING);
  }

  /** The first reading: stored under id 1 and acknowledged. */
  lemma FirstReading(t: State, capacity: nat, e: Event)
    requires capacity > 0 && t.files.Keys == {} && t.evicted == {} && t.discarded == {}
    requires t.power == On(Core(capacity, [], 1), [], Listening, Resting)
    requires e.Receive? && Offered(e).Some? && Admissible(Core(capacity, [], 1), QueueRecord(0, e.reception, e.frame))
    ensures var u, k := Run(t, [e, Enter(WORKING), Acknowledge(true)]), Offered(e).value;
            u.power == On(Core(capacity, [Entry(1, KeyHash(k))], 2), [], Listening, Resting) &&
            u.files.Keys == {1} && KeyFor(u.files, 1) == Some(k) && k in u.acked &&
            u.terminal == t.terminal && u.evicted == {} && u.discarded == {}
  {
    hide Offered, Admissible, Enqueue, KeyHash, KeyFor, NewKey, ReceiveStep, Run;
    RunThree(t, e, Enter(WORKING), Acknowledge(true));
    FirstReceive(t, capacity, e);
    FirstEnqueue(capacity, t.files, QueueRecord(0, e.reception, e.frame));
    NothingDropped(t.files);
  }

  // ---- a start that cannot read the only record ----

  /** Recovery of a flash whose one record cannot be read. */
  lemma UnreadRecovery(files: Files, capacity: nat, k: TelemetryKey)
    requires files.Keys == {1} && KeyFor(files, 1) == Some(k)
    ensures var run := Recover(files, capacity, RecoverFate([1], {1}, {}));
            run.ok && run.q.entries == [] && run.dropped == [] && run.files.Keys == {}
    ensures k in Unread(files, {1}) && Listing(files, [1])
  {
    hide KeyFor;
    SameFiles(files, files);
    assert 1 in files && Kept(files, {1}) == {};
    assert IndexOf(files, {}) == [];
  }

  lemma UnreadBoot(u: State, capacity: nat, k: TelemetryKey)
    requires u.power.Off? && u.files.Keys == {1} && KeyFor(u.files, 1) == Some(k)
    ensures var v := Step(u, Boot(capacity, RecoverFate([1], {1}, {}), false, true));
            v.power.On? && v.power.q.entries == [] && k in v.discarded && v.evicted == u.evicted &&
            v.terminal == u.terminal && v.acked == u.acked
  {
    hide Recover, Unread, Listing, Keys, DiskKeys, KeyFor;
    UnreadRecovery(u.files, Size(capacity), k);
    NothingDropped(u.files);
  }

  lemma PowerGone(u: State)
    ensures Step(u, PowerLoss) == u.(power := Off)
  {
  }

  /** One failed read at a start loses an acknowledged reading for good: no backend has
      it, nothing was short of room, and its record is erased. */
  lemma OneFailedReadLosesAReading(s: State, capacity: nat, e: Event)
    requires Initial(s) && s.files.Keys == {} && s.terminal == {}
    requires e.Receive? && Offered(e).Some?
    requires Admissible(Core(Size(capacity), [], 1), QueueRecord(0, e.reception, e.frame))
    ensures var run := [FirstStart(capacity)] + [e, Enter(WORKING), Acknowledge(true)] +
                       [PowerLoss] + [Boot(capacity, RecoverFate([1], {1}, {}), false, true)];
            var end, k := Run(s, run), Offered(e).value;
            k in end.acked && k in end.discarded && k !in Live(end) && k !in end.terminal && k !in end.evicted
  {
    hide Offered, Admissible, KeyHash, KeyFor, Run, Step;
    var first, reading := [FirstStart(capacity)], [e, Enter(WORKING), Acknowledge(true)];
    var again := Boot(capacity, RecoverFate([1], {1}, {}), false, true);
    RunAppend(s, first + reading + [PowerLoss], [again]);
    RunAppend(s, first + reading, [PowerLoss]);
    RunAppend(s, first, reading);
    RunOne(s, FirstStart(capacity));
    FirstBoot(s, capacity);
    var t := Step(s, FirstStart(capacity));
    FirstReading(t, Size(capacity), e);
    var u := Run(t, reading);
    RunOne(u, PowerLoss);
    RunOne(Step(u, PowerLoss), again);
    PowerGone(u);
    UnreadBoot(u.(power := Off), capacity, Offered(e).value);
    NothingDropped(Step(u.(power := Off), again).files);
  }

  // ---- a lookup that cannot read the only record ----

  /** The frame of a first reading, received again with its record unreadable. */
  function Again(e: Event): (a: Event)
    requires e.Receive?
  {
    Receive(e.frame, e.reception, e.pairedId, e.pairing, {1})
  }

  lemma SingleRecord(u: State, capacity: nat, k: TelemetryKey, e: Event)
    requires capacity >= 2 && u.power == On(Core(capacity, [Entry(1, KeyHash(k))], 2), [], Listening, Resting)
    requires u.files.Keys == {1} && KeyFor(u.files, 1) == Some(k)
    requires e.Receive? && Offered(e) == Some(k)
    ensures Exact(u) && DistinctFiles(u.files) && Missed(u, Again(e)) && Offered(Again(e)) == Some(k)
  {
    hide KeyFor, KeyHash, DecodeTelemetry, KeyOf;
    SameFiles(u.files, u.files);
    assert u.power.q.entries[0] == Entry(1, KeyHash(k)) && u.power.q.entries[0] in u.power.q.entries;
  }

  lemma StillAdmissible(q: Core, other: Core, r: QueueRecord)
    requires Admissible(q, r) && other.next != 0
    ensures Admissible(other, r)
  {
    hide DecodeTelemetry;
  }

  lemma NothingBounds(files: Files)
    requires files.Keys == {}
    ensures Bounded(files, 0)
  {
    SameFiles(files, files);
    hide KeyFor;
  }

  /** One failed read during a lookup stores the reading a second time. */
  lemma OneFailedReadStoresTwice(s: State, capacity: nat, e: Event)
    requires Initial(s) && s.files.Keys == {} && capacity >= 2
    requires e.Receive? && Offered(e).Some?
    requires Admissible(Core(capacity, [], 1), QueueRecord(0, e.reception, e.frame))
    ensures var run := [FirstStart(capacity)] + [e, Enter(WORKING), Acknowledge(true)] + [Again(e), Enter(WORKING)];
            !DistinctFiles(Run(s, run).files)
  {
    hide Offered, Admissible, KeyHash, KeyFor, Run, Step, Sound, Bounded, Exact, DistinctFiles, Missed, Enqueue, Inv,
         SavedOk, Keys;
    var first, reading := [FirstStart(capacity)], [e, Enter(WORKING), Acknowledge(true)];
    RunAppend(s, first + reading, [Again(e), Enter(WORKING)]);
    RunAppend(s, first, reading);
    RunOne(s, FirstStart(capacity));
    FirstBoot(s, capacity);
    FirstReading(Step(s, FirstStart(capacity)), capacity, e);
    var u, k := Run(s, first + reading), Offered(e).value;
    NothingBounds(s.files);
    InitialSound(s);
    RunKeeps(s, first + reading, 0);
    SingleRecord(u, capacity, k, e);
    StillAdmissible(Core(capacity, [], 1), u.power.q, QueueRecord(0, e.reception, e.frame));
    SoundQueue(u);
    WorkingEnqueue(u.power.q, u.files, QueueRecord(0, e.reception, e.frame));
    StoredTwiceIff(u, Again(e), WORKING);
    RunTwo(u, Again(e), Enter(WORKING));
  }

  // ---- a start that can neither read nor erase a record ----

  /** The start keeps record `high` and leaves record `low` outside the index. */
  ghost function StrayStart(capacity: nat, low: RecordId, high: RecordId): (e: Event) {
    Boot(capacity, RecoverFate([low, high], {low}, {low}), false, true)
  }

  lemma StrayNext(low: RecordId, high: RecordId)
    requires low < high < U64_MAX
    ensures NextAfter(1, [low, high], {high}) == high + 1
  {
    assert [low, high][1..] == [high] && [high][1..] == [];
    assert NextAfter(1, [low, high], {high}) == NextAfter(1, [high], {high});
    assert NextAfter(1, [high], {high}) == NextAfter(Raised(1, high), [], {high});
  }

  lemma OneEntryIndex(files: Files, id: RecordId)
    ensures IndexOf(files, {id}) == [Entry(id, HashFor(files, id))]
  {
    hide HashFor, IndexOf;
    var s := [Entry(id, HashFor(files, id))];
    assert forall e | e in s :: e == s[0];
    assert s[0] in s && Ids(s) == {id};
    IndexUnique(s, files);
  }

  lemma StrayRecovery(files: Files, capacity: nat, low: RecordId, high: RecordId)
    requires capacity > 0 && low < high < U64_MAX && files.Keys == {low, high}
    requires KeyFor(files, low).Some? && KeyFor(files, high).Some?
    ensures var run := Recover(files, capacity, RecoverFate([low, high], {low}, {low}));
            run.ok && run.q == Core(capacity, [Entry(high, HashFor(files, high))], high + 1) && run.dropped == [] &&
            run.files == files
    ensures Listing(files, [low, high])
  {
    hide KeyFor, IndexOf, HashFor, NextAfter;
    var fate := RecoverFate([low, high], {low}, {low});
    assert low in files && high in files;
    assert Kept(files, {low}) == {high} && Discards(files, {low}) == {low};
    hide Kept, Discards;
    OneEntryIndex(files, high);
    StrayNext(low, high);
    NothingToDrop(files, capacity, fate);
    assert Ids([]) == {} && files - ({low} - {low}) - {} == files;
  }

  lemma StrayBoot(s: State, capacity: nat, low: RecordId, high: RecordId)
    requires Initial(s) && low < high < U64_MAX && s.files.Keys == {low, high}
    requires KeyFor(s.files, low).Some? && KeyFor(s.files, high).Some?
    ensures var t := Step(s, StrayStart(capacity, low, high));
            t.files == s.files &&
            t.power == On(Core(Size(capacity), [Entry(high, HashFor(s.files, high))], high + 1), [], Listening, Resting)
  {
    hide SavedOk, Recover, Unread, Listing, Keys, DiskKeys, KeyFor, HashFor;
    StrayRecovery(s.files, Size(capacity), low, high);
  }

  lemma TwoRecords(s: State, low: RecordId, high: RecordId, n: nat)
    requires s.files.Keys == {low, high} && low < high <= n
    ensures Bounded(s.files, n)
    ensures KeyFor(s.files, low) != KeyFor(s.files, high) ==> DistinctFiles(s.files)
  {
    hide KeyFor;
    SameFiles(s.files, s.files);
  }

  lemma OneQueued(q: Core, files: Files, id: RecordId, k: TelemetryKey)
    requires |q.entries| == 1 && q.entries[0].id == id && KeyFor(files, id) != Some(k)
    ensures k !in Keys(q.entries, files) && Ids(q.entries) == {id}
  {
    hide KeyFor;
    assert forall e | e in q.entries :: e == q.entries[0];
    assert q.entries[0] in q.entries;
  }

  /** Flash holds the offered reading under `low` and another one under `high`. */
  ghost predicate TwoReadings(files: Files, low: RecordId, high: RecordId, e: Event) {
    low < high && files.Keys == {low, high} && e.Receive? && Offered(e).Some? &&
    KeyFor(files, low) == Offered(e) && KeyFor(files, high).Some? && KeyFor(files, high) != Offered(e)
  }

  /** One record that a start can neither read nor erase is stored a second time when its
      reading comes again, although every other call works. */
  lemma OneStrayStoredTwice(s: State, capacity: nat, low: RecordId, high: RecordId, e: Event)
    requires Initial(s) && high + 3 < U64_MAX && TwoReadings(s.files, low, high, e)
    requires Admissible(Core(Size(capacity), [], high + 1), QueueRecord(0, e.reception, e.frame))
    ensures DistinctFiles(s.files) &&
            !DistinctFiles(Run(s, [StrayStart(capacity, low, high), e, Enter(WORKING)]).files)
  {
    hide Offered, Admissible, KeyFor, HashFor, Run, Step, Sound, Bounded, DistinctFiles, Enqueue, Inv, SavedOk, Keys,
         Ids;
    var boot := StrayStart(capacity, low, high);
    TwoRecords(s, low, high, high);
    InitialSound(s);
    StrayBoot(s, capacity, low, high);
    StepKeeps(s, boot, high);
    var t, r := Step(s, boot), QueueRecord(0, e.reception, e.frame);
    SoundQueue(t);
    StillAdmissible(Core(Size(capacity), [], high + 1), t.power.q, r);
    WorkingEnqueue(t.power.q, t.files, r);
    OneQueued(t.power.q, t.files, high, Offered(e).value);
    StrayStoredTwice(t, e, WORKING, low);
    RunThree(s, boot, e, Enter(WORKING));
  }

  // ---- all of this happens to readings a node may send ----

  function SampleEvent(): (e: Event) { Receive(SampleFrame(1), SampleReception(), [0x41], false, {}) }

  lemma SampleIsAdmissible(capacity: nat)
    ensures Offered(SampleEvent()).Some?
    ensures Admissible(Core(capacity, [], 1), QueueRecord(0, SampleReception(), SampleFrame(1)))
  {
    hide DecodeTelemetry, SampleFrame;
    SampleDecodes(1);
    var one: RecordId := 1;
    var r := SampleOf(one, 1);
    assert r == QueueRecord(0, SampleReception(), SampleFrame(1)).(recordId := one);
  }

  /** The sample reading under `low`, another one under any other id. */
  function SampleRecord(id: RecordId, low: RecordId): (s: seq<byte>) {
    SampleFile(id, if id == low then 1 else 2)
  }

  /** Flash with the sample reading and another one. */
  ghost function SampleFlash(low: RecordId, high: RecordId): (files: Files) {
    map id: RecordId | id in {low, high} :: SampleRecord(id, low)
  }

  lemma SampleFlashHolds(low: RecordId, high: RecordId)
    requires low < high
    ensures TwoReadings(SampleFlash(low, high), low, high, SampleEvent())
  {
    hide SampleFile, Stored, DecodeTelemetry, SampleFrame;
    SampleStored(low, 1);
    SampleStored(high, 2);
    SampleDecodes(1);
    assert KeyOf(SamplePacket(1)).sequence != KeyOf(SamplePacket(2)).sequence;
  }
}
