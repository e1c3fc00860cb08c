/** What became of each acknowledged reading, told by the events of the run alone. */
module GatewayHistory {
  import opened Words
  import opened Protocol
  import opened TelemetryKeys
  import opened RecentKeys
  import opened QueueCore
  import opened QueueEnqueue
  import opened QueueRecovery
  import opened QueueFinish
  import opened Gateway
  import opened GatewaySafety
  import BackendContract

  /** The records beyond the capacity, oldest first. */
  ghost function Oldest(files: Files, unreadable: set<RecordId>, capacity: nat): (s: seq<Entry>) {
    var index := IndexOf(files, Kept(files, unreadable));
    if |index| > capacity then index[..|index| - capacity] else []
  }

  /** The step gives up the reading for room: it erases a file of the reading, that of
      the head of a full queue, or one of the oldest beyond capacity at a start. */
  ghost predicate GivenUp(s: State, e: Event, k: TelemetryKey) {
    match e
    case Enter(_) => HeadOfFull(s, e, k)
    case EnterCut(_, _) => HeadOfFull(s, e, k)
    case Boot(capacity, recovery, _, _) => Overflows(s, e, recovery.unreadable, Size(capacity), k)
    case BootCut(capacity, recovery, _, _) => Overflows(s, e, recovery.unreadable, Size(capacity), k)
    case _ => false
  }

  ghost predicate HeadOfFull(s: State, e: Event, k: TelemetryKey) {
    s.power.On? && |s.power.q.entries| >= s.power.q.capacity > 0 &&
    KeyFor(s.files, s.power.q.entries[0].id) == Some(k) && s.power.q.entries[0].id !in Step(s, e).files
  }

  ghost predicate Overflows(s: State, e: Event, unreadable: set<RecordId>, capacity: nat, k: TelemetryKey) {
    s.power.Off? &&
    exists x :: x in Oldest(s.files, unreadable, capacity) && KeyFor(s.files, x.id) == Some(k) &&
                x.id !in Step(s, e).files
  }

  /** A start that finds no readable record of a committed reading, and leaves it behind. */
  ghost predicate LeftUnread(s: State, e: Event, k: TelemetryKey) {
    s.power.Off? && (e.Boot? || e.BootCut?) && k in DiskKeys(s.files) &&
    NoneReadable(s.files, e.recovery.unreadable, k) && k !in Live(Step(s, e))
  }

  /** A response that gives the reading a terminal result. */
  ghost predicate Answers(s: State, e: Event, k: TelemetryKey) {
    e.Respond? && s.power.On? && s.power.upload.Batched? && BackendContract.MayDequeue(e.httpStatus) &&
    var batch := s.power.upload.batch;
    match BackendContract.Parse(e.answer, |batch|)
    case None => false
    case Some(results) => BackendContract.InRange(results, |batch|) && k in AnsweredKeys(batch, results)
  }

  /** The step puts the reading into the queue. */
  ghost predicate Commits(s: State, e: Event, k: TelemetryKey) {
    e.Enter? && s.power.On? && s.power.radio.Checked? && !s.power.radio.duplicate && s.power.q.capacity > 0 &&
    NewKey(s.power.radio.record) == k && Enqueue(s.power.q, s.files, s.power.radio.record, e.fate).ok
  }

  // ---- one step ----

  lemma EnterGivesUp(s: State, fate: EnqueueFate, k: TelemetryKey)
    requires Sound(s) && s.power.On? && s.power.radio.Checked? && s.power.q.capacity > 0
    requires k in Keys(Enqueue(s.power.q, s.files, s.power.radio.record, fate).dropped, s.files)
    ensures |s.power.q.entries| >= s.power.q.capacity
    ensures KeyFor(s.files, s.power.q.entries[0].id) == Some(k)
    ensures s.power.q.entries[0].id !in EnterStep(s, fate).files
  {
    hide KeyFor, Inv, SavedOk, RingOk, RadioOk, UploadOk, Enqueue, NewBytes, NewKey, Admissible, KeyHash,
         Stored;
    var q := s.power.q;
    var run := Enqueue(q, s.files, s.power.radio.record, fate);
    EnqueueKeeps(q, s.files, s.power.radio.record, fate);
    InvBounds(q, s.files);
    var e :| e in run.dropped && KeyFor(s.files, e.id) == Some(k);
    assert e == q.entries[0] && e in q.entries && e.id in Ids(run.dropped);
    assert e.id !in run.files - {q.next};
  }

  lemma CutGivesUp(s: State, fate: EnqueueFate, after: nat, k: TelemetryKey)
    requires s.power.On? && s.power.radio.Checked? && s.power.q.capacity > 0
    requires k in EnterCutStep(s, fate, after).evicted && k !in s.evicted
    ensures |s.power.q.entries| >= s.power.q.capacity
    ensures KeyFor(s.files, s.power.q.entries[0].id) == Some(k)
    ensures s.power.q.entries[0].id !in EnterCutStep(s, fate, after).files
  {
    hide KeyFor, Enqueue;
    var q := s.power.q;
    var e :| e in q.entries[..1] && KeyFor(s.files, e.id) == Some(k);
    assert e == q.entries[0];
  }

  lemma BootGivesUp(s: State, e: Event, k: TelemetryKey)
    requires s.power.Off? && e.Boot? && k in BootStep(s, e).evicted && k !in s.evicted
    ensures exists x :: x in Oldest(s.files, e.recovery.unreadable, Size(e.capacity)) &&
                        KeyFor(s.files, x.id) == Some(k) && x.id !in BootStep(s, e).files
  {
    hide KeyFor, IndexOf, Kept, LoadedRing, Unread, DiskKeys, RingLoads;
    var run := Recover(s.files, Size(e.capacity), e.recovery);
    var x :| x in run.dropped && KeyFor(s.files, x.id) == Some(k);
    assert x.id in Ids(run.dropped);
    var i :| 0 <= i < |run.dropped| && run.dropped[i] == x;
    assert Oldest(s.files, e.recovery.unreadable, Size(e.capacity))[i] == x;
  }

  lemma BootCutGivesUp(s: State, e: Event, k: TelemetryKey)
    requires s.power.Off? && e.BootCut? && k in BootCutStep(s, e).evicted && k !in s.evicted
    ensures exists x :: x in Oldest(s.files, e.recovery.unreadable, Size(e.capacity)) &&
                        KeyFor(s.files, x.id) == Some(k) && x.id !in BootCutStep(s, e).files
  {
    hide KeyFor, IndexOf, Kept, Unread, DiskKeys, Discards;
    var index := IndexOf(s.files, Kept(s.files, e.recovery.unreadable));
    var x :| x in index[..e.drops] && KeyFor(s.files, x.id) == Some(k);
    assert x.id in Ids(index[..e.drops]);
    var i :| 0 <= i < e.drops && index[i] == x;
    assert Oldest(s.files, e.recovery.unreadable, Size(e.capacity))[i] == x;
  }

  /** A start that can list the directory brings the gateway up, with the radio listening
      and nothing in flight, exactly when every record beyond capacity can be erased; which
      files cannot be read does not matter. */
  lemma BootStartsIff(s: State, e: Event)
    requires s.power.Off? && e.Boot? && Listing(s.files, e.recovery.listed)
    ensures Step(s, e).power.On? <==>
            forall x | x in Oldest(s.files, e.recovery.unreadable, Size(e.capacity)) :: x.id !in e.recovery.stuck
    ensures Step(s, e).power.On? ==>
              Step(s, e).power.radio.Listening? && Step(s, e).power.upload.Resting? &&
              Step(s, e).power.q.capacity == Size(e.capacity) > 0
  {
    hide KeyFor, IndexOf, Kept, LoadedRing, Unread, DiskKeys, RingLoads, Listing, Discards, NextAfter, Dropping;
    var index := IndexOf(s.files, Kept(s.files, e.recovery.unreadable));
    RecoverCompletesIff(s.files, Size(e.capacity), e.recovery);
    var oldest := Oldest(s.files, e.recovery.unreadable, Size(e.capacity));
    assert forall i | 0 <= i < |oldest| :: oldest[i] == index[i];
    if forall i | 0 <= i < |oldest| :: oldest[i].id !in e.recovery.stuck {
      assert forall x | x in oldest :: x.id !in e.recovery.stuck;
    }
    assert forall i | 0 <= i < |oldest| :: oldest[i] in oldest;
  }

  /** A key enters the eviction ledger only with a file given up for room, and leaves it
      when it is committed again. */
  lemma EvictedStep(s: State, e: Event, k: TelemetryKey)
    requires Sound(s) && k in Step(s, e).evicted
    ensures !Commits(s, e, k) && (k in s.evicted || GivenUp(s, e, k))
  {
    hide Sound, FinishAll, Enqueue, Peek, Contains, Knows, DecodeTelemetry, BackendContract.Parse,
         BackendContract.InRange, KeyFor, Keys, AnsweredKeys, Actions, EnterCutStep, BootStep, BootCutStep,
         Listing, NewKey, AnsweredDecode, Oldest;
    match e
    case Enter(fate) =>
      if s.power.On? && s.power.radio.Checked? && s.power.q.capacity > 0 && k !in s.evicted && Step(s, e) != s {
        EnterGivesUp(s, fate, k);
      }
    case EnterCut(fate, after) =>
      if s.power.On? && s.power.radio.Checked? && s.power.q.capacity > 0 && k !in s.evicted && Step(s, e) != s {
        CutGivesUp(s, fate, after, k);
      }
    case Boot(_, _, _, _) =>
      if s.power.Off? && k !in s.evicted && Step(s, e) != s { BootGivesUp(s, e, k); }
    case BootCut(_, _, _, _) =>
      if s.power.Off? && k !in s.evicted { BootCutGivesUp(s, e, k); }
    case _ =>
  }

  /** A key is discarded only by a start that can read none of its records and leaves it
      behind. */
  lemma DiscardedStep(s: State, e: Event, k: TelemetryKey)
    requires k in Step(s, e).discarded
    ensures !Commits(s, e, k) && (k in s.discarded || LeftUnread(s, e, k))
  {
    hide FinishAll, Enqueue, Recover, Peek, Contains, Knows, DecodeTelemetry, BackendContract.Parse,
         BackendContract.InRange, KeyFor, Keys, AnsweredKeys, Actions, IndexOf, CutPoint, RingLoads, LoadedRing,
         Listing, Given, NewKey, AnsweredDecode, DiskKeys, NoneReadable;
    if e.Boot? { RecoverSplit(s.files, Size(e.capacity), e.recovery); }
  }

  lemma TerminalStep(s: State, e: Event, k: TelemetryKey)
    requires k in Step(s, e).terminal
    ensures k in s.terminal || Answers(s, e, k)
  {
    hide FinishAll, Enqueue, Recover, Peek, Contains, Knows, DecodeTelemetry, BackendContract.Parse,
         BackendContract.InRange, KeyFor, Keys, AnsweredKeys, Actions, IndexOf, CutPoint, RingLoads, LoadedRing,
         Listing, Given, NewKey, AnsweredDecode, DiskKeys, Unread;
  }

  // ---- the step that loses a reading ----

  /** The ledgers have no effect on what happens. */
  lemma SameCourse(s: State, e: Event, acked: set<TelemetryKey>)
    ensures var t, u := Step(s, e), Step(s.(acked := acked, evicted := {}, discarded := {}), e);
            t.power == u.power && t.files == u.files && t.ring == u.ring && t.terminal == u.terminal
  {
    hide FinishAll, Enqueue, Recover, Peek, Contains, Knows, DecodeTelemetry, BackendContract.Parse,
         BackendContract.InRange, KeyFor, Keys, AnsweredKeys, Actions, IndexOf, CutPoint, RingLoads, LoadedRing,
         Listing, Given, NewKey, AnsweredDecode, DiskKeys, Unread, CutFiles;
  }

  lemma SoundAfresh(s: State, k: TelemetryKey)
    requires Sound(s) && k in Live(s)
    ensures Sound(s.(acked := {k}, evicted := {}, discarded := {}))
  {
    hide Inv, RingOk, SavedOk, UploadOk, KeyFor, NewKey, Proper, DecodeTelemetry, Keys, DiskKeys;
    var t := s.(acked := {k}, evicted := {}, discarded := {});
    assert Live(t) == Live(s);
    hide Live;
    if s.power.On? {
      assert RadioOk(t);
      SameUploadOk(s, t);
    }
  }

  lemma SameUploadOk(s: State, t: State)
    requires s.power.On? && t.power == s.power && t.files == s.files && t.terminal == s.terminal && UploadOk(s)
    ensures UploadOk(t)
  {
    hide BatchOk, AnsweredKeys, BackendContract.InRange, BackendContract.DistinctIndices;
  }

  lemma SameLoss(s: State, t: State, e: Event, k: TelemetryKey)
    requires t.power == s.power && t.files == s.files
    requires Step(t, e).power == Step(s, e).power && Step(t, e).files == Step(s, e).files
    ensures GivenUp(t, e, k) <==> GivenUp(s, e, k)
    ensures LeftUnread(t, e, k) <==> LeftUnread(s, e, k)
  {
    hide Step, KeyFor, Keys, DiskKeys, NoneReadable, Oldest;
  }

  /** A reading that is committed, and not after the step, has a terminal result, or the
      step gave up its file for room, or is a start that could read none of its records. */
  lemma LossStep(s: State, e: Event, n: nat, k: TelemetryKey)
    requires Sound(s) && Fits(s, n) && n + 1 < U64_MAX && k in Live(s) && k !in Live(Step(s, e))
    ensures k in Step(s, e).terminal || GivenUp(s, e, k) || LeftUnread(s, e, k)
  {
    hide Step, GivenUp, LeftUnread, Commits, Inv, SavedOk, RingOk, RadioOk, UploadOk, KeyFor, Keys, DiskKeys, Bounded;
    var t := s.(acked := {k}, evicted := {}, discarded := {});
    SameCourse(s, e, {k});
    SoundAfresh(s, k);
    StepKeeps(t, e, n);
    AckedGrows(t, e);
    SameLoss(s, t, e, k);
    var u := Step(t, e);
    assert Live(u) == Live(Step(s, e));
    if k in u.evicted { EvictedStep(t, e, k); }
    if k in u.discarded { DiscardedStep(t, e, k); }
  }

  lemma AckedGrows(s: State, e: Event)
    ensures s.acked <= Step(s, e).acked && s.terminal <= Step(s, e).terminal
  {
    hide FinishAll, Enqueue, Recover, Peek, Contains, Knows, DecodeTelemetry, BackendContract.Parse,
         BackendContract.InRange, KeyFor, Keys, AnsweredKeys, Actions, IndexOf, CutPoint, RingLoads, LoadedRing,
         Listing, Given, NewKey, AnsweredDecode, DiskKeys, Unread, CutFiles;
  }

  // ---- whole runs ----

  /** The reading was lost at event i: committed before it, never again after it, and the
      event gave it up for room or could read none of its records. */
  ghost predicate LostAt(s: State, run: seq<Event>, i: nat, k: TelemetryKey) {
    i < |run| && k in Live(Run(s, run[..i])) && GoneSince(s, run, i, k) &&
    (GivenUp(Run(s, run[..i]), run[i], k) || LeftUnread(Run(s, run[..i]), run[i], k))
  }

  ghost predicate GoneSince(s: State, run: seq<Event>, i: nat, k: TelemetryKey) {
    forall j | i < j <= |run| :: k !in Live(Run(s, run[..j]))
  }

  ghost predicate AnsweredAt(s: State, run: seq<Event>, i: nat, k: TelemetryKey) {
    i < |run| && Answers(Run(s, run[..i]), run[i], k)
  }

  /** Committed or finished after the first m events. */
  ghost predicate SafeAt(s: State, run: seq<Event>, m: nat, k: TelemetryKey) {
    m <= |run| && k in Safe(Run(s, run[..m]))
  }

  lemma RunLast(s: State, run: seq<Event>)
    requires run != []
    ensures Run(s, run) == Step(Run(s, run[..|run| - 1]), run[|run| - 1])
  {
    hide Step, Run;
    var init, last := run[..|run| - 1], run[|run| - 1];
    assert run == init + [last];
    RunAppend(s, init, [last]);
    RunOne(Run(s, init), last);
  }

  lemma Prefixes(run: seq<Event>, i: nat)
    requires i < |run|
    ensures run[..|run| - 1][..i] == run[..i]
    ensures i + 1 < |run| ==> run[..|run| - 1][i] == run[i]
  {
  }

  /** An acknowledgement goes out only for a reading that is committed or finished. */
  lemma AckedStep(s: State, e: Event, k: TelemetryKey)
    requires Sound(s) && k in Step(s, e).acked && k !in s.acked
    ensures k in Safe(s)
  {
    hide Inv, SavedOk, RingOk, UploadOk, Safe, FinishAll, Enqueue, Recover, Peek, Contains, Knows, DecodeTelemetry,
         BackendContract.Parse, BackendContract.InRange, KeyFor, Keys, AnsweredKeys, Actions, IndexOf, CutPoint,
         RingLoads, LoadedRing, Listing, Given, NewKey, AnsweredDecode, DiskKeys, Unread, CutFiles;
  }

  lemma {:induction false} AckedWhen(s: State, run: seq<Event>, n: nat, k: TelemetryKey)
    requires Sound(s) && Fits(s, n) && n + |run| < U64_MAX && k in Run(s, run).acked && k !in s.acked
    ensures exists m: nat :: SafeAt(s, run, m, k)
    decreases |run|
  {
    hide Sound, Fits, Step, Safe;
    if run != [] {
      var m := |run| - 1;
      RunLast(s, run);
      RunKeeps(s, run[..m], n);
      if k in Run(s, run[..m]).acked {
        AckedWhen(s, run[..m], n, k);
        var i: nat :| SafeAt(s, run[..m], i, k);
        Prefixes(run, i);
        assert SafeAt(s, run, i, k);
      } else {
        AckedStep(Run(s, run[..m]), run[m], k);
        assert SafeAt(s, run, m, k);
      }
    }
  }

  lemma {:induction false} TerminalStays(s: State, run: seq<Event>, m: nat)
    requires m <= |run|
    ensures Run(s, run[..m]).terminal <= Run(s, run).terminal
    decreases |run|
  {
    hide Step;
    if m == |run| {
      assert run[..m] == run;
    } else {
      RunLast(s, run);
      AckedGrows(Run(s, run[..|run| - 1]), run[|run| - 1]);
      TerminalStays(s, run[..|run| - 1], m);
      Prefixes(run, m);
    }
  }

  /** A reading that was committed at some time, and is neither that nor finished at the
      end, was lost at some event. */
  lemma {:induction false} LostWhen(s: State, run: seq<Event>, n: nat, m: nat, k: TelemetryKey)
    requires Sound(s) && Fits(s, n) && n + |run| < U64_MAX && m <= |run| && k in Live(Run(s, run[..m]))
    requires k !in Safe(Run(s, run))
    ensures exists i: nat :: LostAt(s, run, i, k)
    decreases |run|
  {
    hide Sound, Fits, Step, Live, GivenUp, LeftUnread, Run;
    var last := |run| - 1;
    assert run[..|run|] == run;
    RunLast(s, run);
    RunKeeps(s, run[..last], n);
    var t := Run(s, run[..last]);
    if k in Live(t) {
      LossStep(t, run[last], n + last, k);
      assert LostAt(s, run, last, k) by { assert GoneSince(s, run, last, k); }
    } else {
      AckedGrows(t, run[last]);
      Prefixes(run, m);
      LostWhen(s, run[..last], n, m, k);
      var i: nat :| LostAt(s, run[..last], i, k);
      LostStill(s, run, i, k);
    }
  }

  lemma LostStill(s: State, run: seq<Event>, i: nat, k: TelemetryKey)
    requires run != [] && LostAt(s, run[..|run| - 1], i, k) && k !in Live(Run(s, run))
    ensures LostAt(s, run, i, k)
  {
    hide Run, Live, GivenUp, LeftUnread;
    Prefixes(run, i);
    assert run[..|run|] == run;
    forall j | i < j <= |run|
      ensures k !in Live(Run(s, run[..j]))
    {
      if j < |run| { Prefixes(run, j); }
    }
  }

  lemma {:induction false} AnsweredWhen(s: State, run: seq<Event>, k: TelemetryKey)
    requires k in Run(s, run).terminal && k !in s.terminal
    ensures exists i: nat :: AnsweredAt(s, run, i, k)
    decreases |run|
  {
    hide Step, Answers;
    if run != [] {
      var m := |run| - 1;
      var t := Run(s, run[..m]);
      RunLast(s, run);
      TerminalStep(t, run[m], k);
      if k in t.terminal {
        AnsweredWhen(s, run[..m], k);
        var i: nat :| AnsweredAt(s, run[..m], i, k);
        Prefixes(run, i);
        assert AnsweredAt(s, run, i, k);
      } else {
        assert AnsweredAt(s, run, m, k);
      }
    }
  }

  /** Over every run, a reading ever acknowledged is committed (and indexed while the
      gateway runs), or a response of the run answered it, or there is the event that lost
      it: committed before, never again after, and that event erased its file as the head
      of a full queue or as one of the oldest beyond capacity at a start, or is a start
      that could read none of its records. */
  lemma AckedReadingsAccountedFor(s: State, run: seq<Event>, n: nat, k: TelemetryKey)
    requires Initial(s) && Bounded(s.files, n) && n + |run| < U64_MAX && k in Run(s, run).acked
    ensures k in Live(Run(s, run)) || k in s.terminal || (exists i: nat :: AnsweredAt(s, run, i, k)) ||
            (exists i: nat :: LostAt(s, run, i, k))
  {
    hide Run, KeyFor, Live, AnsweredAt, LostAt, SavedOk, Bounded;
    InitialSound(s);
    AckedWhen(s, run, n, k);
    var m: nat :| SafeAt(s, run, m, k);
    TerminalStays(s, run, m);
    var end := Run(s, run);
    if k in end.terminal && k !in s.terminal { AnsweredWhen(s, run, k); }
    if k !in Safe(end) { LostWhen(s, run, n, m, k); }
  }
}
