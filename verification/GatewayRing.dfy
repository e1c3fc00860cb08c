/** What the ring of recent keys holds after any run, and that it answers readings that
    come again after they were finished. */
module GatewayRing {
  import opened Words
  import opened Protocol
  import opened TelemetryKeys
  import opened RecentKeys
  import opened QueueCore
  import opened QueueEnqueue
  import opened QueueRecovery
  import opened QueueFinish
  import opened Gateway
  import opened GatewaySafety
  import BackendContract

  // ---- the log of finished keys ----

  ghost predicate Finishes(s: State, e: Event) {
    e.Finish? && FinishEnabled(s) && AnsweredDecode(s.power.upload.batch, s.power.upload.results)
  }

  /** The keys whose record the event takes out of the queue, in order. */
  ghost function FinishedKeys(s: State, e: Event): (ks: seq<TelemetryKey>)
    requires Finishes(s, e)
  {
    Removed(Ids(s.power.q.entries), Actions(s.power.upload.batch, s.power.upload.results), e.stuck)
  }

  /** The log of finished keys, each when it was not among the newest of the log already. */
  ghost function RunLog(log: seq<TelemetryKey>, s: State, run: seq<Event>): (r: seq<TelemetryKey>)
    decreases |run|
  {
    if run == [] then log else RunLog(StepLog(log, s, run[0]), Step(s, run[0]), run[1..])
  }

  ghost function StepLog(log: seq<TelemetryKey>, s: State, e: Event): (r: seq<TelemetryKey>) {
    if Finishes(s, e) then Log(log, RECENT_CAPACITY, FinishedKeys(s, e)) else log
  }

  /** Saving and reading the ring file work. */
  predicate RingWorks(e: Event) {
    (e.Finish? ==> e.saved) && (e.Boot? ==> e.ringReadable)
  }

  ghost predicate InRam(s: State, log: seq<TelemetryKey>) {
    s.power.On? ==> s.power.recent == Last(log, RECENT_CAPACITY)
  }

  ghost predicate OnFlash(s: State, log: seq<TelemetryKey>) {
    LoadedRing(s.ring, true) == Last(log, RECENT_CAPACITY)
  }

  // ---- one step ----

  lemma FinishRing(s: State, e: Event, log: seq<TelemetryKey>)
    requires Sound(s) && Finishes(s, e) && InRam(s, log)
    ensures Step(s, e).power.On? && InRam(Step(s, e), StepLog(log, s, e))
    ensures Step(s, e).power.recent == s.power.recent || !e.saved ||
            Step(s, e).ring == Some(RecentFile(Step(s, e).power.recent))
    ensures Step(s, e).power.recent == s.power.recent ==>
              Step(s, e).ring == s.ring || Step(s, e).ring == Some(RecentFile(s.power.recent))
  {
    hide Sound, FinishAll, Actions, AnsweredDecode, RecentFile, Removed, BackendContract.InRange, Adds, Last, Log,
         RememberAll, Distinct, Ordered, Ids, Erasable;
    FinishesOn(s, e);
    SoundRing(s);
    SoundQueue(s);
    RingDistinct(s.power.recent, s.terminal);
    var p := s.power;
    InvOrdered(p.q, s.files);
    FinishLeaves(p.q, s.files, p.recent, Actions(p.upload.batch, p.upload.results), e.stuck);
    AddsChanges(p.recent, FinishedKeys(s, e));
    RingHoldsNewest(log, RECENT_CAPACITY, FinishedKeys(s, e));
  }

  lemma RingDistinct(ks: seq<TelemetryKey>, terminal: set<TelemetryKey>)
    requires RingOk(ks, terminal)
    ensures Distinct(ks) && |ks| <= RECENT_CAPACITY
  {
    hide Distinct, Proper;
  }

  /** Any other step of a running gateway leaves ring and ring file alone. */
  lemma OtherRing(s: State, e: Event)
    requires !Finishes(s, e) && !e.Boot?
    ensures Step(s, e).ring == s.ring
    ensures Step(s, e).power.On? ==> s.power.On? && Step(s, e).power.recent == s.power.recent
  {
    hide FinishAll, Enqueue, Recover, Peek, Contains, Knows, DecodeTelemetry, BackendContract.Parse,
         BackendContract.InRange, KeyFor, Keys, AnsweredKeys, Actions, IndexOf, CutPoint,
         Listing, Given, NewKey, AnsweredDecode, DiskKeys, Unread, CutFiles;
  }

  lemma BootRing(s: State, e: Event, log: seq<TelemetryKey>)
    requires e.Boot? && e.ringReadable && OnFlash(s, log) && InRam(s, log)
    ensures OnFlash(Step(s, e), log) && InRam(Step(s, e), log)
  {
    hide Recover, DecodeRecent, RememberAll, Listing, Unread, DiskKeys, Keys, Last;
  }

  /** A ring that was saved is the ring that will be loaded. */
  lemma SavedLoads(ks: seq<TelemetryKey>, terminal: set<TelemetryKey>)
    requires RingOk(ks, terminal)
    ensures LoadedRing(Some(RecentFile(ks)), true) == ks
  {
    hide RecentFile, Distinct, Proper, DecodeRecent, RememberAll;
    assert forall i | 0 <= i < |ks| :: ks[i] in ks;
    PersistThenLoad(ks);
  }

  lemma SoundRing(s: State)
    requires Sound(s) && s.power.On?
    ensures RingOk(s.power.recent, s.terminal)
  {
    hide Inv, SavedOk, RadioOk, UploadOk, RingOk, Secure;
  }

  /** The ring file that a finish leaves loads as the ring. */
  lemma FinishSaves(s: State, e: Event, log: seq<TelemetryKey>)
    requires Sound(s) && Sound(Step(s, e)) && Finishes(s, e) && e.saved && InRam(s, log) && OnFlash(s, log)
    ensures OnFlash(Step(s, e), StepLog(log, s, e))
  {
    hide Step, Sound, RingOk, LoadedRing, RecentFile, Last, Log, FinishEnabled, AnsweredDecode, FinishedKeys;
    FinishesOn(s, e);
    FinishRing(s, e, log);
    var t := Step(s, e);
    SoundRing(s);
    SoundRing(t);
    SavedLoads(t.power.recent, t.terminal);
  }

  lemma FinishesOn(s: State, e: Event)
    requires Finishes(s, e)
    ensures s.power.On?
  {
  }

  lemma StepRing(s: State, e: Event, log: seq<TelemetryKey>, n: nat)
    requires Sound(s) && Fits(s, n) && n + 1 < U64_MAX && InRam(s, log)
    requires e.Boot? ==> RingWorks(e) && OnFlash(s, log)
    ensures InRam(Step(s, e), StepLog(log, s, e))
    ensures RingWorks(e) && OnFlash(s, log) ==> OnFlash(Step(s, e), StepLog(log, s, e))
  {
    hide Step, Sound, Fits, LoadedRing, Last, Log, Finishes, FinishedKeys;
    if Finishes(s, e) {
      FinishIsFinish(s, e);
      StepKeeps(s, e, n);
      FinishRing(s, e, log);
      if e.saved && OnFlash(s, log) { FinishSaves(s, e, log); }
    } else if e.Boot? {
      BootRing(s, e, log);
    } else {
      OtherRing(s, e);
    }
  }

  lemma FinishIsFinish(s: State, e: Event)
    requires Finishes(s, e)
    ensures e.Finish?
  {
  }

  // ---- whole runs ----

  lemma {:induction false} RunRing(s: State, run: seq<Event>, log: seq<TelemetryKey>, n: nat)
    requires Sound(s) && Fits(s, n) && n + |run| < U64_MAX && InRam(s, log)
    requires (OnFlash(s, log) && forall e | e in run :: RingWorks(e)) || forall e | e in run :: !e.Boot?
    ensures InRam(Run(s, run), RunLog(log, s, run))
    decreases |run|
  {
    hide Sound, Fits, Step, StepLog, InRam, OnFlash, RingWorks;
    if run != [] {
      assert run[0] in run && forall e | e in run[1..] :: e in run;
      StepRing(s, run[0], log, n);
      StepKeeps(s, run[0], n);
      RunRing(Step(s, run[0]), run[1..], StepLog(log, s, run[0]), n + 1);
    }
  }

  /** From any start, over every run in which the ring file saves and loads: the ring holds
      exactly the newest 64 of the keys that were on file and those finished since. */
  lemma RingFollowsLog(s: State, run: seq<Event>, n: nat)
    requires Initial(s) && Bounded(s.files, n) && n + |run| < U64_MAX && forall e | e in run :: RingWorks(e)
    ensures var end := Run(s, run);
            end.power.On? ==>
              end.power.recent == Last(RunLog(LoadedRing(s.ring, true), s, run), RECENT_CAPACITY)
  {
    hide Run, RunLog, SavedOk, Bounded, RingWorks;
    InitialSound(s);
    RunRing(s, run, LoadedRing(s.ring, true), n);
  }

  /** Between two starts the same holds whether saves work or not. */
  lemma RingFollowsFinishes(s: State, run: seq<Event>, n: nat)
    requires Sound(s) && Fits(s, n) && n + |run| < U64_MAX && s.power.On? && forall e | e in run :: !e.Boot?
    ensures var end := Run(s, run);
            end.power.On? ==> end.power.recent == Last(RunLog(s.power.recent, s, run), RECENT_CAPACITY)
  {
    hide Run, RunLog, Inv, SavedOk, RadioOk, UploadOk;
    RunRing(s, run, s.power.recent, n);
  }

  // ---- a finished reading that comes again ----

  /** A frame of a reading the ring knows is acknowledged and changes nothing else, whatever
      reads fail. */
  lemma KnownIsDuplicate(s: State, e: Event, p: TelemetryPacket, fate: EnqueueFate, sent: bool)
    requires s.power.On? && s.power.radio.Listening? && e.Receive? && !e.pairing
    requires DecodeTelemetry(e.frame) == Accepted(p) && e.pairedId == p.nodeId && KeyOf(p) in s.power.recent
    ensures Run(s, [e, Enter(fate), Acknowledge(sent)])
         == s.(acked := if sent then s.acked + {KeyOf(p)} else s.acked)
  {
    hide DecodeTelemetry, EncodeTelemetry, KeyOf, Contains, NewKey, Run, Enqueue, Knows;
    RunThree(s, e, Enter(fate), Acknowledge(sent));
    KnowsItself(s.power.recent, KeyOf(p));
    TelemetryBijection(e.frame, p);
    FrameKey(e.frame, e.reception);
  }

  /** In particular one finished among the newest 64, over every run in which the ring file
      saves and loads. */
  lemma FinishedIsDuplicate(s: State, run: seq<Event>, n: nat, e: Event, p: TelemetryPacket, fate: EnqueueFate,
                            sent: bool)
    requires Initial(s) && Bounded(s.files, n) && n + |run| < U64_MAX && forall x | x in run :: RingWorks(x)
    requires var t := Run(s, run);
             t.power.On? && t.power.radio.Listening? && e.Receive? && !e.pairing && e.pairedId == p.nodeId
    requires DecodeTelemetry(e.frame) == Accepted(p)
    requires KeyOf(p) in Last(RunLog(LoadedRing(s.ring, true), s, run), RECENT_CAPACITY)
    ensures var t := Run(s, run);
            Run(s, run + [e, Enter(fate), Acknowledge(sent)])
              == t.(acked := if sent then t.acked + {KeyOf(p)} else t.acked)
  {
    hide Run, RunLog, Bounded, RingWorks, DecodeTelemetry, KeyOf, Initial, Last, LoadedRing;
    RingFollowsLog(s, run, n);
    RunAppend(s, run, [e, Enter(fate), Acknowledge(sent)]);
    KnownIsDuplicate(Run(s, run), e, p, fate, sent);
  }
}
