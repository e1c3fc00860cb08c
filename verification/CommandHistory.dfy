/** Every run of the command store: dashboard, radio task and restarts interleaved, with
    saves that may fail and an acknowledgement in flight. */
module CommandHistory {
  import opened Words
  import opened Protocol
  import opened CommandStores

  /** RAM and flash, the command snapshot an acknowledgement in flight carries, and the
      history: ids handed out, records saved since the first start, results heard. */
  datatype Store = Store(
    on: bool, ram: Record, saved: Option<Record>, flight: Option<Command>,
    issued: seq<u32>, log: seq<Record>, heard: set<CommandResultPacket>)

  datatype Event =
    | Boot(loads: bool, saves: bool)
    | PowerLoss
    | Create(request: Request, saves: bool)
    | Cancel(id: u32, saves: bool)
    | Snapshot
    | MarkSent(at: i64, saves: bool)
    | Result(frame: seq<byte>, saves: bool)

  function Publish(s: Store, candidate: Option<Record>, saves: bool): (s': Store) {
    if candidate.None? || !saves then s
    else s.(ram := candidate.value, saved := candidate, log := s.log + [candidate.value])
  }

  function BootStep(s: Store, loads: bool, saves: bool): (s': Store) {
    if loads && Trusted(s.saved) then s.(on := true, ram := s.saved.value)
    else if saves then s.(on := true, ram := Fresh(), saved := Some(Fresh()), log := s.log + [Fresh()])
    else s.(on := true, ram := Fresh())
  }

  function CreateStep(s: Store, request: Request, saves: bool): (s': Store) {
    var c := Creating(s.ram, request);
    if c.None? || !saves then s
    else Publish(s, c, saves).(issued := s.issued + [s.ram.next])
  }

  /** The radio task passes on only what it could decode. */
  function ResultStep(s: Store, frame: seq<byte>, saves: bool): (s': Store) {
    match DecodeResult(frame)
    case Rejected(_) => s
    case Accepted(p) => Publish(s.(heard := s.heard + {p}), Confirming(s.ram, p), saves)
  }

  function Step(s: Store, e: Event): (s': Store) {
    match e
    case Boot(loads, saves) => if s.on then s else BootStep(s, loads, saves)
    case PowerLoss => s.(on := false, flight := None)
    case Create(request, saves) => if s.on then CreateStep(s, request, saves) else s
    case Cancel(id, saves) => if s.on then Publish(s, Cancelling(s.ram, id), saves) else s
    case Snapshot => if s.on then s.(flight := PendingForAck(s.ram)) else s
    case MarkSent(at, saves) =>
      if s.on && s.flight.Some?
      then Publish(s, Marking(s.ram, s.flight.value.id, at), saves).(flight := None) else s
    case Result(frame, saves) => if s.on then ResultStep(s, frame, saves) else s
  }

  function Run(s: Store, run: seq<Event>): (s': Store)
    decreases |run|
  {
    if run == [] then s else Run(Step(s, run[0]), run[1..])
  }

  /** A gateway that has never saved a command record. */
  predicate Initial(s: Store) {
    !s.on && !Trusted(s.saved) && s.flight.None? && s.issued == [] && s.log == [] && s.heard == {}
  }

  // ---- the invariant ----

  /** The record the store stands for: the last one saved, or the first one. */
  function Current(s: Store): (r: Record) {
    if s.log == [] then Fresh() else s.log[|s.log| - 1]
  }

  /** A command is either absent or complete, and the allocator is one ahead of it. */
  predicate Consistent(r: Record) {
    var c := r.command;
    Valid(r) && r.next == c.id + 1 &&
    (c.id == 0 ==> r == Fresh()) &&
    (c.id != 0 ==> (Active(c) || Final(c)) && ArgumentOk(c))
  }

  predicate ArgumentOk(c: Command) {
    c.kind != COMMAND_NONE && (c.kind == SET_POLL_INTERVAL ==> c.pollIntervalMinutes != 0) &&
    (c.kind == SCHEDULE_MAINTENANCE_AT ==> c.scheduledMaintenanceUnix != 0)
  }

  predicate Increasing(ids: seq<u32>) {
    forall i, j | 0 <= i < j < |ids| :: ids[i] < ids[j]
  }

  predicate IsConfirmedBy(c: Command, p: CommandResultPacket) {
    ResultMatches(c, p) && c.result == p.resultCode
  }

  predicate Backed(c: Command, heard: set<CommandResultPacket>) {
    c.state == CONFIRMED ==> exists p :: p in heard && IsConfirmedBy(c, p)
  }

  /** What a later record may say about an earlier one's command. */
  predicate Follows(a: Record, b: Record) {
    a.next <= b.next && a.command.id <= b.command.id &&
    (a.command.id == b.command.id ==> a.command.kind == b.command.kind) &&
    (a.command.id == b.command.id && Final(a.command) ==> a.command == b.command)
  }

  predicate Settled(log: seq<Record>, id: u32) {
    exists r :: r in log && r.command.id == id && Final(r.command)
  }

  /** Ids increase, the current command has the last of them, all others are settled. */
  predicate IdsSound(issued: seq<u32>, log: seq<Record>, last: u32) {
    Increasing(issued) && (forall id | id in issued :: 0 < id <= last) && (last != 0 ==> last in issued) &&
    forall id | id in issued && id != last :: Settled(log, id)
  }

  predicate LogSound(log: seq<Record>, heard: set<CommandResultPacket>, current: Record) {
    (forall r | r in log :: Consistent(r) && Backed(r.command, heard) && Follows(r, current)) &&
    forall i, j | 0 <= i < j < |log| :: Follows(log[i], log[j])
  }

  predicate Sound(s: Store) {
    (s.flight.Some? ==> s.flight.value.id in s.issued) &&
    Consistent(Current(s)) &&
    (s.on ==> s.ram == Current(s)) &&
    (if s.log == [] then !Trusted(s.saved) else s.saved == Some(Current(s))) &&
    IdsSound(s.issued, s.log, Current(s).command.id) && LogSound(s.log, s.heard, Current(s))
  }

  // ---- every step keeps it ----

  lemma FollowsTransitive(a: Record, b: Record, c: Record)
    requires Follows(a, b) && Follows(b, c)
    ensures Follows(a, c)
  {
  }

  lemma FreshConsistent()
    ensures Consistent(Fresh())
  {
    hide Fnv32, Layout;
    Reseal(Record(STORE_MAGIC, STORE_SCHEMA, STORE_BYTES, 1,
                  Command(0, COMMAND_NONE, NONE, 0, 0, -1, -1, 0, RESULT_NONE, 0, 0), 0));
  }

  /** The checksum does not cover itself. */
  lemma Reseal(r: Record)
    ensures Sealed(r).checksum == Checksum(Sealed(r))
  {
    hide Fnv32;
  }

  /** Saving a record that may follow the current one, for the same command or for a
      new one once the last is settled. */
  lemma PublishKeeps(s: Store, n: Record, issued: seq<u32>)
    requires Sound(s) && s.on && Consistent(n) && Backed(n.command, s.heard) && Follows(Current(s), n)
    requires if n.command.id == Current(s).command.id then issued == s.issued && n.command.id != 0
             else issued == s.issued + [n.command.id] &&
                  (s.issued != [] ==> s.log != [] && Final(Current(s).command))
    ensures Sound(Publish(s, Some(n), true).(issued := issued))
  {
    assert Current(s).command.id <= n.command.id;
    hide Consistent, Backed, Valid, Fresh, LogSound, IdsSound, Follows;
    assert Current(Publish(s, Some(n), true).(issued := issued)) == n;
    LogKeeps(s, n);
    IdsKeep(s, n, issued);
  }

  lemma IdsKeep(s: Store, n: Record, issued: seq<u32>)
    requires IdsSound(s.issued, s.log, Current(s).command.id) && Current(s).command.id <= n.command.id
    requires if n.command.id == Current(s).command.id then issued == s.issued && n.command.id != 0
             else issued == s.issued + [n.command.id] &&
                  (s.issued != [] ==> s.log != [] && Final(Current(s).command))
    ensures IdsSound(issued, s.log + [n], n.command.id)
  {
    hide Fresh;
    var log := s.log + [n];
    assert forall id | id in issued :: id in s.issued || id == n.command.id;
    forall id | id in issued && id != n.command.id
      ensures Settled(log, id)
    {
      assert id in s.issued;
      if id == Current(s).command.id {
        assert Current(s) in log;
      } else {
        var r :| r in s.log && r.command.id == id && Final(r.command);
        assert r in log;
      }
    }
    hide Settled;
    if n.command.id != Current(s).command.id {
      forall i, j | 0 <= i < j < |issued|
        ensures issued[i] < issued[j]
      {
        assert issued[i] == s.issued[i] && issued[i] in s.issued;
      }
      assert issued[|issued| - 1] in issued;
    }
  }

  lemma LogKeeps(s: Store, n: Record)
    requires LogSound(s.log, s.heard, Current(s))
    requires Consistent(n) && Backed(n.command, s.heard) && Follows(Current(s), n)
    ensures LogSound(s.log + [n], s.heard, n)
  {
    hide Consistent, Backed, Fresh;
    var log := s.log + [n];
    forall r | r in log
      ensures Consistent(r) && Backed(r.command, s.heard) && Follows(r, n)
    {
      if r in s.log { FollowsTransitive(r, Current(s), n); }
    }
    hide Follows;
    forall i, j | 0 <= i < j < |log|
      ensures Follows(log[i], log[j])
    {
      if j < |s.log| {
        assert log[i] == s.log[i] && log[j] == s.log[j];
      } else {
        assert log[i] in log && log[j] == n;
      }
    }
  }

  lemma CreateKeeps(s: Store, request: Request, saves: bool)
    requires Sound(s) && s.on
    ensures Sound(CreateStep(s, request, saves))
  {
    hide Checksum, Fresh, Backed, Settled, Increasing;
    var c := Creating(s.ram, request);
    if c.Some? && saves {
      Reseal(s.ram.(next := c.value.next, command := c.value.command));
      FreshCommand();
      Unconfirmed(c.value.command, s.heard);
      if s.issued != [] { assert s.issued[0] in s.issued; }
      hide Consistent;
      PublishKeeps(s, c.value, s.issued + [s.ram.next]);
    }
  }

  lemma Unconfirmed(c: Command, heard: set<CommandResultPacket>)
    requires c.state != CONFIRMED
    ensures Backed(c, heard)
  {
  }

  lemma CancelKeeps(s: Store, id: u32, saves: bool)
    requires Sound(s) && s.on
    ensures Sound(Publish(s, Cancelling(s.ram, id), saves))
  {
    hide Checksum;
    var c := Cancelling(s.ram, id);
    if c.Some? && saves {
      Reseal(s.ram.(command := c.value.command));
      PublishKeeps(s, c.value, s.issued);
    }
  }

  /** Whatever happened since the snapshot, marking it sent is harmless. */
  lemma MarkKeeps(s: Store, id: u32, at: i64, saves: bool)
    requires Sound(s) && s.on
    ensures Sound(Publish(s, Marking(s.ram, id, at), saves))
  {
    hide Checksum;
    var c := Marking(s.ram, id, at);
    if c.Some? && saves {
      Reseal(s.ram.(command := c.value.command));
      PublishKeeps(s, c.value, s.issued);
    }
  }

  lemma ResultKeeps(s: Store, frame: seq<byte>, saves: bool)
    requires Sound(s) && s.on
    ensures Sound(ResultStep(s, frame, saves))
  {
    hide Checksum, DecodeResult, Consistent, Current, Settled, Increasing, Follows, EncodeResult;
    match DecodeResult(frame)
    case Rejected(_) =>
    case Accepted(p) =>
      ResultBijection(frame, p);
      HeardMore(s, p);
      ConfirmKeeps(s.(heard := s.heard + {p}), p, saves);
  }

  lemma HeardMore(s: Store, p: CommandResultPacket)
    requires Sound(s)
    ensures Sound(s.(heard := s.heard + {p}))
  {
    hide Consistent, Follows, Settled;
    var s' := s.(heard := s.heard + {p});
    forall r | r in s.log
      ensures Backed(r.command, s'.heard)
    {
      if r.command.state == CONFIRMED {
        var q :| q in s.heard && IsConfirmedBy(r.command, q);
        assert q in s'.heard;
      }
    }
    assert Current(s') == Current(s);
  }

  lemma ConfirmKeeps(s: Store, p: CommandResultPacket, saves: bool)
    requires Sound(s) && s.on && p in s.heard && ValidResult(p.resultCode, false)
    ensures Sound(Publish(s, Confirming(s.ram, p), saves))
  {
    hide Checksum;
    var c := Confirming(s.ram, p);
    if c.Some? && saves {
      Reseal(s.ram.(command := c.value.command));
      assert IsConfirmedBy(c.value.command, p);
      PublishKeeps(s, c.value, s.issued);
    }
  }

  /** A restart that reads back what was saved, or before any id was handed out, changes
      nothing. */
  lemma BootKeeps(s: Store, loads: bool, saves: bool)
    requires Sound(s) && !s.on && s.flight.None? && (loads || s.issued == [])
    ensures Sound(BootStep(s, loads, saves)) && BootStep(s, loads, saves).on
  {
    hide Checksum, Settled, Fresh, Backed;
    FreshConsistent();
    FreshCommand();
    if s.issued != [] { assert s.issued[0] in s.issued; }
    if !(loads && Trusted(s.saved)) {
      assert Current(s) == Fresh();
      if saves {
        hide LogSound, IdsSound;
        assert Current(BootStep(s, loads, saves)) == Fresh();
        FreshAgain(s);
      }
    }
  }

  lemma FreshAgain(s: Store)
    requires Current(s) == Fresh() && LogSound(s.log, s.heard, Fresh())
    requires IdsSound(s.issued, s.log, 0) && s.issued == []
    ensures LogSound(s.log + [Fresh()], s.heard, Fresh()) && IdsSound(s.issued, s.log + [Fresh()], 0)
  {
    hide Fresh, Consistent;
    FreshConsistent();
    FreshCommand();
    LogKeeps(s, Fresh());
  }

  lemma FreshCommand()
    ensures Fresh().command.id == 0 && Fresh().command.state == NONE && Fresh().next == 1
  {
  }

  /** A fresh store has no command, nothing sent and no result, and is trusted. */
  lemma FreshFields()
    ensures Fresh().command.kind == COMMAND_NONE && Fresh().command.result == RESULT_NONE
    ensures Fresh().command.lastSentUnixMs == -1 && Fresh().command.createdUnixMs == -1
    ensures Fresh().command.sendCount == 0 && Trusted(Some(Fresh()))
  {
  }

  lemma SnapshotKeeps(s: Store)
    requires Sound(s) && s.on
    ensures Sound(s.(flight := PendingForAck(s.ram)))
  {
    hide Fresh, Backed, Settled, Increasing, Follows, Valid;
    FreshCommand();
    assert Current(s.(flight := PendingForAck(s.ram))) == Current(s);
  }

  lemma DropFlight(s: Store, on: bool)
    requires Sound(s) && (s.on || !on)
    ensures Sound(s.(flight := None, on := on))
  {
    hide Fresh, Backed, Settled, Increasing, Follows, Consistent;
    assert Current(s.(flight := None, on := on)) == Current(s);
  }

  /** Running implies nothing about flight; switched off, nothing is in flight. */
  predicate Quiet(s: Store) { !s.on ==> s.flight.None? }

  /** A restart loads the saved record, unless no id has been handed out yet. */
  predicate Remembers(s: Store, e: Event) { e.Boot? && !s.on ==> e.loads || s.issued == [] }

  predicate AllRemember(s: Store, run: seq<Event>)
    decreases |run|
  {
    run == [] || (Remembers(s, run[0]) && AllRemember(Step(s, run[0]), run[1..]))
  }

  lemma StepKeeps(s: Store, e: Event)
    requires Sound(s) && Quiet(s) && Remembers(s, e)
    ensures Sound(Step(s, e)) && Quiet(Step(s, e))
  {
    hide Creating, Cancelling, Marking, Confirming, BootStep, Sound, PendingForAck, DecodeResult;
    if e.PowerLoss? {
      DropFlight(s, false);
    } else if s.on {
      match e
      case Create(request, saves) => CreateKeeps(s, request, saves);
      case Cancel(id, saves) => CancelKeeps(s, id, saves);
      case Snapshot => SnapshotKeeps(s);
      case MarkSent(at, saves) =>
        if s.flight.Some? {
          MarkKeeps(s, s.flight.value.id, at, saves);
          DropFlight(Publish(s, Marking(s.ram, s.flight.value.id, at), saves), true);
        }
      case Result(frame, saves) => ResultKeeps(s, frame, saves);
      case _ =>
    } else if e.Boot? {
      BootKeeps(s, e.loads, e.saves);
    }
  }

  lemma {:induction false} RunKeeps(s: Store, run: seq<Event>)
    requires Sound(s) && Quiet(s) && AllRemember(s, run)
    ensures Sound(Run(s, run)) && Quiet(Run(s, run))
    decreases |run|
  {
    hide Sound, Quiet, Step, Remembers;
    if run != [] {
      StepKeeps(s, run[0]);
      RunKeeps(Step(s, run[0]), run[1..]);
    }
  }

  lemma InitialSound(s: Store)
    requires Initial(s)
    ensures Sound(s) && Quiet(s)
  {
    hide Fresh, Consistent, Backed, Follows, Settled;
    FreshConsistent();
    FreshCommand();
  }

  // ---- the guarantees, over every run from a gateway without a saved record ----

  /** A complete record whose confirmation, if it has one, was heard. */
  predicate Good(r: Record, heard: set<CommandResultPacket>) {
    Consistent(r) && Backed(r.command, heard)
  }

  /** What holds even if saved records fail to load. */
  predicate Steady(s: Store) {
    (s.on ==> Good(s.ram, s.heard)) && (Trusted(s.saved) ==> Good(s.saved.value, s.heard)) &&
    forall r | r in s.log :: Good(r, s.heard)
  }

  lemma CandidateGood(r: Record, c: Option<Record>, heard: set<CommandResultPacket>)
    requires Good(r, heard)
    requires (exists q :: c == Creating(r, q)) || (exists id :: c == Cancelling(r, id)) ||
             (exists id, at :: c == Marking(r, id, at)) ||
             (exists p :: c == Confirming(r, p) && p in heard && ValidResult(p.resultCode, false))
    ensures c.Some? ==> Good(c.value, heard)
  {
    hide Checksum, Fresh;
    if c.Some? {
      Reseal(r.(next := c.value.next, command := c.value.command));
      if p :| c == Confirming(r, p) && p in heard && ValidResult(p.resultCode, false) {
        assert IsConfirmedBy(c.value.command, p);
      }
    }
  }

  lemma PublishSteady(s: Store, c: Option<Record>, saves: bool)
    requires Steady(s) && s.on && (c.Some? ==> Good(c.value, s.heard))
    ensures Steady(Publish(s, c, saves))
  {
    hide Good;
  }

  lemma HeardSteady(s: Store, p: CommandResultPacket)
    requires Steady(s)
    ensures Steady(s.(heard := s.heard + {p}))
  {
    hide Consistent;
    forall c: Command | Backed(c, s.heard)
      ensures Backed(c, s.heard + {p})
    {
      if c.state == CONFIRMED {
        var q :| q in s.heard && IsConfirmedBy(c, q);
        assert q in s.heard + {p};
      }
    }
  }

  lemma BootSteady(s: Store, loads: bool, saves: bool)
    requires Steady(s)
    ensures Steady(BootStep(s, loads, saves))
  {
    hide Consistent, Fresh, Valid;
    FreshConsistent();
    FreshCommand();
  }

  lemma StepSteady(s: Store, e: Event)
    requires Steady(s)
    ensures Steady(Step(s, e))
  {
    hide Good, Creating, Cancelling, Marking, Confirming, BootStep, Trusted, Publish, DecodeResult, EncodeResult;
    if s.on {
      match e
      case Create(request, saves) =>
        CandidateGood(s.ram, Creating(s.ram, request), s.heard);
        PublishSteady(s, Creating(s.ram, request), saves);
        IssuedSteady(Publish(s, Creating(s.ram, request), saves), s.issued + [s.ram.next]);
      case Cancel(id, saves) =>
        CandidateGood(s.ram, Cancelling(s.ram, id), s.heard);
        PublishSteady(s, Cancelling(s.ram, id), saves);
      case MarkSent(at, saves) =>
        if s.flight.Some? {
          CandidateGood(s.ram, Marking(s.ram, s.flight.value.id, at), s.heard);
          PublishSteady(s, Marking(s.ram, s.flight.value.id, at), saves);
        }
      case Result(frame, saves) =>
        if DecodeResult(frame).Accepted? {
          var p := DecodeResult(frame).packet;
          ResultBijection(frame, p);
          HeardSteady(s, p);
          var t := s.(heard := s.heard + {p});
          CandidateGood(t.ram, Confirming(t.ram, p), t.heard);
          PublishSteady(t, Confirming(t.ram, p), saves);
        }
      case _ =>
    } else if e.Boot? {
      BootSteady(s, e.loads, e.saves);
    }
  }

  lemma IssuedSteady(s: Store, issued: seq<u32>)
    requires Steady(s)
    ensures Steady(s.(issued := issued))
  {
    hide Good;
  }

  lemma {:induction false} RunSteady(s: Store, run: seq<Event>)
    requires Steady(s)
    ensures Steady(Run(s, run))
    decreases |run|
  {
    hide Steady, Step;
    if run != [] {
      StepSteady(s, run[0]);
      RunSteady(Step(s, run[0]), run[1..]);
    }
  }

  /** Over every run, saved records loading or not: each record ever saved is valid and
      complete, and a confirmed command was confirmed by a result with its id and type. */
  lemma ConfirmedWasHeard(start: Store, run: seq<Event>)
    requires Initial(start)
    ensures var s := Run(start, run);
            (forall r | r in s.log :: Consistent(r)) && (s.on ==> Consistent(s.ram)) &&
            (forall r | r in s.log && r.command.state == CONFIRMED ::
               exists p :: p in s.heard && IsConfirmedBy(r.command, p))
  {
    hide Run, Consistent;
    RunSteady(start, run);
  }

  /** Ids only grow, every command but the last is settled, a settled command never
      changes again, a confirmed one was confirmed by a result with its id and type,
      and RAM is what was last saved. */
  lemma CommandIdsAndFinality(start: Store, run: seq<Event>)
    requires Initial(start) && AllRemember(start, run)
    ensures var s := Run(start, run);
            Increasing(s.issued) && (forall id | id in s.issued :: id != 0) &&
            (forall id | id in s.issued && id != Current(s).command.id :: Settled(s.log, id)) &&
            (forall i, j | 0 <= i < j < |s.log| && s.log[i].command.id == s.log[j].command.id &&
                           Final(s.log[i].command) :: s.log[j].command == s.log[i].command) &&
            (forall r | r in s.log && r.command.state == CONFIRMED ::
               exists p :: p in s.heard && IsConfirmedBy(r.command, p)) &&
            (s.on ==> s.ram == Current(s)) && (s.log != [] ==> s.saved == Some(Current(s))) &&
            (forall r | r in s.log :: Valid(r))
  {
    hide Run, Checksum, Fresh, Settled, Initial, AllRemember;
    InitialSound(start);
    RunKeeps(start, run);
  }

  /** History is never rewritten: what was issued and saved stays so. */
  lemma {:induction false} HistoryGrows(s: Store, run: seq<Event>)
    ensures var s' := Run(s, run); s.issued <= s'.issued && s.log <= s'.log && s.heard <= s'.heard
    decreases |run|
  {
    hide Creating, Cancelling, Marking, Confirming, Fresh, Trusted, DecodeResult;
    if run != [] {
      StepGrows(s, run[0]);
      HistoryGrows(Step(s, run[0]), run[1..]);
    }
  }

  lemma StepGrows(s: Store, e: Event)
    ensures var s' := Step(s, e); s.issued <= s'.issued && s.log <= s'.log && s.heard <= s'.heard
  {
    hide Creating, Cancelling, Marking, Confirming, Fresh, Trusted, DecodeResult;
  }

  /** A restart keeps the allocator above every id handed out exactly when the record
      could be loaded or no id was out yet: the restart of a store whose record cannot
      be read hands out id 1 again. */
  lemma BootKeepsAllocatorIff(s: Store, loads: bool, saves: bool)
    requires Sound(s) && !s.on
    ensures (forall id | id in s.issued :: id < BootStep(s, loads, saves).ram.next)
            <==> loads || s.issued == []
  {
    hide Fresh, Backed, Settled, Increasing, Follows, Checksum;
    FreshCommand();
    if s.issued != [] { assert s.issued[0] in s.issued; }
  }

  lemma RunThree(s: Store, a: Event, b: Event, c: Event)
    ensures Run(s, [a, b, c]) == Step(Step(Step(s, a), b), c)
  {
    hide Step;
    assert [a, b, c][1..] == [b, c] && [b, c][1..] == [c] && [c][1..] == [];
    var s1 := Step(s, a);
    var s2 := Step(s1, b);
    assert Run(s2, [c]) == Run(Step(s2, c), []);
    assert Run(s1, [b, c]) == Run(s2, [c]);
  }

  /** A created command survives a power loss right after it. */
  lemma CreatedStays(s: Store, request: Request, saves: bool)
    requires Sound(s) && s.on && Creating(s.ram, request).Some?
    ensures var ram := Step(Step(Step(s, Create(request, true)), PowerLoss), Boot(true, saves)).ram;
            Some(ram) == Creating(s.ram, request) && Consistent(ram)
  {
    hide LogSound, IdsSound, Checksum, Fresh, Creating, Sound, Consistent;
    CreateKeeps(s, request, true);
    LastSaved(CreateStep(s, request, true));
  }

  lemma LastSaved(s: Store)
    requires Sound(s) && s.on && s.log != []
    ensures Consistent(s.ram) && s.saved == Some(s.ram) && Trusted(s.saved)
  {
    hide LogSound, IdsSound, Checksum, Fresh;
  }

  /** A restart keeps a settled command settled exactly when the record loads. */
  lemma BootKeepsFinalityIff(s: Store, loads: bool, saves: bool)
    requires Sound(s) && !s.on && Final(Current(s).command)
    ensures BootStep(s, loads, saves).ram.command == Current(s).command <==> loads
  {
    hide Fresh, Backed, Settled, Increasing, Follows, Checksum;
    FreshCommand();
  }

  /** A run in which a restart that cannot load its record hands out id 1 again. */
  lemma FailedLoadReissues(start: Store, request: Request)
    requires Initial(start) && request.kind == ENTER_MAINTENANCE_NOW
    ensures var run := [Boot(true, true), Create(request, true), PowerLoss, Boot(false, true), Create(request, true)];
            Run(start, run).issued == [1, 1]
  {
    hide Checksum;
    var a := Step(start, Boot(true, true));
    var b := Step(a, Create(request, true));
    var c := Step(b, PowerLoss);
    var d := Step(c, Boot(false, true));
    var e := Step(d, Create(request, true));
    RunFive(start, Boot(true, true), Create(request, true), PowerLoss, Boot(false, true), Create(request, true));
    assert b.issued == [1] && d.ram == Fresh();
  }

  lemma RunFive(s: Store, a: Event, b: Event, c: Event, d: Event, e: Event)
    ensures Run(s, [a, b, c, d, e]) == Step(Step(Step(Step(Step(s, a), b), c), d), e)
  {
    hide Step;
    assert [a, b, c, d, e][1..] == [b, c, d, e] && [b, c, d, e][1..] == [c, d, e];
    assert [c, d, e][1..] == [d, e] && [d, e][1..] == [e] && [e][1..] == [];
    var s1 := Step(s, a);
    var s2 := Step(s1, b);
    var s3 := Step(s2, c);
    var s4 := Step(s3, d);
    assert Run(s4, [e]) == Run(Step(s4, e), []) == Step(s4, e);
    assert Run(s3, [d, e]) == Run(s4, [e]);
    assert Run(s2, [c, d, e]) == Run(s3, [d, e]);
    assert Run(s1, [b, c, d, e]) == Run(s2, [c, d, e]);
  }
}
