/** The gateway as one system: the radio task, the backend task, flash and power,
    interleaved at every mutex-protected call and cut at every storage call. */
module Gateway {
  import opened Words
  import opened Protocol
  import opened TelemetryKeys
  import opened RecentKeys
  import opened QueueRecords
  import opened QueueCore
  import opened QueueEnqueue
  import opened QueueRecovery
  import opened QueueFinish
  import BackendContract

  /** Where the radio task is between its queue calls for one frame. */
  datatype Radio =
    | Listening
    | Checked(record: QueueRecord, duplicate: bool)
    | Committed(record: QueueRecord)

  /** Where the backend task is between peek, the response and finish. */
  datatype Upload =
    | Resting
    | Batched(batch: seq<QueueRecord>)
    | Answered(batch: seq<QueueRecord>, results: seq<BackendContract.Result>)

  /** What RAM holds while the gateway runs. */
  datatype Power =
    | Off
    | On(q: Core, recent: seq<TelemetryKey>, radio: Radio, upload: Upload)

  /** Flash, RAM, and the history: keys acknowledged to the node, keys the backend gave
      a terminal result for, keys whose record was given up since it was last
      committed, either for room or because recovery could not read it. */
  datatype State = State(
    power: Power, files: Files, ring: Option<seq<byte>>,
    acked: set<TelemetryKey>, terminal: set<TelemetryKey>,
    evicted: set<TelemetryKey>, discarded: set<TelemetryKey>)

  datatype Event =
    | Receive(frame: seq<byte>, reception: Reception, pairedId: seq<byte>, pairing: bool,
              unreadable: set<RecordId>)
    | Enter(fate: EnqueueFate)
    | EnterCut(fate: EnqueueFate, after: nat)
    | Acknowledge(sent: bool)
    | TakeBatch(limit: nat, unreadable: set<RecordId>)
    | Respond(httpStatus: int, answer: Option<seq<BackendContract.Item>>)
    | Finish(stuck: set<RecordId>, saved: bool)
    | FinishCut(stuck: set<RecordId>, after: nat)
    | PowerLoss
    | Boot(capacity: nat, recovery: RecoverFate, ringReadable: bool, unlinked: bool)
    | BootCut(capacity: nat, recovery: RecoverFate, erased: set<RecordId>, drops: nat)

  // ---- what a response asks finish to do ----

  ghost function ActionOf(r: QueueRecord): (a: Action) { Action(r.recordId, NewKey(r)) }

  /** One action for each result, in the order of the response. */
  ghost function Actions(batch: seq<QueueRecord>, results: seq<BackendContract.Result>): (a: seq<Action>)
    requires BackendContract.InRange(results, |batch|)
  {
    seq(|results|, i requires 0 <= i < |results| => ActionOf(batch[results[i].index]))
  }

  /** The keys of the records a response answers. */
  ghost function AnsweredKeys(batch: seq<QueueRecord>, results: seq<BackendContract.Result>): (s: set<TelemetryKey>)
    requires BackendContract.InRange(results, |batch|)
  {
    set a | a in Actions(batch, results) :: a.key
  }

  // ---- what flash and ring hold ----

  /** Every key committed on flash. */
  ghost function DiskKeys(files: Files): (ks: set<TelemetryKey>) {
    set id | id in files && KeyFor(files, id).Some? :: KeyFor(files, id).value
  }

  ghost predicate RingOk(ks: seq<TelemetryKey>, terminal: set<TelemetryKey>) {
    |ks| <= RECENT_CAPACITY && Distinct(ks) && forall k | k in ks :: Proper(k) && k in terminal
  }

  /** A ring file that is missing, damaged, or lists only finished readings. */
  ghost predicate SavedOk(ring: Option<seq<byte>>, terminal: set<TelemetryKey>) {
    ring.Some? && DecodeRecent(ring.value).Some? ==>
      RingOk(RememberAll([], RECENT_CAPACITY, DecodeRecent(ring.value).value), terminal)
  }

  // ---- the steps ----

  /** No file that holds the key can be read. */
  ghost predicate NoneReadable(files: Files, unreadable: set<RecordId>, k: TelemetryKey) {
    forall id: RecordId | KeyFor(files, id) == Some(k) :: id in unreadable
  }

  /** The committed readings a recovery finds no readable record of. */
  ghost function Unread(files: Files, unreadable: set<RecordId>): (ks: set<TelemetryKey>) {
    set k | k in DiskKeys(files) && NoneReadable(files, unreadable, k)
  }

  ghost function ReceiveStep(s: State, e: Event): (s': State)
    requires s.power.On? && s.power.radio.Listening? && e.Receive?
  {
    match DecodeTelemetry(e.frame)
    case Rejected(_) => s
    case Accepted(p) =>
      if e.pairing || e.pairedId == [] || p.nodeId != e.pairedId then s
      else
        var k := KeyOf(p);
        var duplicate := Knows(s.power.recent, k) || Contains(s.power.q, s.files, k, e.unreadable);
        s.(power := s.power.(radio := Checked(QueueRecord(0, e.reception, e.frame), duplicate)))
  }

  ghost function EnterStep(s: State, fate: EnqueueFate): (s': State)
    requires s.power.On? && s.power.radio.Checked? && s.power.q.capacity > 0
  {
    var p := s.power;
    var run := Enqueue(p.q, s.files, p.radio.record, fate);
    var lost := s.evicted + Keys(run.dropped, s.files);
    if run.ok then
      var k := NewKey(p.radio.record);
      s.(power := p.(q := run.q, radio := Committed(p.radio.record)), files := run.files,
         evicted := lost - {k}, discarded := s.discarded - {k})
    else
      s.(power := p.(q := run.q, radio := Listening), files := run.files, evicted := lost)
  }

  ghost function EnterCutStep(s: State, fate: EnqueueFate, after: nat): (s': State)
    requires s.power.On? && s.power.radio.Checked? && s.power.q.capacity > 0
  {
    var run := Enqueue(s.power.q, s.files, s.power.radio.record, fate);
    if after >= |run.trace| then s.(power := Off)
    else
      var f := run.trace[after];
      s.(power := Off, files := f, evicted := s.evicted + Given(s.power.q, s.files, f))
  }

  /** The key a full queue has given up for room: that of its head, once erased. */
  ghost function Given(q: Core, files: Files, f: Files): (ks: set<TelemetryKey>) {
    if |q.entries| >= q.capacity > 0 && q.entries[0].id !in f then Keys(q.entries[..1], files) else {}
  }

  /** The acknowledgement may fail to go out; the reading is then sent again by the node. */
  ghost function AcknowledgeStep(s: State, sent: bool): (s': State)
    requires s.power.On? && !s.power.radio.Listening?
  {
    s.(power := s.power.(radio := Listening),
       acked := if sent then s.acked + {NewKey(s.power.radio.record)} else s.acked)
  }

  ghost function RespondStep(s: State, e: Event): (s': State)
    requires s.power.On? && s.power.upload.Batched? && e.Respond?
  {
    var batch := s.power.upload.batch;
    if !BackendContract.MayDequeue(e.httpStatus) then s.(power := s.power.(upload := Resting))
    else
      match BackendContract.Parse(e.answer, |batch|)
      case None => s.(power := s.power.(upload := Resting))
      case Some(results) =>
        if !BackendContract.InRange(results, |batch|) then s
        else s.(power := s.power.(upload := Answered(batch, results)),
                terminal := s.terminal + AnsweredKeys(batch, results))
  }

  ghost predicate FinishEnabled(s: State) {
    s.power.On? && s.power.upload.Answered? && |s.power.recent| <= RECENT_CAPACITY &&
    BackendContract.InRange(s.power.upload.results, |s.power.upload.batch|)
  }

  /** The backend task decodes each answered payload once more before it acts. */
  ghost predicate AnsweredDecode(batch: seq<QueueRecord>, results: seq<BackendContract.Result>)
    requires BackendContract.InRange(results, |batch|)
  {
    forall i | 0 <= i < |results| :: DecodeTelemetry(batch[results[i].index].payload).Accepted?
  }

  ghost function FinishStep(s: State, stuck: set<RecordId>, saved: bool): (s': State)
    requires FinishEnabled(s)
  {
    var p := s.power;
    var run := FinishAll(p.q, s.files, p.recent, Actions(p.upload.batch, p.upload.results), stuck);
    s.(power := p.(q := run.q, recent := run.recent, upload := Resting), files := run.files,
       ring := if run.changed && saved then Some(RecentFile(run.recent)) else s.ring)
  }

  ghost function FinishCutStep(s: State, stuck: set<RecordId>, after: nat): (s': State)
    requires FinishEnabled(s)
  {
    var p := s.power;
    var actions := Actions(p.upload.batch, p.upload.results);
    var done := if after < |actions| then actions[..after] else actions;
    s.(power := Off, files := FinishAll(p.q, s.files, p.recent, done, stuck).files)
  }

  function Size(capacity: nat): (n: nat) { if capacity == 0 then 1 else capacity }

  ghost function BootStep(s: State, e: Event): (s': State)
    requires s.power.Off? && e.Boot?
  {
    var run := Recover(s.files, Size(e.capacity), e.recovery);
    var recent := LoadedRing(s.ring, e.ringReadable);
    var unread := Unread(s.files, e.recovery.unreadable);
    var lost := s.(files := run.files, evicted := s.evicted + Keys(run.dropped, s.files));
    if !run.ok then lost.(discarded := s.discarded + (unread - DiskKeys(run.files)))
    else lost.(power := On(run.q, recent, Listening, Resting), discarded := s.discarded + unread,
               ring := if !RingLoads(s.ring, e.ringReadable) && e.unlinked then None else s.ring)
  }

  ghost function BootCutStep(s: State, e: Event): (s': State)
    requires s.power.Off? && e.BootCut?
  {
    if CutPoint(s.files, Size(e.capacity), e.recovery.unreadable, e.erased, e.drops) then
      var index := IndexOf(s.files, Kept(s.files, e.recovery.unreadable));
      var left := CutFiles(s.files, e.recovery.unreadable, e.erased, e.drops);
      s.(files := left, evicted := s.evicted + Keys(index[..e.drops], s.files),
         discarded := s.discarded + (Unread(s.files, e.recovery.unreadable) - DiskKeys(left)))
    else s
  }

  /** One event; an event that is not possible now changes nothing. */
  ghost function Step(s: State, e: Event): (s': State) {
    match e
    case Receive(_, _, _, _, _) =>
      if s.power.On? && s.power.radio.Listening? then ReceiveStep(s, e) else s
    case Enter(fate) =>
      if s.power.On? && s.power.radio.Checked? && !s.power.radio.duplicate && s.power.q.capacity > 0
      then EnterStep(s, fate) else s
    case EnterCut(fate, after) =>
      if s.power.On? && s.power.radio.Checked? && !s.power.radio.duplicate && s.power.q.capacity > 0
      then EnterCutStep(s, fate, after) else s
    case Acknowledge(sent) =>
      if s.power.On? && ((s.power.radio.Checked? && s.power.radio.duplicate) || s.power.radio.Committed?)
      then AcknowledgeStep(s, sent) else s
    case TakeBatch(limit, unreadable) =>
      if s.power.On? && s.power.upload.Resting? && limit <= BackendContract.MAXIMUM_BATCH then
        match Peek(s.power.q, s.files, limit, unreadable)
        case None => s
        case Some(records) =>
          if records == [] then s else s.(power := s.power.(upload := Batched(records)))
      else s
    case Respond(_, _) =>
      if s.power.On? && s.power.upload.Batched?
      then RespondStep(s, e) else s
    case Finish(stuck, saved) =>
      if !FinishEnabled(s) then s
      else if !AnsweredDecode(s.power.upload.batch, s.power.upload.results) then
        s.(power := s.power.(upload := Resting))
      else FinishStep(s, stuck, saved)
    case FinishCut(stuck, after) =>
      if !FinishEnabled(s) || !AnsweredDecode(s.power.upload.batch, s.power.upload.results) then s
      else FinishCutStep(s, stuck, after)
    case PowerLoss => s.(power := Off)
    case Boot(_, recovery, _, _) =>
      if s.power.Off? && Listing(s.files, recovery.listed) then BootStep(s, e) else s
    case BootCut(_, _, _, _) => if s.power.Off? then BootCutStep(s, e) else s
  }

  ghost function Run(s: State, run: seq<Event>): (s': State)
    decreases |run|
  {
    if run == [] then s else Run(Step(s, run[0]), run[1..])
  }

  /** Every storage call of an enqueue works. */
  const WORKING := EnqueueFate(true, true, true, true, true)

  /** A start whose reads of committed files succeed. */
  predicate ReadableBoot(e: Event) {
    (e.Boot? ==> e.recovery.unreadable == {}) && (e.BootCut? ==> e.recovery.unreadable == {})
  }

  /** Before the first boot: any queue files at all, a ring file that lists no unfinished
      reading, and nothing acknowledged. */
  ghost predicate Initial(s: State) {
    s.power.Off? && SavedOk(s.ring, s.terminal) && s.acked == {} && s.evicted == {} && s.discarded == {}
  }
}
