/** Enqueue refines a bounded FIFO, whatever its storage calls do. */
module QueueEnqueue {
  import opened Words
  import opened Protocol
  import opened TelemetryKeys
  import opened QueueRecords
  import opened QueueCore

  /** What an enqueue may do: erase at most the head, write only at the next id, and
      either publish exactly the new record or leave the rest of the index alone. */
  ghost predicate Effect(q: Core, files: Files, run: EnqueueRun, bytes: seq<byte>, hash: u64) {
    var d := |run.dropped|;
    d <= 1 && d <= |q.entries| && run.dropped == q.entries[..d] &&
    q.next != 0 &&
    run.files - {q.next} == files - {q.next} - Ids(run.dropped) &&
    (q.next in run.files ==>
       run.files[q.next] == bytes || (q.next in files && run.files[q.next] == files[q.next])) &&
    if run.ok then
      d == (if |q.entries| >= q.capacity then 1 else 0) &&
      run.q == Publish(q.(entries := q.entries[d..]), hash) &&
      q.next in run.files && run.files[q.next] == bytes
    else
      (d == 1 ==> |q.entries| >= q.capacity) && run.q == q.(entries := q.entries[d..])
  }

  lemma AdmitKeeps(q: Core, files: Files, hash: u64, dropped: seq<Entry>, trace: seq<Files>, fate: EnqueueFate)
    requires Inv(q, files) && q.next != 0 && Backed(files, Entry(q.next, hash))
    ensures var run := Admit(q, files, hash, dropped, trace, fate);
            Inv(run.q, run.files) && (Tidy(q, files) ==> Tidy(run.q, run.files))
  {
    hide Inv, Tidy, Backed, KeyFor;
    InvBounds(q, files);
    if |q.entries| < q.capacity {
      AppendEntry(q, files, hash);
    } else if !fate.drop {
      if fate.undo { TouchNext(q, files, files - {q.next}); }
    } else {
      var shorter, freed := q.(entries := q.entries[1..]), files - {q.entries[0].id};
      DropHead(q, files);
      NextKept(q, files, hash);
      AppendEntry(shorter, freed, hash);
    }
  }

  lemma InvBounds(q: Core, files: Files)
    requires Inv(q, files)
    ensures 0 < q.capacity && |q.entries| <= q.capacity
    ensures q.next != 0 ==> forall e | e in q.entries :: e.id < q.next
    ensures forall e | e in q.entries :: e.id in files
  {
    hide Stored, KeyHash;
  }

  lemma NextKept(q: Core, files: Files, hash: u64)
    requires Inv(q, files) && q.entries != [] && q.next != 0 && Backed(files, Entry(q.next, hash))
    ensures Backed(files - {q.entries[0].id}, Entry(q.next, hash))
  {
    hide KeyHash, KeyFor;
    assert q.entries[0] in q.entries;
    Remaining(files, q.entries[0].id);
  }

  lemma CommitKeeps(q: Core, files: Files, bytes: seq<byte>, hash: u64, fate: EnqueueFate)
    requires Inv(q, files) && q.next != 0
    requires Stored(q.next, bytes).Some? && hash == KeyHash(Stored(q.next, bytes).value)
    ensures var run := Commit(q, files, bytes, hash, fate);
            Inv(run.q, run.files) && (Tidy(q, files) ==> Tidy(run.q, run.files)) &&
            Effect(q, files, run, bytes, hash)
  {
    hide Inv, Tidy, Effect, Stored, KeyHash, KeyFor, Backed, Admit;
    InvBounds(q, files);
    CommitEffect(q, files, bytes, hash, fate);
    if fate.write {
      var written := files[q.next := bytes];
      WrittenBacked(files, q.next, bytes, hash);
      assert written - {q.next} == files - {q.next};
      TouchNext(q, files, written);
      AdmitKeeps(q, written, hash, [], [written], fate);
    } else if |q.entries| >= q.capacity && fate.dropFirst {
      DropHead(q, files);
      if fate.rewrite {
        var shorter, freed := q.(entries := q.entries[1..]), files - {q.entries[0].id};
        var again := freed[q.next := bytes];
        assert again - {q.next} == freed - {q.next};
        TouchNext(shorter, freed, again);
        WrittenBacked(freed, q.next, bytes, hash);
        AdmitKeeps(shorter, again, hash, [q.entries[0]], [files, freed, again], fate);
      }
    }
  }

  lemma WrittenBacked(files: Files, id: RecordId, bytes: seq<byte>, hash: u64)
    requires Stored(id, bytes).Some? && hash == KeyHash(Stored(id, bytes).value)
    ensures Backed(files[id := bytes], Entry(id, hash))
  {
    hide KeyHash, Stored;
  }

  lemma CommitEffect(q: Core, files: Files, bytes: seq<byte>, hash: u64, fate: EnqueueFate)
    requires 0 < q.capacity && |q.entries| <= q.capacity && q.next != 0
    requires forall e | e in q.entries :: e.id < q.next
    ensures Effect(q, files, Commit(q, files, bytes, hash, fate), bytes, hash)
  {
    var run := Commit(q, files, bytes, hash, fate);
    if q.entries != [] {
      var head := q.entries[0];
      assert head in q.entries && q.entries[..1] == [head];
      assert Ids([head]) == {head.id};
    }
    assert Ids([]) == {};
    assert q.entries[..0] == [] && q.entries[0..] == q.entries;
    assert run.files - {q.next} == files - {q.next} - Ids(run.dropped);
  }

  /** The record with the id it is given, and the key of its payload. */
  ghost predicate Admissible(q: Core, r: QueueRecord) {
    q.next != 0 && DecodeTelemetry(r.payload).Accepted? && Encodable(r.(recordId := q.next))
  }

  ghost function NewBytes(q: Core, r: QueueRecord): (s: seq<byte>)
    requires Admissible(q, r)
  {
    EncodeRecord(r.(recordId := q.next))
  }

  /** The key of a record's payload; of no interest if that is not telemetry. */
  ghost function NewKey(r: QueueRecord): (k: TelemetryKey) {
    match DecodeTelemetry(r.payload)
    case Accepted(p) => KeyOf(p)
    case Rejected(_) => MakeKey([], 0, 0)
  }

  /** Every enqueue keeps the invariant; one that reaches storage has the bounded
      effect above, any other changes nothing. */
  lemma EnqueueKeeps(q: Core, files: Files, r: QueueRecord, fate: EnqueueFate)
    requires Inv(q, files)
    ensures var run := Enqueue(q, files, r, fate);
            Inv(run.q, run.files) && (Tidy(q, files) ==> Tidy(run.q, run.files)) &&
            if Admissible(q, r) then
              Stored(q.next, NewBytes(q, r)) == Some(NewKey(r)) &&
              Effect(q, files, run, NewBytes(q, r), KeyHash(NewKey(r)))
            else !run.ok && run.q == q && run.files == files && run.dropped == [] && run.trace == []
  {
    hide Inv, Tidy, Effect, Stored, KeyHash, EncodeRecord, DecodeTelemetry, Commit;
    if Admissible(q, r) {
      StoredEncoding(r.(recordId := q.next), DecodeTelemetry(r.payload).packet);
      CommitKeeps(q, files, NewBytes(q, r), KeyHash(NewKey(r)), fate);
    }
  }

  /** The record fits the queue, or room was made for it. */
  predicate MakesRoom(q: Core, fate: EnqueueFate) {
    if fate.write then |q.entries| < q.capacity || fate.drop
    else |q.entries| == q.capacity && fate.dropFirst && fate.rewrite
  }

  /** An enqueue succeeds exactly when the record is admissible and either the write works
      and a full queue can give up its head, or the write fails, the queue is full, the
      head can be erased and the second write works. */
  lemma EnqueueSucceedsIff(q: Core, files: Files, r: QueueRecord, fate: EnqueueFate)
    requires Inv(q, files)
    ensures Enqueue(q, files, r, fate).ok <==> Admissible(q, r) && MakesRoom(q, fate)
  {
    hide KeyFor, KeyHash, EncodeRecord, Encodable, DecodeTelemetry;
  }

  /** What success leaves: the old index without the head of a full queue, then the new
      record under the id that was next, in a file that holds its encoding. */
  lemma EnqueuedState(q: Core, files: Files, r: QueueRecord, fate: EnqueueFate)
    requires Inv(q, files) && Admissible(q, r) && MakesRoom(q, fate)
    ensures var run, full := Enqueue(q, files, r, fate), |q.entries| == q.capacity;
            run.q.entries == (if full then q.entries[1..] else q.entries) + [Entry(q.next, KeyHash(NewKey(r)))] &&
            run.q.capacity == q.capacity && run.q.next == (q.next + 1) % 0x1_0000_0000_0000_0000 &&
            run.files == (if full then files - {q.entries[0].id} else files)[q.next := NewBytes(q, r)] &&
            run.errors == 0 && run.dropped == if full then [q.entries[0]] else []
  {
    hide Inv, KeyFor, KeyHash, EncodeRecord, DecodeTelemetry;
    InvBounds(q, files);
    if |q.entries| == q.capacity {
      assert q.entries[0] in q.entries;
      assert files[q.next := NewBytes(q, r)] - {q.entries[0].id}
          == (files - {q.entries[0].id})[q.next := NewBytes(q, r)];
    }
  }

  /** What failure leaves. A refused record changes nothing. A record whose head could not
      be given up is undone, or stays behind at the next id if that fails too. A full queue
      whose second write failed has lost its head. Only a refusal of the record itself, with
      an id still to give, goes uncounted. */
  lemma RefusedState(q: Core, files: Files, r: QueueRecord, fate: EnqueueFate)
    requires Inv(q, files) && !(Admissible(q, r) && MakesRoom(q, fate))
    ensures var run, full := Enqueue(q, files, r, fate), |q.entries| == q.capacity;
            if !Admissible(q, r) then
              run.q == q && run.files == files && run.errors == if q.next == 0 then 1 else 0
            else if fate.write then
              run.q == q && run.files == (if fate.undo then files - {q.next} else files[q.next := NewBytes(q, r)]) &&
              run.errors == 1
            else if full && fate.dropFirst then
              run.q == q.(entries := q.entries[1..]) && run.files == files - {q.entries[0].id} && run.errors == 1
            else run.q == q && run.files == files && run.errors == 1
  {
    hide Inv, KeyFor, KeyHash, EncodeRecord, DecodeTelemetry;
    InvBounds(q, files);
    if Admissible(q, r) {
      assert files[q.next := NewBytes(q, r)] - {q.next} == files - {q.next};
    }
  }

  /** As a queue of byte strings: success appends the new record after giving up the
      head exactly when the queue was full; failure gives up at most the head of a full
      queue. */
  lemma EnqueueIsFifo(q: Core, files: Files, r: QueueRecord, fate: EnqueueFate)
    requires Inv(q, files)
    ensures var run := Enqueue(q, files, r, fate);
            Inv(run.q, run.files) &&
            var before, after := Fifo(q, files), Fifo(run.q, run.files);
            if run.ok then
              Admissible(q, r) && |after| <= q.capacity &&
              after == (if |before| >= q.capacity then before[1..] else before) + [NewBytes(q, r)]
            else after == before || (|before| == q.capacity && after == before[1..])
  {
    hide Stored, KeyFor, KeyHash, EncodeRecord, DecodeTelemetry, Enqueue, Fifo, Inv;
    InvBounds(q, files);
    var run := Enqueue(q, files, r, fate);
    EnqueueKeeps(q, files, r, fate);
    FifoLength(q, files);
    FifoLength(run.q, run.files);
    if Admissible(q, r) {
      FifoAfter(q, files, run, NewBytes(q, r), KeyHash(NewKey(r)));
    }
  }

  lemma FifoLength(q: Core, files: Files)
    requires Inv(q, files)
    ensures |Fifo(q, files)| == |q.entries| <= q.capacity
    ensures forall i | 0 <= i < |q.entries| ::
              q.entries[i].id in files && Fifo(q, files)[i] == files[q.entries[i].id]
  {
    hide KeyFor, KeyHash;
    InvBounds(q, files);
    assert forall i | 0 <= i < |q.entries| :: q.entries[i] in q.entries;
  }

  /** What an enqueue leaves of the old index keeps its files. */
  lemma Survivors(q: Core, files: Files, run: EnqueueRun, bytes: seq<byte>, hash: u64)
    requires Inv(q, files) && Effect(q, files, run, bytes, hash)
    ensures var d := |run.dropped|;
            d <= |q.entries| && run.dropped == q.entries[..d] &&
            run.q.entries == q.entries[d..] + (if run.ok then [Entry(q.next, hash)] else []) &&
            (run.ok ==> q.next in run.files && run.files[q.next] == bytes) &&
            forall e | e in q.entries[d..] ::
              e.id in files && e.id in run.files && run.files[e.id] == files[e.id]
  {
    hide Inv, Ordered, Ids;
    var d := |run.dropped|;
    InvBounds(q, files);
    InvOrdered(q, files);
    forall e | e in q.entries[d..]
      ensures e.id in run.files && run.files[e.id] == files[e.id]
    {
      assert e in q.entries;
      RestKept(q, files, run, e);
    }
  }

  lemma FifoAfter(q: Core, files: Files, run: EnqueueRun, bytes: seq<byte>, hash: u64)
    requires Inv(q, files) && Inv(run.q, run.files) && Effect(q, files, run, bytes, hash)
    ensures var d := |run.dropped|;
            d <= |Fifo(q, files)| &&
            Fifo(run.q, run.files) == Fifo(q, files)[d..] + (if run.ok then [bytes] else [])
  {
    hide Fifo, Inv, Effect;
    Survivors(q, files, run, bytes, hash);
    var d, rest := |run.dropped|, q.entries[|run.dropped|..];
    FifoLength(q, files);
    FifoLength(run.q, run.files);
    forall i | 0 <= i < |rest|
      ensures Fifo(run.q, run.files)[i] == Fifo(q, files)[d + i]
    {
      assert rest[i] == q.entries[d + i] && rest[i] in rest && run.q.entries[i] == rest[i];
    }
    assert run.ok ==> run.q.entries[|rest|] == Entry(q.next, hash);
  }

  lemma InvOrdered(q: Core, files: Files)
    requires Inv(q, files)
    ensures Ordered(q.entries)
  {
    hide KeyFor, KeyHash;
  }

  /** The keys queued afterwards. */
  lemma KeysAfter(q: Core, files: Files, run: EnqueueRun, bytes: seq<byte>, hash: u64, k: TelemetryKey)
    requires Inv(q, files) && Inv(run.q, run.files) && Effect(q, files, run, bytes, hash)
    requires Stored(q.next, bytes) == Some(k)
    ensures Keys(q.entries, files) <= Keys(run.q.entries, run.files) + Keys(run.dropped, files)
    ensures Keys(run.q.entries, run.files) <= Keys(q.entries, files) + {k}
    ensures run.ok ==> k in Keys(run.q.entries, run.files)
    ensures !run.ok ==> Keys(run.q.entries, run.files) <= Keys(q.entries, files)
  {
    hide Inv, Effect, Stored, KeyFor;
    Survivors(q, files, run, bytes, hash);
    var rest := q.entries[|run.dropped|..];
    SameFiles(files, run.files);
    KeysOf(q.entries, rest, run.dropped, files, run.files);
    if run.ok {
      NextKey(run.files, q.next, bytes);
      assert run.q.entries == rest + [Entry(q.next, hash)];
      assert forall e :: e in run.q.entries <==> e in rest || e == Entry(q.next, hash);
    } else {
      assert run.q.entries == rest;
    }
  }

  lemma KeysOf(s: seq<Entry>, rest: seq<Entry>, dropped: seq<Entry>, files: Files, other: Files)
    requires s == dropped + rest && forall e | e in rest :: KeyFor(other, e.id) == KeyFor(files, e.id)
    ensures Keys(s, files) == Keys(rest, other) + Keys(dropped, files)
  {
    hide KeyFor;
    assert forall e :: e in s <==> e in dropped || e in rest;
  }

  lemma NextKey(files: Files, id: RecordId, bytes: seq<byte>)
    requires id in files && files[id] == bytes
    ensures KeyFor(files, id) == Stored(id, bytes)
  {
  }

  lemma RestKept(q: Core, files: Files, run: EnqueueRun, e: Entry)
    requires Ordered(q.entries)
    requires |run.dropped| <= 1 && |run.dropped| <= |q.entries| && run.dropped == q.entries[..|run.dropped|]
    requires e in q.entries[|run.dropped|..] && e.id in files && e.id != q.next
    requires run.files - {q.next} == files - {q.next} - Ids(run.dropped)
    ensures e.id in run.files && run.files[e.id] == files[e.id]
  {
    var i :| |run.dropped| <= i < |q.entries| && q.entries[i] == e;
    forall g | g in run.dropped
      ensures g.id != e.id
    {
      assert g == q.entries[0];
    }
    assert e.id in files - {q.next} - Ids(run.dropped);
    assert (run.files - {q.next})[e.id] == run.files[e.id];
  }
}
