/** Finishing an upload: remove each answered record and remember its key. */
module QueueFinish {
  import opened Words
  import opened TelemetryKeys
  import opened RecentKeys
  import opened QueueCore

  datatype Action = Action(id: u64, key: TelemetryKey)

  datatype FinishRun = FinishRun(q: Core, files: Files, recent: seq<TelemetryKey>, ok: bool, changed: bool)

  function FinishAll(q: Core, files: Files, recent: seq<TelemetryKey>, actions: seq<Action>,
                     stuck: set<RecordId>): (run: FinishRun)
    requires |recent| <= RECENT_CAPACITY
    ensures |run.recent| <= RECENT_CAPACITY
    decreases |actions|
  {
    if actions == [] then FinishRun(q, files, recent, true, false)
    else
      var a := actions[0];
      if a.id == 0 then FinishAll(q, files, recent, actions[1..], stuck).(ok := false)
      else
        var removal := Remove(q, files, a.id, a.id !in stuck);
        if !removal.ok then FinishAll(q, files, recent, actions[1..], stuck).(ok := false)
        else
          var rest := FinishAll(removal.q, removal.files, Remembered(recent, RECENT_CAPACITY, a.key),
                                actions[1..], stuck);
          rest.(changed := rest.changed || !Knows(recent, a.key))
  }

  /** One more action after a run of them. */
  function FinishOne(run: FinishRun, a: Action, stuck: set<RecordId>): (r: FinishRun)
    requires |run.recent| <= RECENT_CAPACITY
  {
    if a.id == 0 then run.(ok := false)
    else
      var removal := Remove(run.q, run.files, a.id, a.id !in stuck);
      if !removal.ok then run.(ok := false)
      else FinishRun(removal.q, removal.files, Remembered(run.recent, RECENT_CAPACITY, a.key), run.ok,
                     run.changed || !Knows(run.recent, a.key))
  }

  lemma {:induction false} FinishAppend(q: Core, files: Files, recent: seq<TelemetryKey>, actions: seq<Action>,
                                        a: Action, stuck: set<RecordId>)
    requires |recent| <= RECENT_CAPACITY
    ensures FinishAll(q, files, recent, actions + [a], stuck)
         == FinishOne(FinishAll(q, files, recent, actions, stuck), a, stuck)
    decreases |actions|
  {
    hide Remove, Remembered, Knows;
    if actions == [] {
      assert actions + [a] == [a] && [a][1..] == [];
    } else {
      var first := actions[0];
      assert (actions + [a])[0] == first && (actions + [a])[1..] == actions[1..] + [a];
      if first.id == 0 || !Remove(q, files, first.id, first.id !in stuck).ok {
        FinishAppend(q, files, recent, actions[1..], a, stuck);
      } else {
        var removal := Remove(q, files, first.id, first.id !in stuck);
        FinishAppend(removal.q, removal.files, Remembered(recent, RECENT_CAPACITY, first.key), actions[1..], a, stuck);
      }
    }
  }

  // ---- what finish leaves in the index, on flash and in the ring ----

  /** The records the actions name and storage can erase. */
  ghost function Erasable(actions: seq<Action>, stuck: set<RecordId>): (ids: set<RecordId>) {
    set a | a in actions && a.id != 0 && a.id !in stuck :: a.id
  }

  /** The keys of the actions whose record leaves the index, in order: of several actions
      for one record only the first. */
  ghost function Removed(ids: set<RecordId>, actions: seq<Action>, stuck: set<RecordId>): (ks: seq<TelemetryKey>)
    ensures |ks| <= |actions|
    decreases |actions|
  {
    if actions == [] then []
    else
      var a := actions[0];
      if a.id != 0 && a.id in ids && a.id !in stuck then [a.key] + Removed(ids - {a.id}, actions[1..], stuck)
      else Removed(ids, actions[1..], stuck)
  }

  /** A key is added to the ring on the way. */
  ghost predicate Adds(recent: seq<TelemetryKey>, ks: seq<TelemetryKey>)
    requires |recent| <= RECENT_CAPACITY
    decreases |ks|
  {
    ks != [] && (!Knows(recent, ks[0]) || Adds(Remembered(recent, RECENT_CAPACITY, ks[0]), ks[1..]))
  }

  lemma RemoveOne(q: Core, files: Files, id: RecordId, removed: bool)
    requires Ordered(q.entries)
    ensures var run := Remove(q, files, id, removed);
            run.ok == (removed && id in Ids(q.entries)) && Ordered(run.q.entries) &&
            run.q == q.(entries := run.q.entries) && (!run.ok ==> run.q == q) &&
            |run.q.entries| == |q.entries| - (if run.ok then 1 else 0) &&
            Ids(run.q.entries) == (if run.ok then Ids(q.entries) - {id} else Ids(q.entries)) &&
            (forall e :: e in run.q.entries <==> e in q.entries && (run.ok ==> e.id != id)) &&
            run.files == if run.ok then files - {id} else files
  {
    var i := IndexOfId(q.entries, id);
    if i < |q.entries| {
      assert q.entries[i] in q.entries;
      WithoutFacts(q.entries, i);
    }
  }

  /** Exactly the named and erasable records leave index and flash, everything else stays;
      the ring remembers their keys in order; finish succeeds exactly if every action took
      a record out, and reports a change exactly if a key was added to the ring. */
  lemma {:induction false} FinishLeaves(q: Core, files: Files, recent: seq<TelemetryKey>, actions: seq<Action>,
                                        stuck: set<RecordId>)
    requires |recent| <= RECENT_CAPACITY && Ordered(q.entries)
    ensures var run, ks := FinishAll(q, files, recent, actions, stuck), Removed(Ids(q.entries), actions, stuck);
            (forall e :: e in run.q.entries <==> e in q.entries && e.id !in Erasable(actions, stuck)) &&
            run.q == q.(entries := run.q.entries) && Ordered(run.q.entries) &&
            run.files == files - (Ids(q.entries) * Erasable(actions, stuck)) &&
            run.recent == RememberAll(recent, RECENT_CAPACITY, ks) &&
            run.ok == (|ks| == |actions|) && run.changed == Adds(recent, ks)
    decreases |actions|
  {
    hide Remove, Remembered, Knows, Ordered;
    var run := FinishAll(q, files, recent, actions, stuck);
    if actions == [] {
      assert files - (Ids(q.entries) * Erasable(actions, stuck)) == files;
    } else {
      var a, rest := actions[0], actions[1..];
      assert forall x :: x in actions <==> x == a || x in rest;
      if a.id == 0 {
        FinishLeaves(q, files, recent, rest, stuck);
        assert Erasable(actions, stuck) == Erasable(rest, stuck);
      } else {
        RemoveOne(q, files, a.id, a.id !in stuck);
        var removal := Remove(q, files, a.id, a.id !in stuck);
        if removal.ok {
          FinishLeaves(removal.q, removal.files, Remembered(recent, RECENT_CAPACITY, a.key), rest, stuck);
          assert Erasable(actions, stuck) == Erasable(rest, stuck) + {a.id};
          assert files - (Ids(q.entries) * Erasable(actions, stuck))
              == files - {a.id} - (Ids(removal.q.entries) * Erasable(rest, stuck));
        } else {
          FinishLeaves(q, files, recent, rest, stuck);
          assert Ids(q.entries) * Erasable(actions, stuck) == Ids(q.entries) * Erasable(rest, stuck);
          assert forall e | e in q.entries :: e.id in Ids(q.entries);
        }
      }
    }
  }

  /** Actions for different records all take one out exactly if each of them can. */
  lemma {:induction false} AllRemoved(ids: set<RecordId>, actions: seq<Action>, stuck: set<RecordId>)
    requires forall i, j | 0 <= i < j < |actions| :: actions[i].id != actions[j].id
    ensures |Removed(ids, actions, stuck)| == |actions| <==>
            forall i | 0 <= i < |actions| ::
              actions[i].id != 0 && actions[i].id in ids && actions[i].id !in stuck
    decreases |actions|
  {
    if actions != [] {
      var a, rest := actions[0], actions[1..];
      assert forall i | 0 <= i < |rest| :: rest[i] == actions[i + 1] && rest[i].id != a.id;
      if a.id != 0 && a.id in ids && a.id !in stuck {
        AllRemoved(ids - {a.id}, rest, stuck);
        forall i | 0 < i < |actions|
          ensures actions[i] == rest[i - 1]
        {
        }
      }
    }
  }

  // ---- the ring ----

  lemma KnowsItself(s: seq<TelemetryKey>, k: TelemetryKey)
    ensures k in s ==> Knows(s, k)
  {
    StrEqualIff(k.nodeId, k.nodeId);
  }

  /** A remembered key is forgotten only once more keys have been added than there are
      free places and older keys. */
  lemma {:induction false} Survives(s: seq<TelemetryKey>, at: nat, capacity: nat, ks: seq<TelemetryKey>)
    requires at < |s| <= capacity && |ks| <= capacity - |s| + at
    ensures s[at] in RememberAll(s, capacity, ks)
    decreases |ks|
  {
    hide Knows;
    if ks != [] {
      var next := Remembered(s, capacity, ks[0]);
      Survives(next, if next != s && |s| == capacity then at - 1 else at, capacity, ks[1..]);
    }
  }

  /** Without an added key the ring stays as it is; an added one shows unless a whole ring
      of further keys came after it. */
  lemma {:induction false} AddsChanges(recent: seq<TelemetryKey>, ks: seq<TelemetryKey>)
    requires |recent| <= RECENT_CAPACITY
    ensures !Adds(recent, ks) ==> RememberAll(recent, RECENT_CAPACITY, ks) == recent
    ensures |ks| <= RECENT_CAPACITY ==> (Adds(recent, ks) <==> RememberAll(recent, RECENT_CAPACITY, ks) != recent)
    decreases |ks|
  {
    hide Knows;
    if ks != [] {
      var next := Remembered(recent, RECENT_CAPACITY, ks[0]);
      if Knows(recent, ks[0]) {
        AddsChanges(recent, ks[1..]);
      } else if |ks| <= RECENT_CAPACITY {
        Survives(next, |next| - 1, RECENT_CAPACITY, ks[1..]);
        KnowsItself(recent, ks[0]);
      }
    }
  }

  lemma {:induction false} Cycle(s: seq<TelemetryKey>, x: TelemetryKey, i: nat)
    requires |s| == RECENT_CAPACITY && Distinct(s) && !Knows(s, x) && i < |s|
    ensures RememberAll(s[i + 1..] + [x] + s[..i], RECENT_CAPACITY, s[i..]) == s
    decreases |s| - i
  {
    hide KeyEqual;
    var ring := s[i + 1..] + [x] + s[..i];
    NotAgain(s, x, i);
    assert s[i..][1..] == s[i + 1..];
    if i + 1 < |s| {
      assert ring[1..] + [s[i]] == s[i + 2..] + [x] + s[..i + 1];
      Cycle(s, x, i + 1);
    } else {
      assert ring[1..] + [s[i]] == s;
      assert s[i + 1..] == [];
    }
  }

  lemma NotAgain(s: seq<TelemetryKey>, x: TelemetryKey, i: nat)
    requires Distinct(s) && !Knows(s, x) && i < |s|
    ensures !Knows(s[i + 1..] + [x] + s[..i], s[i])
  {
    var ring := s[i + 1..] + [x] + s[..i];
    forall j | 0 <= j < |ring|
      ensures !KeyEqual(ring[j], s[i])
    {
      StrEqualIff(ring[j].nodeId, s[i].nodeId);
      var at := i + 1 + j;
      if at < |s| {
        assert ring[j] == s[at];
        StrEqualIff(s[i].nodeId, s[at].nodeId);
      } else if at == |s| {
        assert ring[j] == x;
        StrEqualIff(s[i].nodeId, x.nodeId);
      } else {
        assert ring[j] == s[at - |s| - 1];
      }
    }
  }

  /** With one key more than the ring holds the bound is exceeded: a change that leaves the
      ring as it was. */
  lemma FullCircle(s: seq<TelemetryKey>, x: TelemetryKey)
    requires |s| == RECENT_CAPACITY && Distinct(s) && !Knows(s, x)
    ensures Adds(s, [x] + s) && RememberAll(s, RECENT_CAPACITY, [x] + s) == s
  {
    hide KeyEqual;
    assert ([x] + s)[1..] == s && s[0..] == s;
    Cycle(s, x, 0);
    assert s[1..] + [x] + s[..0] == s[1..] + [x];
  }
}
