/** The batch response of the backend, after JSON parsing. */
module BackendContract {
  import opened Words

  const MAXIMUM_BATCH := 50

  datatype Status = Inserted | Duplicate | RejectedInvalid

  /** One element of the results array; a member of the wrong type is None. */
  datatype Item = Item(index: Option<nat>, status: Option<string>)

  datatype Result = Result(index: nat, status: Status)

  function StatusOf(s: string): (r: Option<Status>) {
    if s == "INSERTED" then Some(Inserted)
    else if s == "DUPLICATE" then Some(Duplicate)
    else if s == "REJECTED_INVALID" then Some(RejectedInvalid)
    else None
  }

  /** The result an item states, if it names a record of the batch and a terminal status. */
  function ItemResult(item: Item, expected: nat): (r: Option<Result>) {
    if item.index.None? || item.status.None? || item.index.value >= expected then None
    else
      match StatusOf(item.status.value)
      case None => None
      case Some(status) => Some(Result(item.index.value, status))
  }

  predicate DistinctIndices(r: seq<Result>) {
    forall i, j | 0 <= i < j < |r| :: r[i].index != r[j].index
  }

  predicate InRange(r: seq<Result>, expected: nat) {
    forall i | 0 <= i < |r| :: r[i].index < expected
  }

  function ParseItems(items: seq<Item>, expected: nat, seen: set<nat>): (r: Option<seq<Result>>)
    decreases |items|
  {
    if items == [] then Some([])
    else
      var first :- ItemResult(items[0], expected);
      if first.index in seen then None
      else
        var rest :- ParseItems(items[1..], expected, seen + {first.index});
        Some([first] + rest)
  }

  /** The response to a batch; None also stands for a body without a results array. */
  function Parse(answer: Option<seq<Item>>, expected: nat): (r: Option<seq<Result>>) {
    if expected == 0 || answer.None? || |answer.value| > expected then None
    else ParseItems(answer.value, expected, {})
  }

  /** parseBackendBatchResponse: the loop over items with its seen[] flags. */
  method ParseResponse(answer: Option<seq<Item>>, expected: nat) returns (r: Option<seq<Result>>)
    requires expected <= MAXIMUM_BATCH
    ensures r == Parse(answer, expected)
  {
    hide StatusOf;
    if expected == 0 { return None; }
    if answer.None? || |answer.value| > expected { return None; }
    var items := answer.value;
    var seen := new bool[MAXIMUM_BATCH](_ => false);
    ghost var marked: set<nat> := {};
    var results: seq<Result> := [];
    assert items[0..] == items;
    assert forall rest: seq<Result> :: [] + rest == rest;
    for n := 0 to |items|
      invariant forall x | 0 <= x < MAXIMUM_BATCH :: seen[x] <==> x in marked
      invariant match ParseItems(items[n..], expected, marked)
                case None => Parse(answer, expected) == None
                case Some(rest) => Parse(answer, expected) == Some(results + rest)
    {
      assert items[n..][0] == items[n] && items[n..][1..] == items[n + 1..];
      var item := items[n];
      if item.index.None? || item.status.None? { return None; }
      var index := item.index.value;
      if index >= expected || seen[index] { return None; }
      seen[index] := true;
      marked := marked + {index};
      var status := StatusOf(item.status.value);
      if status.None? { return None; }
      ghost var before := results;
      results := results + [Result(index, status.value)];
      ghost var left := ParseItems(items[n + 1..], expected, marked);
      if left.Some? { assert before + ([Result(index, status.value)] + left.value) == results + left.value; }
    }
    assert results + [] == results;
    return Some(results);
  }

  /** A response is accepted exactly when every item is usable and no record is
      answered twice; then it says what the items say, in order. */
  lemma {:induction false} ParseItemsIff(items: seq<Item>, expected: nat, seen: set<nat>)
    ensures ParseItems(items, expected, seen).Some? <==>
            (forall i | 0 <= i < |items| ::
               ItemResult(items[i], expected).Some? && ItemResult(items[i], expected).value.index !in seen) &&
            (forall i, j | 0 <= i < j < |items| :: items[i].index != items[j].index)
    ensures var r := ParseItems(items, expected, seen);
            r.Some? ==> |r.value| == |items| &&
                        forall i | 0 <= i < |items| :: Some(r.value[i]) == ItemResult(items[i], expected)
    decreases |items|
  {
    hide StatusOf;
    if items != [] {
      var tail, first := items[1..], ItemResult(items[0], expected);
      assert forall i | 0 < i < |items| :: items[i] == tail[i - 1];
      if first.Some? {
        ParseItemsIff(tail, expected, seen + {first.value.index});
        forall i | 0 <= i < |tail|
          ensures tail[i] == items[i + 1]
        {
        }
      }
    }
  }

  /** The item names a record of the batch and one of the three terminal statuses. */
  predicate UsableItem(item: Item, expected: nat) {
    item.index.Some? && item.index.value < expected && item.status.Some? &&
    (item.status.value == "INSERTED" || item.status.value == "DUPLICATE" || item.status.value == "REJECTED_INVALID")
  }

  predicate DistinctItems(items: seq<Item>) {
    forall i, j | 0 <= i < j < |items| :: items[i].index != items[j].index
  }

  lemma ItemUsableIff(item: Item, expected: nat)
    ensures ItemResult(item, expected).Some? <==> UsableItem(item, expected)
    ensures var r := ItemResult(item, expected);
            r.Some? ==> r.value.index == item.index.value &&
                        (r.value.status.Inserted? <==> item.status.value == "INSERTED") &&
                        (r.value.status.Duplicate? <==> item.status.value == "DUPLICATE") &&
                        (r.value.status.RejectedInvalid? <==> item.status.value == "REJECTED_INVALID")
  {
    assert "INSERTED"[0] == 'I' && "DUPLICATE"[0] == 'D' && "REJECTED_INVALID"[0] == 'R';
  }

  /** In the words of the response: it is accepted exactly when it answers a batch with at
      most as many items as records, every item usable and no record answered twice. Then
      there is one result for each item, in order, with its index and its status. */
  lemma AcceptedIff(answer: Option<seq<Item>>, expected: nat)
    ensures Parse(answer, expected).Some? <==>
            expected > 0 && answer.Some? && |answer.value| <= expected && DistinctItems(answer.value) &&
            forall i | 0 <= i < |answer.value| :: UsableItem(answer.value[i], expected)
    ensures var r := Parse(answer, expected);
            r.Some? ==> |r.value| == |answer.value| &&
                        forall i | 0 <= i < |r.value| ::
                          var item, result := answer.value[i], r.value[i];
                          item.index == Some(result.index) && item.status.Some? &&
                          (result.status.Inserted? <==> item.status.value == "INSERTED") &&
                          (result.status.Duplicate? <==> item.status.value == "DUPLICATE") &&
                          (result.status.RejectedInvalid? <==> item.status.value == "REJECTED_INVALID")
  {
    hide ParseItems, ItemResult, UsableItem;
    if answer.Some? {
      ParseItemsIff(answer.value, expected, {});
      forall i | 0 <= i < |answer.value|
        ensures ItemResult(answer.value[i], expected).Some? <==> UsableItem(answer.value[i], expected)
      {
        ItemUsableIff(answer.value[i], expected);
      }
      if Parse(answer, expected).Some? {
        forall i | 0 <= i < |answer.value|
          ensures var item, result := answer.value[i], Parse(answer, expected).value[i];
                  item.index == Some(result.index) && item.status.Some? &&
                  (result.status.Inserted? <==> item.status.value == "INSERTED") &&
                  (result.status.Duplicate? <==> item.status.value == "DUPLICATE") &&
                  (result.status.RejectedInvalid? <==> item.status.value == "REJECTED_INVALID")
        {
          ItemUsableIff(answer.value[i], expected);
          ItemParts(answer.value[i], expected);
        }
      }
    }
  }

  lemma ItemParts(item: Item, expected: nat)
    requires UsableItem(item, expected)
    ensures item.index.Some? && item.status.Some?
  {
  }

  lemma ParsedResults(answer: Option<seq<Item>>, expected: nat)
    requires Parse(answer, expected).Some?
    ensures var r := Parse(answer, expected).value;
            |r| <= expected && DistinctIndices(r) && InRange(r, expected)
  {
    ParseItemsIff(answer.value, expected, {});
    hide StatusOf, ParseItems;
  }

  predicate MayDequeue(httpStatus: int) { httpStatus == 200 }

  predicate Complete(expected: nat, results: seq<Result>) {
    expected > 0 && |results| == expected
  }

  function Indices(r: seq<Result>): (s: set<nat>) { set x | x in r :: x.index }

  lemma {:induction false} DistinctCount(r: seq<Result>)
    requires DistinctIndices(r)
    ensures |Indices(r)| == |r|
    decreases |r|
  {
    if r == [] {
      assert Indices(r) == {};
    } else {
      var last, init := r[|r| - 1], r[..|r| - 1];
      assert r == init + [last];
      DistinctCount(init);
      assert forall x :: x in r <==> x in init || x == last;
      assert forall x | x in init :: x.index != last.index;
      assert Indices(r) == Indices(init) + {last.index};
    }
  }

  function UpTo(n: nat): (s: set<nat>)
    ensures |s| == n && forall i: nat :: i in s <==> i < n
  {
    if n == 0 then {} else UpTo(n - 1) + {n - 1}
  }

  lemma SubsetOfSameSize(a: set<nat>, b: set<nat>)
    requires a <= b && |a| == |b|
    ensures a == b
  {
    assert b == a + (b - a);
    assert |b| == |a| + |b - a|;
  }

  predicate AnsweredBy(results: seq<Result>, index: nat, j: nat) {
    j < |results| && results[j].index == index
  }

  /** A response with one result for each index is complete exactly when every record of
      the batch is answered, and then by exactly one result. */
  lemma CompleteIsPermutation(expected: nat, results: seq<Result>)
    requires DistinctIndices(results) && InRange(results, expected) && expected > 0
    ensures Complete(expected, results) <==> forall i: nat | i < expected :: i in Indices(results)
    ensures forall i, j, k :: AnsweredBy(results, i, j) && AnsweredBy(results, i, k) ==> j == k
  {
    DistinctCount(results);
    assert forall i :: i in UpTo(expected) <==> 0 <= i < expected;
    assert Indices(results) <= UpTo(expected);
    if Complete(expected, results) { SubsetOfSameSize(Indices(results), UpTo(expected)); }
    if forall i: nat | i < expected :: i in Indices(results) { assert Indices(results) == UpTo(expected); }
  }

  lemma AnsweredEach(m: nat, results: seq<Result>, i: nat)
    requires InRange(results, m) && DistinctIndices(results) && Complete(m, results) && i < m
    ensures exists j: nat :: AnsweredBy(results, i, j)
  {
    CompleteIsPermutation(m, results);
    assert i in Indices(results);
    var x :| x in results && x.index == i;
    var j: nat :| j < |results| && results[j] == x;
    assert AnsweredBy(results, i, j);
  }
}
