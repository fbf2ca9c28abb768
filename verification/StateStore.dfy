/** The in-memory state store: a windowed event log with duplicate rejection, offset paging, and
    the pruning of old workflow states (packages/gateway/src/state-store.ts). */
module StateStore {
  import opened Basics

  const MAX_EVENTS_PER_SESSION := 5000
  const MAX_EVENT_ID_SET := 1000
  const MAX_DAGS_PER_SESSION := 100

  datatype StateEvent = StateEvent(
    id: string, sessionId: string, kind: string, timestamp: string, workflowId: Option<string>, data: string)

  /* ------------------------------- accepted events ------------------------------- */

  function Ids(events: seq<StateEvent>): (ids: seq<string>)
    ensures |ids| == |events|
    ensures forall i :: 0 <= i < |events| ==> ids[i] == events[i].id
  {
    seq(|events|, i requires 0 <= i < |events| => events[i].id)
  }

  /** The ids that are refused after these events were accepted. */
  function Remembered(history: seq<StateEvent>): seq<string> {
    Newest(Ids(history), MAX_EVENT_ID_SET)
  }

  /** The history of accepted events of one session, oldest first, after one more arrives. */
  function Accept(history: seq<StateEvent>, event: StateEvent): seq<StateEvent> {
    if event.id in Remembered(history) then history else history + [event]
  }

  function AcceptAll(history: seq<StateEvent>, events: seq<StateEvent>): seq<StateEvent>
    decreases |events|
  {
    if events == [] then history else AcceptAll(Accept(history, events[0]), events[1..])
  }

  /** Two accepted events with the same id have at least a thousand others between them. */
  ghost predicate Spaced(history: seq<StateEvent>) {
    forall i, j :: 0 <= i < j < |history| && history[i].id == history[j].id ==> j - i > MAX_EVENT_ID_SET
  }

  /** An event is refused exactly when its id was accepted among the last thousand. */
  lemma RefusedIff(history: seq<StateEvent>, event: StateEvent)
    ensures Accept(history, event) == history <==>
      exists i :: 0 <= i < |history| && |history| - i <= MAX_EVENT_ID_SET && history[i].id == event.id
  {
  }

  lemma {:induction false} AcceptAllKeepsSpaced(history: seq<StateEvent>, events: seq<StateEvent>)
    requires Spaced(history)
    ensures Spaced(AcceptAll(history, events))
    decreases |events|
  {
    if events != [] {
      AcceptAllKeepsSpaced(Accept(history, events[0]), events[1..]);
    }
  }

  /** The ids in the set are distinct, so counting them counts the set. */
  lemma RememberedAreDistinct(history: seq<StateEvent>)
    requires Spaced(history)
    ensures forall i, j :: 0 <= i < j < |Remembered(history)| ==> Remembered(history)[i] != Remembered(history)[j]
  {
  }

  /** Equal ids in the visible log are more than a thousand positions apart. */
  lemma LogIsSpaced(history: seq<StateEvent>)
    requires Spaced(history)
    ensures Spaced(Newest(history, MAX_EVENTS_PER_SESSION))
  {
  }

  /* ------------------------------- queries ------------------------------- */

  /** String order, character by character. */
  predicate Less(a: string, b: string) {
    if b == [] then false
    else if a == [] then true
    else if a[0] == b[0] then Less(a[1..], b[1..])
    else a[0] < b[0]
  }

  datatype Query = Query(
    sessionId: string, kinds: seq<string>, workflowId: Option<string>, since: Option<string>, before: Option<string>,
    limit: Option<int>, offset: Option<int>)

  datatype Result = Result(items: seq<StateEvent>, total: nat, offset: nat, limit: nat, hasMore: bool)

  predicate Wanted(e: StateEvent, q: Query) {
    && (q.kinds != [] ==> e.kind in q.kinds)
    && (Given(q.workflowId) ==> e.workflowId == q.workflowId)
    && (Given(q.since) ==> Less(q.since.value, e.timestamp))
    && (Given(q.before) ==> Less(e.timestamp, q.before.value))
  }

  function Filter(events: seq<StateEvent>, q: Query): seq<StateEvent> {
    if events == [] then []
    else
      var last := events[|events| - 1];
      Filter(events[..|events| - 1], q) + if Wanted(last, q) then [last] else []
  }

  function Limit(q: Query): (n: nat)
    ensures 1 <= n <= 500
  {
    var raw := if q.limit.Some? then q.limit.value else 100;
    var atLeast := if raw > 1 then raw else 1;
    if atLeast < 500 then atLeast else 500
  }

  function Offset(q: Query): nat {
    var raw := if q.offset.Some? then q.offset.value else 0;
    if raw > 0 then raw else 0
  }

  /** JavaScript's slice: indices beyond the end are cut back. */
  function Slice<T>(s: seq<T>, from: nat, to: nat): seq<T>
    requires from <= to
  {
    if from >= |s| then [] else if to >= |s| then s[from..] else s[from..to]
  }

  function Answer(events: seq<StateEvent>, q: Query): Result {
    var all := Filter(events, q);
    Result(Slice(all, Offset(q), Offset(q) + Limit(q)), |all|, Offset(q), Limit(q), Offset(q) + Limit(q) < |all|)
  }

  function NextPage(q: Query): (next: Query)
    ensures Offset(next) == Offset(q) + Limit(q) && Limit(next) == Limit(q)
  {
    q.(offset := Some(Offset(q) + Limit(q)))
  }

  lemma {:induction false} FilterIgnoresOffset(events: seq<StateEvent>, p: Query, q: Query)
    requires q == p.(offset := q.offset)
    ensures Filter(events, p) == Filter(events, q)
  {
    if events != [] {
      FilterIgnoresOffset(events[..|events| - 1], p, q);
    }
  }

  /** Reading page after page of a log that does not change, while there is more. */
  function ReadOn(events: seq<StateEvent>, q: Query): seq<StateEvent>
    decreases |Filter(events, q)| - Offset(q)
  {
    var page := Answer(events, q);
    if !page.hasMore then page.items
    else
      FilterIgnoresOffset(events, q, NextPage(q));
      page.items + ReadOn(events, NextPage(q))
  }

  /** The pages together are everything the filters let through from the first offset on, each
      event once and in order. */
  lemma {:induction false} PagesConcatenate(events: seq<StateEvent>, q: Query)
    ensures ReadOn(events, q) == Slice(Filter(events, q), Offset(q), Offset(q) + |Filter(events, q)|)
    decreases |Filter(events, q)| - Offset(q)
  {
    var all, next := Filter(events, q), NextPage(q);
    if Answer(events, q).hasMore {
      FilterIgnoresOffset(events, q, next);
      PagesConcatenate(events, next);
      SliceFurther(all, Offset(q), Limit(q));
      assert ReadOn(events, q) == Slice(all, Offset(q), Offset(next)) + Slice(all, Offset(next), Offset(next) + |all|);
    }
  }

  lemma SliceFurther<T>(s: seq<T>, from: nat, count: nat)
    requires from + count < |s|
    ensures Slice(s, from, from + count) + Slice(s, from + count, from + count + |s|) == Slice(s, from, from + |s|)
  {
  }

  /** `hasMore` is said exactly while an event lies beyond the page. */
  lemma HasMoreIff(events: seq<StateEvent>, q: Query)
    ensures Answer(events, q).hasMore <==> Answer(events, NextPage(q)).items != []
    ensures !Answer(events, q).hasMore ==> !Answer(events, NextPage(q)).hasMore
  {
    FilterIgnoresOffset(events, q, NextPage(q));
  }

  /** The filters keep exactly the wanted events. */
  lemma {:induction false} FilterKeepsWanted(events: seq<StateEvent>, q: Query, e: StateEvent)
    ensures multiset(Filter(events, q))[e] == if Wanted(e, q) then multiset(events)[e] else 0
  {
    if events != [] {
      var init, last := events[..|events| - 1], events[|events| - 1];
      FilterKeepsWanted(init, q, e);
      assert events == init + [last];
    }
  }

  /* ------------------------------- workflow states ------------------------------- */

  /** A materialised workflow state; the list is in the order of first insertion. */
  datatype Dag = Dag(workflowId: string, sessionId: string, createdAt: int, state: string)

  ghost predicate UniqueDags(dags: seq<Dag>) {
    forall i, j :: 0 <= i < j < |dags| ==> dags[i].workflowId != dags[j].workflowId
  }

  function Find(dags: seq<Dag>, workflowId: string): (i: nat)
    ensures i <= |dags| && (i < |dags| ==> dags[i].workflowId == workflowId)
    ensures forall j :: 0 <= j < i ==> dags[j].workflowId != workflowId
  {
    Position(dags, (d: Dag) => d.workflowId, workflowId)
  }

  /** An existing key keeps its place. */
  function Put(dags: seq<Dag>, dag: Dag): seq<Dag> {
    var i := Find(dags, dag.workflowId);
    if i < |dags| then dags[i := dag] else dags + [dag]
  }

  function Count(dags: seq<Dag>, id: string): nat {
    if dags == [] then 0 else Count(dags[1..], id) + if dags[0].sessionId == id then 1 else 0
  }

  /** Position of the session's oldest state, the first of equals; the length if it has none. */
  function Oldest(dags: seq<Dag>, id: string): (i: nat)
    ensures i <= |dags| && (i < |dags| <==> Count(dags, id) > 0)
    ensures i < |dags| ==> dags[i].sessionId == id
  {
    if dags == [] then 0
    else
      var i := 1 + Oldest(dags[1..], id);
      if dags[0].sessionId == id && (i == |dags| || dags[0].createdAt <= dags[i].createdAt) then 0 else i
  }

  lemma {:induction false} OldestIsOldest(dags: seq<Dag>, id: string, j: nat)
    requires j < |dags| && dags[j].sessionId == id
    ensures Oldest(dags, id) < |dags| && dags[Oldest(dags, id)].createdAt <= dags[j].createdAt
  {
    if j > 0 {
      OldestIsOldest(dags[1..], id, j - 1);
    }
  }

  function RemoveAt(dags: seq<Dag>, i: nat): seq<Dag>
    requires i < |dags|
  {
    dags[..i] + dags[i + 1..]
  }

  lemma {:induction false} CountRemove(dags: seq<Dag>, i: nat, id: string)
    requires i < |dags|
    ensures Count(RemoveAt(dags, i), id) == Count(dags, id) - if dags[i].sessionId == id then 1 else 0
  {
    if i == 0 {
      assert RemoveAt(dags, 0) == dags[1..];
    } else {
      CountRemove(dags[1..], i - 1, id);
      assert RemoveAt(dags, i) == [dags[0]] + RemoveAt(dags[1..], i - 1);
    }
  }

  /** The oldest go, one by one, until the session is within its cap. */
  function Pruned(dags: seq<Dag>, id: string): seq<Dag>
    decreases |dags|
  {
    if Count(dags, id) <= MAX_DAGS_PER_SESSION then dags else Pruned(RemoveAt(dags, Oldest(dags, id)), id)
  }

  lemma RemoveFromBag(dags: seq<Dag>, i: nat)
    requires i < |dags|
    ensures multiset(dags) == multiset(RemoveAt(dags, i)) + multiset{dags[i]}
  {
    assert dags == dags[..i] + [dags[i]] + dags[i + 1..];
  }

  /** Pruning brings the session down to its cap and adds nothing. */
  lemma {:induction false} PruningMeetsTheCap(dags: seq<Dag>, id: string)
    ensures Count(Pruned(dags, id), id)
      == (if Count(dags, id) <= MAX_DAGS_PER_SESSION then Count(dags, id) else MAX_DAGS_PER_SESSION)
    ensures multiset(Pruned(dags, id)) <= multiset(dags)
    decreases |dags|
  {
    if Count(dags, id) > MAX_DAGS_PER_SESSION {
      var i := Oldest(dags, id);
      CountRemove(dags, i, id);
      RemoveFromBag(dags, i);
      PruningMeetsTheCap(RemoveAt(dags, i), id);
    }
  }

  /** What pruning takes belongs to the session and is no newer than anything it leaves there. */
  lemma {:induction false} PruningTakesTheOldest(dags: seq<Dag>, id: string, taken: Dag, left: Dag)
    requires multiset(Pruned(dags, id))[taken] < multiset(dags)[taken]
    ensures taken.sessionId == id
    ensures left in Pruned(dags, id) && left.sessionId == id ==> taken.createdAt <= left.createdAt
    decreases |dags|
  {
    var i := Oldest(dags, id);
    RemoveFromBag(dags, i);
    var rest := RemoveAt(dags, i);
    if multiset(Pruned(dags, id))[taken] < multiset(rest)[taken] {
      PruningTakesTheOldest(rest, id, taken, left);
    } else if left in Pruned(dags, id) && left.sessionId == id {
      PruningMeetsTheCap(dags, id);
      assert left in multiset(Pruned(dags, id)) && left in multiset(dags);
      var j :| 0 <= j < |dags| && dags[j] == left;
      OldestIsOldest(dags, id, j);
    }
  }

  /* ------------------------------- pruning is cutting a stable sort ------------------------------- */

  /** Created earlier, or at the same time but inserted earlier. */
  ghost predicate Older(dags: seq<Dag>, a: Dag, b: Dag) {
    a.createdAt < b.createdAt
    || (a.createdAt == b.createdAt && Find(dags, a.workflowId) < Find(dags, b.workflowId))
  }

  /** In the order of a stable sort by age. */
  ghost predicate StableByAge(dags: seq<Dag>, sorted: seq<Dag>) {
    sorted == [] || ((forall y :: y in sorted[1..] ==> Older(dags, sorted[0], y)) && StableByAge(dags, sorted[1..]))
  }

  /** The states of the session, each once. */
  ghost predicate AllOf(dags: seq<Dag>, id: string, sorted: seq<Dag>) {
    |sorted| == Count(dags, id) && forall x :: x in sorted <==> x in dags && x.sessionId == id
  }

  /** Without the states whose ids are among these. */
  function DeleteAll(dags: seq<Dag>, victims: seq<Dag>): seq<Dag> {
    if dags == [] then []
    else if exists v :: v in victims && v.workflowId == dags[0].workflowId then DeleteAll(dags[1..], victims)
    else [dags[0]] + DeleteAll(dags[1..], victims)
  }

  lemma {:induction false} OldestIsFirstOfOldest(dags: seq<Dag>, id: string, j: nat)
    requires j < |dags| && dags[j].sessionId == id && j != Oldest(dags, id)
    ensures var o := Oldest(dags, id);
      o < |dags| && (dags[o].createdAt < dags[j].createdAt || (dags[o].createdAt == dags[j].createdAt && o < j))
  {
    OldestIsOldest(dags, id, j);
    if j > 0 {
      if Oldest(dags, id) > 0 {
        OldestIsFirstOfOldest(dags[1..], id, j - 1);
      }
    }
  }

  lemma SortStartsWithOldest(dags: seq<Dag>, id: string, sorted: seq<Dag>)
    requires UniqueDags(dags) && AllOf(dags, id, sorted) && StableByAge(dags, sorted) && Count(dags, id) > 0
    ensures sorted != [] && sorted[0] == dags[Oldest(dags, id)]
  {
    var o := Oldest(dags, id);
    assert dags[o] in dags && dags[o] in sorted && sorted[0] in sorted && sorted[0] in dags;
    var j :| 0 <= j < |dags| && dags[j] == sorted[0];
    FirstIsOlder(dags, sorted, dags[o]);
    if j != o {
      OldestIsFirstOfOldest(dags, id, j);
    }
  }

  lemma FirstIsOlder(dags: seq<Dag>, sorted: seq<Dag>, x: Dag)
    requires StableByAge(dags, sorted) && x in sorted
    ensures x == sorted[0] || Older(dags, sorted[0], x)
  {
    assert sorted == [sorted[0]] + sorted[1..];
  }

  /** Removing one state changes no order among the others. */
  lemma OlderAfterRemoval(dags: seq<Dag>, o: nat, a: Dag, b: Dag)
    requires UniqueDags(dags) && o < |dags| && a in RemoveAt(dags, o) && b in RemoveAt(dags, o) && Older(dags, a, b)
    ensures Older(RemoveAt(dags, o), a, b)
  {
    var rest := RemoveAt(dags, o);
    var i :| 0 <= i < |rest| && rest[i] == a;
    var j :| 0 <= j < |rest| && rest[j] == b;
    assert UniqueDags(rest);
  }

  lemma {:induction false} StableAfterRemoval(dags: seq<Dag>, o: nat, sorted: seq<Dag>)
    requires UniqueDags(dags) && o < |dags| && StableByAge(dags, sorted)
    requires forall x :: x in sorted ==> x in RemoveAt(dags, o)
    ensures StableByAge(RemoveAt(dags, o), sorted)
  {
    if sorted != [] {
      forall y | y in sorted[1..]
        ensures Older(RemoveAt(dags, o), sorted[0], y)
      {
        assert y in sorted && sorted[0] in sorted;
        OlderAfterRemoval(dags, o, sorted[0], y);
      }
      StableAfterRemoval(dags, o, sorted[1..]);
    }
  }

  lemma MembersAfterRemoval(dags: seq<Dag>, o: nat, x: Dag)
    requires UniqueDags(dags) && o < |dags|
    ensures x in RemoveAt(dags, o) <==> x in dags && x != dags[o]
  {
    var rest := RemoveAt(dags, o);
    if x in dags && x != dags[o] {
      var i :| 0 <= i < |dags| && dags[i] == x;
      assert rest[if i < o then i else i - 1] == x;
    }
    if x in rest {
      var i :| 0 <= i < |rest| && rest[i] == x;
      assert dags[if i < o then i else i + 1] == x;
    }
  }

  lemma {:induction false} DeleteOneMore(dags: seq<Dag>, o: nat, victims: seq<Dag>)
    requires UniqueDags(dags) && o < |dags|
    ensures DeleteAll(dags, [dags[o]] + victims) == DeleteAll(RemoveAt(dags, o), victims)
  {
    var all := [dags[o]] + victims;
    assert all[0] == dags[o];
    assert forall v :: v in all <==> v == dags[o] || v in victims;
    if o == 0 {
      assert RemoveAt(dags, 0) == dags[1..];
      DeleteOthers(dags[1..], dags[0], victims);
    } else {
      DeleteOneMore(dags[1..], o - 1, victims);
      assert RemoveAt(dags, o) == [dags[0]] + RemoveAt(dags[1..], o - 1);
    }
  }

  lemma {:induction false} DeleteOthers(dags: seq<Dag>, x: Dag, victims: seq<Dag>)
    requires forall i :: 0 <= i < |dags| ==> dags[i].workflowId != x.workflowId
    ensures DeleteAll(dags, [x] + victims) == DeleteAll(dags, victims)
  {
    assert forall v :: v in [x] + victims <==> v == x || v in victims;
    if dags != [] {
      DeleteOthers(dags[1..], x, victims);
    }
  }

  lemma {:induction false} DeleteNothing(dags: seq<Dag>)
    ensures DeleteAll(dags, []) == dags
  {
    if dags != [] {
      DeleteNothing(dags[1..]);
    }
  }

  function ExcessOf(sorted: seq<Dag>): seq<Dag> {
    if |sorted| > MAX_DAGS_PER_SESSION then sorted[..|sorted| - MAX_DAGS_PER_SESSION] else []
  }

  lemma ExcessOfRest(sorted: seq<Dag>)
    requires |sorted| > MAX_DAGS_PER_SESSION
    ensures ExcessOf(sorted) == [sorted[0]] + ExcessOf(sorted[1..])
  {
  }

  /** Pruning deletes exactly the prefix of the stable sort by age that exceeds the cap. */
  lemma {:induction false} PruningCutsStableSort(dags: seq<Dag>, id: string, sorted: seq<Dag>)
    requires UniqueDags(dags) && AllOf(dags, id, sorted) && StableByAge(dags, sorted)
    ensures Pruned(dags, id) == DeleteAll(dags, ExcessOf(sorted))
    decreases |dags|
  {
    if Count(dags, id) <= MAX_DAGS_PER_SESSION {
      DeleteNothing(dags);
    } else {
      var o := Oldest(dags, id);
      SortStartsWithOldest(dags, id, sorted);
      AllOfRest(dags, id, sorted);
      StableAfterRemoval(dags, o, sorted[1..]);
      PruningCutsStableSort(RemoveAt(dags, o), id, sorted[1..]);
      DeleteOneMore(dags, o, ExcessOf(sorted[1..]));
      ExcessOfRest(sorted);
    }
  }

  lemma AllOfRest(dags: seq<Dag>, id: string, sorted: seq<Dag>)
    requires UniqueDags(dags) && AllOf(dags, id, sorted) && StableByAge(dags, sorted) && Count(dags, id) > 0
    requires sorted[0] == dags[Oldest(dags, id)]
    ensures AllOf(RemoveAt(dags, Oldest(dags, id)), id, sorted[1..])
    ensures forall x :: x in sorted[1..] ==> x in RemoveAt(dags, Oldest(dags, id))
  {
    var o := Oldest(dags, id);
    CountRemove(dags, o, id);
    forall x
      ensures x in sorted[1..] <==> x in RemoveAt(dags, o) && x.sessionId == id
    {
      MembersAfterRemoval(dags, o, x);
      assert sorted == [sorted[0]] + sorted[1..];
      assert x in sorted[1..] ==> Older(dags, sorted[0], x);
    }
  }

  /** Inserts behind everything of the same age or older. */
  function InsertByAge(x: Dag, sorted: seq<Dag>): seq<Dag> {
    if sorted == [] || x.createdAt < sorted[0].createdAt then [x] + sorted
    else [sorted[0]] + InsertByAge(x, sorted[1..])
  }

  /** The stable sort by age of the session's states among the first `n`. */
  function SortByAge(dags: seq<Dag>, id: string, n: nat): seq<Dag>
    requires n <= |dags|
  {
    if n == 0 then []
    else
      var before := SortByAge(dags, id, n - 1);
      if dags[n - 1].sessionId == id then InsertByAge(dags[n - 1], before) else before
  }

  lemma {:induction false} InsertMembers(x: Dag, sorted: seq<Dag>, y: Dag)
    ensures y in InsertByAge(x, sorted) <==> y == x || y in sorted
    ensures |InsertByAge(x, sorted)| == |sorted| + 1
  {
    if !(sorted == [] || x.createdAt < sorted[0].createdAt) {
      InsertMembers(x, sorted[1..], y);
      assert sorted == [sorted[0]] + sorted[1..];
    }
  }

  lemma {:induction false} InsertKeepsStable(dags: seq<Dag>, x: Dag, sorted: seq<Dag>)
    requires StableByAge(dags, sorted)
    requires forall y :: y in sorted ==> Find(dags, y.workflowId) < Find(dags, x.workflowId)
    ensures StableByAge(dags, InsertByAge(x, sorted))
  {
    if sorted == [] {
      assert [x][1..] == [];
    } else if x.createdAt < sorted[0].createdAt {
      assert ([x] + sorted)[1..] == sorted;
      forall y | y in sorted
        ensures Older(dags, x, y)
      {
        FirstIsOlder(dags, sorted, y);
      }
    } else {
      var rest := InsertByAge(x, sorted[1..]);
      InsertKeepsStable(dags, x, sorted[1..]);
      assert ([sorted[0]] + rest)[1..] == rest;
      forall y | y in rest
        ensures Older(dags, sorted[0], y)
      {
        InsertMembers(x, sorted[1..], y);
        assert sorted[0] in sorted;
      }
    }
  }

  lemma {:induction false} SortIsStable(dags: seq<Dag>, id: string, n: nat)
    requires UniqueDags(dags) && n <= |dags|
    ensures StableByAge(dags, SortByAge(dags, id, n))
    ensures forall x :: x in SortByAge(dags, id, n) <==> x in dags[..n] && x.sessionId == id
    ensures |SortByAge(dags, id, n)| == Count(dags[..n], id)
  {
    if n > 0 {
      var x, before := dags[n - 1], SortByAge(dags, id, n - 1);
      SortIsStable(dags, id, n - 1);
      assert dags[..n] == dags[..n - 1] + [x];
      CountAppend(dags[..n - 1], x, id);
      if x.sessionId == id {
        forall y | y in before
          ensures Find(dags, y.workflowId) < Find(dags, x.workflowId)
        {
          var i :| 0 <= i < n - 1 && dags[..n - 1][i] == y;
        }
        InsertKeepsStable(dags, x, before);
        forall y
          ensures y in InsertByAge(x, before) <==> y == x || y in before
        {
          InsertMembers(x, before, y);
        }
        InsertMembers(x, before, x);
      }
    }
  }

  lemma PruningIsSortAndCut(dags: seq<Dag>, id: string)
    requires UniqueDags(dags)
    ensures Pruned(dags, id) == DeleteAll(dags, ExcessOf(SortByAge(dags, id, |dags|)))
  {
    SortIsStable(dags, id, |dags|);
    assert dags[..|dags|] == dags;
    PruningCutsStableSort(dags, id, SortByAge(dags, id, |dags|));
  }

  lemma {:induction false} CountAppend(dags: seq<Dag>, x: Dag, id: string)
    ensures Count(dags + [x], id) == Count(dags, id) + if x.sessionId == id then 1 else 0
  {
    if dags == [] {
      assert [] + [x] == [x] && [x][1..] == [];
    } else {
      CountAppend(dags[1..], x, id);
      assert (dags + [x])[1..] == dags[1..] + [x];
    }
  }

  lemma {:induction false} DeleteInTurn(dags: seq<Dag>, victims: seq<Dag>, v: Dag)
    ensures DeleteAll(DeleteAll(dags, victims), [v]) == DeleteAll(dags, victims + [v])
  {
    assert forall x :: x in victims + [v] <==> x in victims || x == v;
    if dags != [] {
      DeleteInTurn(dags[1..], victims, v);
      if !(exists x :: x in victims && x.workflowId == dags[0].workflowId) {
        assert ([dags[0]] + DeleteAll(dags[1..], victims))[1..] == DeleteAll(dags[1..], victims);
      }
    }
  }

  lemma {:induction false} CountPut(dags: seq<Dag>, dag: Dag, id: string)
    ensures var i := Find(dags, dag.workflowId);
      Count(Put(dags, dag), id)
      == Count(dags, id) + (if dag.sessionId == id then 1 else 0)
         - if i < |dags| && dags[i].sessionId == id then 1 else 0
  {
    if dags == [] {
      assert Put(dags, dag) == [dag] && [dag][1..] == [];
    } else if dags[0].workflowId == dag.workflowId {
      assert Put(dags, dag)[1..] == dags[1..];
    } else {
      CountPut(dags[1..], dag, id);
      assert Put(dags, dag) == [dags[0]] + Put(dags[1..], dag);
    }
  }

  lemma PutKeepsUnique(dags: seq<Dag>, dag: Dag)
    requires UniqueDags(dags)
    ensures UniqueDags(Put(dags, dag))
  {
  }

  lemma {:induction false} PruningKeepsUnique(dags: seq<Dag>, id: string)
    requires UniqueDags(dags)
    ensures UniqueDags(Pruned(dags, id))
    decreases |dags|
  {
    if Count(dags, id) > MAX_DAGS_PER_SESSION {
      PruningKeepsUnique(RemoveAt(dags, Oldest(dags, id)), id);
    }
  }

  /** A confirmation creates an entry if there is none, without pruning. */
  function Confirmed(dags: seq<Dag>, dag: Dag): seq<Dag> {
    var i := Find(dags, dag.workflowId);
    if i < |dags| then dags[i := dags[i].(state := "confirming")] else dags + [dag.(state := "confirming")]
  }

  function Dispatched(dags: seq<Dag>, dag: Dag): seq<Dag> {
    Pruned(Put(dags, dag), dag.sessionId)
  }

  lemma DispatchRestoresTheCap(dags: seq<Dag>, dag: Dag)
    ensures Count(Dispatched(dags, dag), dag.sessionId) <= MAX_DAGS_PER_SESSION
  {
    PruningMeetsTheCap(Put(dags, dag), dag.sessionId);
  }

  /** The cap survives a confirmation exactly when the workflow is known or the session is below
      the cap: confirmations of new workflows can push a full session beyond it. */
  lemma ConfirmationKeepsTheCapIff(dags: seq<Dag>, dag: Dag)
    requires Count(dags, dag.sessionId) <= MAX_DAGS_PER_SESSION
    ensures Count(Confirmed(dags, dag), dag.sessionId) <= MAX_DAGS_PER_SESSION <==>
      Find(dags, dag.workflowId) < |dags| || Count(dags, dag.sessionId) < MAX_DAGS_PER_SESSION
  {
    var i := Find(dags, dag.workflowId);
    var entry := if i < |dags| then dags[i].(state := "confirming") else dag.(state := "confirming");
    assert Confirmed(dags, dag) == Put(dags, entry);
    CountPut(dags, entry, dag.sessionId);
  }

  function DispatchedAll(list: seq<Dag>): seq<Dag> {
    if list == [] then [] else Dispatched(DispatchedAll(list[..|list| - 1]), list[|list| - 1])
  }

  /** Up to the cap, different workflows of one session are all kept. */
  lemma {:induction false} DispatchedAreKept(list: seq<Dag>, id: string)
    requires UniqueDags(list) && |list| <= MAX_DAGS_PER_SESSION && forall x :: x in list ==> x.sessionId == id
    ensures DispatchedAll(list) == list && Count(list, id) == |list|
  {
    if list != [] {
      var init, last := list[..|list| - 1], list[|list| - 1];
      assert list == init + [last];
      DispatchedAreKept(init, id);
      CountAppend(init, last, id);
      assert Put(init, last) == list;
    }
  }

  /** A hundred dispatched workflows and one confirmation of another: a hundred and one states. */
  lemma ConfirmationExceedsTheCap(list: seq<Dag>, dag: Dag)
    requires UniqueDags(list + [dag]) && |list| == MAX_DAGS_PER_SESSION
    requires forall x :: x in list + [dag] ==> x.sessionId == dag.sessionId
    ensures Count(Confirmed(DispatchedAll(list), dag), dag.sessionId) == MAX_DAGS_PER_SESSION + 1
  {
    forall i, j | 0 <= i < j < |list|
      ensures list[i].workflowId != list[j].workflowId
    {
      assert (list + [dag])[i] == list[i] && (list + [dag])[j] == list[j];
    }
    DispatchedAreKept(list, dag.sessionId);
    forall i | 0 <= i < |list|
      ensures list[i].workflowId != dag.workflowId
    {
      assert (list + [dag])[i] == list[i] && (list + [dag])[|list|] == dag;
    }
    CountAppend(list, dag.(state := "confirming"), dag.sessionId);
  }

  function WithoutSession(dags: seq<Dag>, id: string): seq<Dag> {
    if dags == [] then []
    else if dags[0].sessionId == id then WithoutSession(dags[1..], id)
    else [dags[0]] + WithoutSession(dags[1..], id)
  }

  lemma {:induction false} ClearingTakesOneSession(dags: seq<Dag>, id: string)
    ensures forall d :: d in WithoutSession(dags, id) <==> d in dags && d.sessionId != id
    ensures UniqueDags(dags) ==> UniqueDags(WithoutSession(dags, id))
  {
    if dags != [] {
      ClearingTakesOneSession(dags[1..], id);
      assert dags == [dags[0]] + dags[1..];
      var rest := WithoutSession(dags[1..], id);
      if UniqueDags(dags) {
        forall j | 0 <= j < |rest|
          ensures rest[j].workflowId != dags[0].workflowId
        {
          assert rest[j] in dags[1..];
        }
      }
    }
  }

  /* ------------------------------- the store ------------------------------- */

  function Lookup<T>(m: map<string, seq<T>>, id: string): seq<T> { if id in m then m[id] else [] }

  /** The log and the set of seen ids are windows on the history of accepted events. */
  ghost predicate AreWindows(events: seq<StateEvent>, seen: seq<string>, history: seq<StateEvent>) {
    && events == Newest(history, MAX_EVENTS_PER_SESSION) && seen == Remembered(history) && Spaced(history)
  }

  lemma WindowsMoveOn(events: seq<StateEvent>, seen: seq<string>, history: seq<StateEvent>, event: StateEvent)
    requires AreWindows(events, seen, history) && event.id !in seen
    ensures AreWindows(
      Newest(events + [event], MAX_EVENTS_PER_SESSION), Newest(seen + [event.id], MAX_EVENT_ID_SET),
      Accept(history, event))
  {
    NewestAppend(history, event, MAX_EVENTS_PER_SESSION);
    assert Ids(history + [event]) == Ids(history) + [event.id];
    NewestAppend(Ids(history), event.id, MAX_EVENT_ID_SET);
  }

  ghost predicate HasWindows(events: map<string, seq<StateEvent>>, seen: map<string, seq<string>>,
                             histories: map<string, seq<StateEvent>>, id: string)
  {
    AreWindows(Lookup(events, id), Lookup(seen, id), Lookup(histories, id))
  }

  ghost predicate AllWindows(events: map<string, seq<StateEvent>>, seen: map<string, seq<string>>,
                             histories: map<string, seq<StateEvent>>)
  {
    forall id :: HasWindows(events, seen, histories, id)
  }

  lemma OneSessionMoves(events: map<string, seq<StateEvent>>, seen: map<string, seq<string>>,
                        histories: map<string, seq<StateEvent>>, id: string, list: seq<StateEvent>, ids: seq<string>,
                        history: seq<StateEvent>)
    requires AllWindows(events, seen, histories) && AreWindows(list, ids, history)
    ensures AllWindows(events[id := list], seen[id := ids], histories[id := history])
  {
    var e, s, h := events[id := list], seen[id := ids], histories[id := history];
    forall other
      ensures HasWindows(e, s, h, other)
    {
      assert HasWindows(events, seen, histories, other);
    }
  }

  lemma NothingMoves(events: map<string, seq<StateEvent>>, seen: map<string, seq<string>>,
                     histories: map<string, seq<StateEvent>>, id: string)
    requires AllWindows(events, seen, histories) && id in seen
    ensures AllWindows(events, seen, histories[id := Lookup(histories, id)])
  {
    var h := histories[id := Lookup(histories, id)];
    forall other
      ensures HasWindows(events, seen, h, other)
    {
      assert HasWindows(events, seen, histories, other);
    }
  }

  lemma OneSessionGoes(events: map<string, seq<StateEvent>>, seen: map<string, seq<string>>,
                       histories: map<string, seq<StateEvent>>, id: string)
    requires AllWindows(events, seen, histories)
    ensures AllWindows(events - {id}, seen - {id}, histories - {id})
  {
    var e, s, h := events - {id}, seen - {id}, histories - {id};
    forall other
      ensures HasWindows(e, s, h, other)
    {
      assert HasWindows(events, seen, histories, other);
    }
  }

  class ServerSessionStore {
    var events: map<string, seq<StateEvent>>
    var seenEventIds: map<string, seq<string>>
    var dags: seq<Dag>
    /** Everything each session has accepted since it was last cleared. */
    ghost var histories: map<string, seq<StateEvent>>

    ghost predicate Valid()
      reads this
    {
      UniqueDags(dags) && AllWindows(events, seenEventIds, histories)
    }

    constructor ()
      ensures Valid() && histories == map[] && dags == []
    {
      events, seenEventIds, dags, histories := map[], map[], [], map[];
    }

    /** Accepts the event unless its id is among the session's last thousand. */
    method AppendEvent(event: StateEvent)
      requires Valid()
      modifies this`events, this`seenEventIds, this`histories
      ensures Valid()
      ensures histories == old(histories)[event.sessionId := Accept(Lookup(old(histories), event.sessionId), event)]
    {
      var id := event.sessionId;
      ghost var history := Lookup(histories, id);
      if id !in seenEventIds {
        seenEventIds := seenEventIds[id := []];
      }
      histories := histories[id := Accept(history, event)];
      assert HasWindows(old(events), old(seenEventIds), old(histories), id);
      if event.id in seenEventIds[id] {
        NothingMoves(events, seenEventIds, old(histories), id);
        return;
      }
      WindowsMoveOn(Lookup(events, id), seenEventIds[id], history, event);
      var seen := seenEventIds[id] + [event.id];
      if |seen| > MAX_EVENT_ID_SET {
        seen := seen[|seen| - MAX_EVENT_ID_SET..];
      }
      seenEventIds := seenEventIds[id := seen];
      var list := Lookup(events, id) + [event];
      if |list| > MAX_EVENTS_PER_SESSION {
        list := list[|list| - MAX_EVENTS_PER_SESSION..];
      }
      events := events[id := list];
      assert seenEventIds == old(seenEventIds)[id := seen];
      OneSessionMoves(old(events), old(seenEventIds), old(histories), id, list, seen, histories[id]);
    }

    method QueryEvents(q: Query) returns (r: Result)
      ensures r == Answer(Lookup(events, q.sessionId), q)
    {
      var list := Lookup(events, q.sessionId);
      var all: seq<StateEvent> := [];
      for i := 0 to |list|
        invariant all == Filter(list[..i], q)
      {
        assert list[..i + 1][..i] == list[..i];
        if Wanted(list[i], q) {
          all := all + [list[i]];
        }
      }
      assert list[..|list|] == list;
      r := Result(Slice(all, Offset(q), Offset(q) + Limit(q)), |all|, Offset(q), Limit(q),
        Offset(q) + Limit(q) < |all|);
    }

    method RecordDagDispatched(dag: Dag)
      requires Valid()
      modifies this`dags
      ensures Valid() && dags == Dispatched(old(dags), dag)
      ensures Count(dags, dag.sessionId) <= MAX_DAGS_PER_SESSION
    {
      PutKeepsUnique(dags, dag);
      DispatchRestoresTheCap(dags, dag);
      dags := Put(dags, dag);
      PruneDags(dag.sessionId);
    }

    /** Sorts the session's states by age and deletes what exceeds the cap. */
    method PruneDags(id: string)
      requires Valid()
      modifies this`dags
      ensures Valid() && dags == Pruned(old(dags), id)
    {
      PruningKeepsUnique(dags, id);
      PruningIsSortAndCut(dags, id);
      var sorted := SortByAge(dags, id, |dags|);
      DeleteDags(ExcessOf(sorted));
    }

    method DeleteDags(toRemove: seq<Dag>)
      modifies this`dags
      ensures dags == DeleteAll(old(dags), toRemove)
    {
      DeleteNothing(dags);
      for k := 0 to |toRemove|
        invariant dags == DeleteAll(old(dags), toRemove[..k])
      {
        DeleteInTurn(old(dags), toRemove[..k], toRemove[k]);
        assert toRemove[..k + 1] == toRemove[..k] + [toRemove[k]];
        dags := DeleteAll(dags, [toRemove[k]]);
      }
      assert toRemove[..|toRemove|] == toRemove;
    }

    /** Marks the state as awaiting confirmation, or adds it so marked, without pruning. Every
        other state stays as it was and where it was. */
    method RecordDagConfirm(dag: Dag) returns (known: bool)
      requires Valid()
      modifies this`dags
      ensures Valid() && dags == Confirmed(old(dags), dag)
      ensures known <==> exists j :: 0 <= j < |old(dags)| && old(dags)[j].workflowId == dag.workflowId
      ensures known ==> |dags| == |old(dags)| && forall j :: 0 <= j < |dags| ==>
        dags[j] == if old(dags)[j].workflowId == dag.workflowId then old(dags)[j].(state := "confirming")
          else old(dags)[j]
      ensures !known ==> dags == old(dags) + [dag.(state := "confirming")]
    {
      var i := Find(dags, dag.workflowId);
      known := i < |dags|;
      if known {
        var entry := dags[i];
        dags := dags[i := entry.(state := "confirming")];
      } else {
        dags := dags + [dag.(state := "confirming")];
      }
    }

    /** Forgets everything about one session and nothing about any other. */
    method ClearSession(id: string)
      requires Valid()
      modifies this
      ensures Valid() && dags == WithoutSession(old(dags), id)
      ensures histories == old(histories) - {id} && events == old(events) - {id}
    {
      ClearingTakesOneSession(dags, id);
      OneSessionGoes(events, seenEventIds, histories, id);
      events := events - {id};
      seenEventIds := seenEventIds - {id};
      histories := histories - {id};
      dags := WithoutSession(dags, id);
    }
  }
}
