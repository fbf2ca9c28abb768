/** What a query answers and what storing or clearing a workflow leaves, read off the positions
    in the lists (packages/gateway/src/state-store.ts). */
module StateEffects {
  import opened Basics
  import opened StateStore

  ghost predicate Rising(places: seq<nat>, n: nat) {
    forall k :: 0 <= k < |places| ==> places[k] < n && forall j :: 0 <= j < k ==> places[j] < places[k]
  }

  /* ------------------------------- the event log ------------------------------- */

  /** One event arrives at a session whose log and ids are the windows on its history: it is
      ignored if its id is remembered, and otherwise both lists take it at the end and lose
      their first entry if they were full. */
  lemma AppendEffect(log: seq<StateEvent>, seen: seq<string>, history: seq<StateEvent>, event: StateEvent)
    requires AreWindows(log, seen, history)
    ensures exists next, nextSeen ::
      && AreWindows(next, nextSeen, Accept(history, event))
      && next == (if event.id in seen then log else (if |log| < 5000 then log else log[1..]) + [event])
      && nextSeen == (if event.id in seen then seen else (if |seen| < 1000 then seen else seen[1..]) + [event.id])
  {
    if event.id in seen {
      assert AreWindows(log, seen, Accept(history, event));
    } else {
      WindowsMoveOn(log, seen, history, event);
      var next, nextSeen := Newest(log + [event], 5000), Newest(seen + [event.id], 1000);
      assert AreWindows(next, nextSeen, Accept(history, event));
      assert next == (if |log| < 5000 then log else log[1..]) + [event];
      assert nextSeen == (if |seen| < 1000 then seen else seen[1..]) + [event.id];
    }
  }

  /* ------------------------------- queries ------------------------------- */

  /** In the order of code units, as the relational operators compare strings. */
  ghost predicate Precedes(a: string, b: string) {
    exists n :: 0 <= n <= |a| && n < |b| && a[..n] == b[..n] && (n < |a| ==> a[n] < b[n])
  }

  lemma {:induction false} LessIsPrecedes(a: string, b: string)
    ensures Less(a, b) <==> Precedes(a, b)
  {
    if b != [] {
      if a == [] {
        assert a[..0] == b[..0];
      } else if a[0] == b[0] {
        LessIsPrecedes(a[1..], b[1..]);
        if Precedes(a[1..], b[1..]) {
          var n :| 0 <= n <= |a[1..]| && n < |b[1..]| && a[1..][..n] == b[1..][..n]
            && (n < |a[1..]| ==> a[1..][n] < b[1..][n]);
          assert a[..n + 1] == [a[0]] + a[1..][..n] && b[..n + 1] == [b[0]] + b[1..][..n];
        }
        if Precedes(a, b) {
          var n :| 0 <= n <= |a| && n < |b| && a[..n] == b[..n] && (n < |a| ==> a[n] < b[n]);
          assert a[1..][..n - 1] == a[..n][1..] && b[1..][..n - 1] == b[..n][1..];
        }
      } else {
        assert a[..0] == b[..0];
        assert forall n :: 0 < n <= |a| && n < |b| && a[..n] == b[..n] ==> a[..n][0] == b[..n][0];
      }
    }
  }

  /** No filter that is given, and not empty, turns the event away. */
  ghost predicate Passes(e: StateEvent, q: Query) {
    && (q.kinds == [] || exists k :: 0 <= k < |q.kinds| && q.kinds[k] == e.kind)
    && (q.workflowId in {None, Some("")} || e.workflowId == q.workflowId)
    && (q.since in {None, Some("")} || Precedes(q.since.value, e.timestamp))
    && (q.before in {None, Some("")} || Precedes(e.timestamp, q.before.value))
  }

  lemma WantedIsPasses(e: StateEvent, q: Query)
    ensures Wanted(e, q) <==> Passes(e, q)
  {
    if Given(q.since) {
      LessIsPrecedes(q.since.value, e.timestamp);
    }
    if Given(q.before) {
      LessIsPrecedes(e.timestamp, q.before.value);
    }
  }

  /** The places of the events that pass, all of them. */
  ghost predicate PassAt(events: seq<StateEvent>, q: Query, places: seq<nat>) {
    forall i :: 0 <= i < |events| ==> (Passes(events[i], q) <==> i in places)
  }

  lemma {:induction false} FilterPlaces(events: seq<StateEvent>, q: Query) returns (places: seq<nat>)
    ensures PickedAt(events, places, Filter(events, q)) && PassAt(events, q, places)
  {
    places := [];
    if events != [] {
      var init, last := events[..|events| - 1], events[|events| - 1];
      var before := FilterPlaces(init, q);
      assert events == init + [last];
      WantedIsPasses(last, q);
      places := PickOneMore(init, before, Filter(init, q), last, Wanted(last, q));
      forall i | 0 <= i < |events|
        ensures Passes(events[i], q) <==> i in places
      {
        assert i < |init| ==> events[i] == init[i];
      }
    }
  }

  /** The page that the request asks for, of the events that pass. */
  ghost predicate IsAnswer(events: seq<StateEvent>, q: Query, places: seq<nat>, r: Result) {
    && r.limit as int == (match q.limit
                   case None => 100
                   case Some(n) => if n < 1 then 1 else if n > 500 then 500 else n)
    && r.offset as int == (if q.offset.Some? && q.offset.value > 0 then q.offset.value else 0)
    && r.total == |places|
    && |r.items| == (if r.total <= r.offset then 0
                     else if r.total - r.offset < r.limit then r.total - r.offset else r.limit)
    && (forall k :: 0 <= k < |r.items| ==>
          places[r.offset + k] < |events| && r.items[k] == events[places[r.offset + k]])
    && (r.hasMore <==> r.offset + |r.items| < r.total)
  }

  /** A query is answered with the events at consecutive places among those that pass, in the
      order of the log, counting all of them. */
  lemma QueryEffect(events: seq<StateEvent>, q: Query)
    ensures exists places: seq<nat> ::
      PassAt(events, q, places) && Rising(places, |events|) && IsAnswer(events, q, places, Answer(events, q))
  {
    var places := FilterPlaces(events, q);
    assert Rising(places, |events|) && IsAnswer(events, q, places, Answer(events, q));
  }

  /* ------------------------------- workflow states ------------------------------- */

  ghost predicate OfOthers(dags: seq<Dag>, id: string, places: seq<nat>) {
    forall i :: 0 <= i < |dags| ==> (dags[i].sessionId != id <==> i in places)
  }

  lemma {:induction false} ClearedPlaces(dags: seq<Dag>, id: string) returns (places: seq<nat>)
    ensures PickedAt(dags, places, WithoutSession(dags, id))
    ensures OfOthers(dags, id, places)
  {
    places := [];
    if dags != [] {
      var after := ClearedPlaces(dags[1..], id);
      assert dags == [dags[0]] + dags[1..];
      places := PickOneBefore(dags[0], dags[1..], after, WithoutSession(dags[1..], id), dags[0].sessionId != id);
      forall i | 0 <= i < |dags|
        ensures dags[i].sessionId != id <==> i in places
      {
        assert i > 0 ==> dags[i] == dags[1..][i - 1];
      }
    }
  }

  /** Clearing a session leaves the states of the others where they stood. */
  lemma ClearEffect(dags: seq<Dag>, id: string)
    ensures exists places: seq<nat> ::
      PickedAt(dags, places, WithoutSession(dags, id)) && OfOthers(dags, id, places)
  {
    var places := ClearedPlaces(dags, id);
  }

  /** The state takes the place of the workflow's former one, or the last place. */
  ghost predicate StoredIn(dags: seq<Dag>, dag: Dag, stored: seq<Dag>) {
    if exists i :: 0 <= i < |dags| && dags[i].workflowId == dag.workflowId then
      && |stored| == |dags|
      && forall i :: 0 <= i < |dags| ==> stored[i] == if dags[i].workflowId == dag.workflowId then dag else dags[i]
    else
      stored == dags + [dag]
  }

  /** `left` is `dags` without the oldest states of the session, as many as exceed a hundred. */
  ghost predicate Trimmed(dags: seq<Dag>, id: string, left: seq<Dag>) {
    && Count(left, id) == (if Count(dags, id) <= 100 then Count(dags, id) else 100)
    && (Count(dags, id) <= 100 ==> left == dags)
    && (forall d :: d in left ==> d in dags)
    && (forall d :: d in dags && d !in left ==>
          d.sessionId == id && forall e :: e in left && e.sessionId == id ==> d.createdAt <= e.createdAt)
    && (exists places: seq<nat> :: PickedAt(dags, places, left))
  }

  lemma PickAgain<T>(all: seq<T>, outer: seq<nat>, some: seq<T>, inner: seq<nat>, few: seq<T>)
    requires PickedAt(all, outer, some) && PickedAt(some, inner, few)
    ensures exists places: seq<nat> :: PickedAt(all, places, few)
  {
    var places: seq<nat> := seq(|inner|, k requires 0 <= k < |inner| => outer[inner[k]]);
    assert PickedAt(all, places, few);
  }

  lemma {:induction false} PrunedIsPicked(dags: seq<Dag>, id: string)
    ensures exists places: seq<nat> :: PickedAt(dags, places, Pruned(dags, id))
    decreases |dags|
  {
    if Count(dags, id) <= MAX_DAGS_PER_SESSION {
      var all: seq<nat> := seq(|dags|, k requires 0 <= k < |dags| => k);
      assert Pruned(dags, id) == dags && PickedAt(dags, all, Pruned(dags, id));
    } else {
      var o := Oldest(dags, id);
      PrunedIsPicked(RemoveAt(dags, o), id);
      var inner: seq<nat> :| PickedAt(RemoveAt(dags, o), inner, Pruned(dags, id));
      var outer := RemovalIsPicked(dags, o);
      PickAgain(dags, outer, RemoveAt(dags, o), inner, Pruned(dags, id));
    }
  }

  lemma RemovalIsPicked(dags: seq<Dag>, o: nat) returns (places: seq<nat>)
    requires o < |dags|
    ensures PickedAt(dags, places, RemoveAt(dags, o))
  {
    places := seq(|dags| - 1, k requires 0 <= k < |dags| - 1 => if k < o then k else k + 1);
  }

  lemma PruningTrims(dags: seq<Dag>, id: string)
    ensures Trimmed(dags, id, Pruned(dags, id))
  {
    var left := Pruned(dags, id);
    PruningMeetsTheCap(dags, id);
    PrunedIsPicked(dags, id);
    forall d | d in dags && d !in left
      ensures d.sessionId == id && forall e :: e in left && e.sessionId == id ==> d.createdAt <= e.createdAt
    {
      assert d in multiset(dags) && d !in multiset(left);
      forall e
        ensures d.sessionId == id && (e in left && e.sessionId == id ==> d.createdAt <= e.createdAt)
      {
        PruningTakesTheOldest(dags, id, d, e);
      }
    }
    forall d | d in left
      ensures d in dags
    {
      assert d in multiset(left) && d in multiset(dags);
    }
  }

  /** A dispatched workflow is stored, and then its session alone is trimmed. */
  lemma DispatchEffect(dags: seq<Dag>, dag: Dag)
    requires UniqueDags(dags)
    ensures exists stored :: StoredIn(dags, dag, stored) && Trimmed(stored, dag.sessionId, Dispatched(dags, dag))
  {
    var stored := Put(dags, dag);
    assert StoredIn(dags, dag, stored);
    PruningTrims(stored, dag.sessionId);
  }
}
