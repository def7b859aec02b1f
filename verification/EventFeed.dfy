/**
 The live event feed: a client's loop that polls the recorder and pushes the calls it has not
 seen. A poll is one atomic read; between polls the recorder takes any batch of events.
 */
module EventFeed {
  import opened Sequences
  import opened TraceSpec
  import T = TraceRecorder

  const MAX_TRACES := 50

  function Members(ids: seq<string>): (s: set<string>)
    ensures forall id :: id in s <==> id in ids
  {
    set id | id in ids
  }

  /** The calls a poll finds retained and not seen. */
  function New(history: seq<TraceEvent>, max: nat, seen: set<string>): set<string> {
    Members(Known(history, max)) - seen
  }

  function Only(ids: seq<string>, chosen: set<string>): (r: seq<string>)
    ensures forall id :: id in r <==> id in ids && id in chosen
  {
    if ids == [] then []
    else
      assert ids == [ids[0]] + ids[1..];
      if ids[0] in chosen then [ids[0]] + Only(ids[1..], chosen) else Only(ids[1..], chosen)
  }

  /** What a poll pushes: of the most recent calls, the new ones. */
  function Push(history: seq<TraceEvent>, max: nat, seen: set<string>): seq<string> {
    if New(history, max, seen) == {} then []
    else Only(Take(Known(history, max), MAX_TRACES), New(history, max, seen))
  }

  /** What the client has seen after it: unchanged when nothing was new. */
  function SeenAfter(history: seq<TraceEvent>, max: nat, seen: set<string>): set<string> {
    if New(history, max, seen) == {} then seen else Members(Known(history, max))
  }

  class Feed {
    const tracer: T.TraceRecorder
    var seen: set<string>

    constructor (tracer: T.TraceRecorder)
      requires tracer.Valid()
      ensures this.tracer == tracer && seen == Members(Known(tracer.history, tracer.maxCalls))
    {
      this.tracer := tracer;
      new;
      var ids := tracer.KnownCallIds();
      seen := Members(ids);
    }

    /** One round of the loop: push the traces of the new calls, newest first. */
    method Poll() returns (pushed: seq<T.CallTrace>)
      requires tracer.Valid()
      modifies this
      ensures seen == SeenAfter(tracer.history, tracer.maxCalls, old(seen))
      ensures var ids := Push(tracer.history, tracer.maxCalls, old(seen));
              && |pushed| == |ids|
              && forall i :: 0 <= i < |ids| ==> pushed[i] == T.Retained(tracer.history, tracer.maxCalls, ids[i])
    {
      var ids := tracer.KnownCallIds();
      var newIds := Members(ids) - seen;
      pushed := [];
      if newIds != {} {
        var recent := tracer.Recent(MAX_TRACES);
        pushed := Chosen(recent, newIds);
        seen := Members(ids);
        TracesOfIs(tracer.history, tracer.maxCalls, Take(ids, MAX_TRACES), recent);
        ChosenIsOnly(tracer.history, tracer.maxCalls, Take(ids, MAX_TRACES), newIds);
        TracesOfAt(tracer.history, tracer.maxCalls, Only(Take(ids, MAX_TRACES), newIds));
      }
    }
  }

  function Chosen(traces: seq<T.CallTrace>, chosen: set<string>): seq<T.CallTrace> {
    if traces == [] then []
    else if traces[0].callId in chosen then [traces[0]] + Chosen(traces[1..], chosen)
    else Chosen(traces[1..], chosen)
  }

  function TracesOf(history: seq<TraceEvent>, max: nat, ids: seq<string>): seq<T.CallTrace> {
    if ids == [] then [] else [T.Retained(history, max, ids[0])] + TracesOf(history, max, ids[1..])
  }

  lemma {:induction false} TracesOfIs(history: seq<TraceEvent>, max: nat, ids: seq<string>, traces: seq<T.CallTrace>)
    requires |traces| == |ids|
    requires forall i :: 0 <= i < |ids| ==> traces[i] == T.Retained(history, max, ids[i])
    ensures traces == TracesOf(history, max, ids)
  {
    if ids != [] {
      TracesOfIs(history, max, ids[1..], traces[1..]);
      assert traces == [traces[0]] + traces[1..];
    }
  }

  lemma {:induction false} TracesOfAt(history: seq<TraceEvent>, max: nat, ids: seq<string>)
    ensures var traces := TracesOf(history, max, ids);
            |traces| == |ids| && forall i :: 0 <= i < |ids| ==> traces[i] == T.Retained(history, max, ids[i])
  {
    if ids != [] {
      TracesOfAt(history, max, ids[1..]);
      assert forall i :: 0 < i < |ids| ==> ids[i] == ids[1..][i - 1];
    }
  }

  lemma {:induction false} ChosenIsOnly(history: seq<TraceEvent>, max: nat, ids: seq<string>, chosen: set<string>)
    ensures Chosen(TracesOf(history, max, ids), chosen) == TracesOf(history, max, Only(ids, chosen))
  {
    if ids != [] {
      ChosenIsOnly(history, max, ids[1..], chosen);
      var traces, rest := TracesOf(history, max, ids), Only(ids[1..], chosen);
      assert traces[1..] == TracesOf(history, max, ids[1..]);
      assert ([ids[0]] + rest)[1..] == rest;
    }
  }

  // --- a whole session ----------------------------------------------------

  /** A client connects after `start` and polls after each batch. */
  datatype Session = Session(start: seq<TraceEvent>, batches: seq<seq<TraceEvent>>, max: nat)

  function HistoryAt(s: Session, n: nat): seq<TraceEvent>
    requires n <= |s.batches|
  {
    if n == 0 then s.start else HistoryAt(s, n - 1) + s.batches[n - 1]
  }

  function Seen(s: Session, n: nat): set<string>
    requires n <= |s.batches|
  {
    if n == 0 then Members(Known(s.start, s.max)) else SeenAfter(HistoryAt(s, n), s.max, Seen(s, n - 1))
  }

  /** What the n-th poll pushes, counting from 1. */
  function Pushed(s: Session, n: nat): seq<string>
    requires 0 < n <= |s.batches|
  {
    Push(HistoryAt(s, n), s.max, Seen(s, n - 1))
  }

  predicate RetainedAt(s: Session, n: nat, id: string)
    requires n <= |s.batches|
  {
    id in Known(HistoryAt(s, n), s.max)
  }

  /** A poll sees every call it finds retained, and forgets none of those it had seen. */
  lemma PollSees(history: seq<TraceEvent>, max: nat, seen: set<string>, id: string)
    ensures id in Known(history, max) ==> id in SeenAfter(history, max, seen)
    ensures id in SeenAfter(history, max, seen) ==> id in seen || id in Known(history, max)
    ensures id in Push(history, max, seen) ==> id !in seen
  {
    if id in Known(history, max) && id !in seen {
      assert id in New(history, max, seen);
    }
  }

  lemma RetainedIsSeen(s: Session, n: nat, id: string)
    requires n <= |s.batches| && RetainedAt(s, n, id)
    ensures id in Seen(s, n)
  {
    if n > 0 {
      PollSees(HistoryAt(s, n), s.max, Seen(s, n - 1), id);
    }
  }

  lemma SeenIsNotPushed(s: Session, n: nat, id: string)
    requires 0 < n <= |s.batches| && id in Seen(s, n - 1)
    ensures id !in Pushed(s, n)
  {
    PollSees(HistoryAt(s, n), s.max, Seen(s, n - 1), id);
  }

  /** A call is pushed only at a poll that follows one, or the connection, at which it was not retained. */
  lemma PushedWasNotRetained(s: Session, n: nat, id: string)
    requires 0 < n <= |s.batches| && id in Pushed(s, n)
    ensures !RetainedAt(s, n - 1, id)
  {
    if RetainedAt(s, n - 1, id) {
      RetainedIsSeen(s, n - 1, id);
      SeenIsNotPushed(s, n, id);
    }
  }

  /** So once pushed, or seen at the connection, it is never pushed while it stays retained. */
  lemma PushedOnlyOnce(s: Session, i: nat, j: nat, id: string)
    requires i < j <= |s.batches|
    requires forall k :: i <= k < j ==> RetainedAt(s, k, id)
    ensures id !in Pushed(s, j)
  {
    assert RetainedAt(s, j - 1, id);
    if id in Pushed(s, j) {
      PushedWasNotRetained(s, j, id);
    }
  }

  /** The calls touched after the last event of `id`. */
  function TouchedAfter(history: seq<TraceEvent>, id: string): set<string> {
    if history == [] || history[|history| - 1].callId == id then {}
    else TouchedAfter(history[..|history| - 1], id) + {history[|history| - 1].callId}
  }

  /** The calls in front of position `place` are those touched after `id`, each once. */
  ghost predicate Ranked(ids: seq<string>, place: nat, id: string, after: set<string>) {
    && place < |ids| && ids[place] == id
    && place == |after|
    && forall k :: k in ids[..place] <==> k in after
  }

  lemma RankedTouch(ids: seq<string>, place: nat, id: string, after: set<string>, x: string) returns (moved: nat)
    requires Ranked(ids, place, id, after) && NoDuplicates(ids) && x != id
    ensures Ranked([x] + Remove(ids, x), moved, id, after + {x})
  {
    var head, tail := ids[..place], ids[place + 1..];
    assert ids == head + [id] + tail;
    RemoveAcross(head, id, tail, x);
    RemoveMembers(head, x);
    var front := [x] + Remove(head, x);
    moved := |front|;
    var all := [x] + Remove(ids, x);
    assert all == front + ([id] + Remove(tail, x));
    assert all[..moved] == front && all[moved] == id;
    assert NoDuplicates(front);
    assert forall k :: k in after + {x} <==> k in front;
    Cardinality(front, after + {x});
  }

  /** A call's place in the order of recency is the number of calls touched after it. */
  lemma {:induction false} PlaceInRecency(history: seq<TraceEvent>, id: string) returns (place: nat)
    requires id in Recency(history)
    ensures Ranked(Recency(history), place, id, TouchedAfter(history, id))
  {
    assert history != [];
    var before, e := history[..|history| - 1], history[|history| - 1];
    assert history == before + [e];
    RecencySnoc(before, e);
    if e.callId == id {
      place := 0;
    } else {
      FirstSeenMembers(Reversed(CallIds(before)));
      RemoveMembers(Recency(before), e.callId);
      assert id in Recency(before);
      var p := PlaceInRecency(before, id);
      place := RankedTouch(Recency(before), p, id, TouchedAfter(before, id), e.callId);
    }
  }

  lemma {:induction false} RemoveAcross(a: seq<string>, x: string, b: seq<string>, k: string)
    requires x != k
    ensures Remove(a + [x] + b, k) == Remove(a, k) + ([x] + Remove(b, k))
  {
    var all := a + [x] + b;
    if a == [] {
      assert all[0] == x && all[1..] == b;
      assert Remove(all, k) == [x] + Remove(b, k);
    } else {
      RemoveAcross(a[1..], x, b, k);
      assert all[0] == a[0] && all[1..] == a[1..] + [x] + b;
      assert [a[0]] + (Remove(a[1..], k) + ([x] + Remove(b, k))) == [a[0]] + Remove(a[1..], k) + ([x] + Remove(b, k));
    }
  }

  lemma InFirst(ids: seq<string>, place: nat, id: string, n: nat)
    requires NoDuplicates(ids) && place < |ids| && ids[place] == id
    ensures id in Take(ids, n) <==> place < n
  {
    if place < n {
      assert Take(ids, n)[place] == id;
    }
  }

  lemma PushedIff(history: seq<TraceEvent>, max: nat, seen: set<string>, id: string)
    requires id in Known(history, max) && id !in seen
    ensures id in Push(history, max, seen) <==> |TouchedAfter(history, id)| < MAX_TRACES
  {
    var recency := Recency(history);
    var known := Take(recency, max);
    var place := PlaceInRecency(history, id);
    FirstSeenMembers(Reversed(CallIds(history)));
    InFirst(recency, place, id, max);
    InFirst(known, place, id, MAX_TRACES);
    assert id in New(history, max, seen);
  }

  // --- what has been seen -------------------------------------------------

  lemma RecencyGrows(history: seq<TraceEvent>, e: TraceEvent)
    ensures |Recency(history)| <= |Recency(history + [e])|
  {
    RecencySnoc(history, e);
    FirstSeenMembers(Reversed(CallIds(history)));
    RemoveCount(Recency(history), e.callId);
  }

  /** The recorder never holds fewer calls than it did. */
  lemma {:induction false} KnownNeverShrinks(history: seq<TraceEvent>, batch: seq<TraceEvent>, max: nat)
    ensures |Known(history, max)| <= |Known(history + batch, max)|
  {
    if batch == [] {
      assert history + [] == history;
    } else {
      var front, e := batch[..|batch| - 1], batch[|batch| - 1];
      KnownNeverShrinks(history, front, max);
      RecencyGrows(history + front, e);
      assert history + batch == history + front + [e];
    }
  }

  lemma KnownSize(history: seq<TraceEvent>, max: nat)
    ensures |Members(Known(history, max))| == |Known(history, max)|
  {
    FirstSeenMembers(Reversed(CallIds(history)));
    assert NoDuplicates(Known(history, max));
    Cardinality(Known(history, max), Members(Known(history, max)));
  }

  lemma SameSize(a: set<string>, b: set<string>)
    requires a <= b && |a| >= |b|
    ensures a == b
  {
    if x :| x in b && x !in a {
      Smaller(a, b - {x});
    }
  }

  /**
   After every poll the client has seen exactly the calls retained. A poll that finds nothing
   new leaves the set alone, but then nothing was evicted either.
   */
  lemma {:induction false} SeenIsRetained(s: Session, n: nat)
    requires n <= |s.batches|
    ensures Seen(s, n) == Members(Known(HistoryAt(s, n), s.max))
  {
    if n > 0 {
      SeenIsRetained(s, n - 1);
      var before, now := HistoryAt(s, n - 1), HistoryAt(s, n);
      if New(now, s.max, Seen(s, n - 1)) == {} {
        KnownNeverShrinks(before, s.batches[n - 1], s.max);
        KnownSize(before, s.max);
        KnownSize(now, s.max);
        forall id | id in Members(Known(now, s.max)) ensures id in Members(Known(before, s.max)) {
          assert id !in New(now, s.max, Seen(s, n - 1));
        }
        SameSize(Members(Known(now, s.max)), Members(Known(before, s.max)));
      }
    }
  }

  /**
   A poll pushes a call exactly when it is retained, was not at the poll before, and fewer than
   fifty calls were touched after it.
   */
  lemma NewCallIsPushedIff(s: Session, n: nat, id: string)
    requires 0 < n <= |s.batches|
    ensures id in Pushed(s, n) <==>
            RetainedAt(s, n, id) && !RetainedAt(s, n - 1, id) && |TouchedAfter(HistoryAt(s, n), id)| < 50
  {
    SeenIsRetained(s, n - 1);
    if RetainedAt(s, n, id) && !RetainedAt(s, n - 1, id) {
      PushedIff(HistoryAt(s, n), s.max, Seen(s, n - 1), id);
    } else {
      PollSees(HistoryAt(s, n), s.max, Seen(s, n - 1), id);
    }
  }

  // --- one payload --------------------------------------------------------

  /** Newest first: after each call fewer others were touched than after any that follows it. */
  ghost predicate NewestFirst(history: seq<TraceEvent>, ids: seq<string>) {
    forall i, j :: 0 <= i < j < |ids| ==> |TouchedAfter(history, ids[i])| < |TouchedAfter(history, ids[j])|
  }

  lemma RecencyRank(history: seq<TraceEvent>, i: nat)
    requires i < |Recency(history)|
    ensures |TouchedAfter(history, Recency(history)[i])| == i
  {
    var ids := Recency(history);
    FirstSeenMembers(Reversed(CallIds(history)));
    var place := PlaceInRecency(history, ids[i]);
    assert ids[place] == ids[i];
  }

  lemma KnownNewestFirst(history: seq<TraceEvent>, max: nat, n: nat)
    ensures NewestFirst(history, Take(Known(history, max), n))
  {
    var ids := Take(Known(history, max), n);
    forall i, j | 0 <= i < j < |ids| ensures |TouchedAfter(history, ids[i])| < |TouchedAfter(history, ids[j])| {
      RecencyRank(history, i);
      RecencyRank(history, j);
    }
  }

  lemma {:induction false} OnlyNewestFirst(history: seq<TraceEvent>, ids: seq<string>, chosen: set<string>)
    requires NewestFirst(history, ids)
    ensures NewestFirst(history, Only(ids, chosen))
  {
    if ids != [] {
      var rest := Only(ids[1..], chosen);
      assert forall i :: 0 < i < |ids| ==> ids[i] == ids[1..][i - 1];
      OnlyNewestFirst(history, ids[1..], chosen);
      forall k | k in rest ensures |TouchedAfter(history, ids[0])| < |TouchedAfter(history, k)| {
        var j :| 0 <= j < |ids[1..]| && ids[1..][j] == k;
        assert ids[j + 1] == k;
      }
      if ids[0] in chosen {
        HeadNewest(history, ids[0], rest);
      }
    }
  }

  lemma HeadFirst(rank: string -> nat, id: string, rest: seq<string>)
    requires forall i, j :: 0 <= i < j < |rest| ==> rank(rest[i]) < rank(rest[j])
    requires forall k :: k in rest ==> rank(id) < rank(k)
    ensures forall i, j :: 0 <= i < j < |[id] + rest| ==> rank(([id] + rest)[i]) < rank(([id] + rest)[j])
  {
    var all := [id] + rest;
    forall i, j | 0 <= i < j < |all| ensures rank(all[i]) < rank(all[j]) {
      assert all[j] == rest[j - 1] && all[j] in rest;
      assert i > 0 ==> all[i] == rest[i - 1];
    }
  }

  lemma HeadNewest(history: seq<TraceEvent>, id: string, rest: seq<string>)
    requires NewestFirst(history, rest)
    requires forall k :: k in rest ==> |TouchedAfter(history, id)| < |TouchedAfter(history, k)|
    ensures NewestFirst(history, [id] + rest)
  {
    var rank: string -> nat := k => |TouchedAfter(history, k)|;
    assert forall i, j :: 0 <= i < j < |rest| ==> rank(rest[i]) < rank(rest[j]);
    HeadFirst(rank, id, rest);
    forall i, j | 0 <= i < j < |[id] + rest|
      ensures |TouchedAfter(history, ([id] + rest)[i])| < |TouchedAfter(history, ([id] + rest)[j])|
    {
      assert rank(([id] + rest)[i]) < rank(([id] + rest)[j]);
    }
  }

  /** A payload names no call twice, and its calls stand newest first. */
  lemma PayloadIsOrdered(s: Session, n: nat)
    requires 0 < n <= |s.batches|
    ensures NewestFirst(HistoryAt(s, n), Pushed(s, n)) && NoDuplicates(Pushed(s, n))
  {
    var history := HistoryAt(s, n);
    KnownNewestFirst(history, s.max, MAX_TRACES);
    OnlyNewestFirst(history, Take(Known(history, s.max), MAX_TRACES), New(history, s.max, Seen(s, n - 1)));
  }

  /** A call pushed out of the first fifty before the poll is never pushed while it stays retained. */
  lemma CrowdedOutIsLost(s: Session, n: nat, j: nat, id: string)
    requires 0 < n <= j <= |s.batches| && RetainedAt(s, n, id)
    requires forall k :: n <= k < j ==> RetainedAt(s, k, id)
    requires |TouchedAfter(HistoryAt(s, n), id)| >= 50
    ensures id !in Pushed(s, j)
  {
    if id in Pushed(s, j) {
      if n < j {
        assert RetainedAt(s, j - 1, id);
        PushedWasNotRetained(s, j, id);
      } else {
        NewCallIsPushedIff(s, n, id);
      }
    }
  }

  lemma MembersSnoc(batch: seq<TraceEvent>, e: TraceEvent)
    ensures Members(CallIds(batch + [e])) == Members(CallIds(batch)) + {e.callId}
  {
    assert CallIds(batch + [e]) == CallIds(batch) + [e.callId];
  }

  lemma TouchedAfterSnoc(history: seq<TraceEvent>, e: TraceEvent, id: string)
    ensures TouchedAfter(history + [e], id) == if e.callId == id then {} else TouchedAfter(history, id) + {e.callId}
  {
    assert (history + [e])[..|history|] == history;
  }

  lemma StaysKnownSnoc(history: seq<TraceEvent>, e: TraceEvent, max: nat, id: string)
    requires id in Known(history + [e], max) && e.callId != id
    ensures id in Known(history, max)
  {
    StaysKnown(history + [e], max, id);
    assert (history + [e])[..|history|] == history;
  }

  lemma {:induction false} NewlyKnownWasTouched(history: seq<TraceEvent>, batch: seq<TraceEvent>, max: nat, id: string)
    requires id in Known(history + batch, max) && id !in Known(history, max)
    ensures id in Members(CallIds(batch))
    ensures TouchedAfter(history + batch, id) <= Members(CallIds(batch)) - {id}
  {
    assert history + [] == history;
    if batch != [] {
      var front, e := batch[..|batch| - 1], batch[|batch| - 1];
      assert batch == front + [e];
      MembersSnoc(front, e);
      assert history + batch == history + front + [e];
      TouchedAfterSnoc(history + front, e, id);
      if e.callId != id {
        StaysKnownSnoc(history + front, e, max, id);
        NewlyKnownWasTouched(history, front, max, id);
      }
    }
  }

  lemma FewTouched(before: seq<TraceEvent>, batch: seq<TraceEvent>, max: nat, id: string)
    requires id in Known(before + batch, max) && id !in Known(before, max)
    ensures |TouchedAfter(before + batch, id)| < |Members(CallIds(batch))|
  {
    NewlyKnownWasTouched(before, batch, max, id);
    SetSizes(TouchedAfter(before + batch, id), Members(CallIds(batch)), id);
  }

  /**
   A call that appears at a poll, for the first time or again, is pushed at that poll whenever
   at most fifty calls were touched since the poll before.
   */
  lemma FirstAppearanceIsDelivered(s: Session, n: nat, id: string)
    requires 0 < n <= |s.batches| && RetainedAt(s, n, id) && !RetainedAt(s, n - 1, id)
    requires |Members(CallIds(s.batches[n - 1]))| <= 50
    ensures id in Pushed(s, n)
  {
    FewTouched(HistoryAt(s, n - 1), s.batches[n - 1], s.max, id);
    NewCallIsPushedIff(s, n, id);
  }

  lemma SetSizes(a: set<string>, b: set<string>, id: string)
    requires a <= b - {id} && id in b
    ensures |a| < |b|
  {
    Smaller(a, b - {id});
  }

  lemma {:induction false} Smaller(a: set<string>, b: set<string>)
    requires a <= b
    ensures |a| <= |b|
  {
    if a != {} {
      var x :| x in a;
      Smaller(a - {x}, b - {x});
    }
  }
}
