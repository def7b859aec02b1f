/** The bounded trace store as a function of everything ever recorded. */
module TraceSpec {
  import opened Wrappers
  import opened Sequences
  import opened Ordered

  datatype TraceEvent = TraceEvent(timestamp: nat, callId: string, direction: string, verb: string, summary: string,
                                   peer: string, ruleId: Option<string>, attributes: map<string, string>)

  type Traces = seq<Item<seq<TraceEvent>>>

  /** One `record`: the call's trace grows and moves to the end, the oldest calls fall off. */
  function Recorded(s: Traces, max: nat, e: TraceEvent): Traces {
    var events := if Find(s, e.callId).Some? then Find(s, e.callId).value else [];
    LastOf(Latest(s, e.callId, events + [e]), max)
  }

  function Kept(history: seq<TraceEvent>, max: nat): Traces {
    if history == [] then [] else Recorded(Kept(history[..|history| - 1], max), max, history[|history| - 1])
  }

  function CallIds(history: seq<TraceEvent>): (ids: seq<string>)
    ensures |ids| == |history| && forall i :: 0 <= i < |ids| ==> ids[i] == history[i].callId
  {
    seq(|history|, i requires 0 <= i < |history| => history[i].callId)
  }

  /** The calls a history has touched, most recently touched first, each once. */
  function Recency(history: seq<TraceEvent>): seq<string> {
    FirstSeen(Reversed(CallIds(history)))
  }

  /** The calls retained: the first `max` of them. */
  function Known(history: seq<TraceEvent>, max: nat): seq<string> {
    Take(Recency(history), max)
  }

  function Own(history: seq<TraceEvent>, id: string): seq<TraceEvent> {
    if history == [] then []
    else
      var last := |history| - 1;
      Own(history[..last], id) + if history[last].callId == id then [history[last]] else []
  }

  /** Where a call was last admitted: its last event that found it not retained. */
  function Admitted(history: seq<TraceEvent>, max: nat, id: string): (a: nat)
    ensures a <= |history|
  {
    if history == [] then 0
    else
      var last := |history| - 1;
      if history[last].callId == id && id !in Known(history[..last], max) then last
      else Admitted(history[..last], max, id)
  }

  lemma RecencySnoc(history: seq<TraceEvent>, e: TraceEvent)
    ensures Recency(history + [e]) == [e.callId] + Remove(Recency(history), e.callId)
  {
    var ids := CallIds(history);
    assert CallIds(history + [e]) == ids + [e.callId];
    ReversedSnoc(ids, e.callId);
    FirstSeenCons(e.callId, Reversed(ids));
  }

  lemma KnownSnoc(history: seq<TraceEvent>, e: TraceEvent, max: nat)
    ensures Known(history + [e], max) == Take([e.callId] + Remove(Known(history, max), e.callId), max)
  {
    RecencySnoc(history, e);
    FirstSeenMembers(Reversed(CallIds(history)));
    TakeRemove(Recency(history), e.callId, max);
  }

  lemma {:induction false} LatestOrder(s: Traces, k: string, v: seq<TraceEvent>)
    ensures Keys(Latest(s, k, v)) == Remove(Keys(s), k) + [k]
  {
    WithoutOrder(s, k);
    assert Keys(Latest(s, k, v)) == Keys(Without(s, k)) + [k];
  }

  lemma {:induction false} WithoutOrder(s: Traces, k: string)
    ensures Keys(Without(s, k)) == Remove(Keys(s), k)
  {
    if s != [] {
      WithoutOrder(s[1..], k);
      assert Keys(s)[1..] == Keys(s[1..]);
      if s[0].key != k {
        assert Keys(Without(s, k)) == [s[0].key] + Keys(Without(s[1..], k));
      }
    }
  }

  lemma {:induction false} LastOfFind(s: Traces, n: nat, k: string)
    requires Distinct(s)
    ensures Distinct(LastOf(s, n))
    ensures Has(LastOf(s, n), k) ==> Has(s, k) && Find(LastOf(s, n), k) == Find(s, k)
    ensures Has(LastOf(s, n), k) <==> k in Keys(LastOf(s, n))
  {
    HasIndex(LastOf(s, n), k);
    if |s| > n {
      DistinctHead(s);
      LastOfFind(s[1..], n, k);
      assert LastOf(s[1..], n) == LastOf(s, n);
    }
  }

  lemma {:induction false} KeptDistinct(history: seq<TraceEvent>, max: nat)
    ensures Distinct(Kept(history, max))
  {
    if history != [] {
      var last := |history| - 1;
      var s, e := Kept(history[..last], max), history[last];
      KeptDistinct(history[..last], max);
      var events := if Find(s, e.callId).Some? then Find(s, e.callId).value else [];
      LatestKeys(s, e.callId, events + [e]);
      LastOfFind(Latest(s, e.callId, events + [e]), max, "");
    }
  }

  lemma RecordedKeys(s: Traces, max: nat, e: TraceEvent)
    ensures Keys(Recorded(s, max, e)) == LastOf(Remove(Keys(s), e.callId) + [e.callId], max)
  {
    var events := if Find(s, e.callId).Some? then Find(s, e.callId).value else [];
    LatestOrder(s, e.callId, events + [e]);
    var t := Latest(s, e.callId, events + [e]);
    assert Keys(LastOf(t, max)) == LastOf(Keys(t), max);
  }

  lemma RecordedOrder(keys: seq<string>, id: string, max: nat)
    ensures Reversed(LastOf(Remove(keys, id) + [id], max)) == Take([id] + Remove(Reversed(keys), id), max)
  {
    ReversedLastOf(Remove(keys, id) + [id], max);
    ReversedSnoc(Remove(keys, id), id);
    ReversedRemove(keys, id);
  }

  /** The calls the store retains, newest first, are the first `max` of the reversed history. */
  lemma {:induction false} KeptIsKnown(history: seq<TraceEvent>, max: nat)
    ensures Reversed(Keys(Kept(history, max))) == Known(history, max)
  {
    if history != [] {
      var before, e := history[..|history| - 1], history[|history| - 1];
      KeptIsKnown(before, max);
      RecordedKeys(Kept(before, max), max, e);
      RecordedOrder(Keys(Kept(before, max)), e.callId, max);
      KnownSnoc(before, e, max);
      assert history == before + [e];
    }
  }

  lemma HasKey(s: Traces, id: string)
    ensures Has(s, id) <==> id in Keys(s)
  {
    HasIndex(s, id);
    assert forall i :: 0 <= i < |s| ==> Keys(s)[i] == s[i].key;
  }

  lemma KeptHas(history: seq<TraceEvent>, max: nat, id: string)
    ensures Has(Kept(history, max), id) <==> id in Known(history, max)
  {
    KeptIsKnown(history, max);
    HasKey(Kept(history, max), id);
    ReversedMembers(Keys(Kept(history, max)), id);
  }

  lemma OwnSnoc(history: seq<TraceEvent>, e: TraceEvent, id: string)
    ensures Own(history + [e], id) == Own(history, id) + if e.callId == id then [e] else []
  {
    assert (history + [e])[..|history|] == history;
  }

  lemma OwnSince(history: seq<TraceEvent>, a: nat, id: string)
    requires a < |history|
    ensures var last := |history| - 1;
            Own(history[a..], id) == Own(history[..last][a..], id) + if history[last].callId == id then [history[last]] else []
  {
    var last := |history| - 1;
    assert history[a..] == history[..last][a..] + [history[last]];
    OwnSnoc(history[..last][a..], history[last], id);
  }

  /** Each retained trace is the call's own events since it was last admitted, in order. */
  lemma {:induction false} KeptTrace(history: seq<TraceEvent>, max: nat, id: string)
    requires id in Known(history, max)
    ensures Find(Kept(history, max), id) == Some(Own(history[Admitted(history, max, id)..], id))
    ensures Admitted(history, max, id) < |history|
  {
    KeptHas(history, max, id);
    var last := |history| - 1;
    var before, e := history[..last], history[last];
    var s, a := Kept(before, max), Admitted(history, max, id);
    KeptHas(before, max, id);
    KeptDistinct(before, max);
    var events := if Find(s, e.callId).Some? then Find(s, e.callId).value else [];
    LatestKeys(s, e.callId, events + [e]);
    LastOfFind(Latest(s, e.callId, events + [e]), max, id);
    if Has(s, id) {
      KeptTrace(before, max, id);
      assert a == Admitted(before, max, id) < last;
      OwnSince(history, a, id);
      assert Find(s, id) == Some(Own(before[a..], id));
      if e.callId == id {
        assert Find(Kept(history, max), id) == Some(events + [e]);
      } else {
        assert Find(Kept(history, max), id) == Find(s, id);
        assert Own(before[a..], id) + [] == Own(before[a..], id);
      }
    } else {
      assert e.callId == id;
      assert history[last..] == [e] && [e][..0] == [];
    }
  }

  lemma StaysKnown(history: seq<TraceEvent>, max: nat, id: string)
    requires history != [] && id in Known(history, max) && history[|history| - 1].callId != id
    ensures id in Known(history[..|history| - 1], max)
  {
    var before, e := history[..|history| - 1], history[|history| - 1];
    assert history == before + [e];
    KnownSnoc(before, e, max);
    RemoveMembers(Known(before, max), e.callId);
  }

  lemma KnownNonempty(max: nat, id: string)
    ensures id !in Known([], max)
  {
  }

  lemma {:induction false} AdmissionFound(history: seq<TraceEvent>, max: nat, id: string)
    requires id in Known(history, max)
    ensures var a := Admitted(history, max, id);
            a < |history| && history[a].callId == id && id !in Known(history[..a], max)
  {
    KnownNonempty(max, id);
    var last := |history| - 1;
    if !(history[last].callId == id && id !in Known(history[..last], max)) {
      if history[last].callId != id {
        StaysKnown(history, max, id);
      }
      AdmissionFound(history[..last], max, id);
      var a := Admitted(history, max, id);
      assert history[..last][..a] == history[..a];
    }
  }

  lemma {:induction false} RetainedSinceAdmission(history: seq<TraceEvent>, max: nat, id: string, j: nat)
    requires id in Known(history, max)
    requires Admitted(history, max, id) < j <= |history|
    ensures id in Known(history[..j], max)
  {
    if j == |history| {
      assert history[..j] == history;
    } else {
      var before := history[..|history| - 1];
      if history[|history| - 1].callId != id {
        StaysKnown(history, max, id);
      }
      assert Admitted(history, max, id) == Admitted(before, max, id) && id in Known(before, max);
      RetainedSinceAdmission(before, max, id, j);
      assert before[..j] == history[..j];
    }
  }

  /** That admission found the call not retained, and it has been retained ever since. */
  lemma AdmittedIsTheLastAdmission(history: seq<TraceEvent>, max: nat, id: string)
    requires id in Known(history, max)
    ensures var a := Admitted(history, max, id);
            && a < |history| && history[a].callId == id
            && id !in Known(history[..a], max)
            && forall j :: a < j <= |history| ==> id in Known(history[..j], max)
  {
    AdmissionFound(history, max, id);
    forall j | Admitted(history, max, id) < j <= |history| ensures id in Known(history[..j], max) {
      RetainedSinceAdmission(history, max, id, j);
    }
  }

  /** A call that was never evicted has all its events. */
  lemma NeverEvictedKeepsAll(history: seq<TraceEvent>, max: nat, id: string, first: nat)
    requires first < |history| && history[first].callId == id
    requires forall i :: 0 <= i < first ==> history[i].callId != id
    requires forall j :: first < j <= |history| ==> id in Known(history[..j], max)
    ensures Find(Kept(history, max), id) == Some(Own(history, id))
  {
    assert history[..|history|] == history;
    KeptTrace(history, max, id);
    var a := Admitted(history, max, id);
    AdmittedIsTheLastAdmission(history, max, id);
    assert a == first;
    OwnSkips(history, a, id);
  }

  lemma {:induction false} OwnSkips(history: seq<TraceEvent>, a: nat, id: string)
    requires a <= |history| && forall i :: 0 <= i < a ==> history[i].callId != id
    ensures Own(history[a..], id) == Own(history, id)
  {
    if history != [] {
      var last := |history| - 1;
      if a == |history| {
        OwnSkips(history[..last], last, id);
        assert history[..last][last..] == [];
      } else {
        OwnSkips(history[..last], a, id);
        OwnSince(history, a, id);
      }
    }
  }
}
