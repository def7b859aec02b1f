/** `TraceRecorder`: the ordered dictionary of traces, updated in place under one lock. */
module TraceRecorder {
  import opened Wrappers
  import opened Sequences
  import opened Ordered
  import opened TraceSpec

  datatype CallTrace = CallTrace(callId: string, events: seq<TraceEvent>)

  /** The trace of a retained call: its own events since it was last admitted. */
  function Retained(history: seq<TraceEvent>, max: nat, id: string): CallTrace {
    CallTrace(id, Own(history[Admitted(history, max, id)..], id))
  }

  class TraceRecorder {
    const maxCalls: nat
    var traces: Traces

    /** Everything recorded since the recorder was created or last cleared. */
    ghost var history: seq<TraceEvent>

    ghost predicate Valid()
      reads this
    {
      traces == Kept(history, maxCalls)
    }

    constructor (maxCalls: nat)
      ensures Valid() && history == [] && this.maxCalls == maxCalls
    {
      this.maxCalls, traces, history := maxCalls, [], [];
    }

    /** The event joins its call's trace, which becomes the newest; the oldest traces make room. */
    method Record(event: TraceEvent)
      requires Valid()
      modifies this
      ensures Valid() && history == old(history) + [event]
    {
      var events := [];
      if Has(traces, event.callId) {
        events := Find(traces, event.callId).value;
      }
      traces := Latest(traces, event.callId, events + [event]);
      ghost var grown := traces;
      while |traces| > maxCalls
        invariant LastOf(traces, maxCalls) == LastOf(grown, maxCalls) && history == old(history)
        decreases |traces|
      {
        traces := traces[1..];
      }
      history := history + [event];
      assert history[..|history| - 1] == old(history);
    }

    /** The call's own events since it was last admitted; none when it is not retained. */
    method TraceFor(callId: string) returns (trace: CallTrace)
      requires Valid()
      ensures trace == if callId in Known(history, maxCalls) then Retained(history, maxCalls, callId)
                       else CallTrace(callId, [])
    {
      KeptHas(history, maxCalls, callId);
      if callId in Known(history, maxCalls) {
        KeptTrace(history, maxCalls, callId);
      }
      var found := Find(traces, callId);
      trace := CallTrace(callId, if found.Some? then found.value else []);
    }

    /** The retained calls, most recently touched first. */
    method KnownCallIds() returns (ids: seq<string>)
      requires Valid()
      ensures ids == Known(history, maxCalls)
    {
      KeptIsKnown(history, maxCalls);
      ids := Reversed(Keys(traces));
    }

    /** The traces of the first `limit` of them. */
    method Recent(limit: nat) returns (recent: seq<CallTrace>)
      requires Valid()
      ensures |recent| == |Take(Known(history, maxCalls), limit)|
      ensures forall i :: 0 <= i < |recent| ==> recent[i] == Retained(history, maxCalls, Known(history, maxCalls)[i])
    {
      KeptIsKnown(history, maxCalls);
      var items := Take(Reversed(traces), limit);
      recent := seq(|items|, i requires 0 <= i < |items| => CallTrace(items[i].key, items[i].val));
      forall i | 0 <= i < |items| ensures recent[i] == Retained(history, maxCalls, Known(history, maxCalls)[i]) {
        ItemAt(history, maxCalls, i);
      }
    }

    method Clear()
      modifies this
      ensures Valid() && history == []
    {
      traces, history := [], [];
    }
  }

  lemma KnownAt(history: seq<TraceEvent>, max: nat, i: nat)
    requires i < |Kept(history, max)|
    ensures i < |Known(history, max)| && Known(history, max)[i] == Reversed(Kept(history, max))[i].key
  {
    KeptIsKnown(history, max);
    ReversedKeys(Kept(history, max), i);
  }

  lemma {:induction false} ReversedKeys(s: Traces, i: nat)
    requires i < |s|
    ensures Reversed(Keys(s))[i] == Reversed(s)[i].key == s[|s| - 1 - i].key
  {
    var keys := Keys(s);
    assert keys[|keys| - 1 - i] == s[|s| - 1 - i].key;
  }

  /** The i-th newest item of the store is the i-th newest call with its trace. */
  lemma ItemAt(history: seq<TraceEvent>, max: nat, i: nat)
    requires i < |Kept(history, max)|
    ensures i < |Known(history, max)|
    ensures var item := Reversed(Kept(history, max))[i];
            && item.key == Known(history, max)[i]
            && CallTrace(item.key, item.val) == Retained(history, max, item.key)
  {
    KnownAt(history, max, i);
    KeptDistinct(history, max);
    var s := Kept(history, max);
    var at := |s| - 1 - i;
    FindAt(s, at);
    KeptTrace(history, max, s[at].key);
  }

  lemma {:induction false} FindAt(s: Traces, i: nat)
    requires Distinct(s) && i < |s|
    ensures Find(s, s[i].key) == Some(s[i].val)
  {
    if i > 0 {
      assert s[0].key != s[i].key;
      FindAt(s[1..], i - 1);
    }
  }
}
