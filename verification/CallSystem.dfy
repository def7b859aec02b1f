/** The calls of one process sharing one registry, their callbacks interleaved in any order. */
module CallSystem {
  import opened Wrappers
  import opened Metrics
  import opened CallTypes
  import opened CallSpec
  import opened CallRuns
  import opened CallTheorems
  import opened CallTransparency
  import CallStory

  /** An accepted INVITE: where it came from, and the callbacks its call has seen. */
  datatype Call = Call(peer: string, fields: Fields, inputs: seq<Input>)

  /** What the objects of a process show: every call's state and the registry. */
  datatype View = View(states: seq<CallState>, counters: Counters)

  datatype System = System(calls: seq<Call>, view: View)

  datatype Happening =
    | NewCall(peer: string, fields: Fields)
    | Refused(code: string)
    | OnCall(n: nat, input: Input)

  ghost predicate CanHappen(v: View, h: Happening) {
    h.OnCall? ==> h.input.Valid() && h.n < |v.states| && Relaying(v.states[h.n])
  }

  /** What one request or callback makes of it. */
  ghost function Turn(v: View, h: Happening): View
    requires CanHappen(v, h)
  {
    match h
    case NewCall(peer, fields) =>
      var s := Start(peer, fields);
      View(v.states + [s],
           v.counters.(callsTotal := v.counters.callsTotal + 1,
                       peerStatus := WriteAll(v.counters.peerStatus, s.statuses)))
    case Refused(code) => v.(counters := v.counters.(errors := Bump(v.counters.errors, code)))
    case OnCall(n, i) =>
      var t := Step(v.states[n], i);
      StepExtends(v.states[n], i);
      View(v.states[n := t], Report(v.counters, v.states[n], t))
  }

  /** Each call's state is its own run's, whatever the other calls did in between. */
  ghost predicate WellFormed(y: System) {
    && |y.view.states| == |y.calls|
    && forall n :: 0 <= n < |y.calls| ==>
         Reached(y.view.states[n], y.calls[n].peer, y.calls[n].fields, y.calls[n].inputs)
  }

  ghost function Happen(y: System, h: Happening): (z: System)
    requires WellFormed(y) && (h.OnCall? ==> h.input.Valid() && h.n < |y.calls|)
    ensures WellFormed(z) && CanHappen(y.view, h) && z.view == Turn(y.view, h)
  {
    match h
    case NewCall(peer, fields) =>
      assert Reached(Start(peer, fields), peer, fields, []);
      System(y.calls + [Call(peer, fields, [])], Turn(y.view, h))
    case Refused(code) => y.(view := Turn(y.view, h))
    case OnCall(n, i) =>
      var c := y.calls[n];
      assert Reached(y.view.states[n], c.peer, c.fields, c.inputs);
      RunSnoc(Start(c.peer, c.fields), c.inputs, i);
      System(y.calls[n := c.(inputs := c.inputs + [i])], Turn(y.view, h))
  }

  lemma NextHopExtends(s: CallState, e: Event, connected: bool)
    requires Relaying(s) && s.uaO.Some?
    ensures Extends(s, FromNextHop(s, e, connected))
  {
    var heard := if e.Answer() then Cancel(s) else s;
    assert Extends(s, RelayToTrunk(heard, e, connected));
    if heard.failoverHops != [] {
      assert Extends(s, Absorb(heard, e));
    }
  }

  lemma StepExtends(s: CallState, i: Input)
    requires Relaying(s) && i.Valid()
    ensures Extends(s, Step(s, i))
  {
    if i.FromLeg? && i.leg.Hop? && s.uaO == Some(i.leg.attempt) {
      NextHopExtends(s, i.event, i.connected);
    }
  }

  ghost predicate Possible(hs: seq<Happening>) {
    && (forall k :: 0 <= k < |hs| && hs[k].OnCall? ==> hs[k].input.Valid() && hs[k].n < Accepted(hs[..k]))
  }

  function Accepted(hs: seq<Happening>): nat {
    if hs == [] then 0 else Accepted(hs[..|hs| - 1]) + if hs[|hs| - 1].NewCall? then 1 else 0
  }

  ghost function History(hs: seq<Happening>): (y: System)
    requires Possible(hs)
    ensures WellFormed(y) && |y.calls| == Accepted(hs)
  {
    if hs == [] then System([], View([], ZERO))
    else
      PossiblePrefix(hs);
      Happen(History(hs[..|hs| - 1]), hs[|hs| - 1])
  }

  lemma PossiblePrefix(hs: seq<Happening>)
    requires Possible(hs) && hs != []
    ensures Possible(hs[..|hs| - 1])
    ensures hs[|hs| - 1].OnCall? ==> hs[|hs| - 1].input.Valid() && hs[|hs| - 1].n < Accepted(hs[..|hs| - 1])
  {
    var before := hs[..|hs| - 1];
    assert forall k :: 0 <= k < |before| ==> before[..k] == hs[..k] && before[k] == hs[k];
  }

  /** How often an outcome was counted, over all calls. */
  function Tally(states: seq<CallState>, d: Disposition): nat {
    if states == [] then 0 else Tally(states[..|states| - 1], d) + multiset(states[|states| - 1].dispositions)[d]
  }

  lemma {:induction false} TallyUpdate(states: seq<CallState>, n: nat, t: CallState, d: Disposition)
    requires n < |states|
    ensures Tally(states[n := t], d) + multiset(states[n].dispositions)[d]
            == Tally(states, d) + multiset(t.dispositions)[d]
  {
    var last := |states| - 1;
    if n == last {
      assert states[n := t][..last] == states[..last];
    } else {
      TallyUpdate(states[..last], n, t, d);
      assert states[n := t][..last] == states[..last][n := t];
    }
  }

  /** The registry agrees with the calls. */
  ghost predicate Agrees(y: System, d: Disposition) {
    y.view.counters.callsTotal == |y.calls| && Count(y.view.counters.byDisposition, d) == Tally(y.view.states, d)
  }

  lemma HappenAgrees(y: System, h: Happening, d: Disposition)
    requires WellFormed(y) && (h.OnCall? ==> h.input.Valid() && h.n < |y.calls|) && Agrees(y, d)
    ensures Agrees(Happen(y, h), d)
  {
    match h {
      case NewCall(peer, fields) =>
        assert (y.view.states + [Start(peer, fields)])[..|y.view.states|] == y.view.states;
      case Refused(_) =>
      case OnCall(n, i) =>
        ReportAgrees(y.view.counters, y.view.states, n, Step(y.view.states[n], i), d) by { StepExtends(y.view.states[n], i); }
    }
  }

  lemma ReportAgrees(counters: Counters, states: seq<CallState>, n: nat, t: CallState, d: Disposition)
    requires n < |states| && Extends(states[n], t)
    requires Count(counters.byDisposition, d) == Tally(states, d)
    ensures Count(Report(counters, states[n], t).byDisposition, d) == Tally(states[n := t], d)
  {
    var s := states[n];
    TallyUpdate(states, n, t, d);
    CountAllTally(counters.byDisposition, t.dispositions[|s.dispositions|..], d);
    assert t.dispositions == s.dispositions + t.dispositions[|s.dispositions|..];
  }

  /** The registry counts exactly what the calls recorded, and every call exactly once. */
  lemma {:induction false} RegistryIsTheSumOfItsCalls(hs: seq<Happening>, d: Disposition)
    requires Possible(hs)
    ensures History(hs).view.counters.callsTotal == |History(hs).calls|
    ensures Count(History(hs).view.counters.byDisposition, d) == Tally(History(hs).view.states, d)
  {
    if hs != [] {
      PossiblePrefix(hs);
      RegistryIsTheSumOfItsCalls(hs[..|hs| - 1], d);
      HappenAgrees(History(hs[..|hs| - 1]), hs[|hs| - 1], d);
    }
  }

  lemma {:induction false} TallyBound(states: seq<CallState>)
    requires forall n :: 0 <= n < |states| ==> |states[n].dispositions| <= 1
    ensures Tally(states, Completed) + Tally(states, Failed) + Tally(states, Rejected)
            + Tally(states, NoMatch) + Tally(states, Abandoned) <= |states|
  {
    if states != [] {
      var last := |states| - 1;
      TallyBound(states[..last]);
      var ds := states[last].dispositions;
      assert ds == [] || (ds == [ds[0]] && multiset(ds) == multiset{ds[0]});
    }
  }

  /**
   Over any interleaving of well-behaved calls the registry never counts more outcomes than
   calls. A call whose trunk leg hangs up counts none, so fewer is possible.
   */
  lemma OutcomesNeverExceedCalls(hs: seq<Happening>)
    requires Possible(hs)
    requires forall n :: 0 <= n < |History(hs).calls| ==> Orderly(History(hs).calls[n].inputs)
    ensures Outcomes(History(hs).view.counters.byDisposition) <= History(hs).view.counters.callsTotal
  {
    var y := History(hs);
    forall n | 0 <= n < |y.view.states| ensures |y.view.states[n].dispositions| <= 1 {
      var c := y.calls[n];
      assert Reached(y.view.states[n], c.peer, c.fields, c.inputs);
      DispositionsAreAccounted(c.peer, c.fields, c.inputs);
      AtMostOneOutcome(c.inputs);
    }
    TallyBound(y.view.states);
    RegistryIsTheSumOfItsCalls(hs, Completed);
    RegistryIsTheSumOfItsCalls(hs, Failed);
    RegistryIsTheSumOfItsCalls(hs, Rejected);
    RegistryIsTheSumOfItsCalls(hs, NoMatch);
    RegistryIsTheSumOfItsCalls(hs, Abandoned);
  }

  /**
   The trunk leg is relayed to the live next-hop leg, whatever it says, and counts nothing: a
   caller who hangs up leaves no outcome behind. Without a next-hop leg all but a Try is
   answered with a release.
   */
  lemma TrunkEventsCountNothing(s: CallState, e: Event, connected: bool, d: PolicyDecision)
    requires Consistent(s) && Relaying(s) && d.Valid() && (s.uaO.Some? || !e.Try?)
    ensures var t := Step(s, FromLeg(Trunk, e, connected, d));
            && t.dispositions == s.dispositions && t.attempts == s.attempts && t.statuses == s.statuses
            && (s.uaO.Some? ==> t.toTrunk == s.toTrunk && t.toNextHop == s.toNextHop + [Sent(|s.attempts| - 1, e)])
            && (s.uaO.None? ==> t.toNextHop == s.toNextHop && t.toTrunk == s.toTrunk + [Disconnect])
  {
  }

  // --- the rest of the registry -------------------------------------------

  /** The callbacks of the n-th call, in order. */
  function InputsOf(hs: seq<Happening>, n: nat): seq<Input> {
    if hs == [] then []
    else
      var h := hs[|hs| - 1];
      InputsOf(hs[..|hs| - 1], n) + if h.OnCall? && h.n == n then [h.input] else []
  }

  lemma {:induction false} NoInputsYet(hs: seq<Happening>, n: nat)
    requires Possible(hs) && n >= Accepted(hs)
    ensures InputsOf(hs, n) == []
  {
    if hs != [] {
      PossiblePrefix(hs);
      NoInputsYet(hs[..|hs| - 1], n);
    }
  }

  /** Interleaving gives every call its own callbacks. */
  lemma {:induction false} CallsSeeTheirInputs(hs: seq<Happening>, n: nat)
    requires Possible(hs) && n < |History(hs).calls|
    ensures History(hs).calls[n].inputs == InputsOf(hs, n)
  {
    var before, h := hs[..|hs| - 1], hs[|hs| - 1];
    PossiblePrefix(hs);
    var y := History(before);
    assert History(hs) == Happen(y, h);
    if n < |y.calls| {
      CallsSeeTheirInputs(before, n);
      assert InputsOf(before, n) + [] == InputsOf(before, n);
    } else {
      NoInputsYet(before, n);
    }
  }

  function Refusals(hs: seq<Happening>, code: string): nat {
    if hs == [] then 0 else Refusals(hs[..|hs| - 1], code) + if hs[|hs| - 1] == Refused(code) then 1 else 0
  }

  /** Every refused request is counted under its code, and nothing else is an error. */
  lemma {:induction false} ErrorsAreRefusals(hs: seq<Happening>, code: string)
    requires Possible(hs)
    ensures Count(History(hs).view.counters.errors, code) == Refusals(hs, code)
  {
    if hs != [] {
      PossiblePrefix(hs);
      ErrorsAreRefusals(hs[..|hs| - 1], code);
    }
  }

  /** Who is reported reachable or not, in the order it happens, over all calls. */
  function Blames(hs: seq<Happening>): seq<StatusWrite> {
    if hs == [] then []
    else
      var before := hs[..|hs| - 1];
      Blames(before) +
      match hs[|hs| - 1]
      case NewCall(peer, _) => [StatusWrite(peer + ":trunk", Reachable)]
      case Refused(_) => []
      case OnCall(n, i) => CallStory.BlamedNow(CallStory.PhaseAfter(InputsOf(before, n)), i)
  }

  lemma OnCallBlames(hs: seq<Happening>, n: nat, i: Input)
    requires Possible(hs) && n < |History(hs).calls| && i.Valid()
    ensures Relaying(History(hs).view.states[n])
    ensures var s := History(hs).view.states[n];
            Step(s, i).statuses == s.statuses + CallStory.BlamedNow(CallStory.PhaseAfter(InputsOf(hs, n)), i)
  {
    var y := History(hs);
    var c, s := y.calls[n], y.view.states[n];
    assert Reached(s, c.peer, c.fields, c.inputs);
    ReachedIsConsistent(s, c.peer, c.fields, c.inputs);
    CallsSeeTheirInputs(hs, n);
    CallStory.TheCallTellsItsStory(c.peer, c.fields, c.inputs);
    CallStory.StepTells(s, i);
  }

  /** So the peer table shows, for every peer, the last thing any call found out about it. */
  lemma {:induction false} PeersAreAsLastReported(hs: seq<Happening>)
    requires Possible(hs)
    ensures History(hs).view.counters.peerStatus == WriteAll(map[], Blames(hs))
  {
    if hs != [] {
      var before, h := hs[..|hs| - 1], hs[|hs| - 1];
      PossiblePrefix(hs);
      PeersAreAsLastReported(before);
      var y := History(before);
      match h {
        case NewCall(peer, fields) =>
          assert Start(peer, fields).statuses == [StatusWrite(peer + ":trunk", Reachable)] by {
            assert TrunkStatusKey(peer) == peer + ":trunk";
          }
          WriteAllAppend(map[], Blames(before), Start(peer, fields).statuses);
        case Refused(_) =>
          assert Blames(before) + [] == Blames(before);
        case OnCall(n, i) =>
          OnCallBlames(before, n, i);
          var s := y.view.states[n];
          var blames := CallStory.BlamedNow(CallStory.PhaseAfter(InputsOf(before, n)), i);
          assert Step(s, i).statuses[|s.statuses|..] == blames;
          WriteAllAppend(map[], Blames(before), blames);
      }
    }
  }
}
