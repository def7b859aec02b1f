/**
 The no-answer timers. A failover starts its timer over the reference to the first one and
 cancels right after, so only the first attempt is ever watched; here is exactly when that
 leaves a timer behind, and what cancelling first would change.
 */
module CallTimers {
  import opened Wrappers
  import opened CallTypes
  import opened CallSpec
  import opened CallRuns
  import opened CallTheorems

  /** `dispose()`, seen by the state machine. */
  function Disposed(s: CallState): CallState {
    Cancel(s)
  }

  ghost predicate SomeArmed(s: CallState) {
    exists i :: 0 <= i < |s.timers| && s.timers[i]
  }

  /** The first attempt was given up for another hop while its timer was running. */
  predicate Orphaned(s: CallState) {
    |s.attempts| > 1 && |s.timers| > 0 && s.timers[0]
  }

  /** Over any number of failovers at most one timer is armed, and it is the first attempt's. */
  lemma AtMostOneTimer(s: CallState, trunkPeer: string, fields: Fields, ins: seq<Input>)
    requires Reached(s, trunkPeer, fields, ins)
    ensures |s.timers| == |s.attempts|
    ensures forall i :: 0 <= i < |s.timers| && s.timers[i] ==> i == 0
    ensures |s.attempts| == 1 ==> (s.timer == Some(0) || !SomeArmed(s))
  {
    ReachedIsConsistent(s, trunkPeer, fields, ins);
  }

  lemma AbsorbTimes(s: CallState, e: Event)
    requires s.pending.Some? && s.pending.value.Try? && s.failoverHops != []
    ensures var t := Absorb(s, e);
            t.timers == s.timers + [false] && t.timer == None && |t.attempts| == |s.attempts| + 1
  {
  }

  lemma RelayTimes(s: CallState, e: Event, connected: bool)
    ensures var t := RelayToTrunk(s, e, connected);
            && t.attempts == s.attempts && t.uaO == s.uaO && t.failoverHops == s.failoverHops
            && t.timers == (if e.Terminal() then Cancel(s) else s).timers
            && t.timer == (if e.Terminal() then None else s.timer)
  {
  }

  /** What relaying an event of the live leg does to the timers. */
  lemma HeardTimes(s: CallState, e: Event, connected: bool)
    requires Relaying(s) && s.uaO.Some? && !(e.Terminal() && !connected && s.failoverHops != [])
    ensures var t := FromNextHop(s, e, connected);
            && t.attempts == s.attempts && t.uaO == s.uaO && t.failoverHops == s.failoverHops
            && t.timers == (if e.Answer() || e.Terminal() then Cancel(s) else s).timers
  {
    RelayTimes(if e.Answer() then Cancel(s) else s, e, connected);
  }

  lemma NextHopOrphans(s: CallState, e: Event, connected: bool)
    requires Consistent(s) && Relaying(s) && s.uaO.Some?
    ensures Orphaned(FromNextHop(s, e, connected)) <==>
            || Orphaned(s)
            || (|s.attempts| == 1 && s.timers[0] && s.failoverHops != [] && e.Terminal() && !connected)
  {
    var heard := if e.Answer() then Cancel(s) else s;
    if e.Terminal() && !connected && heard.failoverHops != [] {
      AbsorbTimes(heard, e);
    } else {
      RelayTimes(heard, e, connected);
    }
  }

  /** The step that orphans the timer, and the only one that ends it. */
  lemma OrphanedAfterStepIff(s: CallState, i: Input)
    requires Consistent(s) && Relaying(s) && i.Valid()
    ensures Orphaned(Step(s, i)) <==>
            || (Orphaned(s) && !(i.NoAnswer? && i.timer == 0))
            || (&& |s.attempts| == 1 && s.timers[0] && s.failoverHops != []
                && i.FromLeg? && i.leg == Hop(0) && i.event.Terminal() && !i.connected)
  {
    match i
    case FromLeg(Trunk, e, _, d) =>
      if s.uaO.None? && e.Try? {
        assert OneLeg(s) && |Decide(s, d).attempts| <= 1;
      }
    case FromLeg(Hop(k), e, connected, _) =>
      if s.uaO == Some(k) {
        NextHopOrphans(s, e, connected);
      }
    case NoAnswer(_, _) =>
  }

  /**
   The first attempt is watched from its INVITE until its timer fires, it is answered, or its
   end is relayed; giving it up for another hop does not end the watch.
   */
  lemma FirstWatchEndsIff(s: CallState, i: Input)
    requires Consistent(s) && Relaying(s) && i.Valid() && |s.attempts| == 1 && s.timers[0]
    ensures |Step(s, i).timers| >= 1
    ensures !Step(s, i).timers[0] <==>
            || (i.NoAnswer? && i.timer == 0)
            || (&& i.FromLeg? && i.leg == Hop(0)
                && (i.event.Answer() || (i.event.Terminal() && (i.connected || s.failoverHops == []))))
  {
    match i
    case FromLeg(Trunk, _, _, _) =>
    case FromLeg(Hop(k), e, connected, _) =>
      if s.uaO == Some(k) {
        var heard := if e.Answer() then Cancel(s) else s;
        if e.Terminal() && !connected && s.failoverHops != [] {
          AbsorbTimes(heard, e);
        } else {
          RelayTimes(heard, e, connected);
        }
      }
    case NoAnswer(_, _) =>
  }

  lemma RelayDecisionStartsTheWatch(s: CallState, d: PolicyDecision)
    requires Consistent(s) && OneLeg(s) && d.Valid() && d.Relay?
    ensures Decide(s, d).timers == [true] && Decide(s, d).timer == Some(0) && |Decide(s, d).attempts| == 1
  {
  }

  // --- the watch, read off the inputs alone -------------------------------

  /** No attempt yet; the first one watched, with `spare` hops left; its timer gone; its timer lost. */
  datatype Watch = Unwatched | First(spare: nat) | Over | Lost

  function WatchNext(w: Watch, i: Input): Watch {
    match w
    case Unwatched =>
      if i.FromLeg? && i.leg.Trunk? && i.event.Try? && i.decision.Relay? && i.decision.nextHops != [] then
        First(|i.decision.nextHops| - 1)
      else w
    case First(spare) =>
      if i.NoAnswer? then if i.timer == 0 then Over else w
      else if i.leg != Hop(0) then w
      else if (i.event.Fail? || i.event.Disconnect?) && !i.connected && spare > 0 then Lost
      else if i.event.Ring? || i.event.Connect? || i.event.Fail? || i.event.Disconnect? then Over
      else w
    case Lost => if i.NoAnswer? && i.timer == 0 then Over else w
    case Over => w
  }

  function WatchAfter(ins: seq<Input>): Watch {
    if ins == [] then Unwatched else WatchNext(WatchAfter(ins[..|ins| - 1]), ins[|ins| - 1])
  }

  function WatchOf(s: CallState): Watch
    requires |s.timers| == |s.attempts|
  {
    if s.attempts == [] then Unwatched
    else if !s.timers[0] then Over
    else if |s.attempts| == 1 then First(|s.failoverHops|)
    else Lost
  }

  lemma WatchAbsorb(s: CallState, e: Event, d: PolicyDecision)
    requires Consistent(s) && Relaying(s) && s.uaO.Some? && e.Terminal() && s.failoverHops != []
    ensures var t := FromNextHop(s, e, false);
            && |t.timers| == |t.attempts|
            && WatchOf(t) == WatchNext(WatchOf(s), FromLeg(Hop(s.uaO.value), e, false, d))
  {
    AbsorbTimes(s, e);
    assert FromNextHop(s, e, false) == Absorb(s, e);
  }

  lemma WatchHeard(s: CallState, e: Event, connected: bool, d: PolicyDecision)
    requires Consistent(s) && Relaying(s) && s.uaO.Some? && !(e.Terminal() && !connected && s.failoverHops != [])
    ensures var t := FromNextHop(s, e, connected);
            && |t.timers| == |t.attempts|
            && WatchOf(t) == WatchNext(WatchOf(s), FromLeg(Hop(s.uaO.value), e, connected, d))
  {
    HeardTimes(s, e, connected);
  }

  lemma WatchTrunk(s: CallState, e: Event, connected: bool, d: PolicyDecision)
    requires Consistent(s) && Relaying(s) && d.Valid()
    ensures var t := FromTrunk(s, e, d);
            |t.timers| == |t.attempts| && WatchOf(t) == WatchNext(WatchOf(s), FromLeg(Trunk, e, connected, d))
  {
    if s.uaO.None? && e.Try? && d.Relay? {
      RelayDecisionStartsTheWatch(s, d);
      assert Decide(s, d).failoverHops == d.nextHops[1..];
    }
  }

  lemma WatchStep(s: CallState, i: Input)
    requires Consistent(s) && Relaying(s) && i.Valid()
    ensures var t := Step(s, i); |t.timers| == |t.attempts| && WatchOf(t) == WatchNext(WatchOf(s), i)
  {
    match i
    case FromLeg(Trunk, e, connected, d) => WatchTrunk(s, e, connected, d);
    case FromLeg(Hop(k), e, connected, d) =>
      if s.uaO == Some(k) {
        if e.Terminal() && !connected && s.failoverHops != [] {
          WatchAbsorb(s, e, d);
        } else {
          WatchHeard(s, e, connected, d);
        }
      }
    case NoAnswer(_, _) =>
  }

  lemma {:induction false} WatchRun(trunkPeer: string, fields: Fields, ins: seq<Input>)
    requires ValidInputs(ins)
    ensures var s := Run(Start(trunkPeer, fields), ins);
            Consistent(s) && WatchOf(s) == WatchAfter(ins)
  {
    ReachedIsConsistent(Run(Start(trunkPeer, fields), ins), trunkPeer, fields, ins);
    if ins != [] {
      var before := ins[..|ins| - 1];
      WatchRun(trunkPeer, fields, before);
      WatchStep(Run(Start(trunkPeer, fields), before), ins[|ins| - 1]);
    }
  }

  /**
   `dispose()` leaves a timer armed exactly when the first attempt failed over while it was
   watched, neither answered nor given up, and its timer has not fired since.
   */
  lemma DisposeIsCompleteIff(s: CallState, trunkPeer: string, fields: Fields, ins: seq<Input>)
    requires Reached(s, trunkPeer, fields, ins)
    ensures SomeArmed(Disposed(s)) <==> WatchAfter(ins).Lost?
    ensures Orphaned(s) <==> WatchAfter(ins).Lost?
  {
    WatchRun(trunkPeer, fields, ins);
    if Orphaned(s) {
      assert Disposed(s).timers[0];
    }
  }

  /** Until the loop fires it, the orphan survives every event and `dispose()` too. */
  lemma {:induction false} OrphanOutlivesDispose(s: CallState, ins: seq<Input>)
    requires Consistent(s) && Relaying(s) && Orphaned(s) && ValidInputs(ins)
    requires forall i :: 0 <= i < |ins| ==> !(ins[i].NoAnswer? && ins[i].timer == 0)
    ensures Orphaned(Run(s, ins)) && SomeArmed(Disposed(Run(s, ins)))
  {
    RunConsistent(s, ins);
    if ins != [] {
      var before := ins[..|ins| - 1];
      OrphanOutlivesDispose(s, before);
      RunConsistent(s, before);
      OrphanedAfterStepIff(Run(s, before), ins[|ins| - 1]);
    }
    assert Disposed(Run(s, ins)).timers[0];
  }

  /** When it does fire, it tears down a hop it was never started for. */
  lemma OrphanTearsDownAnotherHop(s: CallState)
    requires Consistent(s) && Relaying(s) && Orphaned(s)
    ensures Step(s, NoAnswer(0, false)).tornDown == s.tornDown + [|s.attempts| - 1]
    ensures |s.attempts| - 1 != 0
  {
    assert RelayDecided(s);
  }

  lemma RunOfTwo(s: CallState, i: Input, j: Input)
    requires Relaying(s) && i.Valid() && j.Valid()
    ensures Relaying(Step(s, i)) && ValidInputs([i, j]) && Run(s, [i, j]) == Step(Step(s, i), j)
  {
    StepRelaying(s, i);
    RunSnoc(s, [], i);
    assert [] + [i] == [i] && [i] + [j] == [i, j];
    RunSnoc(s, [i], j);
  }

  lemma FirstFailureOrphans(s: CallState, d: PolicyDecision)
    requires Consistent(s) && Relaying(s) && OneLeg(s) && d.Relay? && d.Valid() && |d.nextHops| > 1
    ensures var t := Step(s, FromLeg(Trunk, d.outbound, false, d));
            Relaying(t) && Orphaned(Step(t, FromLeg(Hop(0), Fail(NoData), false, d)))
  {
    var first := FromLeg(Trunk, d.outbound, false, d);
    StepRelaying(s, first);
    StepConsistent(s, first);
    RelayDecisionStartsTheWatch(s, d);
    assert Step(s, first) == Decide(s, d) && Decide(s, d).failoverHops == d.nextHops[1..];
    OrphanedAfterStepIff(Step(s, first), FromLeg(Hop(0), Fail(NoData), false, d));
  }

  /** Any list of two hops or more, the first failing at once: `dispose()` leaves its timer armed. */
  lemma DisposeCanLeaveATimer(trunkPeer: string, d: PolicyDecision)
    requires d.Relay? && d.Valid() && |d.nextHops| > 1
    ensures var ins := [FromLeg(Trunk, d.outbound, false, d), FromLeg(Hop(0), Fail(NoData), false, d)];
            ValidInputs(ins) && SomeArmed(Disposed(Run(Start(trunkPeer, map[]), ins)))
  {
    var first, second := FromLeg(Trunk, d.outbound, false, d), FromLeg(Hop(0), Fail(NoData), false, d);
    var s := Start(trunkPeer, map[]);
    StartConsistent(trunkPeer, map[]);
    FirstFailureOrphans(s, d);
    RunOfTwo(s, first, second);
    var t := Step(Step(s, first), second);
    assert Reached(t, trunkPeer, map[], [first, second]);
    DisposeIsCompleteIff(t, trunkPeer, map[], [first, second]);
  }

  // --- cancelling before originating --------------------------------------

  /** Absorb a failure, cancelling the old timer before the new one is started. */
  function AbsorbRepaired(s: CallState, e: Event): CallState
    requires s.pending.Some? && s.pending.value.Try? && s.failoverHops != []
  {
    var moved := Failover(Cancel(s));
    moved.(trace := moved.trace + [FailoverLine(moved, e)])
  }

  /** The same callback as `Step`, with failures absorbed that way. */
  function StepRepaired(s: CallState, i: Input): CallState
    requires Relaying(s) && i.Valid()
  {
    if i.FromLeg? && i.leg.Hop? && s.uaO == Some(i.leg.attempt)
       && i.event.Terminal() && !i.connected && s.failoverHops != [] then
      AbsorbRepaired(s, i.event)
    else
      Step(s, i)
  }

  lemma StepRepairedRelaying(s: CallState, i: Input)
    requires Relaying(s) && i.Valid()
    ensures Relaying(StepRepaired(s, i))
  {
    StepRelaying(s, i);
  }

  function RunRepaired(s: CallState, ins: seq<Input>): (r: CallState)
    requires Relaying(s) && ValidInputs(ins)
    ensures Relaying(r)
  {
    if ins == [] then s
    else
      assert ValidInputs(ins[..|ins| - 1]);
      StepRepairedRelaying(RunRepaired(s, ins[..|ins| - 1]), ins[|ins| - 1]);
      StepRepaired(RunRepaired(s, ins[..|ins| - 1]), ins[|ins| - 1])
  }

  /** The live attempt's timer is the only one that can be armed, and it is the one referred to. */
  ghost predicate Watched(s: CallState) {
    && |s.timers| == |s.attempts|
    && (s.uaO.Some? ==> s.uaO.value == |s.attempts| - 1)
    && (s.timer.Some? ==> s.timer.value == |s.timers| - 1)
    && forall i :: 0 <= i < |s.timers| && s.timers[i] ==> s.timer == Some(i)
  }

  lemma AbsorbRepairedWatched(s: CallState, e: Event)
    requires Watched(s) && s.pending.Some? && s.pending.value.Try? && s.failoverHops != []
    ensures var t := AbsorbRepaired(s, e);
            && Watched(t) && |t.timers| == |s.timers| + 1
            && t.timer == Some(|s.timers|) && t.timers[|s.timers|]
  {
    assert Watched(Cancel(s)) && Cancel(s).timer.None?;
  }

  lemma RelayWatched(s: CallState, e: Event, connected: bool)
    requires Watched(s)
    ensures Watched(RelayToTrunk(s, e, connected))
  {
    RelayTimes(s, e, connected);
    assert Watched(Cancel(s));
  }

  lemma DecideWatched(s: CallState, d: PolicyDecision)
    requires Watched(s) && s.attempts == [] && d.Valid()
    ensures Watched(Decide(s, d))
  {
  }

  lemma StepRepairedWatched(s: CallState, i: Input)
    requires Watched(s) && (s.uaO.None? ==> s.attempts == []) && Relaying(s) && i.Valid()
    ensures Watched(StepRepaired(s, i))
  {
    match i
    case FromLeg(Trunk, e, _, d) =>
      if s.uaO.None? && e.Try? {
        DecideWatched(s, d);
      }
    case FromLeg(Hop(k), e, connected, _) =>
      if s.uaO == Some(k) {
        if e.Terminal() && !connected && s.failoverHops != [] {
          AbsorbRepairedWatched(s, e);
        } else {
          RelayWatched(if e.Answer() then Cancel(s) else s, e, connected);
        }
      }
    case NoAnswer(_, _) =>
  }

  /** Everything a call does but keep time. */
  function Timeless(s: CallState): CallState {
    s.(timer := None, timers := [], tornDown := [])
  }

  lemma RepairIsInvisibleStep(s: CallState, t: CallState, i: Input)
    requires Relaying(s) && Relaying(t) && i.Valid() && Timeless(s) == Timeless(t)
    ensures Timeless(Step(s, i)) == Timeless(StepRepaired(t, i))
  {
    match i
    case FromLeg(Trunk, e, _, d) =>
      TrunkTimeless(s, e, d);
      TrunkTimeless(t, e, d);
    case FromLeg(Hop(k), e, connected, _) =>
      assert s.uaO == Timeless(s).uaO == t.uaO;
      if s.uaO == Some(k) {
        NextHopTimeless(s, t, k, e, connected);
      }
    case NoAnswer(_, _) =>
  }

  lemma NextHopTimeless(s: CallState, t: CallState, k: nat, e: Event, connected: bool)
    requires Relaying(s) && Relaying(t) && Timeless(s) == Timeless(t) && s.uaO == Some(k) == t.uaO
    ensures Timeless(FromNextHop(s, e, connected)) ==
            Timeless(if e.Terminal() && !connected && t.failoverHops != [] then AbsorbRepaired(t, e)
                     else FromNextHop(t, e, connected))
  {
    assert s.failoverHops == Timeless(s).failoverHops == t.failoverHops;
    if e.Terminal() && !connected && s.failoverHops != [] {
      AbsorbTimeless(s, e);
      AbsorbTimeless(t, e);
      assert !e.Answer();
    } else {
      RelayedTimeless(s, e, connected);
      RelayedTimeless(t, e, connected);
    }
  }

  lemma RelayedTimeless(s: CallState, e: Event, connected: bool)
    requires Relaying(s) && s.uaO.Some? && !(e.Terminal() && !connected && s.failoverHops != [])
    ensures Timeless(FromNextHop(s, e, connected)) == Timeless(RelayToTrunk(Timeless(s), e, connected))
  {
    RelayTimeless(s, e, connected);
  }

  lemma TrunkTimeless(s: CallState, e: Event, d: PolicyDecision)
    requires d.Valid()
    ensures Timeless(FromTrunk(s, e, d)) == Timeless(FromTrunk(Timeless(s), e, d))
  {
  }

  lemma AbsorbTimeless(s: CallState, e: Event)
    requires s.pending.Some? && s.pending.value.Try? && s.failoverHops != []
    ensures Timeless(Absorb(s, e)) == Timeless(Absorb(Timeless(s), e)) == Timeless(AbsorbRepaired(s, e))
  {
    assert Timeless(Failover(Cancel(s))) == Timeless(Failover(s));
  }

  lemma RelayTimeless(s: CallState, e: Event, connected: bool)
    ensures Timeless(RelayToTrunk(s, e, connected)) == Timeless(RelayToTrunk(Timeless(s), e, connected))
    ensures Timeless(RelayToTrunk(Cancel(s), e, connected)) == Timeless(RelayToTrunk(s, e, connected))
  {
  }

  /** The repair changes when timers run and nothing else the call does. */
  lemma {:induction false} RepairChangesOnlyTimers(s: CallState, ins: seq<Input>)
    requires Relaying(s) && ValidInputs(ins)
    ensures Timeless(Run(s, ins)) == Timeless(RunRepaired(s, ins))
  {
    if ins != [] {
      RepairChangesOnlyTimers(s, ins[..|ins| - 1]);
      RepairIsInvisibleStep(Run(s, ins[..|ins| - 1]), RunRepaired(s, ins[..|ins| - 1]), ins[|ins| - 1]);
    }
  }

  /** No attempt yet, or the live one, watched or not, with `spare` hops left. */
  datatype Vigil = Nobody | On(leg: nat, spare: nat) | Off(leg: nat, spare: nat)

  /** The watch the repair promises: every attempt, until it fires, is answered or its end is relayed. */
  function VigilNext(v: Vigil, i: Input): Vigil {
    if v.Nobody? then
      if i.FromLeg? && i.leg.Trunk? && i.event.Try? && i.decision.Relay? && i.decision.nextHops != [] then
        On(0, |i.decision.nextHops| - 1)
      else v
    else if i.NoAnswer? then if i.timer == v.leg then Off(v.leg, v.spare) else v
    else if i.leg != Hop(v.leg) then v
    else if (i.event.Fail? || i.event.Disconnect?) && !i.connected && v.spare > 0 then On(v.leg + 1, v.spare - 1)
    else if i.event.Ring? || i.event.Connect? || i.event.Fail? || i.event.Disconnect? then Off(v.leg, v.spare)
    else v
  }

  function VigilAfter(ins: seq<Input>): Vigil {
    if ins == [] then Nobody else VigilNext(VigilAfter(ins[..|ins| - 1]), ins[|ins| - 1])
  }

  ghost function VigilOf(s: CallState): Vigil
    requires Watched(s)
  {
    if s.attempts == [] || s.uaO.None? then Nobody
    else if s.timers[s.uaO.value] then On(s.uaO.value, |s.failoverHops|)
    else Off(s.uaO.value, |s.failoverHops|)
  }

  lemma VigilNextHop(s: CallState, e: Event, connected: bool, d: PolicyDecision)
    requires Watched(s) && Relaying(s) && s.uaO.Some? && s.attempts != [] && d.Valid()
    ensures var i := FromLeg(Hop(s.uaO.value), e, connected, d);
            Watched(StepRepaired(s, i)) && VigilOf(StepRepaired(s, i)) == VigilNext(VigilOf(s), i)
  {
    var i := FromLeg(Hop(s.uaO.value), e, connected, d);
    StepRepairedWatched(s, i);
    if e.Terminal() && !connected && s.failoverHops != [] {
      AbsorbRepairedWatched(s, e);
      AbsorbRepairedGoesOn(s, e);
    } else {
      HeardTimes(s, e, connected);
    }
  }

  lemma AbsorbRepairedGoesOn(s: CallState, e: Event)
    requires s.pending.Some? && s.pending.value.Try? && s.failoverHops != []
    ensures var t := AbsorbRepaired(s, e);
            && t.uaO == Some(|s.attempts|) && |t.attempts| == |s.attempts| + 1
            && |t.failoverHops| == |s.failoverHops| - 1
  {
  }

  lemma VigilStep(s: CallState, i: Input)
    requires Watched(s) && (s.uaO.None? <==> s.attempts == []) && Relaying(s) && i.Valid()
    ensures Watched(StepRepaired(s, i)) && VigilOf(StepRepaired(s, i)) == VigilNext(VigilOf(s), i)
  {
    StepRepairedWatched(s, i);
    match i
    case FromLeg(Trunk, _, _, _) =>
    case FromLeg(Hop(k), e, connected, d) =>
      if s.uaO == Some(k) {
        VigilNextHop(s, e, connected, d);
      }
    case NoAnswer(_, _) =>
  }

  /**
   Repaired, the live attempt of any run is watched until its timer fires, it is answered or
   its end is relayed, no other timer is armed, and none outlives `dispose()`.
   */
  lemma {:induction false} RepairedRunIsWatched(trunkPeer: string, fields: Fields, ins: seq<Input>)
    requires ValidInputs(ins)
    ensures var s := RunRepaired(Start(trunkPeer, fields), ins);
            && Watched(s) && !SomeArmed(Disposed(s))
            && VigilOf(s) == VigilAfter(ins)
  {
    if ins != [] {
      var before := ins[..|ins| - 1];
      var s, t := Run(Start(trunkPeer, fields), before), RunRepaired(Start(trunkPeer, fields), before);
      RepairedRunIsWatched(trunkPeer, fields, before);
      ReachedIsConsistent(s, trunkPeer, fields, before);
      RepairChangesOnlyTimers(Start(trunkPeer, fields), before);
      assert s.uaO == Timeless(s).uaO == t.uaO && s.attempts == Timeless(s).attempts == t.attempts;
      VigilStep(t, ins[|ins| - 1]);
    }
  }

  /** The timer of attempt `n` is armed exactly when the inputs say it is being watched. */
  lemma AttemptIsWatchedIff(trunkPeer: string, fields: Fields, ins: seq<Input>, n: nat)
    requires ValidInputs(ins)
    ensures var s := RunRepaired(Start(trunkPeer, fields), ins);
            && (n < |s.timers| && s.timers[n] <==> VigilAfter(ins).On? && VigilAfter(ins).leg == n)
            && (VigilAfter(ins).On? ==> VigilAfter(ins).leg == |s.attempts| - 1 && s.uaO == Some(VigilAfter(ins).leg))
  {
    var s, r := RunRepaired(Start(trunkPeer, fields), ins), Run(Start(trunkPeer, fields), ins);
    RepairedRunIsWatched(trunkPeer, fields, ins);
    ReachedIsConsistent(r, trunkPeer, fields, ins);
    RepairChangesOnlyTimers(Start(trunkPeer, fields), ins);
    assert r.uaO == Timeless(r).uaO == s.uaO && r.attempts == Timeless(r).attempts == s.attempts;
  }
}
