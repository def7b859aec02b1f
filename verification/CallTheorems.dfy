/** The promises of the controller shell, over every run of one call. */
module CallTheorems {
  import opened Wrappers
  import opened Text
  import opened Metrics
  import opened CallTypes
  import opened CallSpec
  import opened CallRuns

  /** A state some run from a fresh call ends in. */
  ghost predicate Reached(s: CallState, trunkPeer: string, fields: Fields, ins: seq<Input>) {
    ValidInputs(ins) && s == Run(Start(trunkPeer, fields), ins)
  }

  lemma ReachedIsConsistent(s: CallState, trunkPeer: string, fields: Fields, ins: seq<Input>)
    requires Reached(s, trunkPeer, fields, ins)
    ensures Consistent(s) && Relaying(s)
  {
    StartConsistent(trunkPeer, fields);
    RunConsistent(Start(trunkPeer, fields), ins);
  }

  // --- the failover walk --------------------------------------------------

  /**
   The hops INVITEd are the decision's own, in its order and each at most once, and the rest
   is what is still to try; the last one INVITEd is serving, on a leg of its own, and no leg
   that has been replaced is spoken to again.
   */
  lemma FailoverWalk(s: CallState, trunkPeer: string, fields: Fields, ins: seq<Input>)
    requires Reached(s, trunkPeer, fields, ins) && RelayDecided(s)
    ensures s.policy.value.Relay? && 0 < |s.attempts| <= |s.policy.value.nextHops|
    ensures Hops(s.attempts) + s.failoverHops == s.policy.value.nextHops
    ensures s.serving == Some(s.policy.value.nextHops[|s.attempts| - 1])
    ensures s.uaO == Some(|s.attempts| - 1)
    ensures Conversations(s)
  {
    ReachedIsConsistent(s, trunkPeer, fields, ins);
  }

  /**
   A failure from a next-hop leg before the trunk is connected reaches the trunk exactly when
   that leg is the live one and every hop has been tried; otherwise the trunk hears nothing.
   */
  lemma FailureReachesTrunkOnlyAtTheEnd(s: CallState, trunkPeer: string, fields: Fields, ins: seq<Input>,
                                        k: nat, e: Event, d: PolicyDecision)
    requires Reached(s, trunkPeer, fields, ins) && RelayDecided(s)
    requires e.Terminal() && d.Valid()
    ensures s.policy.value.Relay? && 0 < |s.attempts| <= |s.policy.value.nextHops|
    ensures var t := Step(s, FromLeg(Hop(k), e, false, d));
            var live, hops := k == |s.attempts| - 1, s.policy.value.nextHops;
            && (t.toTrunk == s.toTrunk + [e] <==> live && |s.attempts| == |hops|)
            && (t.toTrunk == s.toTrunk <==> !live || |s.attempts| < |hops|)
            && (live && |s.attempts| < |hops| ==> Hops(t.attempts) == Hops(s.attempts) + [hops[|s.attempts|]])
            && (!live ==> t == s)
  {
    ReachedIsConsistent(s, trunkPeer, fields, ins);
    var hops := s.policy.value.nextHops;
    assert |hops| == |s.attempts| + |s.failoverHops|;
    if k == |s.attempts| - 1 {
      LiveFailure(s, k, e, d);
      if s.failoverHops != [] {
        assert s.failoverHops[0] == hops[|s.attempts|];
        AbsorbGoesOn(s, e);
      }
    }
    assert |s.toTrunk + [e]| == |s.toTrunk| + 1;
  }

  lemma LiveFailure(s: CallState, k: nat, e: Event, d: PolicyDecision)
    requires Relaying(s) && s.uaO == Some(k) && e.Terminal() && d.Valid()
    ensures var t := Step(s, FromLeg(Hop(k), e, false, d));
            if s.failoverHops != [] then t == Absorb(s, e) else t.toTrunk == s.toTrunk + [e]
  {
    assert !e.Answer();
  }

  lemma AbsorbGoesOn(s: CallState, e: Event)
    requires s.pending.Some? && s.pending.value.Try? && s.failoverHops != []
    ensures Hops(Absorb(s, e).attempts) == Hops(s.attempts) + [s.failoverHops[0]]
    ensures Absorb(s, e).toTrunk == s.toTrunk
  {
    var t := Absorb(s, e);
    assert |t.attempts| == |s.attempts| + 1 && t.attempts[..|s.attempts|] == s.attempts;
  }

  /** The `failed_hop` attribute names the hop moved to, so it is right only when the names agree. */
  lemma FailedHopNamesTheNewHop(s: CallState, e: Event)
    requires Consistent(s) && Relaying(s) && RelayDecided(s) && s.failoverHops != []
    ensures var t := Absorb(s, e);
            && t.trace != [] && "failed_hop" in t.trace[|t.trace| - 1].attributes
            && (t.trace[|t.trace| - 1].attributes["failed_hop"] == s.serving.value.name
                <==> s.failoverHops[0].name == s.serving.value.name)
  {
  }

  // --- one decision, one leg ----------------------------------------------

  lemma NextHopKeepsDecision(s: CallState, e: Event, connected: bool)
    requires Relaying(s) && s.uaO.Some?
    ensures var t := FromNextHop(s, e, connected);
            t.policy == s.policy && t.pending == s.pending && t.uaO.Some?
  {
    var heard := if e.Answer() then Cancel(s) else s;
    assert heard.policy == s.policy && heard.pending == s.pending && heard.uaO == s.uaO;
  }

  lemma StepKeepsDecision(s: CallState, i: Input)
    requires Consistent(s) && Relaying(s) && RelayDecided(s) && i.Valid()
    ensures Step(s, i).policy == s.policy && Step(s, i).pending == s.pending && Step(s, i).uaO.Some?
  {
    if i.FromLeg? && i.leg.Hop? && s.uaO == Some(i.leg.attempt) {
      NextHopKeepsDecision(s, i.event, i.connected);
    }
  }

  /** Once a relay decision is applied, it, its INVITE and having a next-hop leg are settled for good. */
  lemma {:induction false} RelayDecisionIsFinal(s: CallState, ins: seq<Input>)
    requires Consistent(s) && Relaying(s) && RelayDecided(s) && ValidInputs(ins)
    ensures Run(s, ins).policy == s.policy && Run(s, ins).pending == s.pending && Run(s, ins).uaO.Some?
  {
    if ins != [] {
      RelayDecisionIsFinal(s, ins[..|ins| - 1]);
      RunConsistent(s, ins[..|ins| - 1]);
      StepKeepsDecision(Run(s, ins[..|ins| - 1]), ins[|ins| - 1]);
    }
  }

  ghost predicate OnlyRejects(ins: seq<Input>) {
    forall i :: 0 <= i < |ins| && ins[i].FromLeg? ==> ins[i].decision.Reject?
  }

  /** What a UAS-only call answers: a decision's status to a Try, a release to anything else. */
  function Answered(i: Input): seq<Event> {
    if i.NoAnswer? || i.leg.Hop? then []
    else if i.event.Try? && i.decision.Reject? then
      [Fail(Data(Decimal(i.decision.error.sipStatus), i.decision.error.sipPhrase))]
    else [Disconnect]
  }

  function Answers(ins: seq<Input>): seq<Event> {
    if ins == [] then [] else Answers(ins[..|ins| - 1]) + Answered(ins[|ins| - 1])
  }

  /** A call that is only ever rejected keeps one leg: no hop hears of it, every answer goes to the trunk. */
  lemma {:induction false} RejectedCallHasOneLeg(trunkPeer: string, fields: Fields, ins: seq<Input>)
    requires ValidInputs(ins) && OnlyRejects(ins)
    ensures var s := Run(Start(trunkPeer, fields), ins);
            && OneLeg(s)
            && s.statuses == Start(trunkPeer, fields).statuses
            && s.toTrunk == Answers(ins)
  {
    if ins != [] {
      var before := ins[..|ins| - 1];
      assert OnlyRejects(before);
      RejectedCallHasOneLeg(trunkPeer, fields, before);
      var s, i := Run(Start(trunkPeer, fields), before), ins[|ins| - 1];
      assert Run(Start(trunkPeer, fields), ins) == Step(s, i);
      assert i.FromLeg? ==> i.decision.Reject?;
      OneLegStays(s, i);
      assert Answers(ins) == Answers(before) + Answered(i);
    }
  }

  lemma OneLegStays(s: CallState, i: Input)
    requires OneLeg(s) && i.Valid() && (i.FromLeg? ==> i.decision.Reject?)
    ensures var t := Step(s, i);
            OneLeg(t) && t.statuses == s.statuses && t.toTrunk == s.toTrunk + Answered(i)
  {
  }

  // --- peers --------------------------------------------------------------

  /** The registry blames every hop tried but the one serving, whatever repeats or collides in the list. */
  lemma PeerStatusesAreTruthful(s: CallState, trunkPeer: string, fields: Fields, ins: seq<Input>, i: nat)
    requires Reached(s, trunkPeer, fields, ins) && i < |s.attempts|
    ensures var key := PeerStatusKey(s.attempts[i].hop);
            && s.serving.Some? && key in Shown(s)
            && (Shown(s)[key] == Reachable <==> key == PeerStatusKey(s.serving.value))
            && (Shown(s)[key] == Unreachable <==> key != PeerStatusKey(s.serving.value))
    ensures TrunkStatusKey(s.trunkPeer) in Shown(s) && Shown(s)[TrunkStatusKey(s.trunkPeer)] == Reachable
  {
    ReachedIsConsistent(s, trunkPeer, fields, ins);
  }

  // --- vocabulary ---------------------------------------------------------

  /** Two field sets that may differ in the hop they name and in nothing else. */
  ghost predicate SameButNextHop(a: Fields, b: Fields) {
    a.Keys == b.Keys && forall k :: k in a && k != "next_hop" ==> a[k] == b[k]
  }

  /**
   Every attempt of a call says what the application said, except for the hop it names and the
   number called: same message, same keys, same values.
   */
  lemma EveryAttemptSaysTheSame(s: CallState, trunkPeer: string, fields: Fields, ins: seq<Input>, i: nat, j: nat)
    requires Reached(s, trunkPeer, fields, ins) && RelayDecided(s)
    requires i < |s.attempts| && j < |s.attempts|
    ensures s.policy.value.Valid() && |s.attempts| <= |s.policy.value.nextHops|
    ensures var (a, d) := (s.attempts[i], s.policy.value);
            && a.hop == d.nextHops[i] && a.message == d.logMessage
            && AsGiven(a.attributes, d.attributes, d.nextHops[i], d.outbound.called)
            && AsGiven(a.logFields, d.logFields, d.nextHops[i], d.outbound.called)
    ensures SameButNextHop(s.attempts[i].attributes, s.attempts[j].attributes)
            && SameButNextHop(s.attempts[i].logFields, s.attempts[j].logFields)
  {
    AttemptSays(s, trunkPeer, fields, ins, i);
    AttemptSays(s, trunkPeer, fields, ins, j);
  }

  lemma AttemptSays(s: CallState, trunkPeer: string, fields: Fields, ins: seq<Input>, i: nat)
    requires Reached(s, trunkPeer, fields, ins) && RelayDecided(s) && i < |s.attempts|
    ensures s.policy.value.Valid() && |s.attempts| <= |s.policy.value.nextHops|
    ensures var (a, d) := (s.attempts[i], s.policy.value);
            && a.hop == d.nextHops[i] && a.message == d.logMessage
            && AsGiven(a.attributes, d.attributes, d.nextHops[i], d.outbound.called)
            && AsGiven(a.logFields, d.logFields, d.nextHops[i], d.outbound.called)
  {
    ReachedIsConsistent(s, trunkPeer, fields, ins);
    var d, a := s.policy.value, s.attempts[i];
    assert a.hop == (Hops(s.attempts) + s.failoverHops)[i];
    assert a == Attempt(a.hop, d.logMessage, WithAttemptFields(d.attributes, a.hop, d.outbound.called),
                        WithAttemptFields(d.logFields, a.hop, d.outbound.called));
    FieldsKept(d.attributes, a.hop, d.outbound.called);
    FieldsKept(d.logFields, a.hop, d.outbound.called);
  }
}
