/**
 What holds of a call in every state any run can reach, whatever the two legs, the timers and
 the application do and in whatever order they do it.
 */
module CallRuns {
  import opened Wrappers
  import opened Metrics
  import opened CallTypes
  import opened CallSpec

  function Hops(attempts: seq<Attempt>): (hops: seq<NextHop>)
    ensures |hops| == |attempts| && forall i :: 0 <= i < |hops| ==> hops[i] == attempts[i].hop
  {
    seq(|attempts|, i requires 0 <= i < |attempts| => attempts[i].hop)
  }

  ghost predicate RelayDecided(s: CallState) {
    s.policy.Some? && s.policy.value.Relay?
  }

  /** Before a relay decision the call has one leg only. */
  ghost predicate OneLeg(s: CallState) {
    && s.uaO.None? && s.serving.None? && s.pending.None? && s.timer.None?
    && s.failoverHops == [] && s.attempts == [] && s.toNextHop == [] && s.tornDown == [] && s.timers == []
  }

  /** After one, the hops already tried and the hops left are the decision's list, in order. */
  ghost predicate Walk(s: CallState)
    requires RelayDecided(s)
  {
    var d := s.policy.value;
    && d.Valid()
    && s.pending == Some(d.outbound)
    && |s.attempts| > 0
    && Hops(s.attempts) + s.failoverHops == d.nextHops
    && s.serving == Some(s.attempts[|s.attempts| - 1].hop)
    && s.uaO == Some(|s.attempts| - 1)
  }

  ghost predicate SameVocabulary(s: CallState)
    requires RelayDecided(s)
  {
    var d := s.policy.value;
    && d.outbound.Try?
    && forall i :: 0 <= i < |s.attempts| ==>
         s.attempts[i] == Attempt(s.attempts[i].hop, d.logMessage,
                                  WithAttemptFields(d.attributes, s.attempts[i].hop, d.outbound.called),
                                  WithAttemptFields(d.logFields, s.attempts[i].hop, d.outbound.called))
  }

  /**
   Each next-hop leg is spoken to in its turn and starts with the INVITE: once a leg has been
   replaced it is never spoken to again.
   */
  ghost predicate Conversations(s: CallState)
    requires RelayDecided(s)
  {
    var sent := s.toNextHop;
    && sent != []
    && sent[0] == Sent(0, s.policy.value.outbound)
    && sent[|sent| - 1].leg == |s.attempts| - 1
    && forall i :: 0 < i < |sent| ==>
         || sent[i].leg == sent[i - 1].leg
         || sent[i] == Sent(sent[i - 1].leg + 1, s.policy.value.outbound)
  }

  /** One timer per attempt; only the first can be armed, and only it is ever referred to. */
  ghost predicate TimersBounded(s: CallState) {
    && |s.timers| == |s.attempts|
    && (forall i :: 0 < i < |s.timers| ==> !s.timers[i])
    && (s.timer.Some? ==> s.timer.value == 0 && |s.timers| == 1)
    && (s.timer.None? && |s.timers| == 1 ==> !s.timers[0])
  }

  /** The status the registry shows for a key once the call's own writes are in. */
  function Shown(s: CallState): map<string, PeerStatus> {
    WriteAll(map[], s.statuses)
  }

  ghost predicate StatusesTruthful(s: CallState) {
    && TrunkStatusKey(s.trunkPeer) in Shown(s) && Shown(s)[TrunkStatusKey(s.trunkPeer)] == Reachable
    && forall i :: 0 <= i < |s.attempts| ==>
         var key := PeerStatusKey(s.attempts[i].hop);
         && key in Shown(s)
         && s.serving.Some?
         && Shown(s)[key] == if key == PeerStatusKey(s.serving.value) then Reachable else Unreachable
  }

  ghost predicate Consistent(s: CallState) {
    && (if RelayDecided(s) then Walk(s) && SameVocabulary(s) && Conversations(s) else OneLeg(s))
    && TimersBounded(s)
    && StatusesTruthful(s)
  }

  lemma StartConsistent(trunkPeer: string, fields: Fields)
    ensures Consistent(Start(trunkPeer, fields)) && Relaying(Start(trunkPeer, fields))
  {
    var s := Start(trunkPeer, fields);
    assert s.statuses[..0] == [];
  }

  lemma ShownAfter(s: CallState, w: StatusWrite)
    ensures WriteAll(map[], s.statuses + [w]) == Shown(s)[w.peer := w.status]
  {
    assert (s.statuses + [w])[..|s.statuses|] == s.statuses;
  }

  /** What the walk, the vocabulary, the conversations and the statuses depend on. */
  function Core(s: CallState): CallState {
    s.(timer := None, timers := [], tornDown := [], toTrunk := [], dispositions := [], trace := [])
  }

  lemma SilentParts(s: CallState, t: CallState)
    requires RelayDecided(s) && Core(s) == Core(t)
    requires Walk(s) && SameVocabulary(s) && Conversations(s) && StatusesTruthful(s)
    ensures RelayDecided(t) && Walk(t) && SameVocabulary(t) && Conversations(t) && StatusesTruthful(t)
  {
    assert s.policy == Core(s).policy == t.policy;
    assert Shown(s) == WriteAll(map[], Core(s).statuses) == Shown(t);
    assert s.attempts == Core(s).attempts == t.attempts;
    assert s.toNextHop == Core(s).toNextHop == t.toNextHop;
  }

  /** Neither the trunk leg, nor the dispositions, nor the trace feed back into the call. */
  lemma SilentConsistent(s: CallState, t: CallState)
    requires Consistent(s) && Core(s) == Core(t)
    requires s.timer == t.timer && s.timers == t.timers && s.tornDown == t.tornDown
    ensures Consistent(t)
  {
    assert s.policy == Core(s).policy == t.policy;
    if RelayDecided(s) {
      SilentParts(s, t);
    } else {
      assert Shown(s) == WriteAll(map[], Core(s).statuses) == Shown(t);
      assert s.attempts == Core(s).attempts == t.attempts;
      assert s.trunkPeer == Core(s).trunkPeer == t.trunkPeer;
      assert OneLeg(t);
    }
  }

  /** A relay decision has been taken and `hop` is the next one of its list to try. */
  ghost predicate Due(s: CallState, hop: NextHop) {
    && RelayDecided(s) && s.policy.value.Valid() && s.pending == Some(s.policy.value.outbound)
    && Hops(s.attempts) + [hop] + s.failoverHops == s.policy.value.nextHops
  }

  lemma OriginateWalk(s: CallState, hop: NextHop)
    requires Due(s, hop)
    ensures Walk(Originate(s, hop))
  {
    assert Hops(Originate(s, hop).attempts) == Hops(s.attempts) + [hop];
  }

  lemma OriginateConversations(s: CallState, hop: NextHop)
    requires Due(s, hop) && if s.attempts == [] then s.toNextHop == [] else Conversations(s)
    ensures Conversations(Originate(s, hop))
  {
    var before, after := s.toNextHop, Originate(s, hop).toNextHop;
    assert forall i :: 0 <= i < |before| ==> after[i] == before[i];
  }

  lemma OriginateStatuses(s: CallState, hop: NextHop)
    requires Due(s, hop)
    requires TrunkStatusKey(s.trunkPeer) in Shown(s) && Shown(s)[TrunkStatusKey(s.trunkPeer)] == Reachable
    requires forall i :: 0 <= i < |s.attempts| ==>
               var key := PeerStatusKey(s.attempts[i].hop);
               key in Shown(s) && (key == PeerStatusKey(hop) || Shown(s)[key] == Unreachable)
    ensures StatusesTruthful(Originate(s, hop))
  {
    ShownAfter(s, StatusWrite(PeerStatusKey(hop), Reachable));
    TrunkKeyIsNoHopKey(s.trunkPeer, hop);
  }

  lemma DecideConsistent(s: CallState, d: PolicyDecision)
    requires Consistent(s) && OneLeg(s) && d.Valid()
    ensures Consistent(Decide(s, d))
  {
    if d.Relay? {
      var hop := d.nextHops[0];
      var t := s.(policy := Some(d), pending := Some(d.outbound), failoverHops := d.nextHops[1..]);
      assert Hops(t.attempts) + [hop] + t.failoverHops == d.nextHops;
      OriginateWalk(t, hop);
      OriginateConversations(t, hop);
      OriginateStatuses(t, hop);
    }
  }

  lemma FailoverConsistent(s: CallState)
    requires Consistent(s) && RelayDecided(s) && s.failoverHops != []
    ensures var t := Failover(s);
            && Walk(t) && SameVocabulary(t) && Conversations(t) && StatusesTruthful(t)
            && t.policy == s.policy && t.timers == s.timers + [true] && t.timer == Some(|s.timers|)
  {
    var blamed := StatusWrite(PeerStatusKey(s.serving.value), Unreachable);
    var t := s.(statuses := s.statuses + [blamed], failoverHops := s.failoverHops[1..], uaO := None);
    var hop := s.failoverHops[0];
    assert Hops(t.attempts) + [hop] + t.failoverHops == s.policy.value.nextHops;
    ShownAfter(s, blamed);
    TrunkKeyIsNoHopKey(s.trunkPeer, s.serving.value);
    OriginateWalk(t, hop);
    OriginateConversations(t, hop);
    OriginateStatuses(t, hop);
  }

  lemma AbsorbConsistent(s: CallState, e: Event)
    requires Consistent(s) && RelayDecided(s) && s.failoverHops != []
    ensures Consistent(Absorb(s, e))
  {
    FailoverConsistent(s);
    var t := Failover(s);
    assert Cancel(t).timers == s.timers + [false];
    SilentParts(t, Absorb(s, e));
  }

  lemma CancelConsistent(s: CallState)
    requires Consistent(s)
    ensures Consistent(Cancel(s))
  {
  }

  lemma RelayIsSilent(s: CallState, e: Event, connected: bool)
    ensures var t, u := RelayToTrunk(s, e, connected), if e.Terminal() then Cancel(s) else s;
            && Core(u) == Core(t)
            && u.timer == t.timer && u.timers == t.timers && u.tornDown == t.tornDown
  {
  }

  lemma RelayConsistent(s: CallState, e: Event, connected: bool)
    requires Consistent(s)
    ensures Consistent(RelayToTrunk(s, e, connected))
  {
    CancelConsistent(s);
    RelayIsSilent(s, e, connected);
    SilentConsistent(if e.Terminal() then Cancel(s) else s, RelayToTrunk(s, e, connected));
  }

  lemma NextHopConsistent(s: CallState, e: Event, connected: bool)
    requires Consistent(s) && Relaying(s) && s.uaO.Some?
    ensures Consistent(FromNextHop(s, e, connected))
  {
    var heard := if e.Answer() then Cancel(s) else s;
    CancelConsistent(s);
    if e.Terminal() && !connected && heard.failoverHops != [] {
      AbsorbConsistent(heard, e);
    } else {
      RelayConsistent(heard, e, connected);
    }
  }

  lemma StepConsistent(s: CallState, i: Input)
    requires Consistent(s) && Relaying(s) && i.Valid()
    ensures Consistent(Step(s, i))
  {
    match i
    case FromLeg(Trunk, e, _, d) =>
      if s.uaO.None? && e.Try? {
        DecideConsistent(s, d);
      }
    case FromLeg(Hop(k), e, connected, _) =>
      if s.uaO == Some(k) {
        NextHopConsistent(s, e, connected);
      }
    case NoAnswer(_, _) =>
  }

  /** Every state of every run is covered by what follows. */
  lemma {:induction false} RunConsistent(s: CallState, ins: seq<Input>)
    requires Consistent(s) && Relaying(s) && ValidInputs(ins)
    ensures Consistent(Run(s, ins))
  {
    if ins != [] {
      RunConsistent(s, ins[..|ins| - 1]);
      StepConsistent(Run(s, ins[..|ins| - 1]), ins[|ins| - 1]);
    }
  }
}
