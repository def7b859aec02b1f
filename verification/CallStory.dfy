/**
 A call told from its inputs alone: what the trunk leg hears, what the next-hop legs are told,
 who is blamed, what is traced and which leg a timer tears down, in every run. None of it looks
 at the controller's state, and the controller is proved to put out exactly this.
 */
module CallStory {
  import opened Wrappers
  import opened Text
  import opened Metrics
  import opened CallTypes
  import opened CallSpec
  import opened CallRuns
  import opened CallTheorems
  import opened CallTimers

  /** Nothing decided but rejects, or `d` being relayed, its hop number `leg` serving. */
  datatype Phase = Undecided | Relayed(d: PolicyDecision, leg: nat)

  /** The INVITE whose decision, a relay, starts the walk. */
  predicate Begins(ph: Phase, i: Input) {
    && ph.Undecided? && i.FromLeg? && i.leg.Trunk? && i.event.Try?
    && i.decision.Relay? && i.decision.nextHops != []
  }

  /** The serving leg fails before the trunk is connected, and a hop is left. */
  predicate FailsOver(ph: Phase, i: Input) {
    && ph.Relayed? && i.FromLeg? && i.leg == Hop(ph.leg)
    && (i.event.Fail? || i.event.Disconnect?) && !i.connected
    && ph.d.Relay? && ph.leg + 1 < |ph.d.nextHops|
  }

  /** Anything else the serving leg says. */
  predicate Says(ph: Phase, i: Input) {
    ph.Relayed? && i.FromLeg? && i.leg == Hop(ph.leg) && !FailsOver(ph, i)
  }

  predicate TrunkSays(ph: Phase, i: Input) {
    ph.Relayed? && i.FromLeg? && i.leg.Trunk?
  }

  /** The decision is a reject. */
  predicate Rejects(ph: Phase, i: Input) {
    ph.Undecided? && i.FromLeg? && i.leg.Trunk? && i.event.Try? && i.decision.Reject?
  }

  function NextPhase(ph: Phase, i: Input): Phase {
    if Begins(ph, i) then Relayed(i.decision, 0)
    else if FailsOver(ph, i) then ph.(leg := ph.leg + 1)
    else ph
  }

  function PhaseAfter(ins: seq<Input>): Phase {
    if ins == [] then Undecided else NextPhase(PhaseAfter(ins[..|ins| - 1]), ins[|ins| - 1])
  }

  // --- what one input puts out --------------------------------------------

  function HeardNow(ph: Phase, i: Input): seq<Event> {
    if Says(ph, i) then [i.event]
    else if Rejects(ph, i) then [Fail(Data(Decimal(i.decision.error.sipStatus), i.decision.error.sipPhrase))]
    else if ph.Undecided? && i.FromLeg? && i.leg.Trunk? && !i.event.Try? then [Disconnect]
    else []
  }

  function ToldNow(ph: Phase, i: Input): seq<Sent> {
    if Begins(ph, i) then [Sent(0, i.decision.outbound)]
    else if FailsOver(ph, i) then [Sent(ph.leg + 1, ph.d.outbound)]
    else if TrunkSays(ph, i) then [Sent(ph.leg, i.event)]
    else []
  }

  function BlamedNow(ph: Phase, i: Input): seq<StatusWrite> {
    if Begins(ph, i) then [StatusWrite(PeerStatusKey(i.decision.nextHops[0]), Reachable)]
    else if FailsOver(ph, i) && ph.leg < |ph.d.nextHops| then
      [StatusWrite(PeerStatusKey(ph.d.nextHops[ph.leg]), Unreachable),
       StatusWrite(PeerStatusKey(ph.d.nextHops[ph.leg + 1]), Reachable)]
    else []
  }

  /** A timer ends the leg serving at that moment, if it is still armed and the trunk not connected. */
  function TornNow(ph: Phase, w: Watch, i: Input): seq<nat> {
    if i.NoAnswer? && i.timer == 0 && (w.First? || w.Lost?) && !i.connected && ph.Relayed? then [ph.leg] else []
  }

  function InviteLine(d: PolicyDecision, n: nat): TraceLine
    requires d.Relay? && n < |d.nextHops| && d.outbound.Try?
  {
    var hop := d.nextHops[n];
    TraceLine(Outbound, "INVITE", d.logMessage, hop.address + ":" + Decimal(hop.port), None,
              map["leg" := "next_hop"] + WithAttemptFields(d.attributes, hop, d.outbound.called))
  }

  function HopLine(ph: Phase, verb: string, summary: string, attributes: Fields): TraceLine
    requires ph.Relayed? && ph.d.Relay? && ph.leg < |ph.d.nextHops|
  {
    var hop := ph.d.nextHops[ph.leg];
    TraceLine(Inbound, verb, summary, hop.address + ":" + Decimal(hop.port), None, map["leg" := "next_hop"] + attributes)
  }

  function RejectLine(trunkPeer: string, d: PolicyDecision): TraceLine
    requires d.Reject?
  {
    TraceLine(Outbound, Decimal(d.error.sipStatus), d.traceSummary, trunkPeer,
              if "rule_id" !in d.attributes || d.attributes["rule_id"] == "" then None else Some(d.attributes["rule_id"]),
              map["leg" := "trunk", "error_code" := d.error.code] + d.attributes)
  }

  function TracedNow(trunkPeer: string, ph: Phase, i: Input): seq<TraceLine>
    requires i.Valid() && (ph.Relayed? ==> ph.d.Relay? && ph.d.Valid() && ph.leg < |ph.d.nextHops|)
  {
    if i.NoAnswer? then []
    else
      var (verb, summary) := Describe(i.event);
      if Begins(ph, i) then [InviteLine(i.decision, 0)]
      else if Rejects(ph, i) then [RejectLine(trunkPeer, i.decision)]
      else if TrunkSays(ph, i) then
        [TraceLine(Inbound, verb, summary + " on the trunk leg", trunkPeer, None, map["leg" := "trunk"])]
      else if FailsOver(ph, i) then
        [InviteLine(ph.d, ph.leg + 1),
         HopLine(ph.(leg := ph.leg + 1), verb, summary + " on the next-hop leg; trying failover",
                 map["failed_hop" := ph.d.nextHops[ph.leg + 1].name])]
      else if Says(ph, i) then
        [HopLine(ph, verb, summary + " on the next-hop leg", map[])] +
        if (i.event.Ring? || i.event.Connect?) && verb != "ACK" then
          [TraceLine(Outbound, verb, summary + " relayed to the trunk leg", trunkPeer, None, map["leg" := "trunk"])]
        else []
      else []
  }

  // --- what a whole run puts out ------------------------------------------

  function Heard(ins: seq<Input>): seq<Event> {
    if ins == [] then []
    else Heard(ins[..|ins| - 1]) + HeardNow(PhaseAfter(ins[..|ins| - 1]), ins[|ins| - 1])
  }

  function Told(ins: seq<Input>): seq<Sent> {
    if ins == [] then []
    else Told(ins[..|ins| - 1]) + ToldNow(PhaseAfter(ins[..|ins| - 1]), ins[|ins| - 1])
  }

  function Blamed(ins: seq<Input>): seq<StatusWrite> {
    if ins == [] then []
    else Blamed(ins[..|ins| - 1]) + BlamedNow(PhaseAfter(ins[..|ins| - 1]), ins[|ins| - 1])
  }

  function Torn(ins: seq<Input>): seq<nat> {
    if ins == [] then []
    else
      Torn(ins[..|ins| - 1]) +
      TornNow(PhaseAfter(ins[..|ins| - 1]), WatchAfter(ins[..|ins| - 1]), ins[|ins| - 1])
  }

  ghost predicate SoundPhase(ph: Phase) {
    ph.Relayed? ==> ph.d.Relay? && ph.d.Valid() && ph.leg < |ph.d.nextHops|
  }

  lemma {:induction false} PhaseIsSound(ins: seq<Input>)
    requires ValidInputs(ins)
    ensures SoundPhase(PhaseAfter(ins))
  {
    if ins != [] {
      PhaseIsSound(ins[..|ins| - 1]);
      assert ins[|ins| - 1].Valid();
    }
  }

  function Traced(trunkPeer: string, ins: seq<Input>): seq<TraceLine>
    requires ValidInputs(ins)
  {
    if ins == [] then []
    else
      assert ValidInputs(ins[..|ins| - 1]);
      PhaseIsSound(ins[..|ins| - 1]);
      Traced(trunkPeer, ins[..|ins| - 1]) + TracedNow(trunkPeer, PhaseAfter(ins[..|ins| - 1]), ins[|ins| - 1])
  }

  // --- the controller tells it --------------------------------------------

  function PhaseOf(s: CallState): Phase {
    if s.uaO.Some? && s.policy.Some? then Relayed(s.policy.value, s.uaO.value) else Undecided
  }

  /** From `s` to `t` the call has put out just what the story says of `i`. */
  ghost predicate Tells(s: CallState, t: CallState, i: Input)
    requires i.Valid() && SoundPhase(PhaseOf(s)) && |s.timers| == |s.attempts|
  {
    var ph := PhaseOf(s);
    && PhaseOf(t) == NextPhase(ph, i)
    && t.toTrunk == s.toTrunk + HeardNow(ph, i)
    && t.toNextHop == s.toNextHop + ToldNow(ph, i)
    && t.statuses == s.statuses + BlamedNow(ph, i)
    && t.tornDown == s.tornDown + TornNow(ph, WatchOf(s), i)
    && t.trace == s.trace + TracedNow(s.trunkPeer, ph, i)
    && t.trunkPeer == s.trunkPeer
  }

  lemma SoundState(s: CallState)
    requires Consistent(s)
    ensures SoundPhase(PhaseOf(s)) && |s.timers| == |s.attempts|
    ensures RelayDecided(s) ==> PhaseOf(s) == Relayed(s.policy.value, |s.attempts| - 1)
    ensures !RelayDecided(s) ==> PhaseOf(s).Undecided?
    ensures s.toTrunk + [] == s.toTrunk && s.toNextHop + [] == s.toNextHop && s.statuses + [] == s.statuses
    ensures s.tornDown + [] == s.tornDown && s.trace + [] == s.trace
    ensures forall leg: Fields :: leg + map[] == leg
  {
    forall leg: Fields ensures leg + map[] == leg {
      assert (leg + map[]).Keys == leg.Keys;
    }
  }

  lemma WalkIndex(s: CallState)
    requires Consistent(s) && RelayDecided(s)
    ensures var d, n := s.policy.value, |s.attempts| - 1;
            && 0 <= n < |d.nextHops| && s.serving == Some(d.nextHops[n]) && |s.failoverHops| == |d.nextHops| - n - 1
            && (s.failoverHops != [] ==> s.failoverHops[0] == d.nextHops[n + 1])
            && s.pending == Some(d.outbound) && d.Valid()
  {
    var hops := Hops(s.attempts) + s.failoverHops;
    assert hops[|s.attempts| - 1] == s.attempts[|s.attempts| - 1].hop;
    if s.failoverHops != [] {
      assert hops[|s.attempts|] == s.failoverHops[0];
    }
  }

  lemma DecideTells(s: CallState, i: Input)
    requires Consistent(s) && Relaying(s) && i.Valid() && OneLeg(s)
    requires i.FromLeg? && i.leg.Trunk? && i.event.Try?
    ensures SoundPhase(PhaseOf(s)) && Tells(s, Decide(s, i.decision), i)
  {
  }

  lemma TrunkTells(s: CallState, i: Input)
    requires Consistent(s) && Relaying(s) && i.Valid() && i.FromLeg? && i.leg.Trunk?
    ensures SoundPhase(PhaseOf(s)) && |s.timers| == |s.attempts| && Tells(s, Step(s, i), i)
  {
    SoundState(s);
    if s.uaO.None? && i.event.Try? {
      DecideTells(s, i);
    } else if s.uaO.Some? {
      assert Step(s, i).trace == s.trace + TracedNow(s.trunkPeer, PhaseOf(s), i);
    }
  }

  lemma AbsorbTells(s: CallState, i: Input)
    requires Consistent(s) && Relaying(s) && i.Valid() && FailsOver(PhaseOf(s), i)
    ensures SoundPhase(PhaseOf(s)) && |s.timers| == |s.attempts| && Tells(s, Absorb(s, i.event), i)
  {
    SoundState(s);
    WalkIndex(s);
  }

  lemma RelayTells(s: CallState, i: Input)
    requires Consistent(s) && Relaying(s) && i.Valid() && Says(PhaseOf(s), i)
    ensures SoundPhase(PhaseOf(s)) && |s.timers| == |s.attempts|
    ensures Tells(s, RelayToTrunk(s, i.event, i.connected), i)
  {
    SoundState(s);
    WalkIndex(s);
    var t := RelayToTrunk(s, i.event, i.connected);
    var lines := TracedNow(s.trunkPeer, PhaseOf(s), i);
    if |lines| == 1 {
      assert t.trace == s.trace + lines;
    } else {
      assert lines == [lines[0]] + [lines[1]];
      assert t.trace == s.trace + [lines[0]] + [lines[1]];
    }
  }

  lemma FiredTells(s: CallState, i: Input)
    requires Consistent(s) && Relaying(s) && i.Valid() && i.NoAnswer?
    ensures SoundPhase(PhaseOf(s)) && |s.timers| == |s.attempts| && Tells(s, Step(s, i), i)
  {
    SoundState(s);
  }

  lemma NextHopTells(s: CallState, i: Input)
    requires Consistent(s) && Relaying(s) && i.Valid() && i.FromLeg? && i.leg.Hop?
    ensures SoundPhase(PhaseOf(s)) && |s.timers| == |s.attempts| && Tells(s, Step(s, i), i)
  {
    SoundState(s);
    if s.uaO == Some(i.leg.attempt) {
      WalkIndex(s);
      if FailsOver(PhaseOf(s), i) {
        AbsorbTells(s, i);
      } else if i.event.Answer() {
        CancelConsistent(s);
        RelayTells(Cancel(s), i);
      } else {
        RelayTells(s, i);
      }
    }
  }

  lemma StepTells(s: CallState, i: Input)
    requires Consistent(s) && Relaying(s) && i.Valid()
    ensures SoundPhase(PhaseOf(s)) && |s.timers| == |s.attempts| && Tells(s, Step(s, i), i)
  {
    match i
    case FromLeg(Trunk, _, _, _) => TrunkTells(s, i);
    case FromLeg(Hop(_), _, _, _) => NextHopTells(s, i);
    case NoAnswer(_, _) => FiredTells(s, i);
  }

  /** `s` is where the story of `ins` ends. */
  ghost predicate Ends(s: CallState, trunkPeer: string, fields: Fields, ins: seq<Input>)
    requires ValidInputs(ins)
  {
    && s.trunkPeer == trunkPeer
    && PhaseOf(s) == PhaseAfter(ins)
    && s.toTrunk == Heard(ins)
    && s.toNextHop == Told(ins)
    && s.statuses == [StatusWrite(trunkPeer + ":trunk", Reachable)] + Blamed(ins)
    && s.tornDown == Torn(ins)
    && s.trace ==
       [TraceLine(Inbound, "INVITE", "invite received from the trunk", trunkPeer, None, map["leg" := "trunk"] + fields)]
       + Traced(trunkPeer, ins)
  }

  lemma EndsStart(trunkPeer: string, fields: Fields)
    ensures Ends(Start(trunkPeer, fields), trunkPeer, fields, [])
  {
    var s := Start(trunkPeer, fields);
    assert TrunkStatusKey(trunkPeer) == trunkPeer + ":trunk";
    assert s.statuses + [] == s.statuses && s.trace + [] == s.trace;
  }

  lemma Longer<T>(a: seq<T>, b: seq<T>, c: seq<T>)
    ensures a + b + c == a + (b + c)
  {
  }

  lemma EndsSnoc(s: CallState, t: CallState, trunkPeer: string, fields: Fields, before: seq<Input>, ins: seq<Input>,
                 i: Input)
    requires ValidInputs(before) && ValidInputs(ins) && ins != [] && before == ins[..|ins| - 1] && i == ins[|ins| - 1]
    requires Ends(s, trunkPeer, fields, before)
    requires i.Valid() && SoundPhase(PhaseOf(s)) && |s.timers| == |s.attempts| && Tells(s, t, i)
    requires WatchOf(s) == WatchAfter(before)
    ensures Ends(t, trunkPeer, fields, ins)
  {
    Longer([StatusWrite(trunkPeer + ":trunk", Reachable)], Blamed(before), BlamedNow(PhaseOf(s), i));
    Longer([TraceLine(Inbound, "INVITE", "invite received from the trunk", trunkPeer, None,
                      map["leg" := "trunk"] + fields)],
           Traced(trunkPeer, before), TracedNow(trunkPeer, PhaseOf(s), i));
  }

  /**
   In every run the trunk leg hears, the next-hop legs are told, peers are blamed, legs are torn
   down and lines are traced as the inputs alone say, in this order and nothing besides.
   */
  lemma {:induction false} TheCallTellsItsStory(trunkPeer: string, fields: Fields, ins: seq<Input>)
    requires ValidInputs(ins)
    ensures Ends(Run(Start(trunkPeer, fields), ins), trunkPeer, fields, ins)
  {
    if ins == [] {
      EndsStart(trunkPeer, fields);
    } else {
      var before, i := ins[..|ins| - 1], ins[|ins| - 1];
      assert ValidInputs(before) && i.Valid();
      TheCallTellsItsStory(trunkPeer, fields, before);
      WatchRun(trunkPeer, fields, before);
      var s := Run(Start(trunkPeer, fields), before);
      ReachedIsConsistent(s, trunkPeer, fields, before);
      StepTells(s, i);
      EndsSnoc(s, Step(s, i), trunkPeer, fields, before, ins, i);
    }
  }

  /** Once more for the two things a caller notices: what it hears, and when it is hung up on. */
  lemma TheTrunkHears(trunkPeer: string, fields: Fields, ins: seq<Input>)
    requires ValidInputs(ins)
    ensures Run(Start(trunkPeer, fields), ins).toTrunk == Heard(ins)
    ensures Run(Start(trunkPeer, fields), ins).tornDown == Torn(ins)
  {
    TheCallTellsItsStory(trunkPeer, fields, ins);
  }
}
