/**
 `BaseCallController`: the object sippy calls back, field by field as the source updates it.
 Every callback is proved to be the matching step of the state machine in `CallSpec`, and to
 write exactly that step's outputs to the shared registry.
 */
module CallController {
  import opened Wrappers
  import opened Text
  import opened Metrics
  import opened Timers
  import opened CallTypes
  import opened CallSpec

  class BaseCallController {
    const metrics: MetricsRegistry
    var nextHop: Option<(string, nat)>
    var trunkPeer: string
    var uaA: Option<Leg>
    var uaO: Option<Leg>
    var policy: Option<PolicyDecision>
    var pendingEvent: Option<Event>
    var failoverHops: seq<NextHop>
    var servingHop: Option<NextHop>
    var noAnswerTimer: Timer?

    /** Gives each next-hop `UA` an identity of its own. */
    var legs: nat

    /** Every timer this call ever created, the ones no field refers to any more included. */
    ghost var timers: seq<Timer>

    /** The state machine's view of the call, outputs included. */
    ghost var state: CallState

    /** The plain fields are the state machine's, one for one. */
    ghost predicate Mirrors()
      reads this
    {
      && (uaA, trunkPeer, legs) == (Some(Trunk), state.trunkPeer, |state.attempts|)
      && uaO == (if state.uaO.None? then None else Some(Hop(state.uaO.value)))
      && (policy, pendingEvent, failoverHops, servingHop)
         == (state.policy, state.pending, state.failoverHops, state.serving)
      && (servingHop.Some? ==> nextHop == Some((servingHop.value.address, servingHop.value.port)))
      && Relaying(state)
    }

    /** The timers are the state machine's, and `noAnswerTimer` is the one it refers to. */
    ghost predicate TimersMirror()
      reads this, timers
    {
      && |timers| == |state.timers|
      && (forall i, j :: 0 <= i < j < |timers| ==> timers[i] != timers[j])
      && (forall i :: 0 <= i < |timers| ==> timers[i].armed == state.timers[i])
      && (if state.timer.None? then noAnswerTimer == null
          else state.timer.value < |timers| && noAnswerTimer == timers[state.timer.value])
    }

    ghost predicate Valid()
      reads this, timers
    {
      Mirrors() && TimersMirror()
    }

    /** What `modifies` cannot say: the timers created are new, and the old ones are kept. */
    twostate predicate TimersGrow()
      reads this
    {
      && old(timers) <= timers
      && forall i :: |old(timers)| <= i < |timers| ==> fresh(timers[i])
    }

    constructor (metrics: MetricsRegistry, nextHop: Option<(string, nat)>)
      ensures this.metrics == metrics && this.nextHop == nextHop
      ensures uaA == None && uaO == None && timers == [] && noAnswerTimer == null && legs == 0
      ensures policy == None && pendingEvent == None && failoverHops == [] && servingHop == None
    {
      this.metrics, this.nextHop := metrics, nextHop;
      trunkPeer := "-";
      uaA, uaO, policy, pendingEvent, servingHop := None, None, None, None, None;
      failoverHops, noAnswerTimer, legs, timers := [], null, 0, [];
      state := Start("-", map[]);
    }

    /** The trunk's INVITE opens the call: it is counted, and the leg that will answer it exists. */
    method RecvRequest(sourcePeer: string, inboundFields: Fields)
      requires uaA == None && uaO == None && timers == [] && noAnswerTimer == null && legs == 0
      requires policy == None && pendingEvent == None && failoverHops == [] && servingHop == None
      modifies this, metrics
      ensures Valid() && timers == []
      ensures state == Start(sourcePeer, inboundFields)
      ensures metrics.Value() == old(metrics.Value()).(
                callsTotal := old(metrics.callsTotal) + 1,
                peerStatus := WriteAll(old(metrics.peerStatus), state.statuses))
    {
      trunkPeer := sourcePeer;
      metrics.RecordCallStarted();
      metrics.SetPeerStatus(TrunkStatusKey(trunkPeer), Reachable);
      uaA := Some(Trunk);
      state := Start(sourcePeer, inboundFields);
    }

    /** Whatever a leg raises: the trunk's side, the live next hop's, or a replaced leg nobody listens to. */
    method RecvEvent(event: Event, ua: Leg, connected: bool, decision: PolicyDecision)
      requires Valid() && decision.Valid()
      modifies this, metrics, timers
      ensures Valid() && TimersGrow()
      ensures state == Step(old(state), FromLeg(ua, event, connected, decision))
      ensures Extends(old(state), state)
      ensures metrics.Value() == Report(old(metrics.Value()), old(state), state)
    {
      if Some(ua) == uaA {
        RelayFromTrunk(event, decision);
        return;
      }
      if Some(ua) != uaO {
        return;
      }
      RelayFromNextHop(event, connected);
    }

    method RelayFromTrunk(event: Event, decision: PolicyDecision)
      requires Valid() && decision.Valid()
      modifies this, metrics, timers
      ensures Valid() && TimersGrow()
      ensures state == FromTrunk(old(state), event, decision)
      ensures Extends(old(state), state)
      ensures metrics.Value() == Report(old(metrics.Value()), old(state), state)
    {
      var (verb, summary) := Describe(event);
      if uaO.None? {
        if !event.Try? {
          state := state.(toTrunk := state.toTrunk + [Disconnect]);
          return;
        }
        OriginateOutboundLeg(event, decision);
        return;
      }
      ghost var line := Line(Inbound, TRUNK_LEG, verb, summary + " on the trunk leg", trunkPeer, map[]);
      state := state.(trace := state.trace + [line],
                      toNextHop := state.toNextHop + [Sent(state.uaO.value, event)]);
    }

    method RelayFromNextHop(event: Event, connected: bool)
      requires Valid() && uaO.Some?
      modifies this, metrics, timers
      ensures Valid() && TimersGrow()
      ensures state == FromNextHop(old(state), event, connected)
      ensures Extends(old(state), state)
      ensures metrics.Value() == Report(old(metrics.Value()), old(state), state)
    {
      var (verb, summary) := Describe(event);
      if event.Answer() {
        CancelNoAnswerTimer();
      }
      var established := uaA.Some? && connected;
      var absorbed := false;
      if event.Terminal() && !established {
        absorbed := AbsorbFailure(event);
      }
      if !absorbed {
        RelayOn(event, verb, summary, connected);
      }
    }

    /** The failure of the serving hop turns into an attempt at the next one, if one is left. */
    method AbsorbFailure(event: Event) returns (absorbed: bool)
      requires Valid() && uaO.Some?
      modifies this, metrics, timers
      ensures Valid() && TimersGrow()
      ensures absorbed == (old(failoverHops) != [])
      ensures state == if absorbed then Absorb(old(state), event) else old(state)
      ensures Extends(old(state), state)
      ensures metrics.Value() == Report(old(metrics.Value()), old(state), state)
    {
      absorbed := TryFailover();
      if absorbed {
        CancelNoAnswerTimer();
        state := state.(trace := state.trace + [FailoverLine(state, event)]);
      }
    }

    /** Nothing is left to try, or nothing failed: the trunk leg is told. */
    method RelayOn(event: Event, verb: string, summary: string, connected: bool)
      requires Valid() && uaO.Some? && (verb, summary) == Describe(event)
      modifies this, metrics, noAnswerTimer
      ensures Valid() && timers == old(timers)
      ensures state == RelayToTrunk(old(state), event, connected)
      ensures Extends(old(state), state)
      ensures metrics.Value() == Report(old(metrics.Value()), old(state), state)
    {
      ghost var line := Line(Inbound, NEXT_HOP_LEG, verb, summary + " on the next-hop leg", PeerOf(servingHop), map[]);
      state := state.(trace := state.trace + [line]);
      if event.Terminal() {
        EndCall(event, connected);
      }
      TellTrunk(event, verb, summary);
    }

    /** The event goes to the answering leg; an answer makes that leg send a response of its own. */
    method TellTrunk(event: Event, verb: string, summary: string)
      requires Valid()
      modifies this`state
      ensures Valid() && uaO == old(uaO)
      ensures var told := Line(Outbound, TRUNK_LEG, verb, summary + " relayed to the trunk leg", trunkPeer, map[]);
              state == old(state).(
                toTrunk := old(state).toTrunk + [event],
                trace := old(state).trace + if event.Answer() && verb != "ACK" then [told] else [])
    {
      if uaA.Some? {
        state := state.(toTrunk := state.toTrunk + [event]);
      }
      if event.Answer() && verb != "ACK" {
        ghost var line := Line(Outbound, TRUNK_LEG, verb, summary + " relayed to the trunk leg", trunkPeer, map[]);
        state := state.(trace := state.trace + [line]);
      }
    }

    /** The next-hop leg has ended for good: stop watching it and count the outcome. */
    method EndCall(event: Event, connected: bool)
      requires Valid() && event.Terminal()
      modifies this, metrics, noAnswerTimer
      ensures Valid() && timers == old(timers) && uaO == old(uaO)
      ensures state == Cancel(old(state)).(dispositions := old(state).dispositions + [Outcome(event, connected)])
      ensures metrics.Value() == Report(old(metrics.Value()), old(state), state)
    {
      CancelNoAnswerTimer();
      RecordDisposition(event, connected);
    }

    /** False, and nothing done, once the hop list is used up. */
    method TryFailover() returns (retried: bool)
      requires Valid() && uaO.Some?
      modifies this, metrics
      ensures Valid() && TimersGrow()
      ensures retried == (old(failoverHops) != [])
      ensures state == if retried then Failover(old(state)) else old(state)
      ensures Extends(old(state), state)
      ensures metrics.Value() == Report(old(metrics.Value()), old(state), state)
    {
      if failoverHops == [] {
        return false;
      }
      var hop := GiveUpServing();
      label blamed:
      OriginateTowards(hop);
      ReportAppend(old(metrics.Value()), old(state), old@blamed(state), state);
      return true;
    }

    /** Blame the serving hop, drop its leg and take the next hop off the list. */
    method GiveUpServing() returns (hop: NextHop)
      requires Valid() && uaO.Some? && failoverHops != []
      modifies this, metrics
      ensures Valid() && timers == old(timers) && uaO.None? && pendingEvent == old(pendingEvent)
      ensures hop == old(failoverHops)[0]
      ensures var key := if old(servingHop).None? then NEXT_HOP_LEG else PeerStatusKey(old(servingHop).value);
              state == old(state).(statuses := old(state).statuses + [StatusWrite(key, Unreachable)],
                                   failoverHops := old(state).failoverHops[1..], uaO := None)
      ensures Extends(old(state), state)
      ensures metrics.Value() == Report(old(metrics.Value()), old(state), state)
    {
      var failed := servingHop;
      var key := if failed.None? then NEXT_HOP_LEG else PeerStatusKey(failed.value);
      metrics.SetPeerStatus(key, Unreachable);
      hop := failoverHops[0];
      failoverHops := failoverHops[1..];
      uaO := None;
      state := state.(statuses := state.statuses + [StatusWrite(key, Unreachable)],
                      failoverHops := failoverHops, uaO := None);
      assert state.statuses[|old(state).statuses|..] == [StatusWrite(key, Unreachable)];
    }

    /** Ask for the decision and remember it. */
    method ApplyCallPolicy(event: Event, decision: PolicyDecision) returns (applied: PolicyDecision)
      requires Valid()
      modifies this
      ensures Valid() && timers == old(timers)
      ensures applied == decision && state == old(state).(policy := Some(decision))
    {
      policy := Some(decision);
      state := state.(policy := Some(decision));
      return decision;
    }

    method OriginateOutboundLeg(event: Event, answer: PolicyDecision)
      requires Valid() && answer.Valid() && uaO.None?
      modifies this, metrics, timers
      ensures Valid() && TimersGrow()
      ensures state == Decide(old(state), answer)
      ensures Extends(old(state), state)
      ensures metrics.Value() == Report(old(metrics.Value()), old(state), state)
    {
      var decision := ApplyCallPolicy(event, answer);
      if !decision.Relay? {
        RejectOnTrunk(decision);
        return;
      }
      pendingEvent := Some(decision.outbound);
      failoverHops := decision.nextHops;
      var hop := failoverHops[0];
      failoverHops := failoverHops[1..];
      state := state.(pending := pendingEvent, failoverHops := failoverHops);
      OriginateTowards(hop);
    }

    /** One attempt: a leg and a timer of its own, and the INVITE kept for just this. */
    method OriginateTowards(hop: NextHop)
      requires Valid() && uaO.None? && pendingEvent.Some? && pendingEvent.value.Try?
      modifies this, metrics
      ensures Valid() && TimersGrow()
      ensures state == Originate(old(state), hop)
      ensures Extends(old(state), state)
      ensures metrics.Value() == Report(old(metrics.Value()), old(state), state)
    {
      var attempt := OpenLeg(hop);
      ArmNoAnswerTimer();
      metrics.SetPeerStatus(PeerStatusKey(hop), Reachable);
      ghost var line := Line(Outbound, NEXT_HOP_LEG, "INVITE", attempt.message, PeerOf(Some(hop)), attempt.attributes);
      state := state.(statuses := state.statuses + [StatusWrite(PeerStatusKey(hop), Reachable)],
                      trace := state.trace + [line],
                      toNextHop := state.toNextHop + [Sent(state.uaO.value, pendingEvent.value)]);
      assert state.statuses[|old(state.statuses)|..] == [StatusWrite(PeerStatusKey(hop), Reachable)];
    }

    /** The hop serves from now on, on a leg of its own. */
    method OpenLeg(hop: NextHop) returns (attempt: Attempt)
      requires Valid() && uaO.None? && pendingEvent.Some? && pendingEvent.value.Try?
      modifies this
      ensures Valid() && timers == old(timers) && pendingEvent == old(pendingEvent)
      ensures attempt == Vocabulary(old(policy), hop, pendingEvent.value.called)
      ensures state == old(state).(serving := Some(hop), uaO := Some(|old(state).attempts|),
                                   attempts := old(state).attempts + [attempt])
    {
      servingHop := Some(hop);
      nextHop := Some((hop.address, hop.port));
      uaO := Some(Hop(legs));
      legs := legs + 1;
      attempt := Vocabulary(policy, hop, pendingEvent.value.called);
      state := state.(serving := servingHop, uaO := Some(|state.attempts|), attempts := state.attempts + [attempt]);
    }

    /** Start a timer for the attempt being made; the reference to an earlier one is lost. */
    method ArmNoAnswerTimer()
      requires Valid()
      modifies this`noAnswerTimer, this`timers, this`state
      ensures Valid() && TimersGrow()
      ensures state == old(state).(timer := Some(|old(state).timers|), timers := old(state).timers + [true])
    {
      noAnswerTimer := new Timer();
      timers := timers + [noAnswerTimer];
      state := state.(timer := Some(|state.timers|), timers := state.timers + [true]);
    }

    /** The loop calls back for `timer`, the n-th one created: tear the serving hop down. */
    method OnNextHopNoAnswer(timer: Timer, ghost n: nat, connected: bool)
      requires Valid() && n < |timers| && timers[n] == timer && timer.armed
      modifies this, timer
      ensures Valid() && timers == old(timers)
      ensures state == Step(old(state), NoAnswer(n, connected))
    {
      timer.Fire();
      state := state.(timers := state.timers[n := false]);
      if uaO.None? {
        return;
      }
      var established := uaA.Some? && connected;
      if established {
        return;
      }
      state := state.(tornDown := state.tornDown + [state.uaO.value]);
    }

    method CancelNoAnswerTimer()
      requires Valid()
      modifies this, noAnswerTimer
      ensures Valid() && timers == old(timers)
      ensures state == Cancel(old(state))
    {
      if noAnswerTimer != null {
        noAnswerTimer.Cancel();
        noAnswerTimer := null;
      }
      state := Cancel(state);
    }

    /** Drop the timer the controller still refers to. */
    method Dispose()
      requires Valid()
      modifies this, noAnswerTimer
      ensures Valid() && timers == old(timers)
      ensures state == Cancel(old(state))
    {
      CancelNoAnswerTimer();
    }

    method RejectOnTrunk(decision: PolicyDecision)
      requires Valid() && decision.Reject?
      modifies this, metrics, noAnswerTimer
      ensures Valid() && timers == old(timers)
      ensures state == CallSpec.RejectOnTrunk(old(state), decision)
      ensures Extends(old(state), state)
      ensures metrics.Value() == Report(old(metrics.Value()), old(state), state)
    {
      CancelNoAnswerTimer();
      metrics.RecordCallDisposition(decision.disposition);
      state := state.(dispositions := state.dispositions + [decision.disposition]);
      assert state.dispositions[|old(state.dispositions)|..] == [decision.disposition];
      var status := Decimal(decision.error.sipStatus);
      var attributes := map["leg" := TRUNK_LEG, "error_code" := decision.error.code] + decision.attributes;
      var ruleId := None;
      if "rule_id" in decision.attributes && decision.attributes["rule_id"] != "" {
        ruleId := Some(decision.attributes["rule_id"]);
      }
      ghost var line := TraceLine(Outbound, status, decision.traceSummary, trunkPeer, ruleId, attributes);
      state := state.(trace := state.trace + [line]);
      if uaA.Some? {
        state := state.(toTrunk := state.toTrunk + [Fail(Data(status, decision.error.sipPhrase))]);
      }
    }

    /** How the call is booked once its next-hop leg is over. */
    method RecordDisposition(event: Event, connected: bool)
      requires Valid() && event.Terminal()
      modifies this, metrics
      ensures Valid() && timers == old(timers)
      ensures state == old(state).(dispositions := old(state).dispositions + [Outcome(event, connected)])
      ensures metrics.Value() == Report(old(metrics.Value()), old(state), state)
    {
      var disposition :=
        if event.Fail? then Failed
        else if uaA.Some? && connected then Completed
        else Abandoned;
      metrics.RecordCallDisposition(disposition);
      state := state.(dispositions := state.dispositions + [disposition]);
      assert state.dispositions[|old(state.dispositions)|..] == [disposition];
    }
  }
}
