/**
 One B2BUA call as a state machine: the state a controller holds between callbacks, the
 outputs it has produced so far, and what one callback does to both.
 */
module CallSpec {
  import opened Wrappers
  import opened Text
  import opened Metrics
  import opened CallTypes

  datatype CallState = CallState(
    trunkPeer: string,
    policy: Option<PolicyDecision>,
    pending: Option<Event>,
    failoverHops: seq<NextHop>,
    serving: Option<NextHop>,
    uaO: Option<nat>,                   // the live next-hop leg
    timer: Option<nat>,                 // `_no_answer_timer`, as an index into `timers`
    timers: seq<bool>,                  // every timer ever created, oldest first: is it still armed?
    // what the call has put out so far, in order
    toTrunk: seq<Event>,                // events handed to the trunk leg
    attempts: seq<Attempt>,             // outbound INVITEs
    toNextHop: seq<Sent>,               // events handed to next-hop legs
    tornDown: seq<nat>,                 // next-hop legs told to disconnect
    dispositions: seq<Disposition>,
    statuses: seq<StatusWrite>,
    trace: seq<TraceLine>)

  /**
   A callback of the stack. `connected` is what `uaA.isConnected()` answers during it;
   `decision` is what the application would answer if it were asked.
   */
  datatype Input =
    | FromLeg(leg: Leg, event: Event, connected: bool, decision: PolicyDecision)
    | NoAnswer(timer: nat, connected: bool)
  {
    predicate Valid() {
      FromLeg? ==> decision.Valid()
    }
  }

  function Line(direction: Direction, leg: string, verb: string, summary: string, peer: string,
                attributes: Fields): TraceLine {
    TraceLine(direction, verb, summary, peer, None, map["leg" := leg] + attributes)
  }

  /** The call as `recv_request` leaves it: one leg, nothing decided. */
  function Start(trunkPeer: string, inboundFields: Fields): CallState {
    CallState(trunkPeer, None, None, [], None, None, None, [], [], [], [], [], [],
              [StatusWrite(TrunkStatusKey(trunkPeer), Reachable)],
              [Line(Inbound, TRUNK_LEG, "INVITE", "invite received from the trunk", trunkPeer, inboundFields)])
  }

  function Cancel(s: CallState): CallState {
    match s.timer
    case None => s
    case Some(t) => s.(timer := None, timers := if t < |s.timers| then s.timers[t := false] else s.timers)
  }

  function Vocabulary(policy: Option<PolicyDecision>, hop: NextHop, called: string): Attempt {
    match policy
    case Some(Relay(_, _, attributes, message, logFields)) =>
      Attempt(hop, message, WithAttemptFields(attributes, hop, called), WithAttemptFields(logFields, hop, called))
    case _ => Attempt(hop, "", map[], map[])
  }

  /** Send the pending INVITE to `hop` on a new leg, with a new no-answer timer. */
  function Originate(s: CallState, hop: NextHop): CallState
    requires s.pending.Some? && s.pending.value.Try?
  {
    var attempt := Vocabulary(s.policy, hop, s.pending.value.called);
    s.(serving := Some(hop),
       uaO := Some(|s.attempts|),
       timer := Some(|s.timers|),
       timers := s.timers + [true],
       attempts := s.attempts + [attempt],
       toNextHop := s.toNextHop + [Sent(|s.attempts|, s.pending.value)],
       statuses := s.statuses + [StatusWrite(PeerStatusKey(hop), Reachable)],
       trace := s.trace + [Line(Outbound, NEXT_HOP_LEG, "INVITE", attempt.message, PeerOf(Some(hop)), attempt.attributes)])
  }

  function RejectOnTrunk(s: CallState, d: PolicyDecision): CallState
    requires d.Reject?
  {
    var status := Decimal(d.error.sipStatus);
    var ruleId := if "rule_id" in d.attributes && d.attributes["rule_id"] != "" then Some(d.attributes["rule_id"]) else None;
    var attributes := map["leg" := TRUNK_LEG, "error_code" := d.error.code] + d.attributes;
    Cancel(s).(dispositions := s.dispositions + [d.disposition],
               trace := s.trace + [TraceLine(Outbound, status, d.traceSummary, s.trunkPeer, ruleId, attributes)],
               toTrunk := s.toTrunk + [Fail(Data(status, d.error.sipPhrase))])
  }

  /** Take the decision and apply it. */
  function Decide(s: CallState, d: PolicyDecision): CallState
    requires d.Valid()
  {
    var decided := s.(policy := Some(d));
    if d.Reject? then RejectOnTrunk(decided, d)
    else Originate(decided.(pending := Some(d.outbound), failoverHops := d.nextHops[1..]), d.nextHops[0])
  }

  function FromTrunk(s: CallState, e: Event, d: PolicyDecision): CallState
    requires d.Valid()
  {
    match s.uaO
    case None => if e.Try? then Decide(s, d) else s.(toTrunk := s.toTrunk + [Disconnect])
    case Some(leg) =>
      var (verb, summary) := Describe(e);
      s.(trace := s.trace + [Line(Inbound, TRUNK_LEG, verb, summary + " on the trunk leg", s.trunkPeer, map[])],
         toNextHop := s.toNextHop + [Sent(leg, e)])
  }

  /** A relaying call keeps the INVITE it originates, so a failover can send it again. */
  ghost predicate Relaying(s: CallState) {
    s.uaO.Some? ==> s.pending.Some? && s.pending.value.Try?
  }

  /** The serving hop has failed and another one is left: blame it and move on. */
  function Failover(s: CallState): CallState
    requires s.pending.Some? && s.pending.value.Try? && s.failoverHops != []
  {
    var blamed := if s.serving.None? then NEXT_HOP_LEG else PeerStatusKey(s.serving.value);
    Originate(s.(statuses := s.statuses + [StatusWrite(blamed, Unreachable)],
                 failoverHops := s.failoverHops[1..],
                 uaO := None),
              s.failoverHops[0])
  }

  function FailoverLine(s: CallState, e: Event): TraceLine {
    var (verb, summary) := Describe(e);
    Line(Inbound, NEXT_HOP_LEG, verb, summary + " on the next-hop leg; trying failover",
         PeerOf(s.serving), map["failed_hop" := NameOf(s.serving)])
  }

  /** A failure the trunk never hears of: the timer cancelled is the one just started. */
  function Absorb(s: CallState, e: Event): CallState
    requires s.pending.Some? && s.pending.value.Try? && s.failoverHops != []
  {
    var moved := Cancel(Failover(s));
    moved.(trace := moved.trace + [FailoverLine(moved, e)])
  }

  function Outcome(e: Event, connected: bool): Disposition {
    if e.Fail? then Failed else if connected then Completed else Abandoned
  }

  /** Hand an event of the live next-hop leg to the trunk leg. */
  function RelayToTrunk(s: CallState, e: Event, connected: bool): CallState {
    var (verb, summary) := Describe(e);
    var heard := Line(Inbound, NEXT_HOP_LEG, verb, summary + " on the next-hop leg", PeerOf(s.serving), map[]);
    var told := Line(Outbound, TRUNK_LEG, verb, summary + " relayed to the trunk leg", s.trunkPeer, map[]);
    var traced := s.(trace := s.trace + [heard]);
    var ended :=
      if e.Terminal() then Cancel(traced).(dispositions := s.dispositions + [Outcome(e, connected)]) else traced;
    var relayed := ended.(toTrunk := s.toTrunk + [e]);
    if e.Answer() && verb != "ACK" then relayed.(trace := relayed.trace + [told]) else relayed
  }

  function FromNextHop(s: CallState, e: Event, connected: bool): CallState
    requires s.pending.Some? && s.pending.value.Try?
  {
    var heard := if e.Answer() then Cancel(s) else s;
    if e.Terminal() && !connected && heard.failoverHops != [] then
      Absorb(heard, e)
    else
      RelayToTrunk(heard, e, connected)
  }

  /** A no-answer timer goes off; only an armed one can. */
  function Fired(s: CallState, t: nat, connected: bool): CallState {
    if t >= |s.timers| || !s.timers[t] then s
    else s.(timers := s.timers[t := false],
            tornDown := if s.uaO.Some? && !connected then s.tornDown + [s.uaO.value] else s.tornDown)
  }

  /** One callback, run to completion. */
  function Step(s: CallState, i: Input): CallState
    requires Relaying(s) && i.Valid()
  {
    match i
    case FromLeg(Trunk, e, _, d) => FromTrunk(s, e, d)
    case FromLeg(Hop(k), e, connected, _) => if s.uaO == Some(k) then FromNextHop(s, e, connected) else s
    case NoAnswer(t, connected) => Fired(s, t, connected)
  }

  lemma StepRelaying(s: CallState, i: Input)
    requires Relaying(s) && i.Valid()
    ensures Relaying(Step(s, i))
  {
  }

  ghost predicate ValidInputs(ins: seq<Input>) {
    forall i :: 0 <= i < |ins| ==> ins[i].Valid()
  }

  /** A whole run: the callbacks of `ins`, one after the other. */
  function Run(s: CallState, ins: seq<Input>): (r: CallState)
    requires Relaying(s) && ValidInputs(ins)
    ensures Relaying(r)
  {
    if ins == [] then s
    else
      assert ValidInputs(ins[..|ins| - 1]);
      StepRelaying(Run(s, ins[..|ins| - 1]), ins[|ins| - 1]);
      Step(Run(s, ins[..|ins| - 1]), ins[|ins| - 1])
  }

  lemma RunSnoc(s: CallState, ins: seq<Input>, i: Input)
    requires Relaying(s) && ValidInputs(ins) && i.Valid()
    ensures ValidInputs(ins + [i]) && Run(s, ins + [i]) == Step(Run(s, ins), i)
  {
    assert (ins + [i])[..|ins|] == ins;
  }

  lemma {:induction false} RunAppend(s: CallState, a: seq<Input>, b: seq<Input>)
    requires Relaying(s) && ValidInputs(a) && ValidInputs(b)
    ensures ValidInputs(a + b) && Run(s, a + b) == Run(Run(s, a), b)
  {
    if b == [] {
      assert a + b == a;
    } else {
      RunAppend(s, a, b[..|b| - 1]);
      assert (a + b)[..|a + b| - 1] == a + b[..|b| - 1];
    }
  }

  /** Outputs are only ever added to. */
  ghost predicate Extends(s: CallState, t: CallState) {
    s.dispositions <= t.dispositions && s.statuses <= t.statuses
  }

  /** What the registry holds once the outputs `t` has beyond `s` have been written to it. */
  ghost function Report(c: Counters, s: CallState, t: CallState): Counters
    requires Extends(s, t)
  {
    c.(byDisposition := CountAll(c.byDisposition, t.dispositions[|s.dispositions|..]),
       peerStatus := WriteAll(c.peerStatus, t.statuses[|s.statuses|..]))
  }

  lemma ReportAppend(c: Counters, s: CallState, t: CallState, u: CallState)
    requires Extends(s, t) && Extends(t, u)
    ensures Extends(s, u) && Report(Report(c, s, t), t, u) == Report(c, s, u)
  {
    var d, e := t.dispositions[|s.dispositions|..], u.dispositions[|t.dispositions|..];
    var w, x := t.statuses[|s.statuses|..], u.statuses[|t.statuses|..];
    assert u.dispositions[|s.dispositions|..] == d + e;
    assert u.statuses[|s.statuses|..] == w + x;
    CountAllAppend(c.byDisposition, d, e);
    WriteAllAppend(c.peerStatus, w, x);
  }
}
