/**
 Failover is transparent: the trunk leg cannot tell a call with a list of hops from a call
 with a single hop that never failed before the last one did.
 */
module CallTransparency {
  import opened Wrappers
  import opened Metrics
  import opened CallTypes
  import opened CallSpec
  import opened CallRuns
  import opened CallTheorems

  /** How far the failover walk is, read off the inputs alone. */
  datatype Cursor = Undecided | Serving(leg: nat, spare: nat)

  /** An event of a leg that is not, or no longer, the serving one. */
  predicate Stale(c: Cursor, i: Input) {
    i.FromLeg? && i.leg.Hop? && !(c.Serving? && i.leg.attempt == c.leg)
  }

  /** A failure of the serving leg that a spare hop makes up for. */
  predicate Absorbed(c: Cursor, i: Input) {
    i.FromLeg? && c.Serving? && i.leg == Hop(c.leg) && (i.event.Fail? || i.event.Disconnect?) && !i.connected && c.spare > 0
  }

  function Advance(c: Cursor, i: Input): Cursor {
    if c.Undecided? && i.FromLeg? && i.leg.Trunk? && i.event.Try? && i.decision.Relay? && i.decision.nextHops != [] then
      Serving(0, |i.decision.nextHops| - 1)
    else if Absorbed(c, i) then Serving(c.leg + 1, c.spare - 1)
    else c
  }

  function CursorAfter(ins: seq<Input>): Cursor {
    if ins == [] then Undecided else Advance(CursorAfter(ins[..|ins| - 1]), ins[|ins| - 1])
  }

  function OneHop(d: PolicyDecision): PolicyDecision {
    if d.Relay? && d.nextHops != [] then d.(nextHops := d.nextHops[..1]) else d
  }

  /** The same input, to a controller that knows one next hop and one next-hop leg. */
  function AsOneHop(i: Input): Input {
    if i.NoAnswer? then i
    else i.(decision := OneHop(i.decision), leg := if i.leg.Hop? then Hop(0) else Trunk)
  }

  /** A run without its stale events and absorbed failures, all next-hop legs taken for one. */
  function Collapse(ins: seq<Input>): seq<Input> {
    if ins == [] then []
    else
      var c, i := CursorAfter(ins[..|ins| - 1]), ins[|ins| - 1];
      Collapse(ins[..|ins| - 1]) + if Stale(c, i) || Absorbed(c, i) then [] else [AsOneHop(i)]
  }

  lemma {:induction false} CollapseValid(ins: seq<Input>)
    requires ValidInputs(ins)
    ensures ValidInputs(Collapse(ins))
  {
    if ins != [] {
      CollapseValid(ins[..|ins| - 1]);
      assert ins[|ins| - 1].Valid();
    }
  }

  /** What next-hop legs hear beside the INVITE each of them starts with. */
  function Relayed(sent: seq<Sent>): seq<Event> {
    if |sent| < 2 then []
    else
      Relayed(sent[..|sent| - 1]) +
      if sent[|sent| - 1].leg == sent[|sent| - 2].leg then [sent[|sent| - 1].event] else []
  }

  /** Two calls no leg can tell apart, the second one with a single hop. */
  ghost predicate Twins(s: CallState, t: CallState) {
    && t.failoverHops == [] && |t.attempts| <= 1
    && s.uaO.Some? == t.uaO.Some?
    && s.toTrunk == t.toTrunk
    && s.dispositions == t.dispositions
    && Relayed(s.toNextHop) == Relayed(t.toNextHop)
  }

  function CursorOf(s: CallState): Cursor {
    if s.uaO.None? then Undecided else Serving(s.uaO.value, |s.failoverHops|)
  }

  lemma RelayedAppend(sent: seq<Sent>, m: Sent)
    ensures Relayed(sent + [m]) ==
            Relayed(sent) + if sent != [] && sent[|sent| - 1].leg == m.leg then [m.event] else []
  {
    assert (sent + [m])[..|sent|] == sent;
  }

  lemma TwinsDecide(s: CallState, t: CallState, d: PolicyDecision)
    requires Consistent(s) && Consistent(t) && OneLeg(s) && OneLeg(t) && Twins(s, t) && d.Valid()
    ensures Twins(Decide(s, d), Decide(t, OneHop(d)))
  {
    if d.Relay? {
      RelayedAppend([], Sent(0, d.outbound));
    }
  }

  lemma TwinsTrunk(s: CallState, t: CallState, e: Event, d: PolicyDecision)
    requires Consistent(s) && Consistent(t) && Twins(s, t) && d.Valid()
    ensures Twins(FromTrunk(s, e, d), FromTrunk(t, e, OneHop(d)))
  {
    if s.uaO.None? {
      if e.Try? {
        TwinsDecide(s, t, d);
      }
    } else {
      RelayedAppend(s.toNextHop, Sent(s.uaO.value, e));
      RelayedAppend(t.toNextHop, Sent(t.uaO.value, e));
    }
  }

  lemma TwinsRelay(s: CallState, t: CallState, e: Event, connected: bool)
    requires Twins(s, t)
    ensures Twins(RelayToTrunk(s, e, connected), RelayToTrunk(t, e, connected))
  {
  }

  lemma TwinsAbsorb(s: CallState, t: CallState, e: Event)
    requires Consistent(s) && RelayDecided(s) && Twins(s, t) && s.failoverHops != []
    ensures Twins(Absorb(s, e), t)
  {
    RelayedAppend(s.toNextHop, Sent(|s.attempts|, s.pending.value));
    assert Absorb(s, e).toNextHop == s.toNextHop + [Sent(|s.attempts|, s.pending.value)];
  }

  lemma TwinsNextHop(s: CallState, t: CallState, e: Event, connected: bool)
    requires Consistent(s) && Relaying(s) && Consistent(t) && Relaying(t) && Twins(s, t) && s.uaO.Some?
    ensures if e.Terminal() && !connected && s.failoverHops != [] then Twins(FromNextHop(s, e, connected), t)
            else Twins(FromNextHop(s, e, connected), FromNextHop(t, e, connected))
  {
    if e.Terminal() && !connected && s.failoverHops != [] {
      TwinsAbsorb(s, t, e);
    } else if e.Answer() {
      TwinsRelay(Cancel(s), Cancel(t), e, connected);
    } else {
      TwinsRelay(s, t, e, connected);
    }
  }

  lemma TwinsTimer(s: CallState, t: CallState, n: nat, connected: bool)
    requires Twins(s, t)
    ensures Twins(Fired(s, n, connected), Fired(t, n, connected))
  {
  }

  lemma NextHopCursor(s: CallState, e: Event, connected: bool)
    requires Consistent(s) && Relaying(s) && s.uaO.Some?
    ensures CursorOf(FromNextHop(s, e, connected)) ==
            if e.Terminal() && !connected && s.failoverHops != [] then Serving(s.uaO.value + 1, |s.failoverHops| - 1)
            else CursorOf(s)
  {
    var heard := if e.Answer() then Cancel(s) else s;
    assert CursorOf(heard) == CursorOf(s);
    if e.Terminal() && !connected && s.failoverHops != [] {
      assert FromNextHop(s, e, connected) == Absorb(s, e);
    } else {
      assert FromNextHop(s, e, connected) == RelayToTrunk(heard, e, connected);
    }
  }

  /** The inputs alone tell how far the walk is. */
  lemma CursorStep(s: CallState, i: Input)
    requires Consistent(s) && Relaying(s) && i.Valid()
    ensures CursorOf(Step(s, i)) == Advance(CursorOf(s), i)
  {
    match i
    case FromLeg(Trunk, _, _, _) =>
    case FromLeg(Hop(k), e, connected, _) =>
      if s.uaO == Some(k) {
        NextHopCursor(s, e, connected);
      }
    case NoAnswer(_, _) =>
  }

  lemma TwinsStep(s: CallState, t: CallState, i: Input)
    requires Consistent(s) && Relaying(s) && Consistent(t) && Relaying(t) && Twins(s, t) && i.Valid()
    ensures AsOneHop(i).Valid()
    ensures if Stale(CursorOf(s), i) || Absorbed(CursorOf(s), i) then Twins(Step(s, i), t)
            else Twins(Step(s, i), Step(t, AsOneHop(i)))
  {
    match i
    case FromLeg(Trunk, e, _, d) => TwinsTrunk(s, t, e, d);
    case FromLeg(Hop(k), e, connected, _) =>
      if s.uaO == Some(k) {
        assert t.uaO == Some(0);
        TwinsNextHop(s, t, e, connected);
      }
    case NoAnswer(n, connected) => TwinsTimer(s, t, n, connected);
  }

  /**
   Transparent failover. In every run the trunk leg hears the same events, the same outcomes
   are counted and the next hop is relayed the same events as in the collapsed run, in which
   no failover ever happens.
   */
  lemma {:induction false} FailoverIsTransparent(trunkPeer: string, fields: Fields, ins: seq<Input>)
    requires ValidInputs(ins)
    ensures ValidInputs(Collapse(ins))
    ensures var s := Run(Start(trunkPeer, fields), ins);
            var t := Run(Start(trunkPeer, fields), Collapse(ins));
            && s.toTrunk == t.toTrunk
            && s.dispositions == t.dispositions
            && Relayed(s.toNextHop) == Relayed(t.toNextHop)
            && |t.attempts| <= 1
            && Twins(s, t) && CursorOf(s) == CursorAfter(ins)
  {
    var start := Start(trunkPeer, fields);
    CollapseValid(ins);
    if ins != [] {
      var before, i := ins[..|ins| - 1], ins[|ins| - 1];
      FailoverIsTransparent(trunkPeer, fields, before);
      var s, t := Run(start, before), Run(start, Collapse(before));
      ReachedIsConsistent(s, trunkPeer, fields, before);
      ReachedIsConsistent(t, trunkPeer, fields, Collapse(before));
      TwinsStep(s, t, i);
      CursorStep(s, i);
      assert Run(start, ins) == Step(s, i);
      if Stale(CursorOf(s), i) || Absorbed(CursorOf(s), i) {
        assert Collapse(ins) == Collapse(before);
      } else {
        assert Collapse(ins) == Collapse(before) + [AsOneHop(i)];
        RunSnoc(start, Collapse(before), AsOneHop(i));
      }
    }
  }

  // --- dispositions -------------------------------------------------------

  /** The outcomes a run counts: one per reject and per relayed end of the serving leg, none absorbed. */
  function Accounted(ins: seq<Input>): seq<Disposition> {
    if ins == [] then []
    else
      var c, i := CursorAfter(ins[..|ins| - 1]), ins[|ins| - 1];
      Accounted(ins[..|ins| - 1]) +
      if i.NoAnswer? || Stale(c, i) || Absorbed(c, i) then []
      else if i.leg.Hop? then
        match i.event
        case Fail(_) => [Failed]
        case Disconnect => [if i.connected then Completed else Abandoned]
        case _ => []
      else if c.Undecided? && i.event.Try? && i.decision.Reject? then [i.decision.disposition]
      else []
  }

  lemma {:induction false} DispositionsAreAccounted(trunkPeer: string, fields: Fields, ins: seq<Input>)
    requires ValidInputs(ins)
    ensures Run(Start(trunkPeer, fields), ins).dispositions == Accounted(ins)
  {
    if ins != [] {
      var before, i := ins[..|ins| - 1], ins[|ins| - 1];
      DispositionsAreAccounted(trunkPeer, fields, before);
      FailoverIsTransparent(trunkPeer, fields, before);
      var s := Run(Start(trunkPeer, fields), before);
      StepDispositions(s, i);
    }
  }

  lemma StepDispositions(s: CallState, i: Input)
    requires Relaying(s) && i.Valid()
    ensures Step(s, i).dispositions == s.dispositions +
            if i.NoAnswer? || Stale(CursorOf(s), i) || Absorbed(CursorOf(s), i) then []
            else if i.leg.Hop? then (if i.event.Terminal() then [Outcome(i.event, i.connected)] else [])
            else if CursorOf(s).Undecided? && i.event.Try? && i.decision.Reject? then [i.decision.disposition]
            else []
  {
  }

  function Tries(ins: seq<Input>): nat {
    if ins == [] then 0
    else
      var i := ins[|ins| - 1];
      Tries(ins[..|ins| - 1]) + if i.FromLeg? && i.leg.Trunk? && i.event.Try? then 1 else 0
  }

  function Ends(ins: seq<Input>, k: nat): nat {
    if ins == [] then 0
    else
      var i := ins[|ins| - 1];
      Ends(ins[..|ins| - 1], k) + if i.FromLeg? && i.leg == Hop(k) && (i.event.Fail? || i.event.Disconnect?) then 1 else 0
  }

  /** What a well-behaved stack raises: one Try on the trunk leg, and each next-hop leg ends once. */
  ghost predicate Orderly(ins: seq<Input>) {
    Tries(ins) <= 1 && forall k :: Ends(ins, k) <= 1
  }

  lemma OrderlyPrefix(ins: seq<Input>)
    requires Orderly(ins) && ins != []
    ensures Orderly(ins[..|ins| - 1])
  {
    var before := ins[..|ins| - 1];
    forall k: nat ensures Ends(before, k) <= 1 {
      assert Ends(ins, k) <= 1;
    }
  }

  /** Then a call never counts more than one outcome. */
  lemma {:induction false} AtMostOneOutcome(ins: seq<Input>)
    requires ValidInputs(ins) && Orderly(ins)
    ensures |Accounted(ins)| <= 1
    ensures CursorAfter(ins).Undecided? ==> |Accounted(ins)| <= Tries(ins)
    ensures CursorAfter(ins).Serving? ==> Tries(ins) == 1 && |Accounted(ins)| <= Ends(ins, CursorAfter(ins).leg)
  {
    if ins != [] {
      var before, i := ins[..|ins| - 1], ins[|ins| - 1];
      OrderlyPrefix(ins);
      AtMostOneOutcome(before);
      var c := CursorAfter(before);
      if c.Serving? {
        assert Ends(ins, c.leg) <= 1;
      }
    }
  }
}
