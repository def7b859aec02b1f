/**
 `BaseCallMap`: the trunk's entry point, and the calls of one process sharing one registry,
 interleaved in any order.
 */
module CallMap {
  import opened Wrappers
  import opened Text
  import opened Metrics
  import opened Timers
  import opened CallTypes
  import opened CallSpec
  import opened CallController
  import S = CallSystem

  datatype Request = Request(source: Option<(string, nat)>, verb: string, hasToTag: bool, fields: Fields)

  function SourceAddress(r: Request): string {
    if r.source.None? then "-" else r.source.value.0
  }

  function SourcePeer(r: Request): string {
    if r.source.None? then "-" else r.source.value.0 + ":" + Decimal(r.source.value.1)
  }

  datatype Answer = Forbidden | NoSuchLeg | NotImplemented | Handed(controller: BaseCallController)

  class BaseCallMap {
    const allowedPeers: seq<string>
    const metrics: MetricsRegistry
    const nextHop: Option<(string, nat)>
    var controllers: seq<BaseCallController>

    /** The trace lines of refused requests; those of a call are its controller's. */
    ghost var trace: seq<TraceLine>

    /** No two calls share an object but the registry. */
    ghost predicate Apart()
      reads this`controllers, controllers
    {
      && (forall i, j :: 0 <= i < j < |controllers| ==> controllers[i] != controllers[j])
      && (forall i, j, t :: 0 <= i < j < |controllers| && t in controllers[i].timers ==> t !in controllers[j].timers)
    }

    ghost function Timers(): set<Timer>
      reads this`controllers, controllers
    {
      set c, t | c in controllers && t in c.timers :: t
    }

    ghost predicate Valid()
      reads this`controllers, controllers, Timers()
    {
      && Apart()
      && (forall c :: c in controllers ==> (forall t :: t in c.timers ==> t in Timers()) && c.Valid() && c.metrics == metrics)
    }

    ghost function States(): (states: seq<CallState>)
      reads this`controllers, controllers
      ensures |states| == |controllers| && forall i :: 0 <= i < |states| ==> states[i] == controllers[i].state
    {
      var calls := controllers;
      seq(|calls|, i requires 0 <= i < |calls| reads calls => calls[i].state)
    }

    ghost function Seen(): S.View
      reads this`controllers, controllers, metrics
    {
      S.View(States(), metrics.Value())
    }

    /** `line` says who was refused and why, as a line of the trunk leg. */
    static ghost predicate Refused(request: Request, line: TraceLine) {
      && line.direction.Inbound? && line.verb == request.verb && line.ruleId.None?
      && line.summary == "403 forbidden: source is not an allowed trunk peer"
      && line.attributes == map["leg" := "trunk"]
      && line.peer == match request.source case None => "-" case Some((host, port)) => host + ":" + Decimal(port)
    }

    constructor (allowedPeers: seq<string>, metrics: MetricsRegistry, nextHop: Option<(string, nat)>)
      ensures Valid() && controllers == [] && trace == [] && Seen() == S.View([], metrics.Value())
      ensures this.allowedPeers == allowedPeers && this.metrics == metrics && this.nextHop == nextHop
    {
      this.allowedPeers, this.metrics, this.nextHop, controllers, trace := allowedPeers, metrics, nextHop, [], [];
    }

    /**
     A request from an unknown source, of a dialog the map does not know or of another method
     creates no call; anything else gets a fresh one.
     */
    method RecvRequest(request: Request) returns (answer: Answer)
      requires Valid()
      modifies this, metrics
      ensures Valid()
      ensures request.source.Some? ==> (answer.Forbidden? <==> request.source.value.0 !in allowedPeers)
      ensures request.source.None? ==> (answer.Forbidden? <==> "-" !in allowedPeers)
      ensures !answer.Forbidden? ==> (answer.NoSuchLeg? <==> request.hasToTag)
      ensures !answer.Forbidden? && !request.hasToTag ==> (answer.NotImplemented? <==> request.verb != "INVITE")
      ensures answer.NotImplemented? ==> !request.hasToTag
      ensures !answer.Forbidden? ==> trace == old(trace)
      ensures answer.Forbidden? ==> |trace| == |old(trace)| + 1 && Refused(request, trace[|old(trace)|])
      ensures answer.Forbidden? ==> old(trace) <= trace
      ensures answer.Handed? && request.source.Some? ==>
                answer.controller.state.trunkPeer
                == request.source.value.0 + ":" + Decimal(request.source.value.1)
      ensures answer.Handed? && request.source.None? ==> answer.controller.state.trunkPeer == "-"
      ensures !answer.Handed? ==> controllers == old(controllers)
      ensures answer.Handed? ==> controllers == old(controllers) + [answer.controller] && fresh(answer.controller)
      ensures Seen() == match answer
              case Forbidden => S.Turn(old(Seen()), S.Refused("AS-PEER-001"))
              case Handed(_) => S.Turn(old(Seen()), S.NewCall(SourcePeer(request), request.fields))
              case _ => old(Seen())
    {
      if SourceAddress(request) !in allowedPeers {
        RejectPeer(request);
        return Forbidden;
      }
      if request.hasToTag {
        return NoSuchLeg;
      }
      if request.verb != "INVITE" {
        return NotImplemented;
      }
      var controller := NewCall(request);
      answer := Handed(controller);
    }

    /** Refuse a source that is not on the list: counted as an error and traced, without a call. */
    method RejectPeer(request: Request)
      requires Valid()
      modifies this`trace, metrics
      ensures Valid() && |trace| == |old(trace)| + 1 && old(trace) <= trace
      ensures Refused(request, trace[|old(trace)|])
      ensures Seen() == S.Turn(old(Seen()), S.Refused("AS-PEER-001"))
    {
      metrics.RecordError("AS-PEER-001");
      Untouched();
      ghost var line := TraceLine(Inbound, request.verb, "403 forbidden: source is not an allowed trunk peer",
                                  SourcePeer(request), None, map["leg" := TRUNK_LEG]);
      trace := trace + [line];
    }

    /** A controller of its own for an accepted INVITE. */
    method NewCall(request: Request) returns (controller: BaseCallController)
      requires Valid()
      modifies this`controllers, metrics
      ensures Valid()
      ensures controllers == old(controllers) + [controller] && fresh(controller)
      ensures controller.state == Start(SourcePeer(request), request.fields)
      ensures Seen() == S.Turn(old(Seen()), S.NewCall(SourcePeer(request), request.fields))
    {
      controller := new BaseCallController(metrics, nextHop);
      controllers := controllers + [controller];
      controller.RecvRequest(SourcePeer(request), request.fields);
      OneMore(controller);
    }

    /** The stack calls one controller back; the other calls do not notice. */
    method RecvEvent(n: nat, event: Event, ua: Leg, connected: bool, decision: PolicyDecision)
      requires Valid() && n < |controllers| && decision.Valid()
      modifies metrics, controllers[n], controllers[n].timers
      ensures Valid() && controllers == old(controllers)
      ensures var h := S.OnCall(n, FromLeg(ua, event, connected, decision));
              S.CanHappen(old(Seen()), h) && Seen() == S.Turn(old(Seen()), h)
    {
      controllers[n].RecvEvent(event, ua, connected, decision);
      OthersKeep(n);
    }

    /** So when the loop fires a timer. */
    method OnNextHopNoAnswer(n: nat, timer: Timer, ghost k: nat, connected: bool)
      requires Valid() && n < |controllers|
      requires k < |controllers[n].timers| && controllers[n].timers[k] == timer && timer.armed
      modifies controllers[n], timer
      ensures Valid() && controllers == old(controllers)
      ensures var h := S.OnCall(n, NoAnswer(k, connected));
              S.CanHappen(old(Seen()), h) && Seen() == S.Turn(old(Seen()), h)
    {
      controllers[n].OnNextHopNoAnswer(timer, k, connected);
      OthersKeep(n);
    }

    /** Nothing of any call has changed. */
    twostate lemma Untouched()
      requires old(Valid()) && controllers == old(controllers)
      requires forall i :: 0 <= i < |controllers| ==> unchanged(controllers[i])
      requires forall i, t :: 0 <= i < |controllers| && t in controllers[i].timers ==> unchanged(t)
      ensures Valid() && States() == old(States())
    {
      forall d | d in controllers ensures d.Valid() {
        var i :| 0 <= i < |controllers| && controllers[i] == d;
        assert old(d.Valid());
        assert forall j :: 0 <= j < |d.timers| ==> d.timers[j] in controllers[i].timers;
      }
    }

    /** A new call has joined; it has no timer yet. */
    twostate lemma OneMore(new controller: BaseCallController)
      requires old(Valid()) && controllers == old(controllers) + [controller] && fresh(controller)
      requires controller.Valid() && controller.timers == [] && controller.metrics == metrics
      requires forall i :: 0 <= i < |old(controllers)| ==> unchanged(controllers[i])
      requires forall i, t :: 0 <= i < |old(controllers)| && t in controllers[i].timers ==> unchanged(t)
      ensures Valid() && States() == old(States()) + [controller.state]
    {
      forall d | d in old(controllers) ensures d.Valid() {
        var i :| 0 <= i < |old(controllers)| && old(controllers)[i] == d;
        assert controllers[i] == d && old(d.Valid());
        assert forall j :: 0 <= j < |d.timers| ==> d.timers[j] in controllers[i].timers;
      }
    }

    /** Only the n-th call has changed, and the timers it has gained are new: the map is as good as before. */
    twostate lemma OthersKeep(n: nat)
      requires old(Valid()) && controllers == old(controllers) && n < |controllers|
      requires controllers[n].Valid() && controllers[n].TimersGrow()
      requires forall i :: 0 <= i < |controllers| && i != n ==> unchanged(controllers[i])
      requires forall i, t :: 0 <= i < |controllers| && i != n && t in controllers[i].timers ==> unchanged(t)
      ensures Valid() && States() == old(States())[n := controllers[n].state]
    {
      forall d | d in controllers && d != controllers[n] ensures d.Valid() {
        var i :| 0 <= i < |controllers| && controllers[i] == d;
        assert old(d.Valid());
        assert forall j :: 0 <= j < |d.timers| ==> d.timers[j] in controllers[i].timers;
      }
    }

    /** The stack stops: every call drops the timer it still refers to. */
    method Dispose()
      requires Valid()
      modifies controllers, Timers()
      ensures Valid()
      ensures forall i :: 0 <= i < |controllers| ==>
                && controllers[i].timers == old(controllers[i].timers)
                && controllers[i].state == Cancel(old(controllers[i].state))
    {
      ghost var calls := controllers;
      ghost var was := seq(|calls|, i requires 0 <= i < |calls| reads calls => calls[i].state);
      for n := 0 to |controllers|
        invariant Valid() && Timers() == old(Timers())
        invariant forall i :: 0 <= i < |controllers| ==> controllers[i].timers == old(controllers[i].timers)
        invariant forall i :: 0 <= i < |controllers| ==>
                    controllers[i].state == if i < n then Cancel(was[i]) else was[i]
      {
        assert calls[n].noAnswerTimer != null ==> calls[n].noAnswerTimer in calls[n].timers;
        assert calls[n].noAnswerTimer != null ==> calls[n].noAnswerTimer in Timers();
        DisposeCall(n);
      }
    }

    /** One call's timer goes; the other calls do not notice. */
    method DisposeCall(n: nat)
      requires Valid() && n < |controllers|
      modifies controllers[n], controllers[n].noAnswerTimer
      ensures Valid() && Timers() == old(Timers())
      ensures controllers[n].timers == old(controllers[n].timers)
      ensures controllers[n].state == Cancel(old(controllers[n].state))
      ensures forall i :: 0 <= i < |controllers| && i != n ==> controllers[i] != controllers[n]
    {
      var c := controllers[n];
      ghost var timer := c.noAnswerTimer;
      assert timer != null ==> timer in c.timers;
      c.Dispose();
      forall d | d in controllers && d != c ensures d.Valid() {
        var i :| 0 <= i < |controllers| && controllers[i] == d;
        assert timer != null ==> timer !in d.timers;
      }
    }
  }
}
