/** The values a call controller handles: hops, call control events, decisions and trace lines. */
module CallTypes {
  import opened Wrappers
  import opened Text
  import opened Metrics

  datatype NextHop = NextHop(name: string, address: string, port: nat)

  /** `event.getData()` of a response event. */
  datatype Response = NoData | Data(code: string, reason: string)

  /** What a leg raises and is handed. `Try` carries the called number and the rest of the INVITE. */
  datatype Event =
    | Try(called: string, invite: string)
    | Ring(response: Response)
    | Connect(response: Response)
    | Fail(response: Response)
    | Disconnect
    | Update
    | Other(typeName: string)
  {
    /** The events that end a leg. */
    predicate Terminal() {
      Fail? || Disconnect?
    }

    /** The events that answer the outbound INVITE. */
    predicate Answer() {
      Ring? || Connect?
    }
  }

  /** The two legs of a call: the trunk leg `uaA`, or the n-th next-hop leg ever originated. */
  datatype Leg = Trunk | Hop(attempt: nat)

  type Fields = map<string, string>

  datatype AsError = AsError(code: string, sipStatus: nat, sipPhrase: string)

  /** What the application hands the base; the fields each action uses. */
  datatype PolicyDecision =
    | Relay(outbound: Event, nextHops: seq<NextHop>, attributes: Fields,
            logMessage: string, logFields: Fields)
    | Reject(error: AsError, disposition: Disposition, attributes: Fields, traceSummary: string)
  {
    /** What `decide` promises: a relay names at least one hop and the INVITE to originate. */
    predicate Valid() {
      Relay? ==> outbound.Try? && nextHops != []
    }
  }

  datatype Direction = Inbound | Outbound

  datatype TraceLine = TraceLine(direction: Direction, verb: string, summary: string, peer: string,
                                 ruleId: Option<string>, attributes: Fields)

  /** One outbound INVITE: the hop it went to and the application's vocabulary for it. */
  datatype Attempt = Attempt(hop: NextHop, message: string, attributes: Fields, logFields: Fields)

  /** An event handed to the n-th next-hop leg. */
  datatype Sent = Sent(leg: nat, event: Event)

  const TRUNK_LEG := "trunk"
  const NEXT_HOP_LEG := "next_hop"

  function StatusLine(r: Response): (string, string)
    requires r.Data?
  {
    (r.code, Strip(r.code + " " + r.reason))
  }

  /** The `(verb, summary)` an event is traced under. */
  function Describe(e: Event): (string, string) {
    match e
    case Try(_, _) => ("INVITE", "invite received")
    case Ring(r) => if r.NoData? then ("180", "ringing") else StatusLine(r)
    case Connect(r) => if r.NoData? then ("180", "ringing") else StatusLine(r)
    case Fail(r) => if r.NoData? then ("500", "call failed") else StatusLine(r)
    case Disconnect => ("BYE", "call released")
    case Update => ("INVITE", "session update")
    case Other(name) => (name, "call control event")
  }

  /** Fill the two fields only the base can know, where the application asked for them. */
  function WithAttemptFields(fields: Fields, hop: NextHop, called: string): Fields {
    var numbered := if "called_number" in fields then fields["called_number" := called] else fields;
    if "next_hop" in fields then numbered["next_hop" := hop.name] else numbered
  }

  /** The two fields only an attempt can know; every other one is as the application gave it. */
  ghost predicate AsGiven(filled: Fields, given: Fields, hop: NextHop, called: string) {
    && filled.Keys == given.Keys
    && (forall k :: k in given && k != "next_hop" && k != "called_number" ==> filled[k] == given[k])
    && ("next_hop" in given ==> filled["next_hop"] == hop.name)
    && ("called_number" in given ==> filled["called_number"] == called)
  }

  lemma FieldsKept(fields: Fields, hop: NextHop, called: string)
    ensures AsGiven(WithAttemptFields(fields, hop, called), fields, hop, called)
  {
  }

  function PeerStatusKey(hop: NextHop): string {
    hop.name + ":" + hop.address + ":" + Decimal(hop.port)
  }

  function TrunkStatusKey(trunkPeer: string): string {
    trunkPeer + ":" + TRUNK_LEG
  }

  function PeerOf(hop: Option<NextHop>): string {
    if hop.None? then "-" else hop.value.address + ":" + Decimal(hop.value.port)
  }

  function NameOf(hop: Option<NextHop>): string {
    if hop.None? then "" else hop.value.name
  }

  /** A hop's key ends in a digit and the trunk's in a letter, so they never collide. */
  lemma TrunkKeyIsNoHopKey(trunkPeer: string, hop: NextHop)
    ensures TrunkStatusKey(trunkPeer) != PeerStatusKey(hop)
  {
    var a, b := TrunkStatusKey(trunkPeer), PeerStatusKey(hop);
    assert a[|a| - 1] == 'k';
    var port := Decimal(hop.port);
    assert b[|b| - 1] == port[|port| - 1];
    assert IsDigit(port[|port| - 1]);
  }

  lemma FirstColon(a: string, s: string)
    requires ':' !in a
    ensures var x := a + (":" + s);
            x[|a|] == ':' && x[..|a|] == a && x[|a| + 1..] == s && forall i :: 0 <= i < |a| ==> x[i] != ':'
  {
  }

  lemma CutAtColon(a: string, s: string, b: string, t: string)
    requires ':' !in a && ':' !in b && a + (":" + s) == b + (":" + t)
    ensures a == b && s == t
  {
    FirstColon(a, s);
    FirstColon(b, t);
  }

  /** Hops whose name and address have no colon are told apart by their keys, */
  lemma KeyTellsHopsApart(a: NextHop, b: NextHop)
    requires ':' !in a.name && ':' !in a.address && ':' !in b.name && ':' !in b.address
    ensures PeerStatusKey(a) == PeerStatusKey(b) <==> a == b
    ensures PeerOf(Some(a)) == PeerOf(Some(b)) <==> a.address == b.address && a.port == b.port
  {
    assert PeerOf(Some(a)) == a.address + (":" + Decimal(a.port));
    assert PeerOf(Some(b)) == b.address + (":" + Decimal(b.port));
    if PeerOf(Some(a)) == PeerOf(Some(b)) {
      CutAtColon(a.address, Decimal(a.port), b.address, Decimal(b.port));
      SameDecimal(a.port, b.port);
    }
    if PeerStatusKey(a) == PeerStatusKey(b) {
      KeyIsNameAndPeer(a);
      KeyIsNameAndPeer(b);
      CutAtColon(a.name, PeerOf(Some(a)), b.name, PeerOf(Some(b)));
    }
  }

  lemma KeyIsNameAndPeer(hop: NextHop)
    ensures PeerStatusKey(hop) == hop.name + (":" + PeerOf(Some(hop)))
  {
    assert PeerOf(Some(hop)) == hop.address + ":" + Decimal(hop.port);
  }

  /** and a colon that may belong to either makes two hops share one. */
  lemma KeysCanCollide(x: string, y: string, z: string, port: nat)
    ensures PeerStatusKey(NextHop(x + (":" + y), z, port)) == PeerStatusKey(NextHop(x, y + (":" + z), port))
  {
  }

  /**
   What a trace is told of an event: a response by its status code and its reason, blanks at
   the ends removed, anything else by the request it stands for.
   */
  lemma DescribeSays(e: Event)
    ensures e.Try? ==> Describe(e) == ("INVITE", "invite received")
    ensures e.Update? ==> Describe(e) == ("INVITE", "session update")
    ensures e.Disconnect? ==> Describe(e) == ("BYE", "call released")
    ensures e.Other? ==> Describe(e) == (e.typeName, "call control event")
    ensures (e.Ring? || e.Connect?) && e.response.NoData? ==> Describe(e) == ("180", "ringing")
    ensures e.Fail? && e.response.NoData? ==> Describe(e) == ("500", "call failed")
    ensures (e.Ring? || e.Connect? || e.Fail?) && e.response.Data? ==>
              && Describe(e).0 == e.response.code
              && Stripped(e.response.code + " " + e.response.reason, Describe(e).1)
  {
    if (e.Ring? || e.Connect? || e.Fail?) && e.response.Data? {
      StripIs(e.response.code + " " + e.response.reason);
    }
  }
}
