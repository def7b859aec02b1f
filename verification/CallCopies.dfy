/**
 The application's decision as the objects it is made of. A call takes hops off a list and fills
 in fields; here is why the decision the application may still hold never changes under it.
 */
module CallCopies {
  import opened CallTypes

  class FieldDict {
    var entries: Fields

    constructor (entries: Fields)
      ensures this.entries == entries
    {
      this.entries := entries;
    }

    method Set(key: string, value: string)
      modifies this
      ensures entries == old(entries)[key := value]
    {
      entries := entries[key := value];
    }
  }

  class HopList {
    var hops: seq<NextHop>

    constructor (hops: seq<NextHop>)
      ensures this.hops == hops
    {
      this.hops := hops;
    }

    /** `pop(0)`. */
    method Pop() returns (hop: NextHop)
      requires hops != []
      modifies this
      ensures [hop] + hops == old(hops)
    {
      hop := hops[0];
      hops := hops[1..];
    }
  }

  class Decision {
    const nextHops: HopList
    const attributes: FieldDict
    const logFields: FieldDict

    constructor (nextHops: HopList, attributes: FieldDict, logFields: FieldDict)
      ensures this.nextHops == nextHops && this.attributes == attributes && this.logFields == logFields
    {
      this.nextHops, this.attributes, this.logFields := nextHops, attributes, logFields;
    }
  }

  /** Fill in a copy: a new dictionary with the attempt's values, the given one as it was. */
  method FillFields(fields: FieldDict, hop: NextHop, called: string) returns (filled: FieldDict)
    ensures fresh(filled) && filled.entries == WithAttemptFields(fields.entries, hop, called)
    ensures AsGiven(filled.entries, fields.entries, hop, called)
  {
    FieldsKept(fields.entries, hop, called);
    filled := new FieldDict(fields.entries);
    if "called_number" in filled.entries {
      filled.Set("called_number", called);
    }
    if "next_hop" in filled.entries {
      filled.Set("next_hop", hop.name);
    }
  }

  /** What one attempt said. */
  ghost predicate Said(decision: Decision, filled: FieldDict, logged: FieldDict, hop: NextHop, called: string)
    reads decision.attributes, decision.logFields, filled, logged
  {
    && AsGiven(filled.entries, decision.attributes.entries, hop, called)
    && AsGiven(logged.entries, decision.logFields.entries, hop, called)
  }

  /**
   A whole walk: every hop of the decision is tried in order, each with its own fields, and of
   all objects that existed before not one has been modified, the decision's list and
   dictionaries included.
   */
  method TryEveryHop(decision: Decision, called: string)
    returns (tried: seq<NextHop>, filled: seq<FieldDict>, logged: seq<FieldDict>)
    ensures tried == decision.nextHops.hops && |filled| == |logged| == |tried|
    ensures forall i :: 0 <= i < |tried| ==>
              fresh(filled[i]) && fresh(logged[i]) && Said(decision, filled[i], logged[i], tried[i], called)
  {
    var failoverHops := new HopList(decision.nextHops.hops);
    tried, filled, logged := [], [], [];
    while failoverHops.hops != []
      invariant tried + failoverHops.hops == decision.nextHops.hops && |filled| == |logged| == |tried|
      invariant fresh(failoverHops)
      invariant forall i :: 0 <= i < |tried| ==>
                  fresh(filled[i]) && fresh(logged[i]) && Said(decision, filled[i], logged[i], tried[i], called)
      decreases |failoverHops.hops|
    {
      var hop := failoverHops.Pop();
      var attributes := FillFields(decision.attributes, hop, called);
      var logFields := FillFields(decision.logFields, hop, called);
      tried, filled, logged := tried + [hop], filled + [attributes], logged + [logFields];
    }
  }
}
