/** The least-recently-used promise, stated on the history of operations rather than on the store. */
module LruHistory {
  import opened Wrappers
  import opened Sequences
  import opened Ordered
  import opened LruSpec
  import opened LruTheory

  /** When each key was last touched, by position in a history. */
  type Clock = map<string, nat>

  /** A write touches its key, a read only when it hits. */
  function Touched(s: Items, op: Op): Option<string> {
    match op
    case Read(k) => if Has(s, k) then Some(k) else None
    case Write(k, _) => Some(k)
    case Trim(_, _) => None
  }

  function Touches(ops: seq<Op>): (clock: Clock)
    ensures forall k :: k in clock ==> 0 < clock[k] <= |ops|
  {
    if ops == [] then map[]
    else
      var before := ops[..|ops| - 1];
      var k := Touched(Run([], before), ops[|ops| - 1]);
      if k.Some? then Touches(before)[k.value := |ops|] else Touches(before)
  }

  /** The items are in order of their last touch, oldest first. */
  ghost predicate Aged(s: Items, clock: Clock) {
    s == [] ||
    (&& s[0].key in clock
     && Aged(s[1..], clock)
     && forall k :: Has(s[1..], k) && k in clock ==> clock[s[0].key] < clock[k])
  }

  lemma {:induction false} AgedHas(s: Items, clock: Clock, k: string)
    requires Aged(s, clock) && Has(s, k)
    ensures k in clock
  {
    if s[0].key != k {
      AgedHas(s[1..], clock, k);
    }
  }

  lemma {:induction false} AgedWithin(a: Items, b: Items, clock: Clock)
    requires Within(a, b) && Aged(b, clock)
    ensures Aged(a, clock)
  {
    if a != [] {
      if a[0] == b[0] && Within(a[1..], b[1..]) {
        AgedWithin(a[1..], b[1..], clock);
        forall k | Has(a[1..], k) && k in clock ensures clock[a[0].key] < clock[k] {
          WithinHas(a[1..], b[1..], k);
        }
      } else {
        AgedWithin(a, b[1..], clock);
      }
    }
  }

  /** Only the keys stored matter to the order. */
  lemma {:induction false} AgedSame(s: Items, clock: Clock, k: string, t: nat)
    requires Aged(s, clock) && !Has(s, k)
    ensures Aged(s, clock[k := t])
  {
    if s != [] {
      AgedSame(s[1..], clock, k, t);
    }
  }

  lemma {:induction false} AgedSnoc(s: Items, clock: Clock, e: Item<Record>)
    requires Aged(s, clock) && e.key in clock
    requires forall k :: Has(s, k) && k in clock ==> clock[k] < clock[e.key]
    ensures Aged(s + [e], clock)
  {
    if s == [] {
      assert s + [e] == [e] && Aged([], clock);
    } else {
      AgedSnoc(s[1..], clock, e);
      assert (s + [e])[1..] == s[1..] + [e];
      forall k | Has(s[1..] + [e], k) && k in clock ensures clock[s[0].key] < clock[k] {
        FindAppend(s[1..], e, k);
      }
    }
  }

  lemma {:induction false} WithoutWithin(s: Items, k: string)
    ensures Within(Without(s, k), s)
  {
    if s != [] {
      WithoutWithin(s[1..], k);
      if s[0].key != k {
        assert Without(s, k)[1..] == Without(s[1..], k);
      }
    }
  }

  /** A trim takes entries out and does nothing else: the survivors keep their order. */
  lemma {:induction false} TrimmedWithin(s: Items, p: string, limit: nat)
    ensures Within(Trimmed(s, p, limit), s)
  {
    if s != [] {
      TrimmedWithin(s[1..], p, limit);
      var t := Trimmed(s[1..], p, limit);
      assert ([s[0]] + t)[1..] == t;
    }
  }

  /** A touch makes its key the youngest. */
  lemma AgedLatest(s: Items, clock: Clock, k: string, r: Record, now: nat)
    requires Aged(s, clock) && forall x :: x in clock ==> clock[x] < now
    ensures Aged(Latest(s, k, r), clock[k := now])
  {
    WithoutWithin(s, k);
    AgedWithin(Without(s, k), s, clock);
    WithoutKeys(s, k);
    AgedSame(Without(s, k), clock, k, now);
    AgedSnoc(Without(s, k), clock[k := now], Item(k, r));
  }

  lemma {:induction false} RunAged(ops: seq<Op>)
    ensures Aged(Run([], ops), Touches(ops))
  {
    if ops != [] {
      var before, op := ops[..|ops| - 1], ops[|ops| - 1];
      var s := Run([], before);
      RunAged(before);
      match op {
        case Read(k) => if Has(s, k) { AgedLatest(s, Touches(before), k, Find(s, k).value, |ops|); }
        case Write(k, r) => AgedLatest(s, Touches(before), k, r, |ops|);
        case Trim(p, limit) =>
          TrimmedWithin(s, p, limit);
          AgedWithin(Trimmed(s, p, limit), s, Touches(before));
      }
    }
  }

  /** The stored keys of a family touched later than `k`. */
  ghost function Newer(s: Items, clock: Clock, p: string, k: string): set<string>
    requires k in clock
  {
    set x | x in clock && Has(s, x) && InFamily(x, p) && clock[x] > clock[k]
  }

  lemma {:induction false} TrimmedAwayIff(s: Items, clock: Clock, p: string, limit: nat, k: string)
    requires Distinct(s) && Aged(s, clock) && Has(s, k) && k in clock
    ensures !Has(Trimmed(s, p, limit), k) <==> InFamily(k, p) && |Newer(s, clock, p, k)| >= limit
  {
    DistinctHead(s);
    TrimmedHas(s[1..], p, limit);
    var t := Trimmed(s[1..], p, limit);
    assert ([s[0]] + t)[1..] == t;
    if s[0].key == k {
      forall x ensures x in FamilyKeys(s[1..], p) <==> x in Newer(s, clock, p, k) {
        FamilyHas(s[1..], p, x);
        if Has(s[1..], x) {
          AgedHas(s[1..], clock, x);
        }
      }
      FamilyDistinct(s[1..], p);
      Cardinality(FamilyKeys(s[1..], p), Newer(s, clock, p, k));
    } else {
      TrimmedAwayIff(s[1..], clock, p, limit, k);
      assert Newer(s, clock, p, k) == Newer(s[1..], clock, p, k);
    }
  }

  /**
   The promise: a trim evicts a stored key exactly when `limit` or more other stored keys of
   its family had a later write or read hit. No other key goes, and the rest keep their order.
   */
  lemma TrimEvictsTheLeastRecentlyUsed(ops: seq<Op>, p: string, limit: nat, k: string)
    requires Has(Run([], ops), k)
    ensures k in Touches(ops)
    ensures var s := Run([], ops);
            && (!Has(Trimmed(s, p, limit), k) <==> InFamily(k, p) && |Newer(s, Touches(ops), p, k)| >= limit)
            && Within(Trimmed(s, p, limit), s)
            && FamilySize(Trimmed(s, p, limit), p) <= limit
  {
    var s := Run([], ops);
    RunAged(ops);
    RunDistinct([], ops);
    AgedHas(s, Touches(ops), k);
    TrimmedAwayIff(s, Touches(ops), p, limit, k);
    TrimmedWithin(s, p, limit);
    TrimmedSize(s, p, limit);
  }

  function LastWritten(ops: seq<Op>, k: string): Option<Record> {
    if ops == [] then None
    else
      var op := ops[|ops| - 1];
      if op.Write? && op.key == k then Some(op.record) else LastWritten(ops[..|ops| - 1], k)
  }

  /** A read answers the last record written under its key, or nothing: never an older one. */
  lemma {:induction false} ReadsAreNeverStale(ops: seq<Op>, k: string)
    ensures Find(Run([], ops), k).Some? ==> Find(Run([], ops), k) == LastWritten(ops, k)
  {
    if ops != [] {
      var before, op := ops[..|ops| - 1], ops[|ops| - 1];
      var s := Run([], before);
      ReadsAreNeverStale(before, k);
      RunDistinct([], before);
      match op {
        case Read(x) => if Has(s, x) { LatestKeys(s, x, Find(s, x).value); }
        case Write(x, r) => LatestKeys(s, x, r);
        case Trim(p, limit) =>
          TrimmedHas(s, p, limit);
          assert Has(Trimmed(s, p, limit), k) ==> Find(Trimmed(s, p, limit), k) == Find(s, k);
      }
    }
  }

  lemma MissStep(s: Items, op: Op, k: string)
    requires Find(Step(s, op), k).None?
    ensures Has(s, k) ==> op.Trim? && InFamily(k, op.prefix)
    ensures !(op.Write? && op.key == k)
  {
    match op
    case Read(x) => if Has(s, x) { LatestKeys(s, x, Find(s, x).value); }
    case Write(x, r) => LatestKeys(s, x, r);
    case Trim(p, limit) => TrimmedHas(s, p, limit);
  }

  /** And it answers nothing for a key written only if a trim has evicted it since the last write. */
  lemma {:induction false} ReadsMissOnlyAfterEviction(ops: seq<Op>, k: string) returns (i: nat)
    requires LastWritten(ops, k).Some? && Find(Run([], ops), k).None?
    ensures i < |ops| && ops[i].Trim? && InFamily(k, ops[i].prefix)
    ensures Has(Run([], ops[..i]), k) && !Has(Run([], ops[..i + 1]), k)
    ensures forall j :: i < j < |ops| ==> !(ops[j].Write? && ops[j].key == k)
  {
    var before, op := ops[..|ops| - 1], ops[|ops| - 1];
    MissStep(Run([], before), op, k);
    if Has(Run([], before), k) {
      i := |before|;
      assert ops[..|before| + 1] == ops;
    } else {
      i := ReadsMissOnlyAfterEviction(before, k);
      assert ops[..i] == before[..i] && ops[..i + 1] == before[..i + 1];
    }
  }

  lemma {:induction false} ResultAt(ops: seq<Op>, i: nat)
    requires i < |ops|
    ensures |Results([], ops)| == |ops|
    ensures Results([], ops)[i] == if ops[i].Read? then Find(Run([], ops[..i]), ops[i].key) else None
  {
    var before := ops[..|ops| - 1];
    if i == |before| {
      ResultsCount(ops);
    } else {
      ResultAt(before, i);
      ResultsCount(ops);
      assert before[..i] == ops[..i];
    }
  }

  lemma {:induction false} ResultsCount(ops: seq<Op>)
    ensures |Results([], ops)| == |ops|
  {
    if ops != [] {
      ResultsCount(ops[..|ops| - 1]);
    }
  }

  /**
   Seen by the caller: the answer to a read is the last record written under its key before,
   or nothing, and nothing after a write only if a trim of the family has come in between.
   Writes and trims answer nothing.
   */
  lemma AnswersAreNeverStale(ops: seq<Op>, i: nat)
    requires i < |ops|
    ensures |Results([], ops)| == |ops|
    ensures !ops[i].Read? ==> Results([], ops)[i] == None
    ensures ops[i].Read? && Results([], ops)[i].Some? ==> Results([], ops)[i] == LastWritten(ops[..i], ops[i].key)
    ensures ops[i].Read? && Results([], ops)[i].None? ==>
              LastWritten(ops[..i], ops[i].key).None?
              || exists j :: 0 <= j < i && ops[j].Trim? && InFamily(ops[i].key, ops[j].prefix)
                             && forall n :: j < n < i ==> !(ops[n].Write? && ops[n].key == ops[i].key)
  {
    ResultAt(ops, i);
    if ops[i].Read? {
      ReadsAreNeverStale(ops[..i], ops[i].key);
      if Results([], ops)[i].None? && LastWritten(ops[..i], ops[i].key).Some? {
        var j := ReadsMissOnlyAfterEviction(ops[..i], ops[i].key);
        assert ops[..i][j] == ops[j];
        assert forall n :: j < n < i ==> ops[..i][n] == ops[n];
      }
    }
  }
}
