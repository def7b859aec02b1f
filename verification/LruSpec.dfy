/** The state-store seam: what `read`, `write` and `trim` mean, as functions of the items in LRU order. */
module LruSpec {
  import opened Wrappers
  import opened Ordered

  /** A caller record, opaque to the store. */
  type Record = string

  type Items = seq<Item<Record>>

  datatype Op = Read(key: string) | Write(key: string, record: Record) | Trim(prefix: string, limit: nat)

  /** `key.startswith(prefix)`. */
  predicate InFamily(key: string, prefix: string) {
    prefix <= key
  }

  function FamilySize(s: Items, p: string): nat {
    if s == [] then 0 else (if InFamily(s[0].key, p) then 1 else 0) + FamilySize(s[1..], p)
  }

  /** Only the `limit` most recent keys of the family stay; nothing else moves. */
  function Trimmed(s: Items, p: string, limit: nat): Items {
    if s == [] then []
    else if InFamily(s[0].key, p) && FamilySize(s[1..], p) >= limit then Trimmed(s[1..], p, limit)
    else [s[0]] + Trimmed(s[1..], p, limit)
  }

  function Step(s: Items, op: Op): Items {
    match op
    case Read(k) => if Find(s, k).Some? then Latest(s, k, Find(s, k).value) else s
    case Write(k, r) => Latest(s, k, r)
    case Trim(p, limit) => Trimmed(s, p, limit)
  }

  function Result(s: Items, op: Op): Option<Record> {
    if op.Read? then Find(s, op.key) else None
  }

  function Run(s: Items, ops: seq<Op>): Items {
    if ops == [] then s else Step(Run(s, ops[..|ops| - 1]), ops[|ops| - 1])
  }

  /** What every operation of a history answered. */
  function Results(s: Items, ops: seq<Op>): seq<Option<Record>> {
    if ops == [] then []
    else Results(s, ops[..|ops| - 1]) + [Result(Run(s, ops[..|ops| - 1]), ops[|ops| - 1])]
  }

  lemma RunSnoc(s: Items, ops: seq<Op>, op: Op)
    ensures Run(s, ops + [op]) == Step(Run(s, ops), op)
    ensures Results(s, ops + [op]) == Results(s, ops) + [Result(Run(s, ops), op)]
  {
    assert (ops + [op])[..|ops|] == ops;
  }

  // --- the family's keys, as `trim` lists them ----------------------------

  function FamilyKeys(s: Items, p: string): (keys: seq<string>)
    ensures |keys| == FamilySize(s, p)
  {
    if s == [] then []
    else (if InFamily(s[0].key, p) then [s[0].key] else []) + FamilyKeys(s[1..], p)
  }

  function WithoutAll(s: Items, keys: seq<string>): Items
    decreases keys
  {
    if keys == [] then s else WithoutAll(Without(s, keys[0]), keys[1..])
  }

  lemma {:induction false} FamilyHas(s: Items, p: string, k: string)
    ensures k in FamilyKeys(s, p) <==> Has(s, k) && InFamily(k, p)
  {
    if s != [] {
      FamilyHas(s[1..], p, k);
    }
  }

  lemma {:induction false} FamilyDistinct(s: Items, p: string)
    requires Distinct(s)
    ensures forall i, j :: 0 <= i < j < |FamilyKeys(s, p)| ==> FamilyKeys(s, p)[i] != FamilyKeys(s, p)[j]
  {
    if s != [] {
      DistinctHead(s);
      FamilyDistinct(s[1..], p);
      FamilyHas(s[1..], p, s[0].key);
    }
  }

  lemma {:induction false} TrimmedHas(s: Items, p: string, limit: nat)
    ensures forall k :: Has(Trimmed(s, p, limit), k) ==> Has(s, k)
    ensures forall k :: Has(s, k) && !InFamily(k, p) ==> Has(Trimmed(s, p, limit), k)
    ensures Distinct(s) ==> Distinct(Trimmed(s, p, limit))
    ensures Distinct(s) ==> forall k :: Has(Trimmed(s, p, limit), k) ==> Find(Trimmed(s, p, limit), k) == Find(s, k)
  {
    if s != [] {
      TrimmedHas(s[1..], p, limit);
      DistinctHead(s);
      var r := Trimmed(s, p, limit);
      if r == [s[0]] + Trimmed(s[1..], p, limit) {
        assert r[1..] == Trimmed(s[1..], p, limit);
        DistinctHead(r);
      }
    }
  }

  lemma StepDistinct(s: Items, op: Op)
    requires Distinct(s)
    ensures Distinct(Step(s, op))
  {
    match op
    case Read(k) => if Find(s, k).Some? { LatestKeys(s, k, Find(s, k).value); }
    case Write(k, r) => LatestKeys(s, k, r);
    case Trim(p, limit) => TrimmedHas(s, p, limit);
  }

  lemma {:induction false} RunDistinct(s: Items, ops: seq<Op>)
    requires Distinct(s)
    ensures Distinct(Run(s, ops))
  {
    if ops != [] {
      RunDistinct(s, ops[..|ops| - 1]);
      StepDistinct(Run(s, ops[..|ops| - 1]), ops[|ops| - 1]);
    }
  }

  lemma {:induction false} WithoutSize(s: Items, k: string, p: string)
    requires Distinct(s)
    ensures FamilySize(Without(s, k), p) == FamilySize(s, p) - if Has(s, k) && InFamily(k, p) then 1 else 0
  {
    if s != [] {
      DistinctHead(s);
      WithoutSize(s[1..], k, p);
      if s[0].key == k {
        assert !Has(s[1..], k);
      } else {
        assert Without(s, k)[1..] == Without(s[1..], k);
      }
    }
  }

  /** Deleting the family's oldest key is one step of the trim, as long as there is one too many. */
  lemma {:induction false} TrimOldest(s: Items, p: string, limit: nat)
    requires Distinct(s) && FamilySize(s, p) > limit
    ensures var oldest := FamilyKeys(s, p)[0];
            && FamilyKeys(Without(s, oldest), p) == FamilyKeys(s, p)[1..]
            && Trimmed(Without(s, oldest), p, limit) == Trimmed(s, p, limit)
  {
    var oldest := FamilyKeys(s, p)[0];
    DistinctHead(s);
    if InFamily(s[0].key, p) {
      assert !Has(s[1..], oldest);
      WithoutKeys(s[1..], oldest);
    } else {
      TrimOldest(s[1..], p, limit);
      WithoutSize(s[1..], oldest, p);
      assert Without(s, oldest)[1..] == Without(s[1..], oldest);
      FamilyHas(s, p, oldest);
      assert Without(s, oldest)[0] == s[0];
    }
  }

  lemma {:induction false} TrimWithin(s: Items, p: string, limit: nat)
    requires FamilySize(s, p) <= limit
    ensures Trimmed(s, p, limit) == s
  {
    if s != [] {
      TrimWithin(s[1..], p, limit);
    }
  }

  /** So the trim deletes the family's oldest keys, exactly as many as are above the limit. */
  lemma {:induction false} TrimIsDeletion(s: Items, p: string, limit: nat)
    requires Distinct(s)
    ensures var excess := if FamilySize(s, p) > limit then FamilySize(s, p) - limit else 0;
            Trimmed(s, p, limit) == WithoutAll(s, FamilyKeys(s, p)[..excess])
    decreases FamilySize(s, p)
  {
    if FamilySize(s, p) > limit {
      var keys := FamilyKeys(s, p);
      var t := Without(s, keys[0]);
      TrimOldest(s, p, limit);
      WithoutKeys(s, keys[0]);
      TrimIsDeletion(t, p, limit);
      var excess := |keys| - limit;
      assert keys[..excess][0] == keys[0] && keys[..excess][1..] == keys[1..][..excess - 1];
    } else {
      TrimWithin(s, p, limit);
    }
  }
}
