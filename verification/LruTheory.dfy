/** What a user of the store may rely on, over whole histories of operations. */
module LruTheory {
  import opened Wrappers
  import opened Ordered
  import opened LruSpec

  // --- non-interference of families ---------------------------------------

  /** Neither prefix starts the other, so no key is in both families. */
  predicate Unrelated(p: string, q: string) {
    !(p <= q) && !(q <= p)
  }

  lemma PrefixesNest(p: string, q: string, k: string)
    requires p <= k && q <= k && |p| <= |q|
    ensures p <= q
  {
    assert p == k[..|p|] && q == k[..|q|];
  }

  lemma UnrelatedFamilies(p: string, q: string, k: string)
    requires Unrelated(p, q)
    ensures !(InFamily(k, p) && InFamily(k, q))
  {
    if InFamily(k, p) && InFamily(k, q) {
      if |p| <= |q| {
        PrefixesNest(p, q, k);
      } else {
        PrefixesNest(q, p, k);
      }
    }
  }

  function Project(s: Items, p: string): Items {
    if s == [] then []
    else if InFamily(s[0].key, p) then [s[0]] + Project(s[1..], p)
    else Project(s[1..], p)
  }

  lemma {:induction false} ProjectSize(s: Items, p: string)
    ensures FamilySize(Project(s, p), p) == FamilySize(s, p)
  {
    if s != [] {
      ProjectSize(s[1..], p);
    }
  }

  lemma {:induction false} ProjectTrimmed(s: Items, p: string, limit: nat)
    ensures Project(Trimmed(s, p, limit), p) == Trimmed(Project(s, p), p, limit)
  {
    if s != [] {
      ProjectTrimmed(s[1..], p, limit);
      ProjectSize(s[1..], p);
    }
  }

  lemma {:induction false} ProjectForeignTrim(s: Items, p: string, q: string, limit: nat)
    requires Unrelated(p, q)
    ensures Project(Trimmed(s, q, limit), p) == Project(s, p)
    ensures FamilySize(Trimmed(s, q, limit), p) == FamilySize(s, p)
  {
    if s != [] {
      ProjectForeignTrim(s[1..], p, q, limit);
      if InFamily(s[0].key, p) {
        UnrelatedFamilies(p, q, s[0].key);
      }
    }
  }

  lemma {:induction false} ProjectWithout(s: Items, p: string, k: string)
    ensures Project(Without(s, k), p) == if InFamily(k, p) then Without(Project(s, p), k) else Project(s, p)
  {
    if s != [] {
      ProjectWithout(s[1..], p, k);
    }
  }

  lemma {:induction false} ProjectSnoc(s: Items, p: string, e: Item<Record>)
    ensures Project(s + [e], p) == Project(s, p) + if InFamily(e.key, p) then [e] else []
  {
    if s != [] {
      ProjectSnoc(s[1..], p, e);
      assert (s + [e])[1..] == s[1..] + [e];
    }
  }

  lemma {:induction false} ProjectFind(s: Items, p: string, k: string)
    requires InFamily(k, p)
    ensures Find(Project(s, p), k) == Find(s, k)
  {
    if s != [] {
      ProjectFind(s[1..], p, k);
      if InFamily(s[0].key, p) {
        assert Project(s, p)[1..] == Project(s[1..], p);
      }
    }
  }

  predicate Concerns(op: Op, p: string) {
    match op
    case Read(k) => InFamily(k, p)
    case Write(k, _) => InFamily(k, p)
    case Trim(q, _) => q == p
  }

  /** An operation of the family, or one of a family that has nothing to do with it. */
  predicate Separate(op: Op, p: string) {
    Concerns(op, p) || (op.Trim? ==> Unrelated(p, op.prefix))
  }

  function OfFamily(ops: seq<Op>, p: string): seq<Op> {
    if ops == [] then []
    else OfFamily(ops[..|ops| - 1], p) + if Concerns(ops[|ops| - 1], p) then [ops[|ops| - 1]] else []
  }

  /** The answers the family's own operations got. */
  function FamilyResults(s: Items, ops: seq<Op>, p: string): seq<Option<Record>> {
    if ops == [] then []
    else
      FamilyResults(s, ops[..|ops| - 1], p) +
      if Concerns(ops[|ops| - 1], p) then [Result(Run(s, ops[..|ops| - 1]), ops[|ops| - 1])] else []
  }

  lemma ProjectStep(s: Items, op: Op, p: string)
    requires Separate(op, p)
    ensures Project(Step(s, op), p) == if Concerns(op, p) then Step(Project(s, p), op) else Project(s, p)
    ensures Concerns(op, p) ==> Result(s, op) == Result(Project(s, p), op)
  {
    match op
    case Read(k) =>
      ProjectWithout(s, p, k);
      if Find(s, k).Some? {
        ProjectSnoc(Without(s, k), p, Item(k, Find(s, k).value));
      }
      if InFamily(k, p) {
        ProjectFind(s, p, k);
      }
    case Write(k, r) =>
      ProjectWithout(s, p, k);
      ProjectSnoc(Without(s, k), p, Item(k, r));
    case Trim(q, limit) =>
      if q == p {
        ProjectTrimmed(s, p, limit);
      } else {
        ProjectForeignTrim(s, p, q, limit);
      }
  }

  /** In a shared store a family behaves as in a store of its own fed only its own operations. */
  lemma {:induction false} FamiliesDoNotInterfere(s: Items, ops: seq<Op>, p: string)
    requires forall i :: 0 <= i < |ops| ==> Separate(ops[i], p)
    ensures Project(Run(s, ops), p) == Run(Project(s, p), OfFamily(ops, p))
    ensures FamilyResults(s, ops, p) == Results(Project(s, p), OfFamily(ops, p))
  {
    if ops != [] {
      var before, op := ops[..|ops| - 1], ops[|ops| - 1];
      FamiliesDoNotInterfere(s, before, p);
      var now := Run(s, before);
      assert Run(s, ops) == Step(now, op);
      ProjectStep(now, op, p);
      if Concerns(op, p) {
        assert OfFamily(ops, p) == OfFamily(before, p) + [op];
        assert FamilyResults(s, ops, p) == FamilyResults(s, before, p) + [Result(now, op)];
        LruSpec.RunSnoc(Project(s, p), OfFamily(before, p), op);
      } else {
        assert OfFamily(ops, p) == OfFamily(before, p);
        assert FamilyResults(s, ops, p) == FamilyResults(s, before, p);
      }
    }
  }

  /** So the trims of two families commute, on the whole store and in its order. */
  lemma {:induction false} TrimsCommute(s: Items, p: string, n: nat, q: string, m: nat)
    requires Unrelated(p, q)
    ensures Trimmed(Trimmed(s, p, n), q, m) == Trimmed(Trimmed(s, q, m), p, n)
  {
    if s != [] {
      TrimsCommute(s[1..], p, n, q, m);
      ProjectForeignTrim(s[1..], p, q, m);
      ProjectForeignTrim(s[1..], q, p, n);
      if InFamily(s[0].key, p) {
        UnrelatedFamilies(p, q, s[0].key);
      }
    }
  }

  // --- inclusion ----------------------------------------------------------

  /** `a` is `b` with some entries left out: same records, same order. */
  predicate Within(a: Items, b: Items) {
    a == [] || (b != [] && ((a[0] == b[0] && Within(a[1..], b[1..])) || Within(a, b[1..])))
  }

  lemma {:induction false} WithinSize(a: Items, b: Items, p: string)
    requires Within(a, b)
    ensures FamilySize(a, p) <= FamilySize(b, p)
  {
    if a != [] {
      if a[0] == b[0] && Within(a[1..], b[1..]) {
        WithinSize(a[1..], b[1..], p);
      } else {
        WithinSize(a, b[1..], p);
      }
    }
  }

  lemma {:induction false} WithinHas(a: Items, b: Items, k: string)
    requires Within(a, b) && Has(a, k)
    ensures Has(b, k)
    ensures Distinct(a) && Distinct(b) ==> Find(a, k) == Find(b, k)
  {
    DistinctHead(a);
    DistinctHead(b);
    if a[0] == b[0] && Within(a[1..], b[1..]) {
      if a[0].key != k {
        WithinHas(a[1..], b[1..], k);
      }
    } else {
      WithinHas(a, b[1..], k);
    }
  }

  lemma {:induction false} WithinWithout(a: Items, b: Items, k: string)
    requires Within(a, b)
    ensures Within(Without(a, k), Without(b, k))
  {
    if a != [] {
      if a[0] == b[0] && Within(a[1..], b[1..]) {
        WithinWithout(a[1..], b[1..], k);
      } else {
        WithinWithout(a, b[1..], k);
        if b[0].key != k {
          assert Without(b, k)[1..] == Without(b[1..], k);
        }
      }
    }
  }

  lemma {:induction false} WithinSnoc(a: Items, b: Items, e: Item<Record>)
    requires Within(a, b)
    ensures Within(a, b + [e]) && Within(a + [e], b + [e])
  {
    if b == [] {
      assert Within([e], [e]);
      assert a + [e] == [e] && b + [e] == [e];
    } else {
      assert (b + [e])[1..] == b[1..] + [e];
      if a != [] && a[0] == b[0] && Within(a[1..], b[1..]) {
        WithinSnoc(a[1..], b[1..], e);
        assert (a + [e])[1..] == a[1..] + [e];
      } else {
        WithinSnoc(a, b[1..], e);
      }
    }
  }

  /** Trimming keeps the inclusion when the larger store holds few enough keys the smaller one lost. */
  lemma {:induction false} WithinTrimmed(a: Items, b: Items, p: string, n: nat, m: nat)
    requires Within(a, b) && n <= m && FamilySize(b, p) - FamilySize(a, p) <= m - n
    ensures Within(Trimmed(a, p, n), Trimmed(b, p, m))
    ensures FamilySize(Trimmed(b, p, m), p) - FamilySize(Trimmed(a, p, n), p) <= m - n
    decreases |b|
  {
    TrimmedSize(a, p, n);
    TrimmedSize(b, p, m);
    if a != [] {
      if a[0] == b[0] && Within(a[1..], b[1..]) {
        WithinTrimmed(a[1..], b[1..], p, n, m);
      } else {
        WithinTrimmed(a, b[1..], p, n, m);
      }
      var t := Trimmed(b[1..], p, m);
      assert ([b[0]] + t)[1..] == t;
    }
  }

  lemma {:induction false} TrimmedSize(s: Items, p: string, limit: nat)
    ensures FamilySize(Trimmed(s, p, limit), p) == if FamilySize(s, p) < limit then FamilySize(s, p) else limit
  {
    if s != [] {
      TrimmedSize(s[1..], p, limit);
      var t := Trimmed(s[1..], p, limit);
      assert ([s[0]] + t)[1..] == t;
    }
  }

  /** The bound each family is trimmed to. */
  type Bounds = map<string, nat>

  /** Families with a fixed bound each, none of them inside another. */
  ghost predicate Partitioned(ops: seq<Op>, bounds: Bounds) {
    && (forall p, q :: p in bounds && q in bounds && p != q ==> Unrelated(p, q))
    && forall i :: 0 <= i < |ops| && ops[i].Trim? ==> ops[i].prefix in bounds
  }

  /** The same operations, every trim to its family's bound. */
  function Bounded(ops: seq<Op>, bounds: Bounds): seq<Op> {
    if ops == [] then []
    else
      var op := ops[|ops| - 1];
      Bounded(ops[..|ops| - 1], bounds) +
      [if op.Trim? && op.prefix in bounds then op.(limit := bounds[op.prefix]) else op]
  }

  /** The larger store holds everything the smaller one does, and not too much else. */
  ghost predicate Includes(a: Items, b: Items, small: Bounds, large: Bounds) {
    && Distinct(a) && Distinct(b)
    && Within(a, b)
    && forall p :: p in small && p in large ==> FamilySize(b, p) + small[p] <= FamilySize(a, p) + large[p]
  }

  lemma TouchIncludes(a: Items, b: Items, k: string, r: Record, small: Bounds, large: Bounds)
    requires Includes(a, b, small, large)
    ensures Includes(Latest(a, k, r), Latest(b, k, r), small, large)
  {
    LatestKeys(a, k, r);
    LatestKeys(b, k, r);
    WithinWithout(a, b, k);
    WithinSnoc(Without(a, k), Without(b, k), Item(k, r));
    if Has(a, k) {
      WithinHas(a, b, k);
    }
    forall p | p in small && p in large
      ensures FamilySize(Latest(b, k, r), p) + small[p] <= FamilySize(Latest(a, k, r), p) + large[p]
    {
      LatestSize(a, k, r, p);
      LatestSize(b, k, r, p);
    }
  }

  lemma LatestSize(s: Items, k: string, r: Record, p: string)
    requires Distinct(s)
    ensures FamilySize(Latest(s, k, r), p) == FamilySize(s, p) + if !Has(s, k) && InFamily(k, p) then 1 else 0
  {
    WithoutSize(s, k, p);
    SizeSnoc(Without(s, k), Item(k, r), p);
  }

  lemma {:induction false} SizeSnoc(s: Items, e: Item<Record>, p: string)
    ensures FamilySize(s + [e], p) == FamilySize(s, p) + if InFamily(e.key, p) then 1 else 0
  {
    if s != [] {
      SizeSnoc(s[1..], e, p);
      assert (s + [e])[1..] == s[1..] + [e];
    }
  }

  lemma ReadIncludes(a: Items, b: Items, k: string, small: Bounds, large: Bounds)
    requires Includes(a, b, small, large)
    ensures Includes(Step(a, Op.Read(k)), Step(b, Op.Read(k)), small, large)
    ensures Find(a, k).Some? ==> Find(b, k) == Find(a, k)
  {
    if Has(a, k) {
      WithinHas(a, b, k);
      TouchIncludes(a, b, k, Find(a, k).value, small, large);
    } else if Has(b, k) {
      var r := Find(b, k).value;
      LatestKeys(b, k, r);
      WithoutAbsent(a, k);
      WithinWithout(a, b, k);
      WithinSnoc(a, Without(b, k), Item(k, r));
      forall p | p in small && p in large
        ensures FamilySize(Latest(b, k, r), p) + small[p] <= FamilySize(a, p) + large[p]
      {
        LatestSize(b, k, r, p);
      }
    }
  }

  lemma TrimIncludes(a: Items, b: Items, p: string, small: Bounds, large: Bounds)
    requires Includes(a, b, small, large)
    requires p in small && p in large && small[p] <= large[p]
    requires forall q :: q in small && q in large && q != p ==> Unrelated(p, q)
    ensures Includes(Trimmed(a, p, small[p]), Trimmed(b, p, large[p]), small, large)
  {
    TrimmedHas(a, p, small[p]);
    TrimmedHas(b, p, large[p]);
    WithinTrimmed(a, b, p, small[p], large[p]);
    forall q | q in small && q in large && q != p
      ensures FamilySize(Trimmed(b, p, large[p]), q) + small[q] <= FamilySize(Trimmed(a, p, small[p]), q) + large[q]
    {
      ProjectForeignTrim(a, q, p, small[p]);
      ProjectForeignTrim(b, q, p, large[p]);
    }
  }

  /**
   LRU inclusion. The same history, trimmed to smaller and to larger bounds: the smaller store
   is the larger one with entries left out, and whatever it still answers the larger one
   answers too. A larger bound never loses a key.
   */
  lemma {:induction false} RaisingTheBoundLosesNothing(ops: seq<Op>, small: Bounds, large: Bounds)
    requires Partitioned(ops, small) && small.Keys == large.Keys
    requires forall p :: p in small ==> small[p] <= large[p]
    ensures var a, b := Run([], Bounded(ops, small)), Run([], Bounded(ops, large));
            && Includes(a, b, small, large)
            && forall k :: Find(a, k).Some? ==> Find(b, k) == Find(a, k)
  {
    if ops != [] {
      var before, op := ops[..|ops| - 1], ops[|ops| - 1];
      RaisingTheBoundLosesNothing(before, small, large);
      var a, b := Run([], Bounded(before, small)), Run([], Bounded(before, large));
      BoundedSnoc(ops, small);
      BoundedSnoc(ops, large);
      match op {
        case Read(k) => ReadIncludes(a, b, k, small, large);
        case Write(k, r) => TouchIncludes(a, b, k, r, small, large);
        case Trim(p, _) => TrimIncludes(a, b, p, small, large);
      }
    }
    var a, b := Run([], Bounded(ops, small)), Run([], Bounded(ops, large));
    forall k | Find(a, k).Some? ensures Find(b, k) == Find(a, k) {
      WithinHas(a, b, k);
    }
  }

  lemma BoundedSnoc(ops: seq<Op>, bounds: Bounds)
    requires ops != []
    ensures var op := ops[|ops| - 1];
            Run([], Bounded(ops, bounds)) ==
            Step(Run([], Bounded(ops[..|ops| - 1], bounds)),
                 if op.Trim? && op.prefix in bounds then op.(limit := bounds[op.prefix]) else op)
  {
    var front := Bounded(ops[..|ops| - 1], bounds);
    assert Bounded(ops, bounds)[..|front|] == front;
  }

  /** Two writes and two trims of nested families. */
  function Nested(p: string, q: string): seq<Op> {
    [Write(p, ""), Write(q, ""), Trim(q, 0), Trim(p, 0)]
  }

  lemma BoundedPlus(ops: seq<Op>, op: Op, bounds: Bounds)
    ensures Run([], Bounded(ops + [op], bounds)) ==
            Step(Run([], Bounded(ops, bounds)),
                 if op.Trim? && op.prefix in bounds then op.(limit := bounds[op.prefix]) else op)
  {
    assert (ops + [op])[..|ops|] == ops;
    BoundedSnoc(ops + [op], bounds);
  }

  lemma TwoWrites(p: string, q: string, bounds: Bounds)
    requires p != q
    ensures Run([], Bounded([Write(p, ""), Write(q, "")], bounds)) == [Item(p, ""), Item(q, "")]
  {
    assert [] + [Write(p, "")] == [Write(p, "")] && [Write(p, "")] + [Write(q, "")] == [Write(p, ""), Write(q, "")];
    BoundedPlus([], Write(p, ""), bounds);
    BoundedPlus([Write(p, "")], Write(q, ""), bounds);
    assert Latest([], p, "") == [Item(p, "")];
    WithoutAbsent([Item(p, "")], q);
  }

  lemma TwoTrims(ops: seq<Op>, p: string, q: string, bounds: Bounds)
    requires p in bounds && q in bounds
    ensures Run([], Bounded(ops + [Trim(q, 0)] + [Trim(p, 0)], bounds))
            == Trimmed(Trimmed(Run([], Bounded(ops, bounds)), q, bounds[q]), p, bounds[p])
  {
    BoundedPlus(ops, Trim(q, 0), bounds);
    BoundedPlus(ops + [Trim(q, 0)], Trim(p, 0), bounds);
  }

  lemma NestedRun(p: string, q: string, bounds: Bounds)
    requires p in bounds && q in bounds && p != q
    ensures Run([], Bounded(Nested(p, q), bounds))
            == Trimmed(Trimmed([Item(p, ""), Item(q, "")], q, bounds[q]), p, bounds[p])
  {
    var writes := [Write(p, ""), Write(q, "")];
    TwoWrites(p, q, bounds);
    TwoTrims(writes, p, q, bounds);
    assert writes + [Trim(q, 0)] + [Trim(p, 0)] == Nested(p, q);
  }

  /** A family inside another: raising its bound makes room at the cost of a key of the outer one. */
  lemma NestedFamiliesCanLoseAKey(p: string, q: string, small: Bounds, large: Bounds)
    requires p <= q && p != q && p in small && q in small && p in large && q in large
    requires small[p] == 1 == large[p] && small[q] == 0 && large[q] == 1
    ensures Find(Run([], Bounded(Nested(p, q), small)), p).Some?
    ensures Find(Run([], Bounded(Nested(p, q), large)), p).None?
  {
    var x, y := Item(p, ""), Item(q, "");
    NestedRun(p, q, small);
    NestedRun(p, q, large);
    assert !InFamily(p, q) && InFamily(p, p) && InFamily(q, p) && InFamily(q, q);
    assert [x, y][1..] == [y] && [y][1..] == [] && [x][1..] == [];
    assert FamilySize([y], q) == FamilySize([y], p) == 1 by { assert FamilySize([], q) == FamilySize([], p) == 0; }
    assert Trimmed([y], q, 0) == [] && Trimmed([y], q, 1) == [y] + Trimmed([], q, 1);
    assert Trimmed([x, y], q, 0) == [x] + [] == [x] && Trimmed([x, y], q, 1) == [x] + [y] == [x, y];
    assert Trimmed([x], p, 1) == [x] + Trimmed([], p, 1) && Trimmed([y], p, 1) == [y] + Trimmed([], p, 1);
  }

  /** The same families, each bound raised or kept. */
  ghost predicate Raised(families: set<string>, small: Bounds, large: Bounds) {
    small.Keys == families == large.Keys && forall p :: p in small ==> small[p] <= large[p]
  }

  ghost predicate TrimsOnly(ops: seq<Op>, families: set<string>) {
    forall i :: 0 <= i < |ops| && ops[i].Trim? ==> ops[i].prefix in families
  }

  /** Whatever is stored under the smaller bounds is stored under the larger ones. */
  ghost predicate KeepsAll(ops: seq<Op>, small: Bounds, large: Bounds) {
    var a, b := Run([], Bounded(ops, small)), Run([], Bounded(ops, large));
    forall k :: Find(a, k).Some? ==> Find(b, k) == Find(a, k)
  }

  ghost predicate LosesNothing(families: set<string>) {
    forall ops: seq<Op>, small: Bounds, large: Bounds ::
      Raised(families, small, large) && TrimsOnly(ops, families) ==> KeepsAll(ops, small, large)
  }

  ghost predicate Disjoint(families: set<string>) {
    forall p, q :: p in families && q in families && p != q ==> Unrelated(p, q)
  }

  lemma NestedLosesAKey(families: set<string>, p: string, q: string)
    requires p in families && q in families && p != q && p <= q
    ensures !LosesNothing(families)
  {
    var small: Bounds := map f | f in families :: if f == q then 0 else 1;
    var large: Bounds := map f | f in families :: 1;
    NestedFamiliesCanLoseAKey(p, q, small, large);
    assert small.Keys == families == large.Keys;
    assert Raised(families, small, large) && TrimsOnly(Nested(p, q), families);
    assert !KeepsAll(Nested(p, q), small, large);
  }

  /**
   The bounds of a set of families may be raised without loss, in every history, exactly when
   no family is inside another.
   */
  lemma LosesNothingIff(families: set<string>)
    ensures LosesNothing(families) <==> Disjoint(families)
  {
    if Disjoint(families) {
      forall ops: seq<Op>, small: Bounds, large: Bounds |
        Raised(families, small, large) && TrimsOnly(ops, families)
        ensures KeepsAll(ops, small, large)
      {
        RaisingTheBoundLosesNothing(ops, small, large);
      }
    } else {
      var p, q :| p in families && q in families && p != q && !Unrelated(p, q);
      if p <= q {
        NestedLosesAKey(families, p, q);
      } else {
        NestedLosesAKey(families, q, p);
      }
    }
  }
}
