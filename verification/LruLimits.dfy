/**
 Limits that change from one trim of a family to the next: exactly which of them may be raised
 without losing a key in some history.
 */
module LruLimits {
  import opened Wrappers
  import opened Sequences
  import opened Ordered
  import opened LruSpec
  import opened LruTheory

  function Trims(ops: seq<Op>): nat {
    if ops == [] then 0 else Trims(ops[..|ops| - 1]) + if ops[|ops| - 1].Trim? then 1 else 0
  }

  /** The store after a history whose k-th trim is to the k-th of `limits`. */
  function RunLimited(ops: seq<Op>, limits: seq<nat>): Items
    requires Trims(ops) <= |limits|
  {
    if ops == [] then []
    else
      var before, op := ops[..|ops| - 1], ops[|ops| - 1];
      Step(RunLimited(before, limits), if op.Trim? then op.(limit := limits[Trims(before)]) else op)
  }

  /** A history of one family, trimmed at most `n` times. */
  ghost predicate OneFamily(ops: seq<Op>, p: string, n: nat) {
    Trims(ops) <= n && forall i :: 0 <= i < |ops| && ops[i].Trim? ==> ops[i].prefix == p
  }

  /** What `a` stores `b` stores too. */
  ghost predicate Holds(b: Items, a: Items) {
    forall k :: Find(a, k).Some? ==> Find(b, k) == Find(a, k)
  }

  /** No history trimmed to `ns` stores a key that it loses when trimmed to `ms`. */
  ghost predicate LimitsLoseNothing(p: string, ns: seq<nat>, ms: seq<nat>)
    requires |ns| == |ms|
  {
    forall ops: seq<Op> :: OneFamily(ops, p, |ns|) ==> Holds(RunLimited(ops, ms), RunLimited(ops, ns))
  }

  ghost predicate Larger(ns: seq<nat>, ms: seq<nat>) {
    |ns| == |ms| && forall i :: 0 <= i < |ns| ==> ns[i] <= ms[i]
  }

  /** By how much the i-th limit is raised. */
  function Gap(ns: seq<nat>, ms: seq<nat>, i: nat): nat
    requires i < |ns| == |ms|
  {
    if ns[i] <= ms[i] then ms[i] - ns[i] else 0
  }

  /** From one trim to the next the raise does not shrink, unless the next keeps nothing anyway. */
  ghost predicate SafeLimits(ns: seq<nat>, ms: seq<nat>)
    requires |ns| == |ms|
  {
    forall i :: 0 <= i < |ns| - 1 ==> ns[i + 1] == 0 || Gap(ns, ms, i) <= Gap(ns, ms, i + 1)
  }

  lemma LimitedSnoc(ops: seq<Op>, op: Op, limits: seq<nat>)
    requires Trims(ops) + (if op.Trim? then 1 else 0) <= |limits|
    ensures Trims(ops + [op]) == Trims(ops) + if op.Trim? then 1 else 0
    ensures RunLimited(ops + [op], limits) ==
            Step(RunLimited(ops, limits), if op.Trim? then op.(limit := limits[Trims(ops)]) else op)
  {
    assert (ops + [op])[..|ops|] == ops;
  }

  // --- safe limits lose nothing -------------------------------------------

  lemma {:induction false} TrimToNothing(a: Items, b: Items, p: string, m: nat)
    requires Within(a, b)
    ensures Within(Trimmed(a, p, 0), Trimmed(b, p, m))
    decreases |b|
  {
    if a != [] {
      if a[0] == b[0] && Within(a[1..], b[1..]) {
        TrimToNothing(a[1..], b[1..], p, m);
      } else {
        TrimToNothing(a, b[1..], p, m);
      }
      var t := Trimmed(b[1..], p, m);
      assert ([b[0]] + t)[1..] == t;
    }
  }

  /** `a` is `b` with at most `gap` keys of the family left out. */
  ghost predicate Near(a: Items, b: Items, p: string, gap: nat) {
    Includes(a, b, map[p := 0], map[p := gap])
  }

  lemma NearTrims(a: Items, b: Items, p: string, gap: nat, n: nat, m: nat)
    requires Near(a, b, p, gap) && n <= m && (n == 0 || gap <= m - n)
    ensures Near(Trimmed(a, p, n), Trimmed(b, p, m), p, m - n)
  {
    TrimmedHas(a, p, n);
    TrimmedHas(b, p, m);
    TrimmedSize(a, p, n);
    TrimmedSize(b, p, m);
    assert p in map[p := 0] && p in map[p := gap];
    if n == 0 {
      TrimToNothing(a, b, p, m);
    } else {
      WithinTrimmed(a, b, p, n, m);
    }
  }

  /** The raise of the last trim made. */
  function LastGap(ns: seq<nat>, ms: seq<nat>, t: nat): nat
    requires t <= |ns| == |ms|
  {
    if t == 0 then 0 else Gap(ns, ms, t - 1)
  }

  lemma {:induction false} SafeRun(ops: seq<Op>, p: string, ns: seq<nat>, ms: seq<nat>)
    requires Larger(ns, ms) && SafeLimits(ns, ms) && OneFamily(ops, p, |ns|)
    ensures Near(RunLimited(ops, ns), RunLimited(ops, ms), p, LastGap(ns, ms, Trims(ops)))
  {
    if ops != [] {
      var before, op := ops[..|ops| - 1], ops[|ops| - 1];
      SafeRun(before, p, ns, ms);
      var a, b, t := RunLimited(before, ns), RunLimited(before, ms), Trims(before);
      var gap := LastGap(ns, ms, t);
      match op {
        case Read(k) => ReadIncludes(a, b, k, map[p := 0], map[p := gap]);
        case Write(k, r) => TouchIncludes(a, b, k, r, map[p := 0], map[p := gap]);
        case Trim(_, _) =>
          assert t > 0 ==> ns[(t - 1) + 1] == 0 || Gap(ns, ms, t - 1) <= Gap(ns, ms, (t - 1) + 1);
          NearTrims(a, b, p, gap, ns[t], ms[t]);
      }
    }
  }

  lemma SafeLimitsLoseNothing(p: string, ns: seq<nat>, ms: seq<nat>)
    requires Larger(ns, ms) && SafeLimits(ns, ms)
    ensures LimitsLoseNothing(p, ns, ms)
  {
    forall ops: seq<Op> | OneFamily(ops, p, |ns|) ensures Holds(RunLimited(ops, ms), RunLimited(ops, ns)) {
      SafeRun(ops, p, ns, ms);
      var a, b := RunLimited(ops, ns), RunLimited(ops, ms);
      forall k | Find(a, k).Some? ensures Find(b, k) == Find(a, k) {
        WithinHas(a, b, k);
      }
    }
  }

  // --- any others lose a key ----------------------------------------------

  /** As many keys of a family as one likes. */
  function Key(p: string, i: nat): (k: string)
    ensures |k| == |p| + i && p <= k
  {
    p + seq(i, _ => 'k')
  }

  /** The items of the keys from `lo` up to `hi`, oldest first. */
  function Block(p: string, lo: nat, hi: nat): (s: Items)
    requires lo <= hi
    ensures |s| == hi - lo && forall i :: 0 <= i < |s| ==> s[i] == Item(Key(p, lo + i), "")
  {
    seq(hi - lo, i requires 0 <= i < hi - lo => Item(Key(p, lo + i), ""))
  }

  /** Every key is one of the family. */
  ghost predicate Pure(s: Items, p: string) {
    forall i :: 0 <= i < |s| ==> InFamily(s[i].key, p)
  }

  lemma {:induction false} PureSize(s: Items, p: string)
    requires Pure(s, p)
    ensures FamilySize(s, p) == |s|
  {
    if s != [] {
      PureSize(s[1..], p);
    }
  }

  /** Nothing but the age decides when all keys are of the family. */
  lemma {:induction false} PureTrim(s: Items, p: string, n: nat)
    requires Pure(s, p)
    ensures Trimmed(s, p, n) == LastOf(s, n)
  {
    if s != [] {
      PureTrim(s[1..], p, n);
      PureSize(s[1..], p);
      if |s| > n {
        assert LastOf(s, n) == LastOf(s[1..], n);
      } else {
        assert [s[0]] + s[1..] == s;
      }
    }
  }

  lemma BlockHas(p: string, lo: nat, hi: nat, j: nat)
    requires lo <= hi
    ensures Has(Block(p, lo, hi), Key(p, j)) <==> lo <= j < hi
  {
    var s := Block(p, lo, hi);
    HasIndex(s, Key(p, j));
    if lo <= j < hi {
      assert s[j - lo].key == Key(p, j);
    }
  }

  /** A history of the family, its number of trims and what it leaves. */
  ghost predicate Leaves(ops: seq<Op>, p: string, limits: seq<nat>, t: nat, s: Items) {
    t <= |limits| && OneFamily(ops, p, t) && Trims(ops) == t && RunLimited(ops, limits) == s
  }

  lemma ThenTouch(ops: seq<Op>, op: Op, p: string, limits: seq<nat>, t: nat, s: Items)
    requires Leaves(ops, p, limits, t, s) && !op.Trim?
    ensures Leaves(ops + [op], p, limits, t, Step(s, op))
  {
    LimitedSnoc(ops, op, limits);
  }

  lemma ThenTrim(ops: seq<Op>, p: string, limits: seq<nat>, t: nat, s: Items)
    requires Leaves(ops, p, limits, t, s) && t < |limits| && Pure(s, p)
    ensures Leaves(ops + [Trim(p, 0)], p, limits, t + 1, LastOf(s, limits[t]))
  {
    LimitedSnoc(ops, Trim(p, 0), limits);
    PureTrim(s, p, limits[t]);
  }

  /** Trims of an empty store. */
  lemma {:induction false} Idle(p: string, i: nat, ns: seq<nat>, ms: seq<nat>) returns (ops: seq<Op>)
    requires i <= |ns| == |ms|
    ensures Leaves(ops, p, ns, i, []) && Leaves(ops, p, ms, i, [])
  {
    if i == 0 {
      ops := [];
    } else {
      var front := Idle(p, i - 1, ns, ms);
      ThenTrim(front, p, ns, i - 1, []);
      ThenTrim(front, p, ms, i - 1, []);
      ops := front + [Trim(p, 0)];
    }
  }

  lemma NewKey(p: string, from: nat, hi: nat)
    requires from <= hi
    ensures Step(Block(p, from, hi), Write(Key(p, hi), "")) == Block(p, from, hi + 1)
  {
    BlockHas(p, from, hi, hi);
    WithoutAbsent(Block(p, from, hi), Key(p, hi));
    assert Block(p, from, hi) + [Item(Key(p, hi), "")] == Block(p, from, hi + 1);
  }

  lemma OneMoreKey(ops: seq<Op>, p: string, t: nat, from: nat, hi: nat, limits: seq<nat>)
    requires from <= hi && Leaves(ops, p, limits, t, Block(p, from, hi))
    ensures Leaves(ops + [Write(Key(p, hi), "")], p, limits, t, Block(p, from, hi + 1))
  {
    ThenTouch(ops, Write(Key(p, hi), ""), p, limits, t, Block(p, from, hi));
    NewKey(p, from, hi);
  }

  lemma OneMoreWrite(front: seq<Op>, p: string, t: nat, x: nat, y: nat, hi: nat, ns: seq<nat>, ms: seq<nat>)
    returns (ops: seq<Op>)
    requires x <= hi && y <= hi
    requires Leaves(front, p, ns, t, Block(p, x, hi)) && Leaves(front, p, ms, t, Block(p, y, hi))
    ensures Leaves(ops, p, ns, t, Block(p, x, hi + 1)) && Leaves(ops, p, ms, t, Block(p, y, hi + 1))
  {
    OneMoreKey(front, p, t, x, hi, ns);
    OneMoreKey(front, p, t, y, hi, ms);
    ops := front + [Write(Key(p, hi), "")];
  }

  /** Then new keys are written to both stores. */
  lemma {:induction false} Written(front: seq<Op>, p: string, t: nat, x: nat, y: nat, lo: nat, hi: nat,
                                   ns: seq<nat>, ms: seq<nat>) returns (ops: seq<Op>)
    requires x <= lo <= hi && y <= lo
    requires Leaves(front, p, ns, t, Block(p, x, lo)) && Leaves(front, p, ms, t, Block(p, y, lo))
    ensures Leaves(ops, p, ns, t, Block(p, x, hi)) && Leaves(ops, p, ms, t, Block(p, y, hi))
  {
    if lo == hi {
      ops := front;
    } else {
      var most := Written(front, p, t, x, y, lo, hi - 1, ns, ms);
      ops := OneMoreWrite(most, p, t, x, y, hi - 1, ns, ms);
    }
  }

  lemma OldestTouched(p: string, n: nat, hi: nat)
    requires n < hi
    ensures Step(Block(p, n, hi) + Block(p, 0, n), Op.Read(Key(p, n))) == Block(p, n + 1, hi) + Block(p, 0, n + 1)
  {
    var k, tail := Key(p, n), Block(p, n + 1, hi) + Block(p, 0, n);
    var s := [Item(k, "")] + tail;
    assert Block(p, n, hi) == [Item(k, "")] + Block(p, n + 1, hi);
    assert Block(p, n, hi) + Block(p, 0, n) == s;
    HasIndex(tail, k);
    WithoutAbsent(tail, k);
    assert s[1..] == tail;
    assert Find(s, k) == Some("") && Without(s, k) == tail;
    assert Block(p, 0, n) + [Item(k, "")] == Block(p, 0, n + 1);
    assert tail + [Item(k, "")] == Block(p, n + 1, hi) + Block(p, 0, n + 1);
  }

  /** Then the keys that only the larger store holds are read: hits there, misses in the smaller one. */
  lemma {:induction false} Refreshed(front: seq<Op>, p: string, t: nat, n: nat, lo: nat, hi: nat,
                                     ns: seq<nat>, ms: seq<nat>) returns (ops: seq<Op>)
    requires n <= lo <= hi
    requires Leaves(front, p, ns, t, Block(p, lo, hi)) && Leaves(front, p, ms, t, Block(p, 0, hi))
    ensures Leaves(ops, p, ns, t, Block(p, lo, hi)) && Leaves(ops, p, ms, t, Block(p, n, hi) + Block(p, 0, n))
  {
    if n == 0 {
      ops := front;
      assert Block(p, 0, hi) + Block(p, 0, 0) == Block(p, 0, hi);
    } else {
      var most := Refreshed(front, p, t, n - 1, lo, hi, ns, ms);
      var op := Op.Read(Key(p, n - 1));
      ThenTouch(most, op, p, ns, t, Block(p, lo, hi));
      BlockHas(p, lo, hi, n - 1);
      ThenTouch(most, op, p, ms, t, Block(p, n - 1, hi) + Block(p, 0, n - 1));
      OldestTouched(p, n - 1, hi);
      ops := most + [op];
    }
  }

  lemma LastOfBlock(p: string, lo: nat, hi: nat, n: nat)
    requires lo <= hi && n <= hi - lo
    ensures Pure(Block(p, lo, hi), p) && LastOf(Block(p, lo, hi), n) == Block(p, hi - n, hi)
  {
  }

  /** Up to the i-th trim nothing; then as many keys as the larger store keeps, and the trim. */
  lemma Opened(p: string, i: nat, ns: seq<nat>, ms: seq<nat>) returns (ops: seq<Op>)
    requires Larger(ns, ms) && i < |ns|
    ensures Leaves(ops, p, ns, i + 1, Block(p, ms[i] - ns[i], ms[i])) && Leaves(ops, p, ms, i + 1, Block(p, 0, ms[i]))
  {
    var idle := Idle(p, i, ns, ms);
    assert Block(p, 0, 0) == [];
    var full := Written(idle, p, i, 0, 0, 0, ms[i], ns, ms);
    LastOfBlock(p, 0, ms[i], ns[i]);
    LastOfBlock(p, 0, ms[i], ms[i]);
    ThenTrim(full, p, ns, i, Block(p, 0, ms[i]));
    ThenTrim(full, p, ms, i, Block(p, 0, ms[i]));
    ops := full + [Trim(p, 0)];
  }

  /** The first of the keys written last is not among the youngest any more. */
  lemma FirstIsGone(p: string, gap: nat, m: nat, next: nat, limit: nat)
    requires gap <= m && limit < gap + next
    ensures var s := Block(p, gap, m + next) + Block(p, 0, gap);
            Pure(s, p) && !Has(LastOf(s, limit), Key(p, m))
  {
    var s := Block(p, gap, m + next) + Block(p, 0, gap);
    var t := LastOf(s, limit);
    assert |s| == m + next;
    HasIndex(t, Key(p, m));
    assert forall j :: 0 <= j < |t| ==> t[j] == s[|s| - |t| + j];
  }

  /** As many new keys as the smaller store will keep next, the reads, and the next trim: a key is lost. */
  lemma UnsafeLimitsLoseAKey(p: string, ns: seq<nat>, ms: seq<nat>, i: nat)
    requires Larger(ns, ms) && i + 1 < |ns| && ns[i + 1] > 0 && Gap(ns, ms, i) > Gap(ns, ms, i + 1)
    ensures !LimitsLoseNothing(p, ns, ms)
  {
    var m, gap, next := ms[i], Gap(ns, ms, i), ns[i + 1];
    var front := Opened(p, i, ns, ms);
    var written := Written(front, p, i + 1, gap, 0, m, m + next, ns, ms);
    var ops := Refreshed(written, p, i + 1, gap, gap, m + next, ns, ms);
    LastOfBlock(p, gap, m + next, next);
    ThenTrim(ops, p, ns, i + 1, Block(p, gap, m + next));
    FirstIsGone(p, gap, m, next, ms[i + 1]);
    ThenTrim(ops, p, ms, i + 1, Block(p, gap, m + next) + Block(p, 0, gap));
    KeyIsLost(ops + [Trim(p, 0)], p, ns, ms, Key(p, m)) by { BlockHas(p, m, m + next, m); }
  }

  lemma KeyIsLost(ops: seq<Op>, p: string, ns: seq<nat>, ms: seq<nat>, k: string)
    requires |ns| == |ms| && OneFamily(ops, p, |ns|)
    requires Has(RunLimited(ops, ns), k) && !Has(RunLimited(ops, ms), k)
    ensures !LimitsLoseNothing(p, ns, ms)
  {
    assert Find(RunLimited(ops, ns), k).Some? && Find(RunLimited(ops, ms), k).None?;
    assert !Holds(RunLimited(ops, ms), RunLimited(ops, ns));
  }

  /**
   The limits of a family's trims may be raised without loss, in every history, exactly when
   the raise never shrinks from one trim to a next one that keeps anything.
   */
  lemma LimitsLoseNothingIff(p: string, ns: seq<nat>, ms: seq<nat>)
    requires Larger(ns, ms)
    ensures LimitsLoseNothing(p, ns, ms) <==> SafeLimits(ns, ms)
  {
    if SafeLimits(ns, ms) {
      SafeLimitsLoseNothing(p, ns, ms);
    } else {
      var i :| 0 <= i < |ns| - 1 && !(ns[i + 1] == 0 || Gap(ns, ms, i) <= Gap(ns, ms, i + 1));
      UnsafeLimitsLoseAKey(p, ns, ms, i);
    }
  }

  // --- in a store shared with other families ------------------------------

  /** The limits of a history's trims, in order. */
  function LimitsOf(ops: seq<Op>): (limits: seq<nat>)
    ensures |limits| == Trims(ops)
  {
    if ops == [] then []
    else
      LimitsOf(ops[..|ops| - 1]) + if ops[|ops| - 1].Trim? then [ops[|ops| - 1].limit] else []
  }

  /** Two histories that differ in limits only. */
  ghost predicate SameButLimits(a: seq<Op>, b: seq<Op>) {
    |a| == |b| && forall i :: 0 <= i < |a| ==> SameButLimit(a[i], b[i])
  }

  ghost predicate SameButLimit(x: Op, y: Op) {
    x == y || (x.Trim? && y.Trim? && x.prefix == y.prefix)
  }

  lemma {:induction false} RunsToItsLimits(a: seq<Op>, b: seq<Op>, limits: seq<nat>)
    requires SameButLimits(a, b) && LimitsOf(b) <= limits
    ensures Trims(a) == Trims(b) && RunLimited(a, limits) == Run([], b)
  {
    if a != [] {
      var last := |a| - 1;
      assert LimitsOf(b[..last]) <= LimitsOf(b);
      RunsToItsLimits(a[..last], b[..last], limits);
      assert SameButLimit(a[last], b[last]);
      if b[last].Trim? {
        assert LimitsOf(b)[Trims(b[..last])] == b[last].limit;
      }
    }
  }

  lemma {:induction false} FamilyDiffersInLimits(a: seq<Op>, b: seq<Op>, p: string)
    requires SameButLimits(a, b)
    ensures SameButLimits(OfFamily(a, p), OfFamily(b, p))
    ensures forall i :: 0 <= i < |OfFamily(a, p)| && OfFamily(a, p)[i].Trim? ==> OfFamily(a, p)[i].prefix == p
  {
    if a != [] {
      var last := |a| - 1;
      FamilyDiffersInLimits(a[..last], b[..last], p);
      assert SameButLimit(a[last], b[last]);
    }
  }

  /**
   What is safe for a family on its own is safe in a store it shares: however the other,
   unrelated families are trimmed in either store, none of its keys is lost.
   */
  lemma SharedStoreKeepsTheFamily(small: seq<Op>, large: seq<Op>, p: string, k: string)
    requires SameButLimits(small, large) && InFamily(k, p)
    requires forall i :: 0 <= i < |small| ==> Separate(small[i], p)
    requires Larger(LimitsOf(OfFamily(small, p)), LimitsOf(OfFamily(large, p)))
    requires SafeLimits(LimitsOf(OfFamily(small, p)), LimitsOf(OfFamily(large, p)))
    requires Find(Run([], small), k).Some?
    ensures Find(Run([], large), k) == Find(Run([], small), k)
  {
    var own, other := OfFamily(small, p), OfFamily(large, p);
    var ns, ms := LimitsOf(own), LimitsOf(other);
    FamilyDiffersInLimits(small, large, p);
    RunsToItsLimits(own, own, ns);
    RunsToItsLimits(own, other, ms);
    assert forall i :: 0 <= i < |large| ==> SameButLimit(small[i], large[i]) && Separate(small[i], p);
    FamiliesDoNotInterfere([], small, p);
    FamiliesDoNotInterfere([], large, p);
    ProjectFind(Run([], small), p, k);
    ProjectFind(Run([], large), p, k);
    SafeLimitsLoseNothing(p, ns, ms);
    assert Holds(RunLimited(own, ms), RunLimited(own, ns));
  }

  /** Two keys, a trim, a read of the older one and a second trim. */
  function TwoKeys(n: nat): seq<Op> {
    [Write("x", ""), Write("y", ""), Trim("", n), Op.Read("x"), Trim("", 1)]
  }

  lemma TwoKeysLeave(n: nat)
    ensures Run([], TwoKeys(n)) == LastOf(Step(LastOf([Item("x", ""), Item("y", "")], n), Op.Read("x")), 1)
  {
    var x, y, ops := Item("x", ""), Item("y", ""), TwoKeys(n);
    var written, trimmed := [Write("x", ""), Write("y", "")], LastOf([x, y], n);
    assert ops == (written + [Trim("", n)] + [Op.Read("x")]) + [Trim("", 1)];
    LruSpec.RunSnoc([], written + [Trim("", n)] + [Op.Read("x")], Trim("", 1));
    LruSpec.RunSnoc([], written + [Trim("", n)], Op.Read("x"));
    LruSpec.RunSnoc([], written, Trim("", n));
    TwoWrites("x", "y", map[]);
    assert Bounded(written, map[]) == written by {
      assert written[..1] == [Write("x", "")] && written[..1][..0] == [];
    }
    PureTrim([x, y], "", n);
    PureTrim(Step(trimmed, Op.Read("x")), "", 1);
  }

  /** So raising the first limit of two equal ones can lose a key; with these two keys it does. */
  lemma RaisingOneTrimCanLoseAKey()
    ensures !SafeLimits([1, 1], [2, 1]) && !LimitsLoseNothing("", [1, 1], [2, 1])
    ensures Has(Run([], TwoKeys(1)), "y") && !Has(Run([], TwoKeys(2)), "y")
  {
    assert Gap([1, 1], [2, 1], 0) == 1 && Gap([1, 1], [2, 1], 1) == 0;
    LimitsLoseNothingIff("", [1, 1], [2, 1]);
    var x, y := Item("x", ""), Item("y", "");
    TwoKeysLeave(1);
    TwoKeysLeave(2);
    assert LastOf([x, y], 1) == [y] && Step([y], Op.Read("x")) == [y];
    assert [x, y][1..] == [y] && Without([y], "x") == [y] && Step([x, y], Op.Read("x")) == [y, x];
    assert LastOf([y, x], 1) == [x];
  }
}
