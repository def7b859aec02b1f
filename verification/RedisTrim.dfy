/**
 The eviction the Redis worker performs: list the family, order it by idle time, delete the
 excess. Redis is the map it serves and, for one trim, what `SCAN` and `OBJECT IDLETIME` answer.
 */
module RedisTrim {
  import opened Wrappers
  import opened Sequences
  import opened Ordered
  import opened LruSpec
  import opened LruHistory

  type Records = map<string, Record>

  /** One family scan: the keys in the order they came, and the idle times known. */
  datatype Scan = Scan(keys: seq<string>, idle: map<string, nat>) {
    function IdleOf(k: string): nat {
      if k in idle then idle[k] else 0
    }
  }

  function Insert(k: string, keys: seq<string>, scan: Scan): seq<string> {
    if keys == [] || scan.IdleOf(k) >= scan.IdleOf(keys[0]) then [k] + keys
    else [keys[0]] + Insert(k, keys[1..], scan)
  }

  /** The stable sort, most idle first. */
  function ByIdle(keys: seq<string>, scan: Scan): seq<string> {
    if keys == [] then [] else Insert(keys[0], ByIdle(keys[1..], scan), scan)
  }

  /** The keys a trim deletes. The excess is counted on the scan, the keys are its distinct ones. */
  function Evicted(scan: Scan, limit: nat): (keys: seq<string>)
    ensures |keys| <= |FirstSeen(scan.keys)|
  {
    if |scan.keys| <= limit then []
    else
      var order, excess := ByIdle(FirstSeen(scan.keys), scan), |scan.keys| - limit;
      ByIdleKeeps(FirstSeen(scan.keys), scan);
      if excess <= |order| then order[..excess] else order
  }

  function Deleted(records: Records, keys: seq<string>): Records {
    map k | k in records && k !in keys :: records[k]
  }

  function AfterTrim(records: Records, scan: Scan, limit: nat): Records {
    Deleted(records, Evicted(scan, limit))
  }

  // --- the sort -----------------------------------------------------------

  lemma {:induction false} InsertKeeps(k: string, keys: seq<string>, scan: Scan)
    ensures |Insert(k, keys, scan)| == |keys| + 1
    ensures multiset(Insert(k, keys, scan)) == multiset(keys) + multiset{k}
  {
    if keys != [] && scan.IdleOf(k) < scan.IdleOf(keys[0]) {
      InsertKeeps(k, keys[1..], scan);
      assert keys == [keys[0]] + keys[1..];
    }
  }

  lemma {:induction false} ByIdleKeeps(keys: seq<string>, scan: Scan)
    ensures |ByIdle(keys, scan)| == |keys| && multiset(ByIdle(keys, scan)) == multiset(keys)
  {
    if keys != [] {
      ByIdleKeeps(keys[1..], scan);
      InsertKeeps(keys[0], ByIdle(keys[1..], scan), scan);
      assert keys == [keys[0]] + keys[1..];
    }
  }

  ghost predicate Descending(keys: seq<string>, scan: Scan) {
    forall i, j :: 0 <= i < j < |keys| ==> scan.IdleOf(keys[i]) >= scan.IdleOf(keys[j])
  }

  lemma {:induction false} InsertDescending(k: string, keys: seq<string>, scan: Scan)
    requires Descending(keys, scan)
    ensures Descending(Insert(k, keys, scan), scan)
  {
    if keys != [] && scan.IdleOf(k) < scan.IdleOf(keys[0]) {
      InsertDescending(k, keys[1..], scan);
      InsertKeeps(k, keys[1..], scan);
      var rest := Insert(k, keys[1..], scan);
      forall j | 0 <= j < |rest| ensures scan.IdleOf(keys[0]) >= scan.IdleOf(rest[j]) {
        assert rest[j] in multiset(rest);
      }
    }
  }

  lemma {:induction false} ByIdleDescending(keys: seq<string>, scan: Scan)
    ensures Descending(ByIdle(keys, scan), scan)
  {
    if keys != [] {
      ByIdleDescending(keys[1..], scan);
      InsertDescending(keys[0], ByIdle(keys[1..], scan), scan);
    }
  }

  // --- what a trim evicts, whatever the idle times ------------------------

  /**
   No key kept is strictly more idle than a key evicted, ties included, and among ties the scan
   decides: what it listed first goes first. A key with no known idle time counts as just used.
   */
  lemma TrimKeepsTheLeastIdle(scan: Scan, limit: nat, kept: string, gone: string)
    requires kept in scan.keys && kept !in Evicted(scan, limit) && gone in Evicted(scan, limit)
    ensures gone in scan.keys
    ensures kept in scan.idle && scan.idle[kept] > 0 ==> gone in scan.idle && scan.idle[gone] >= scan.idle[kept]
    ensures scan.IdleOf(kept) == scan.IdleOf(gone) ==> Before(FirstSeen(scan.keys), gone, kept)
  {
    var keys, out := FirstSeen(scan.keys), Evicted(scan, limit);
    var order := ByIdle(keys, scan);
    FirstSeenMembers(scan.keys);
    ByIdleKeeps(keys, scan);
    ByIdleDescending(keys, scan);
    assert out == order[..|out|];
    assert gone in multiset(order) && multiset(keys) == multiset(order);
    assert kept in multiset(keys) && multiset(keys) == multiset(order);
    SplitDescending(order, |out|, scan, kept, gone);
    if scan.IdleOf(kept) == scan.IdleOf(gone) {
      SplitBefore(order, |out|, kept, gone);
      ByIdleStable(keys, scan, gone, kept);
    }
  }

  /** `x` stands somewhere in front of `y`. */
  ghost predicate Before(keys: seq<string>, x: string, y: string) {
    exists i, j :: 0 <= i < j < |keys| && keys[i] == x && keys[j] == y
  }

  lemma SplitBefore(order: seq<string>, cut: nat, kept: string, gone: string)
    requires cut <= |order| && kept in order && kept !in order[..cut] && gone in order[..cut]
    ensures Before(order, gone, kept)
  {
    var i :| 0 <= i < cut && order[..cut][i] == gone;
    var j :| 0 <= j < |order| && order[j] == kept;
    assert forall n :: 0 <= n < cut ==> order[n] in order[..cut];
    assert order[i] == gone;
  }

  lemma {:induction false} InsertStable(k: string, keys: seq<string>, scan: Scan, x: string, y: string)
    requires Before(Insert(k, keys, scan), x, y) && scan.IdleOf(x) == scan.IdleOf(y) && Descending(keys, scan)
    ensures Before([k] + keys, x, y)
  {
    if keys != [] && scan.IdleOf(k) < scan.IdleOf(keys[0]) {
      var tail := keys[1..];
      var rest := Insert(k, tail, scan);
      InsertKeeps(k, tail, scan);
      BeforeCons(keys[0], rest, x, y);
      assert [keys[0]] + tail == keys;
      BeforeCons(k, keys, x, y);
      BeforeCons(keys[0], tail, x, y);
      if Before(rest, x, y) {
        InsertStable(k, tail, scan, x, y);
        BeforeCons(k, tail, x, y);
      } else {
        assert y in multiset(rest);
      }
    }
  }

  lemma BeforeCons(k: string, keys: seq<string>, x: string, y: string)
    ensures Before([k] + keys, x, y) <==> (k == x && y in keys) || Before(keys, x, y)
  {
    var all := [k] + keys;
    if Before(all, x, y) {
      var i, j :| 0 <= i < j < |all| && all[i] == x && all[j] == y;
      assert keys[j - 1] == y;
      assert i > 0 ==> keys[i - 1] == x;
    }
    if k == x && y in keys {
      var j :| 0 <= j < |keys| && keys[j] == y;
      assert all[0] == x && all[j + 1] == y;
    }
    if Before(keys, x, y) {
      var i, j :| 0 <= i < j < |keys| && keys[i] == x && keys[j] == y;
      assert all[i + 1] == x && all[j + 1] == y;
    }
  }

  /** The sort is stable. */
  lemma {:induction false} ByIdleStable(keys: seq<string>, scan: Scan, x: string, y: string)
    requires Before(ByIdle(keys, scan), x, y) && scan.IdleOf(x) == scan.IdleOf(y)
    ensures Before(keys, x, y)
  {
    var rest := ByIdle(keys[1..], scan);
    ByIdleDescending(keys[1..], scan);
    InsertStable(keys[0], rest, scan, x, y);
    BeforeCons(keys[0], rest, x, y);
    ByIdleKeeps(keys[1..], scan);
    if Before(rest, x, y) {
      ByIdleStable(keys[1..], scan, x, y);
    } else {
      assert y in multiset(rest) && multiset(rest) == multiset(keys[1..]);
    }
    BeforeCons(keys[0], keys[1..], x, y);
    assert [keys[0]] + keys[1..] == keys;
  }

  lemma SplitDescending(order: seq<string>, cut: nat, scan: Scan, kept: string, gone: string)
    requires Descending(order, scan) && cut <= |order|
    requires kept in order && kept !in order[..cut] && gone in order[..cut]
    ensures scan.IdleOf(kept) <= scan.IdleOf(gone)
  {
    var i :| 0 <= i < |order| && order[i] == kept;
    var j :| 0 <= j < cut && order[..cut][j] == gone;
    assert forall n :: 0 <= n < cut ==> order[n] in order[..cut];
    assert order[j] == gone;
  }

  /** How many keys go: as many as the scan listed above the limit, and no key twice. */
  lemma TrimCount(scan: Scan, limit: nat)
    ensures NoDuplicates(Evicted(scan, limit))
    ensures |Evicted(scan, limit)| ==
            if |scan.keys| <= limit then 0
            else if |scan.keys| - limit <= |FirstSeen(scan.keys)| then |scan.keys| - limit
            else |FirstSeen(scan.keys)|
  {
    var keys := FirstSeen(scan.keys);
    FirstSeenMembers(scan.keys);
    ByIdleKeeps(keys, scan);
    SameMultisetNoDuplicates(keys, ByIdle(keys, scan));
  }

  /**
   `SCAN` may list a key twice, and the excess counts it twice. The trim keeps as many keys as
   it should, the limit or all there are, exactly when no key is listed twice or the scan is
   within the limit or nothing is to be kept.
   */
  lemma TrimKeepsTheLimitIff(scan: Scan, limit: nat)
    ensures var count := |FirstSeen(scan.keys)|;
            count - |Evicted(scan, limit)| == (if count <= limit then count else limit)
            <==> NoDuplicates(scan.keys) || |scan.keys| <= limit || limit == 0
  {
    FirstSeenCount(scan.keys);
    FirstSeenMembers(scan.keys);
    TrimCount(scan, limit);
    if scan.keys != [] {
      assert scan.keys[0] in FirstSeen(scan.keys);
    }
  }

  // --- agreement with the in-memory store ---------------------------------

  /** The Redis server as its single client sees it, with the last access to every key. */
  datatype Db = Db(records: Records, clock: Clock, now: nat)

  const EMPTY := Db(map[], map[], 1)

  datatype Command = Command(op: Op, scan: Scan)

  function Get(records: Records, k: string): Option<Record> {
    if k in records then Some(records[k]) else None
  }

  /** `GET`, `SET` or the trim, with the access times they leave. */
  function RedisStep(db: Db, c: Command): Db {
    match c.op
    case Read(k) =>
      if k in db.records then Db(db.records, db.clock[k := db.now], db.now + 1) else db.(now := db.now + 1)
    case Write(k, r) => Db(db.records[k := r], db.clock[k := db.now], db.now + 1)
    case Trim(_, limit) => Db(AfterTrim(db.records, c.scan, limit), db.clock, db.now + 1)
  }

  function RedisResult(db: Db, c: Command): Option<Record> {
    if c.op.Read? then Get(db.records, c.op.key) else None
  }

  function RedisRun(cs: seq<Command>): Db {
    if cs == [] then EMPTY else RedisStep(RedisRun(cs[..|cs| - 1]), cs[|cs| - 1])
  }

  function RedisResults(cs: seq<Command>): seq<Option<Record>> {
    if cs == [] then []
    else RedisResults(cs[..|cs| - 1]) + [RedisResult(RedisRun(cs[..|cs| - 1]), cs[|cs| - 1])]
  }

  ghost predicate UsedBefore(db: Db, x: string, y: string) {
    x in db.clock && y in db.clock && db.clock[x] < db.clock[y]
  }

  /** The scan lists the family once each, and the longer ago a key was used the more idle it is. */
  ghost predicate Faithful(db: Db, prefix: string, scan: Scan) {
    && NoDuplicates(scan.keys)
    && (forall k :: k in scan.keys <==> k in db.records && InFamily(k, prefix))
    && forall x, y :: x in scan.keys && y in scan.keys && UsedBefore(db, x, y) ==> scan.IdleOf(x) > scan.IdleOf(y)
  }

  ghost predicate FaithfulScans(cs: seq<Command>) {
    forall i :: 0 <= i < |cs| && cs[i].op.Trim? ==> Faithful(RedisRun(cs[..i]), cs[i].op.prefix, cs[i].scan)
  }

  function OpsOf(cs: seq<Command>): (ops: seq<Op>)
    ensures |ops| == |cs| && forall i :: 0 <= i < |ops| ==> ops[i] == cs[i].op
  {
    seq(|cs|, i requires 0 <= i < |cs| => cs[i].op)
  }

  /** The two stores hold the same records and remember the same order of access. */
  ghost predicate Agree(s: Items, db: Db) {
    && Distinct(s)
    && (forall k :: Find(s, k) == Get(db.records, k))
    && Aged(s, db.clock)
    && forall k :: k in db.clock ==> db.clock[k] < db.now
  }

  ghost predicate StrictlyDescending(keys: seq<string>, scan: Scan) {
    forall i, j :: 0 <= i < j < |keys| ==> scan.IdleOf(keys[i]) > scan.IdleOf(keys[j])
  }

  lemma HeadIsMostIdle(keys: seq<string>, k: string, scan: Scan)
    requires Descending(keys, scan) && k in keys
    ensures scan.IdleOf(keys[0]) >= scan.IdleOf(k)
  {
    var i :| 0 <= i < |keys| && keys[i] == k;
    assert i > 0 ==> scan.IdleOf(keys[0]) >= scan.IdleOf(keys[i]);
  }

  lemma HeadIsAlone(keys: seq<string>, k: string, scan: Scan)
    requires StrictlyDescending(keys, scan) && k in keys && k != keys[0]
    ensures scan.IdleOf(keys[0]) > scan.IdleOf(k)
  {
    var i :| 0 < i < |keys| && keys[i] == k;
  }

  lemma SameHead(a: seq<string>, b: seq<string>, scan: Scan)
    requires StrictlyDescending(a, scan) && Descending(b, scan) && multiset(a) == multiset(b)
    requires a != [] && b != []
    ensures a[0] == b[0]
  {
    assert a[0] in multiset(b) && b[0] in multiset(a);
    HeadIsMostIdle(b, a[0], scan);
    if b[0] != a[0] {
      HeadIsAlone(a, b[0], scan);
    }
  }

  lemma StrictTail(keys: seq<string>, scan: Scan)
    requires keys != []
    ensures StrictlyDescending(keys, scan) ==> StrictlyDescending(keys[1..], scan)
    ensures Descending(keys, scan) ==> Descending(keys[1..], scan)
  {
    assert forall i :: 0 <= i < |keys| - 1 ==> keys[1..][i] == keys[i + 1];
  }

  lemma TailMultiset(keys: seq<string>)
    requires keys != []
    ensures multiset(keys[1..]) == multiset(keys) - multiset{keys[0]}
  {
    assert keys == [keys[0]] + keys[1..];
  }

  /** There is only one order of strictly descending idle times. */
  lemma {:induction false} OneDescendingOrder(a: seq<string>, b: seq<string>, scan: Scan)
    requires StrictlyDescending(a, scan) && Descending(b, scan) && multiset(a) == multiset(b)
    ensures a == b
  {
    assert |a| == |multiset(a)| == |multiset(b)| == |b|;
    if a != [] {
      SameHead(a, b, scan);
      TailMultiset(a);
      TailMultiset(b);
      StrictTail(a, scan);
      StrictTail(b, scan);
      OneDescendingOrder(a[1..], b[1..], scan);
      assert a == [a[0]] + a[1..] && b == [b[0]] + b[1..];
    }
  }

  lemma {:induction false} FamilyAged(s: Items, clock: Clock, p: string)
    requires Aged(s, clock)
    ensures forall i :: 0 <= i < |FamilyKeys(s, p)| ==> FamilyKeys(s, p)[i] in clock
    ensures forall i, j :: 0 <= i < j < |FamilyKeys(s, p)| ==>
              clock[FamilyKeys(s, p)[i]] < clock[FamilyKeys(s, p)[j]]
  {
    if s != [] {
      FamilyAged(s[1..], clock, p);
      forall k | k in FamilyKeys(s[1..], p) ensures k in clock && clock[s[0].key] < clock[k] {
        FamilyHas(s[1..], p, k);
      }
    }
  }

  /** A faithful scan, sorted, is the family in LRU order. */
  lemma SortedScanIsLruOrder(s: Items, db: Db, prefix: string, scan: Scan)
    requires Agree(s, db) && Faithful(db, prefix, scan)
    ensures ByIdle(FirstSeen(scan.keys), scan) == FamilyKeys(s, prefix)
  {
    var family := FamilyKeys(s, prefix);
    forall k ensures k in family <==> k in scan.keys {
      FamilyHas(s, prefix, k);
      assert Find(s, k) == Get(db.records, k);
    }
    FamilyDistinct(s, prefix);
    FamilyAged(s, db.clock, prefix);
    forall i, j | 0 <= i < j < |family| ensures scan.IdleOf(family[i]) > scan.IdleOf(family[j]) {
      assert family[i] in scan.keys && family[j] in scan.keys && UsedBefore(db, family[i], family[j]);
    }
    FirstSeenCount(scan.keys);
    SameKeysSameMultiset(family, scan.keys);
    ByIdleKeeps(scan.keys, scan);
    ByIdleDescending(scan.keys, scan);
    OneDescendingOrder(family, ByIdle(scan.keys, scan), scan);
  }

  lemma {:induction false} WithoutAllFind(s: Items, keys: seq<string>, k: string)
    ensures Find(WithoutAll(s, keys), k) == if k in keys then None else Find(s, k)
    decreases keys
  {
    if keys != [] {
      WithoutAllFind(Without(s, keys[0]), keys[1..], k);
      WithoutFind(s, keys[0], k);
      assert k in keys <==> k == keys[0] || k in keys[1..];
    }
  }

  /** A faithful scan evicts the family's oldest keys. */
  lemma EvictedIsOldest(s: Items, db: Db, prefix: string, limit: nat, scan: Scan)
    requires Agree(s, db) && Faithful(db, prefix, scan)
    ensures var excess := if FamilySize(s, prefix) > limit then FamilySize(s, prefix) - limit else 0;
            Evicted(scan, limit) == FamilyKeys(s, prefix)[..excess]
  {
    SortedScanIsLruOrder(s, db, prefix, scan);
    FirstSeenCount(scan.keys);
    ByIdleKeeps(scan.keys, scan);
  }

  lemma TrimRecordsAgree(s: Items, db: Db, prefix: string, limit: nat, scan: Scan, k: string)
    requires Agree(s, db) && Faithful(db, prefix, scan)
    ensures Find(Trimmed(s, prefix, limit), k) == Get(AfterTrim(db.records, scan, limit), k)
  {
    var gone := Evicted(scan, limit);
    EvictedIsOldest(s, db, prefix, limit, scan);
    TrimIsDeletion(s, prefix, limit);
    assert Trimmed(s, prefix, limit) == WithoutAll(s, gone);
    WithoutAllFind(s, gone, k);
    assert Find(s, k) == Get(db.records, k);
  }

  lemma TrimAgrees(s: Items, db: Db, prefix: string, limit: nat, scan: Scan)
    requires Agree(s, db) && Faithful(db, prefix, scan)
    ensures Agree(Trimmed(s, prefix, limit), RedisStep(db, Command(Trim(prefix, limit), scan)))
  {
    forall k ensures Find(Trimmed(s, prefix, limit), k) == Get(AfterTrim(db.records, scan, limit), k) {
      TrimRecordsAgree(s, db, prefix, limit, scan, k);
    }
    TrimmedHas(s, prefix, limit);
    TrimmedWithin(s, prefix, limit);
    AgedWithin(Trimmed(s, prefix, limit), s, db.clock);
  }

  lemma StepAgrees(s: Items, db: Db, c: Command)
    requires Agree(s, db) && (c.op.Trim? ==> Faithful(db, c.op.prefix, c.scan))
    ensures Agree(Step(s, c.op), RedisStep(db, c)) && Result(s, c.op) == RedisResult(db, c)
  {
    match c.op
    case Read(k) =>
      assert Find(s, k) == Get(db.records, k);
      if Has(s, k) {
        LatestKeys(s, k, Find(s, k).value);
        AgedLatest(s, db.clock, k, Find(s, k).value, db.now);
      }
    case Write(k, r) =>
      LatestKeys(s, k, r);
      AgedLatest(s, db.clock, k, r, db.now);
    case Trim(p, limit) => TrimAgrees(s, db, p, limit, c.scan);
  }

  /** With faithful scans and one client, both stores hold and answer the same after any history. */
  lemma {:induction false} TheTwoStoresAgree(cs: seq<Command>)
    requires FaithfulScans(cs)
    ensures Agree(LruSpec.Run([], OpsOf(cs)), RedisRun(cs))
    ensures forall k :: Find(LruSpec.Run([], OpsOf(cs)), k) == Get(RedisRun(cs).records, k)
    ensures LruSpec.Results([], OpsOf(cs)) == RedisResults(cs)
  {
    if cs != [] {
      var last := |cs| - 1;
      assert forall i :: 0 <= i < last ==> cs[..last][..i] == cs[..i];
      TheTwoStoresAgree(cs[..last]);
      assert OpsOf(cs)[..last] == OpsOf(cs[..last]);
      StepAgrees(LruSpec.Run([], OpsOf(cs[..last])), RedisRun(cs[..last]), cs[last]);
    }
  }
}
