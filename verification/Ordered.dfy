/**
 Python's `OrderedDict` with string keys, as its items in order, oldest first. Every mapping
 of the source that is evicted by age is one of these.
 */
module Ordered {
  import opened Wrappers

  datatype Item<V> = Item(key: string, val: V)

  ghost predicate Distinct<V>(s: seq<Item<V>>) {
    forall i, j :: 0 <= i < j < |s| ==> s[i].key != s[j].key
  }

  predicate Has<V>(s: seq<Item<V>>, k: string) {
    s != [] && (s[0].key == k || Has(s[1..], k))
  }

  /** `get(k)`. */
  function Find<V>(s: seq<Item<V>>, k: string): (r: Option<V>)
    ensures r.Some? <==> Has(s, k)
  {
    if s == [] then None
    else if s[0].key == k then Some(s[0].val)
    else Find(s[1..], k)
  }

  lemma {:induction false} HasIndex<V>(s: seq<Item<V>>, k: string)
    ensures Has(s, k) <==> exists i :: 0 <= i < |s| && s[i].key == k
  {
    if s != [] {
      HasIndex(s[1..], k);
      if Has(s[1..], k) {
        var i :| 0 <= i < |s[1..]| && s[1..][i].key == k;
        assert s[i + 1].key == k;
      }
    }
  }

  lemma DistinctHead<V>(s: seq<Item<V>>)
    requires s != []
    ensures Distinct(s) <==> !Has(s[1..], s[0].key) && Distinct(s[1..])
  {
    HasIndex(s[1..], s[0].key);
    if !Has(s[1..], s[0].key) && Distinct(s[1..]) {
      forall i, j | 0 <= i < j < |s| ensures s[i].key != s[j].key {
        assert s[j] == s[1..][j - 1];
        if i > 0 {
          assert s[i] == s[1..][i - 1];
        }
      }
    }
  }

  /** `del s[k]`, or nothing when `k` is absent. */
  function Without<V>(s: seq<Item<V>>, k: string): seq<Item<V>> {
    if s == [] then []
    else if s[0].key == k then Without(s[1..], k)
    else [s[0]] + Without(s[1..], k)
  }

  /** `s[k] = v; s.move_to_end(k)`. */
  function Latest<V>(s: seq<Item<V>>, k: string, v: V): seq<Item<V>> {
    Without(s, k) + [Item(k, v)]
  }

  function Keys<V>(s: seq<Item<V>>): (keys: seq<string>)
    ensures |keys| == |s| && forall i :: 0 <= i < |s| ==> keys[i] == s[i].key
  {
    seq(|s|, i requires 0 <= i < |s| => s[i].key)
  }

  lemma {:induction false} WithoutFind<V>(s: seq<Item<V>>, k: string, x: string)
    ensures Find(Without(s, k), x) == if x == k then None else Find(s, x)
  {
    if s != [] {
      WithoutFind(s[1..], k, x);
      if s[0].key != k {
        assert Without(s, k)[1..] == Without(s[1..], k);
      }
    }
  }

  lemma {:induction false} WithoutDistinct<V>(s: seq<Item<V>>, k: string)
    requires Distinct(s)
    ensures Distinct(Without(s, k))
  {
    if s != [] {
      DistinctHead(s);
      WithoutDistinct(s[1..], k);
      if s[0].key != k {
        WithoutFind(s[1..], k, s[0].key);
        DistinctHead(Without(s, k));
        assert Without(s, k)[1..] == Without(s[1..], k);
      }
    }
  }

  lemma {:induction false} WithoutAbsent<V>(s: seq<Item<V>>, k: string)
    requires !Has(s, k)
    ensures Without(s, k) == s
  {
    if s != [] {
      WithoutAbsent(s[1..], k);
    }
  }

  lemma WithoutKeys<V>(s: seq<Item<V>>, k: string)
    ensures !Has(Without(s, k), k)
    ensures forall x :: x != k ==> Find(Without(s, k), x) == Find(s, x)
    ensures Distinct(s) ==> Distinct(Without(s, k))
    ensures !Has(s, k) ==> Without(s, k) == s
  {
    forall x ensures Find(Without(s, k), x) == if x == k then None else Find(s, x) {
      WithoutFind(s, k, x);
    }
    assert Find(Without(s, k), k).None?;
    if Distinct(s) {
      WithoutDistinct(s, k);
    }
    if !Has(s, k) {
      WithoutAbsent(s, k);
    }
  }

  lemma {:induction false} DistinctSnoc<V>(s: seq<Item<V>>, e: Item<V>)
    ensures Distinct(s + [e]) <==> Distinct(s) && !Has(s, e.key)
  {
    if s != [] {
      DistinctSnoc(s[1..], e);
      DistinctHead(s);
      DistinctHead(s + [e]);
      assert (s + [e])[1..] == s[1..] + [e];
      FindAppend(s[1..], e, s[0].key);
    }
  }

  lemma LatestKeys<V>(s: seq<Item<V>>, k: string, v: V)
    ensures Find(Latest(s, k, v), k) == Some(v)
    ensures forall x :: x != k ==> Find(Latest(s, k, v), x) == Find(s, x)
    ensures Distinct(s) ==> Distinct(Latest(s, k, v))
  {
    var t := Without(s, k);
    WithoutKeys(s, k);
    FindAppend(t, Item(k, v), k);
    DistinctSnoc(t, Item(k, v));
    forall x | x != k ensures Find(Latest(s, k, v), x) == Find(s, x) {
      FindAppend(t, Item(k, v), x);
    }
  }

  lemma {:induction false} FindAppend<V>(s: seq<Item<V>>, e: Item<V>, k: string)
    ensures Find(s + [e], k) == if Find(s, k).Some? then Find(s, k) else if e.key == k then Some(e.val) else None
  {
    if s == [] {
      assert s + [e] == [e];
    } else {
      FindAppend(s[1..], e, k);
      assert (s + [e])[1..] == s[1..] + [e];
    }
  }
}
