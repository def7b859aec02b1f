/** Lists of keys: duplicates, order of first occurrence, reversal and prefixes. */
module Sequences {

  ghost predicate NoDuplicates(keys: seq<string>) {
    forall i, j :: 0 <= i < j < |keys| ==> keys[i] != keys[j]
  }

  /** The keys of a dictionary filled in this order. */
  function FirstSeen(keys: seq<string>): seq<string> {
    if keys == [] then []
    else
      var last := |keys| - 1;
      FirstSeen(keys[..last]) + if keys[last] in keys[..last] then [] else [keys[last]]
  }

  lemma NoDuplicatesSnoc(keys: seq<string>, k: string)
    ensures NoDuplicates(keys + [k]) <==> NoDuplicates(keys) && k !in keys
  {
    var all := keys + [k];
    if NoDuplicates(all) {
      assert forall i :: 0 <= i < |keys| ==> all[i] == keys[i] && all[|keys|] == k;
    }
  }

  lemma {:induction false} FirstSeenMembers(keys: seq<string>)
    ensures NoDuplicates(FirstSeen(keys))
    ensures forall k :: k in FirstSeen(keys) <==> k in keys
  {
    if keys != [] {
      var last := |keys| - 1;
      FirstSeenMembers(keys[..last]);
      NoDuplicatesSnoc(FirstSeen(keys[..last]), keys[last]);
      assert keys == keys[..last] + [keys[last]];
    }
  }

  lemma {:induction false} FirstSeenCount(keys: seq<string>)
    ensures |FirstSeen(keys)| <= |keys|
    ensures NoDuplicates(keys) <==> |FirstSeen(keys)| == |keys|
    ensures NoDuplicates(keys) ==> FirstSeen(keys) == keys
  {
    if keys != [] {
      var last := |keys| - 1;
      FirstSeenCount(keys[..last]);
      NoDuplicatesSnoc(keys[..last], keys[last]);
      assert keys == keys[..last] + [keys[last]];
    }
  }

  lemma SameMultisetNoDuplicates(a: seq<string>, b: seq<string>)
    requires NoDuplicates(a) && multiset(a) == multiset(b)
    ensures NoDuplicates(b)
  {
    MultisetOfDistinct(a);
    forall i, j | 0 <= i < j < |b| ensures b[i] != b[j] {
      Multiplicity(b, i, j);
    }
  }

  lemma Multiplicity(b: seq<string>, i: nat, j: nat)
    requires i < j < |b|
    ensures b[i] == b[j] ==> multiset(b)[b[i]] >= 2
  {
    assert b == b[..j] + [b[j]] + b[j + 1..];
    assert b[..j][i] in multiset(b[..j]);
  }

  lemma {:induction false} MultisetOfDistinct(a: seq<string>)
    requires NoDuplicates(a)
    ensures forall k :: multiset(a)[k] <= 1
  {
    if a != [] {
      MultisetOfDistinct(a[1..]);
      assert a == [a[0]] + a[1..];
      assert a[0] !in a[1..];
    }
  }

  lemma {:induction false} SameKeysSameMultiset(a: seq<string>, b: seq<string>)
    requires NoDuplicates(a) && NoDuplicates(b) && forall k :: k in a <==> k in b
    ensures multiset(a) == multiset(b)
  {
    MultisetOfDistinct(a);
    MultisetOfDistinct(b);
    forall k ensures multiset(a)[k] == multiset(b)[k] {
      assert k in multiset(a) <==> k in a;
      assert k in multiset(b) <==> k in b;
    }
  }

  lemma {:induction false} Cardinality(keys: seq<string>, members: set<string>)
    requires NoDuplicates(keys)
    requires forall k :: k in members <==> k in keys
    ensures |members| == |keys|
  {
    if keys == [] {
      assert members == {};
    } else {
      assert forall k :: k in keys <==> k == keys[0] || k in keys[1..];
      Cardinality(keys[1..], members - {keys[0]});
    }
  }

  function Reversed<T>(s: seq<T>): (r: seq<T>)
    ensures |r| == |s| && forall i :: 0 <= i < |s| ==> r[i] == s[|s| - 1 - i]
  {
    if s == [] then [] else [s[|s| - 1]] + Reversed(s[..|s| - 1])
  }

  /** `s[:n]`. */
  function Take<T>(s: seq<T>, n: nat): seq<T> {
    if |s| <= n then s else s[..n]
  }

  /** `s[-n:]`, for a positive `n`. */
  function LastOf<T>(s: seq<T>, n: nat): seq<T> {
    if |s| <= n then s else s[|s| - n..]
  }

  function Remove(keys: seq<string>, k: string): seq<string> {
    if keys == [] then []
    else if keys[0] == k then Remove(keys[1..], k)
    else [keys[0]] + Remove(keys[1..], k)
  }

  lemma {:induction false} RemoveMembers(keys: seq<string>, k: string)
    ensures forall x :: x in Remove(keys, k) <==> x in keys && x != k
    ensures k !in keys ==> Remove(keys, k) == keys
    ensures |Remove(keys, k)| <= |keys|
    ensures NoDuplicates(keys) ==> NoDuplicates(Remove(keys, k))
  {
    if keys != [] {
      RemoveMembers(keys[1..], k);
      assert keys == [keys[0]] + keys[1..];
      assert NoDuplicates(keys) ==> keys[0] !in keys[1..] && NoDuplicates(keys[1..]);
    }
  }

  lemma {:induction false} RemoveCount(keys: seq<string>, k: string)
    requires NoDuplicates(keys)
    ensures |Remove(keys, k)| == if k in keys then |keys| - 1 else |keys|
  {
    if keys != [] {
      assert keys == [keys[0]] + keys[1..];
      assert keys[0] !in keys[1..];
      RemoveCount(keys[1..], k);
    }
  }

  lemma {:induction false} RemoveSnoc(keys: seq<string>, x: string, k: string)
    ensures Remove(keys + [x], k) == Remove(keys, k) + if x == k then [] else [x]
  {
    if keys == [] {
      assert keys + [x] == [x];
    } else {
      RemoveSnoc(keys[1..], x, k);
      assert (keys + [x])[1..] == keys[1..] + [x];
    }
  }

  lemma {:induction false} ReversedRemove(keys: seq<string>, k: string)
    ensures Reversed(Remove(keys, k)) == Remove(Reversed(keys), k)
  {
    if keys != [] {
      var last := |keys| - 1;
      ReversedRemove(keys[..last], k);
      RemoveSnoc(keys[..last], keys[last], k);
      assert keys == keys[..last] + [keys[last]];
      ReversedSnoc(Remove(keys[..last], k), keys[last]);
    }
  }

  lemma ReversedSnoc<T>(s: seq<T>, x: T)
    ensures Reversed(s + [x]) == [x] + Reversed(s)
  {
    assert (s + [x])[..|s|] == s;
  }

  lemma ReversedMembers<T>(s: seq<T>, x: T)
    ensures x in Reversed(s) <==> x in s
  {
    var r := Reversed(s);
    if x in s {
      var i :| 0 <= i < |s| && s[i] == x;
      assert r[|s| - 1 - i] == x;
    }
  }

  lemma ReversedLastOf<T>(s: seq<T>, n: nat)
    ensures Reversed(LastOf(s, n)) == Take(Reversed(s), n)
  {
  }

  lemma FirstSeenSnoc(keys: seq<string>, k: string)
    ensures FirstSeen(keys + [k]) == FirstSeen(keys) + if k in keys then [] else [k]
  {
    assert (keys + [k])[..|keys|] == keys;
  }

  /** The newest of a de-duplicated list in front: what is left is the rest without it. */
  lemma {:induction false} FirstSeenCons(x: string, keys: seq<string>)
    ensures FirstSeen([x] + keys) == [x] + Remove(FirstSeen(keys), x)
  {
    if keys == [] {
      assert [x] + keys == [] + [x];
      FirstSeenSnoc([], x);
    } else {
      var front, k := keys[..|keys| - 1], keys[|keys| - 1];
      FirstSeenCons(x, front);
      assert [x] + keys == [x] + front + [k];
      FirstSeenSnoc([x] + front, k);
      FirstSeenSnoc(front, k);
      assert keys == front + [k];
      RemoveSnoc(FirstSeen(front), k, x);
      assert k in [x] + front <==> k == x || k in front;
      if k !in [x] + front {
        assert [x] + Remove(FirstSeen(front), x) + [k] == [x] + (Remove(FirstSeen(front), x) + [k]);
      } else {
        assert FirstSeen([x] + keys) == FirstSeen([x] + front);
        assert k in front ==> FirstSeen(keys) == FirstSeen(front);
        assert k !in front ==> FirstSeen(keys) == FirstSeen(front) + [x];
        assert Remove(FirstSeen(front), x) + [] == Remove(FirstSeen(front), x);
      }
    }
  }

  /** Cutting a list to its first `n` before bringing a key to the front loses nothing. */
  lemma {:induction false} TakeRemove(keys: seq<string>, k: string, n: nat)
    requires NoDuplicates(keys)
    ensures Take([k] + Remove(Take(keys, n), k), n) == Take([k] + Remove(keys, k), n)
  {
    if |keys| > n > 0 {
      assert keys[..n][0] == keys[0] && keys[..n][1..] == keys[1..][..n - 1];
      if keys[0] == k {
        assert k !in keys[1..];
        RemoveMembers(keys[1..], k);
        RemoveMembers(keys[1..][..n - 1], k);
      } else {
        TakeRemove(keys[1..], k, n - 1);
        TakeBehind(Remove(keys[1..][..n - 1], k), Remove(keys[1..], k), k, keys[0], n);
      }
    }
  }

  lemma TakeBehind(a: seq<string>, b: seq<string>, k: string, x: string, n: nat)
    requires n > 0 && Take([k] + a, n - 1) == Take([k] + b, n - 1)
    ensures Take([k] + ([x] + a), n) == Take([k] + ([x] + b), n)
  {
    var c, d := [k] + a, [k] + b;
    assert |c| == |a| + 1 && |d| == |b| + 1;
    if n > 1 {
      assert forall i :: 0 <= i < |a| && i + 1 < n - 1 ==> Take(c, n - 1)[i + 1] == a[i];
      assert forall i :: 0 <= i < |b| && i + 1 < n - 1 ==> Take(d, n - 1)[i + 1] == b[i];
    }
  }
}
