/** `InMemoryStateStore`: the ordered dictionary and the three operations that update it in place. */
module InMemoryStore {
  import opened Wrappers
  import opened Ordered
  import opened LruSpec

  class InMemoryStateStore {
    var entries: Items

    ghost predicate Valid()
      reads this
    {
      Distinct(entries)
    }

    constructor ()
      ensures Valid() && entries == []
    {
      entries := [];
    }

    method Read(key: string) returns (r: Option<Record>)
      requires Valid()
      modifies this
      ensures Valid()
      ensures r == Find(old(entries), key) && entries == Step(old(entries), Op.Read(key))
    {
      StepDistinct(entries, Op.Read(key));
      r := Find(entries, key);
      if r.None? {
        return;
      }
      entries := Latest(entries, key, r.value);
    }

    method Write(key: string, record: Record)
      requires Valid()
      modifies this
      ensures Valid() && entries == Step(old(entries), Op.Write(key, record))
    {
      StepDistinct(entries, Op.Write(key, record));
      entries := Latest(entries, key, record);
    }

    /** Oldest first, keys of the family go until no more than `limit` are left. */
    method Trim(prefix: string, limit: nat)
      requires Valid()
      modifies this
      ensures Valid() && entries == Step(old(entries), Op.Trim(prefix, limit))
    {
      var family := Family(prefix);
      while |family| > limit
        invariant Valid()
        invariant family == FamilyKeys(entries, prefix)
        invariant Trimmed(entries, prefix, limit) == Trimmed(old(entries), prefix, limit)
        decreases |family|
      {
        TrimOldest(entries, prefix, limit);
        WithoutKeys(entries, family[0]);
        entries := Without(entries, family[0]);
        family := family[1..];
      }
      TrimWithin(entries, prefix, limit);
    }

    /** What the trim may delete, in the order it would. */
    method Family(prefix: string) returns (family: seq<string>)
      ensures family == FamilyKeys(entries, prefix)
    {
      family := [];
      for i := 0 to |entries|
        invariant family + FamilyKeys(entries[i..], prefix) == FamilyKeys(entries, prefix)
      {
        if InFamily(entries[i].key, prefix) {
          family := family + [entries[i].key];
        }
        assert entries[i..][1..] == entries[i + 1..];
      }
    }
  }
}
