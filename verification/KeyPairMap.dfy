/** `KeyPairMap`: an insertion-ordered map from a (hashKey, sortKey) pair to a value. */
module KeyPairMap {
  import opened Bytes

  /** Up to this number of entries the map compares each entry; above it, a hash selects a bucket. */
  const ARRAY_LIMIT := 8

  // ─── the map that the class refines ─────────────────────────────────────────

  type Contents<V> = seq<(ItemKey, V)>

  predicate DistinctKeys<V>(c: Contents<V>) {
    forall i, j :: 0 <= i < j < |c| ==> c[i].0 != c[j].0
  }

  function Lookup<V>(c: Contents<V>, key: ItemKey): Option<V> {
    if c == [] then None
    else if c[0].0 == key then Some(c[0].1)
    else Lookup(c[1..], key)
  }

  function Update<V>(c: Contents<V>, key: ItemKey, value: V): Contents<V> {
    if c == [] then [(key, value)]
    else if c[0].0 == key then [(key, value)] + c[1..]
    else [c[0]] + Update(c[1..], key, value)
  }

  /** An update changes what one key gives, keeps the other keys, and keeps the order of the keys. */
  lemma {:induction false} UpdateIsMapUpdate<V>(c: Contents<V>, key: ItemKey, value: V, other: ItemKey)
    ensures Lookup(Update(c, key, value), other) == if other == key then Some(value) else Lookup(c, other)
    ensures Lookup(c, key).Some? ==> |Update(c, key, value)| == |c|
    ensures Lookup(c, key).None? ==> Update(c, key, value) == c + [(key, value)]
    ensures forall i :: 0 <= i < |c| ==> |Update(c, key, value)| > i && Update(c, key, value)[i].0 == c[i].0
  {
    if c != [] && c[0].0 != key {
      UpdateIsMapUpdate(c[1..], key, value, other);
    }
  }

  /** An update of contents with one pair for each key gives such contents again. */
  lemma {:induction false} UpdateKeepsDistinct<V>(c: Contents<V>, key: ItemKey, value: V)
    requires DistinctKeys(c)
    ensures DistinctKeys(Update(c, key, value))
  {
    UpdateIsMapUpdate(c, key, value, key);
    if Lookup(c, key).None? {
      forall i | 0 <= i < |c| ensures c[i].0 != key {
        LookupFinds(c, i);
      }
    }
  }

  lemma {:induction false} LookupFinds<V>(c: Contents<V>, i: nat)
    requires i < |c|
    ensures Lookup(c, c[i].0).Some?
  {
    if i > 0 {
      LookupFinds(c[1..], i - 1);
    }
  }

  lemma {:induction false} LookupAt<V>(c: Contents<V>, key: ItemKey, i: nat)
    requires i < |c| && c[i].0 == key && forall j :: 0 <= j < i ==> c[j].0 != key
    ensures Lookup(c, key) == Some(c[i].1)
    ensures forall v :: Update(c, key, v) == c[i := (key, v)]
  {
    if i > 0 {
      LookupAt(c[1..], key, i - 1);
      assert c[0].0 != key;
      forall v ensures Update(c, key, v) == c[i := (key, v)] {
        assert Update(c[1..], key, v) == c[1..][i - 1 := (key, v)];
      }
    }
  }

  lemma {:induction false} LookupAbsent<V>(c: Contents<V>, key: ItemKey)
    requires forall j :: 0 <= j < |c| ==> c[j].0 != key
    ensures Lookup(c, key) == None
    ensures forall v :: Update(c, key, v) == c + [(key, v)]
  {
    if c != [] {
      LookupAbsent(c[1..], key);
      forall v ensures Update(c, key, v) == c + [(key, v)] {
        assert Update(c[1..], key, v) == c[1..] + [(key, v)];
      }
    }
  }

  // ─── the class ──────────────────────────────────────────────────────────────

  /** Lengths first, then the bytes from the last to the first. */
  method BytesEqual(a: Bytes, b: Bytes) returns (equal: bool)
    ensures equal <==> a == b
  {
    if |a| != |b| {
      return false;
    }
    var i := |a|;
    while i > 0
      invariant 0 <= i <= |a|
      invariant a[i..] == b[i..]
    {
      i := i - 1;
      if a[i] != b[i] {
        return false;
      }
      assert a[i..] == [a[i]] + a[i + 1..] && b[i..] == [b[i]] + b[i + 1..];
    }
    assert a == a[0..] && b == b[0..];
    return true;
  }

  class Entry<V> {
    const key: ItemKey
    var value: V

    constructor (key: ItemKey, value: V)
      ensures this.key == key && this.value == value
    {
      this.key := key;
      this.value := value;
    }
  }

  /** Appends the entry to the bucket of its hash. */
  function AddToBucket<V>(m: map<nat, seq<Entry<V>>>, h: nat, e: Entry<V>): map<nat, seq<Entry<V>>> {
    m[h := (if h in m then m[h] else []) + [e]]
  }

  /** The first `count` entries are in the buckets of their hashes, and a bucket holds only entries of its hash. */
  ghost predicate BucketsCover<V>(hash: ItemKey -> nat, entries: seq<Entry<V>>, m: map<nat, seq<Entry<V>>>, count: nat) {
    && count <= |entries|
    && (forall i :: 0 <= i < count ==> InBucket(hash, entries[i], m))
    && (forall h, j :: h in m && 0 <= j < |m[h]| ==> m[h][j] in entries && hash(m[h][j].key) == h)
  }

  ghost predicate InBucket<V>(hash: ItemKey -> nat, e: Entry<V>, m: map<nat, seq<Entry<V>>>) {
    hash(e.key) in m && e in m[hash(e.key)]
  }

  lemma AddKeepsCover<V>(hash: ItemKey -> nat, entries: seq<Entry<V>>, m: map<nat, seq<Entry<V>>>, i: nat)
    requires i < |entries| && BucketsCover(hash, entries, m, i)
    ensures BucketsCover(hash, entries, AddToBucket(m, hash(entries[i].key), entries[i]), i + 1)
  {
    var m' := AddToBucket(m, hash(entries[i].key), entries[i]);
    forall k | 0 <= k < i + 1 ensures InBucket(hash, entries[k], m') {
      assert k < i ==> InBucket(hash, entries[k], m);
    }
  }

  lemma MoreEntriesKeepCover<V>(hash: ItemKey -> nat, entries: seq<Entry<V>>, e: Entry<V>, m: map<nat, seq<Entry<V>>>)
    requires BucketsCover(hash, entries, m, |entries|)
    ensures BucketsCover(hash, entries + [e], m, |entries|)
  {
  }

  /** `hash` is any function, so every collision is possible. */
  class Table<V> {
    const hash: ItemKey -> nat
    var entries: seq<Entry<V>>
    var buckets: Option<map<nat, seq<Entry<V>>>>

    ghost function Repr(): set<object>
      reads this
    {
      {this} + set i | 0 <= i < |entries| :: entries[i]
    }

    ghost function Values(): (c: Contents<V>)
      reads this, entries
      ensures |c| == |entries|
    {
      seq(|entries|, i requires 0 <= i < |entries| reads this, entries => (entries[i].key, entries[i].value))
    }

    ghost predicate Valid()
      reads this
    {
      && (forall i, j :: 0 <= i < j < |entries| ==> entries[i].key != entries[j].key)
      && (buckets.None? <==> |entries| <= ARRAY_LIMIT)
      && (buckets.Some? ==> BucketsCover(hash, entries, buckets.value, |entries|))
    }

    constructor (hash: ItemKey -> nat)
      ensures Valid() && Values() == [] && entries == []
    {
      this.hash := hash;
      entries := [];
      buckets := None;
    }

    method Size() returns (size: nat)
      requires Valid()
      ensures size == |Values()|
    {
      size := |entries|;
    }

    /** The entry of a key, from the array or from its bucket. */
    method Find(key: ItemKey) returns (found: Entry?<V>)
      requires Valid()
      ensures found != null ==> found in entries && found.key == key
      ensures found == null ==> forall i :: 0 <= i < |entries| ==> entries[i].key != key
    {
      var candidates := entries;
      if buckets.Some? {
        candidates := if hash(key) in buckets.value then buckets.value[hash(key)] else [];
      }
      for i := 0 to |candidates|
        invariant forall j :: 0 <= j < i ==> candidates[j].key != key
      {
        var sameSort := BytesEqual(candidates[i].key.sk, key.sk);
        if sameSort {
          var sameHash := BytesEqual(candidates[i].key.hk, key.hk);
          if sameHash {
            return candidates[i];
          }
        }
      }
      return null;
    }

    method Get(key: ItemKey) returns (value: Option<V>)
      requires Valid()
      ensures value == Lookup(Values(), key)
    {
      var found := Find(key);
      if found == null {
        LookupAbsent(Values(), key);
        return None;
      }
      ghost var i :| 0 <= i < |entries| && entries[i] == found;
      LookupAt(Values(), key, i);
      return Some(found.value);
    }

    /** Keeps a new entry, and from the ninth entry on also its bucket. */
    method Append(entry: Entry<V>)
      requires Valid()
      requires forall i :: 0 <= i < |entries| ==> entries[i].key != entry.key
      modifies this
      ensures Valid() && entries == old(entries) + [entry]
    {
      entries := entries + [entry];
      if buckets.Some? {
        MoreEntriesKeepCover(hash, old(entries), entry, buckets.value);
        AddKeepsCover(hash, entries, buckets.value, |entries| - 1);
        buckets := Some(AddToBucket(buckets.value, hash(entry.key), entry));
      } else if |entries| > ARRAY_LIMIT {
        var m: map<nat, seq<Entry<V>>> := map[];
        for i := 0 to |entries|
          invariant entries == old(entries) + [entry]
          invariant BucketsCover(hash, entries, m, i)
        {
          AddKeepsCover(hash, entries, m, i);
          m := AddToBucket(m, hash(entries[i].key), entries[i]);
        }
        buckets := Some(m);
      }
    }

    method Set(key: ItemKey, value: V)
      requires Valid()
      modifies Repr()
      ensures Valid() && fresh(Repr() - old(Repr()))
      ensures Values() == Update(old(Values()), key, value) && DistinctKeys(Values())
    {
      var found := Find(key);
      ghost var before := Values();
      if found != null {
        ghost var i :| 0 <= i < |entries| && entries[i] == found;
        LookupAt(before, key, i);
        found.value := value;
        assert Values() == before[i := (key, value)];
      } else {
        LookupAbsent(before, key);
        var entry := new Entry(key, value);
        Append(entry);
        assert Values() == before + [(key, value)];
      }
    }
  }
}
