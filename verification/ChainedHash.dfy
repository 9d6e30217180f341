/**
 A chained hash table on values: what the pointers of the configuration store mean.

 A table is a sequence of buckets, a bucket the entries of its chain from head to tail.
 `Represents` ties a table to the finite map it stands for.
 */
module ChainedHash {
  import opened Wrappers

  type Bucket<V> = seq<(string, V)>
  type Hash = string -> nat

  /** The scan of one chain. */
  function Find<V>(chain: Bucket<V>, key: string): Option<V> {
    if chain == [] then None
    else if chain[0].0 == key then Some(chain[0].1)
    else Find(chain[1..], key)
  }

  function Lookup<V>(hash: Hash, buckets: seq<Bucket<V>>, key: string): Option<V>
    requires buckets != []
  {
    Find(buckets[hash(key) % |buckets|], key)
  }

  /** A new entry goes to the head of its chain. */
  function Insert<V>(hash: Hash, buckets: seq<Bucket<V>>, key: string, value: V): seq<Bucket<V>>
    requires buckets != []
  {
    var b := hash(key) % |buckets|;
    buckets[b := [(key, value)] + buckets[b]]
  }

  /** The entries in listing order: bucket by bucket, head to tail. */
  function Flatten<V>(buckets: seq<Bucket<V>>): Bucket<V> {
    if buckets == [] then [] else buckets[0] + Flatten(buckets[1..])
  }

  function Names<V>(chain: Bucket<V>): seq<string> {
    seq(|chain|, i requires 0 <= i < |chain| => chain[i].0)
  }

  ghost predicate NoDuplicates(names: seq<string>) {
    forall i, j :: 0 <= i < j < |names| ==> names[i] != names[j]
  }

  /** Bucket b holds, without repetition, entries that hash to b, and looking up any key that
      hashes to b finds what the map says. */
  ghost predicate BucketOk<V>(hash: Hash, buckets: seq<Bucket<V>>, m: map<string, V>, b: nat)
    requires b < |buckets|
  {
    && (forall i :: 0 <= i < |buckets[b]| ==> hash(buckets[b][i].0) % |buckets| == b)
    && NoDuplicates(Names(buckets[b]))
    && (forall k :: hash(k) % |buckets| == b ==>
          Find(buckets[b], k) == if k in m then Some(m[k]) else None)
  }

  ghost predicate BucketsOk<V>(hash: Hash, buckets: seq<Bucket<V>>, m: map<string, V>, n: nat)
    requires n <= |buckets|
  {
    n == 0 || (BucketsOk(hash, buckets, m, n - 1) && BucketOk(hash, buckets, m, n - 1))
  }

  /** The table stands for the map: lookup agrees on every key, every entry is in its bucket and
      no name occurs twice. */
  ghost predicate Represents<V>(hash: Hash, buckets: seq<Bucket<V>>, m: map<string, V>) {
    buckets != [] && BucketsOk(hash, buckets, m, |buckets|)
  }

  lemma {:induction false} BucketIsOk<V>(hash: Hash, buckets: seq<Bucket<V>>, m: map<string, V>, n: nat, b: nat)
    requires b < n <= |buckets| && BucketsOk(hash, buckets, m, n)
    ensures BucketOk(hash, buckets, m, b)
  {
    if b < n - 1 { BucketIsOk(hash, buckets, m, n - 1, b); }
  }

  lemma {:induction false} AllBucketsOk<V>(hash: Hash, buckets: seq<Bucket<V>>, m: map<string, V>, n: nat)
    requires n <= |buckets| && forall b :: 0 <= b < n ==> BucketOk(hash, buckets, m, b)
    ensures BucketsOk(hash, buckets, m, n)
  {
    if n > 0 { AllBucketsOk(hash, buckets, m, n - 1); }
  }

  /** Lookup in a table is lookup in the map. */
  lemma LookupIsMap<V>(hash: Hash, buckets: seq<Bucket<V>>, m: map<string, V>, k: string)
    requires Represents(hash, buckets, m)
    ensures Lookup(hash, buckets, k) == if k in m then Some(m[k]) else None
  {
    BucketIsOk(hash, buckets, m, |buckets|, hash(k) % |buckets|);
  }

  lemma {:induction false} FindIsMember<V>(chain: Bucket<V>, key: string)
    ensures Find(chain, key).Some? <==> key in Names(chain)
    ensures Find(chain, key).Some? ==> (key, Find(chain, key).value) in chain
  {
    if chain != [] {
      assert Names(chain) == [chain[0].0] + Names(chain[1..]);
      assert chain == [chain[0]] + chain[1..];
      FindIsMember(chain[1..], key);
    }
  }

  lemma {:induction false} FindUnique<V>(chain: Bucket<V>, i: nat)
    requires i < |chain| && NoDuplicates(Names(chain))
    ensures Find(chain, chain[i].0) == Some(chain[i].1)
  {
    if i > 0 {
      assert Names(chain)[0] != Names(chain)[i];
      assert Names(chain[1..]) == Names(chain)[1..];
      FindUnique(chain[1..], i - 1);
    }
  }

  /** Inserting an absent key adds exactly that key to the map. */
  lemma InsertRepresents<V>(hash: Hash, buckets: seq<Bucket<V>>, m: map<string, V>, key: string, value: V)
    requires Represents(hash, buckets, m) && key !in m
    ensures Represents(hash, Insert(hash, buckets, key, value), m[key := value])
  {
    var after, b := Insert(hash, buckets, key, value), hash(key) % |buckets|;
    LookupIsMap(hash, buckets, m, key);
    FindIsMember(buckets[b], key);
    var added := m[key := value];
    forall c | 0 <= c < |after| ensures BucketOk(hash, after, added, c) {
      BucketIsOk(hash, buckets, m, |buckets|, c);
      if c == b {
        assert Names(after[b]) == [key] + Names(buckets[b]);
        assert after[b][1..] == buckets[b];
      }
    }
    AllBucketsOk(hash, after, added, |after|);
  }

  lemma {:induction false} InsertFlatten<V>(buckets: seq<Bucket<V>>, b: nat, e: (string, V))
    requires b < |buckets|
    ensures |Flatten(buckets[b := [e] + buckets[b]])| == |Flatten(buckets)| + 1
  {
    var after := buckets[b := [e] + buckets[b]];
    if b > 0 {
      assert after[1..] == buckets[1..][b - 1 := [e] + buckets[1..][b - 1]];
      InsertFlatten(buckets[1..], b - 1, e);
    } else {
      assert after[1..] == buckets[1..];
    }
  }

  /** The listing of the buckets from c on names each stored name hashed to c or above once. */
  lemma {:induction false} FlattenFrom<V>(hash: Hash, buckets: seq<Bucket<V>>, m: map<string, V>, c: nat)
    requires Represents(hash, buckets, m) && c <= |buckets|
    ensures NoDuplicates(Names(Flatten(buckets[c..])))
    ensures forall k :: k in Names(Flatten(buckets[c..])) <==> k in m && hash(k) % |buckets| >= c
    decreases |buckets| - c
  {
    if c < |buckets| {
      FlattenFrom(hash, buckets, m, c + 1);
      BucketIsOk(hash, buckets, m, |buckets|, c);
      var here, rest := Names(buckets[c]), Names(Flatten(buckets[c + 1..]));
      assert buckets[c..][0] == buckets[c] && buckets[c..][1..] == buckets[c + 1..];
      assert Names(Flatten(buckets[c..])) == here + rest;
      forall k ensures k in here <==> k in m && hash(k) % |buckets| == c {
        BucketMembers(hash, buckets, m, c, k);
      }
      Disjoint(here, rest);
    }
  }

  lemma BucketMembers<V>(hash: Hash, buckets: seq<Bucket<V>>, m: map<string, V>, c: nat, k: string)
    requires Represents(hash, buckets, m) && c < |buckets|
    ensures k in Names(buckets[c]) <==> k in m && hash(k) % |buckets| == c
  {
    LookupIsMap(hash, buckets, m, k);
    BucketIsOk(hash, buckets, m, |buckets|, c);
    FindIsMember(buckets[hash(k) % |buckets|], k);
    if k in Names(buckets[c]) {
      var i :| 0 <= i < |buckets[c]| && Names(buckets[c])[i] == k;
      assert hash(buckets[c][i].0) % |buckets| == c;
    }
  }

  lemma Disjoint(a: seq<string>, b: seq<string>)
    requires NoDuplicates(a) && NoDuplicates(b) && forall k :: k in a ==> k !in b
    ensures NoDuplicates(a + b)
  {
    forall i, j | 0 <= i < j < |a + b| ensures (a + b)[i] != (a + b)[j] {
      if i < |a| <= j {
        assert (a + b)[i] in a && (a + b)[j] in b;
      }
    }
  }

  /** The listing names every stored name exactly once. */
  lemma ListingIsKeys<V>(hash: Hash, buckets: seq<Bucket<V>>, m: map<string, V>)
    requires Represents(hash, buckets, m)
    ensures NoDuplicates(Names(Flatten(buckets)))
    ensures forall k :: k in Names(Flatten(buckets)) <==> k in m
    ensures |Flatten(buckets)| == |m|
  {
    FlattenFrom(hash, buckets, m, 0);
    assert buckets[0..] == buckets;
    var names := Names(Flatten(buckets));
    DistinctCount(names);
    assert (set k | k in names) == m.Keys;
  }

  lemma {:induction false} DistinctCount(names: seq<string>)
    requires NoDuplicates(names)
    ensures |set k | k in names| == |names|
  {
    if names != [] {
      var rest := names[1..];
      DistinctCount(rest);
      assert (set k | k in names) == {names[0]} + set k | k in rest by {
        assert names == [names[0]] + rest;
      }
      assert names[0] !in rest;
    }
  }

  /** The prefix of a listing up to bucket c, and what bucket c adds to it. */
  lemma {:induction false} FlattenSplit<V>(buckets: seq<Bucket<V>>, c: nat)
    requires c <= |buckets|
    ensures Flatten(buckets) == Flatten(buckets[..c]) + Flatten(buckets[c..])
  {
    if c > 0 {
      FlattenSplit(buckets[1..], c - 1);
      assert buckets[1..][..c - 1] == buckets[..c][1..] && buckets[1..][c - 1..] == buckets[c..];
    } else {
      assert buckets[..c] == [] && buckets[c..] == buckets;
    }
  }

  lemma FlattenSnoc<V>(buckets: seq<Bucket<V>>, c: nat)
    requires c < |buckets|
    ensures Flatten(buckets[..c + 1]) == Flatten(buckets[..c]) + buckets[c]
    ensures |Flatten(buckets[..c + 1])| <= |Flatten(buckets)|
  {
    var p := buckets[..c + 1];
    FlattenSplit(p, c);
    assert p[..c] == buckets[..c] && p[c..] == [buckets[c]];
    assert Flatten(p[c..]) == buckets[c] + Flatten(p[c..][1..]);
    FlattenSplit(buckets, c + 1);
  }

  /** Bucket c occupies the next stretch of the listing. */
  lemma ListingSlice<V>(buckets: seq<Bucket<V>>, c: nat)
    requires c < |buckets|
    ensures var j := |Flatten(buckets[..c])|;
      && |Flatten(buckets[..c + 1])| == j + |buckets[c]| <= |Flatten(buckets)|
      && Names(Flatten(buckets))[j..j + |buckets[c]|] == Names(buckets[c])
  {
    FlattenSnoc(buckets, c);
    FlattenSplit(buckets, c + 1);
  }

  lemma EmptyTable<V>(hash: Hash, buckets: seq<Bucket<V>>)
    requires buckets != [] && forall b :: 0 <= b < |buckets| ==> buckets[b] == []
    ensures Represents(hash, buckets, map[]) && Flatten(buckets) == []
  {
    EmptyFlatten(buckets);
    AllBucketsOk<V>(hash, buckets, map[], |buckets|);
  }

  lemma {:induction false} EmptyFlatten<V>(buckets: seq<Bucket<V>>)
    requires forall b :: 0 <= b < |buckets| ==> buckets[b] == []
    ensures Flatten(buckets) == []
  {
    if buckets != [] { EmptyFlatten(buckets[1..]); }
  }
}
