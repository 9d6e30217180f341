/**
 The two-level chained hash table of the FM configuration store: groups by name, and in each group
 key/value pairs by key.

 Node fields that the source writes once, before the node is reachable, are `const` here.  Strings
 are C strings: NUL-free.  The hash is any function of the string; `get_hash_code` is one.
 */
module KeyTable {
  import opened Wrappers
  import opened ChainedHash

  const MAX_UNIQ_KEYS: nat := 5
  const MAX_UNIQ_GRPS: nat := 10

  type Pairs = map<string, string>
  type Model = map<string, Pairs>

  class KeyValuePair {
    const key: string
    const value: string
    const next: KeyValuePair?

    constructor (key: string, value: string, next: KeyValuePair?)
      ensures this.key == key && this.value == value && this.next == next
    {
      this.key, this.value, this.next := key, value, next;
    }
  }

  /** The chain from `head` holds exactly these entries. */
  ghost predicate PairsLinked(head: KeyValuePair?, chain: Bucket<string>) {
    if chain == [] then head == null
    else head != null && chain[0] == (head.key, head.value) && PairsLinked(head.next, chain[1..])
  }

  class Group {
    const name: string
    const hash: Hash
    var numOfKeys: nat
    const list: array<KeyValuePair?>
    const next: Group?
    ghost var buckets: seq<Bucket<string>>
    ghost var pairs: Pairs

    ghost predicate Valid()
      reads this, list
    {
      && list.Length == MAX_UNIQ_KEYS == |buckets|
      && (forall b :: 0 <= b < MAX_UNIQ_KEYS ==> PairsLinked(list[b], buckets[b]))
      && Represents(hash, buckets, pairs)
      && numOfKeys == |Flatten(buckets)|
    }

    constructor (name: string, hash: Hash, next: Group?)
      ensures Valid() && pairs == map[] && fresh(list)
      ensures this.name == name && this.hash == hash && this.next == next
    {
      this.name, this.hash, this.next := name, hash, next;
      numOfKeys := 0;
      list := new KeyValuePair?[MAX_UNIQ_KEYS](_ => null);
      buckets := seq(MAX_UNIQ_KEYS, _ => []);
      pairs := map[];
      new;
      EmptyTable(hash, buckets);
    }

    /** The scan of one chain of pairs. */
    method FindPair(key: string) returns (node: KeyValuePair?)
      requires Valid()
      ensures node == null <==> key !in pairs
      ensures node != null ==> node.key == key && pairs[key] == node.value
    {
      var b := hash(key) % MAX_UNIQ_KEYS;
      node := list[b];
      ghost var rest := buckets[b];
      while node != null && node.key != key
        invariant PairsLinked(node, rest)
        invariant Find(rest, key) == Find(buckets[b], key)
        decreases |rest|
      {
        node, rest := node.next, rest[1..];
      }
      LookupIsMap(hash, buckets, pairs, key);
    }

    /** The tail of `add_key_value_pair`: the new pair becomes the head of its chain. */
    method PushPair(key: string, value: string)
      requires Valid() && key !in pairs
      modifies this, list
      ensures Valid() && pairs == old(pairs)[key := value]
    {
      var b := hash(key) % MAX_UNIQ_KEYS;
      InsertRepresents(hash, buckets, pairs, key, value);
      InsertFlatten(buckets, b, (key, value));
      var node := new KeyValuePair(key, value, list[b]);
      list[b] := node;
      buckets := Insert(hash, buckets, key, value);
      assert buckets[b][1..] == old(buckets)[b];
      pairs := pairs[key := value];
      numOfKeys := numOfKeys + 1;
    }

    /** The key array of `get_keys`: the keys, then NULL. */
    method ListKeys() returns (keys: array<Option<string>>)
      requires Valid()
      ensures fresh(keys) && IsListing(keys[..], pairs)
    {
      ListingIsKeys(hash, buckets, pairs);
      keys := CopyAllKeys(list, numOfKeys, buckets);
      ListingFilled(keys[..], Names(Flatten(buckets)), pairs);
    }
  }

  /** The copying loops of `get_keys`. */
  method CopyAllKeys(list: array<KeyValuePair?>, count: nat, ghost bs: seq<Bucket<string>>) returns (keys: array<Option<string>>)
    requires list.Length == |bs| && count == |Flatten(bs)|
    requires forall b :: 0 <= b < |bs| ==> PairsLinked(list[b], bs[b])
    ensures fresh(keys) && keys.Length == count + 1
    ensures Filled(keys[..], Names(Flatten(bs)), count) && keys[count] == None
  {
    ghost var all := Names(Flatten(bs));
    keys := new Option<string>[count + 1](_ => None);
    var i: nat, j: nat := 0, 0;
    while i < list.Length
      invariant 0 <= i <= list.Length
      invariant Filled(keys[..], all, j) && j == |Flatten(bs[..i])|
    {
      ListingSlice(bs, i);
      j := CopyKeys(list[i], bs[i], keys, j, all);
      i := i + 1;
    }
    assert bs[..i] == bs;
    keys[j] := None;
  }

  /** Copies the keys of one chain to the cells from j on. */
  method CopyKeys(head: KeyValuePair?, ghost chain: Bucket<string>, cells: array<Option<string>>, j: nat, ghost all: seq<string>)
    returns (next: nat)
    requires PairsLinked(head, chain)
    requires j + |chain| < cells.Length && j + |chain| <= |all| && all[j..j + |chain|] == Names(chain)
    requires Filled(cells[..], all, j)
    modifies cells
    ensures next == j + |chain| && Filled(cells[..], all, next)
  {
    next := j;
    var node := head;
    ghost var rest := chain;
    while node != null
      invariant PairsLinked(node, rest)
      invariant next + |rest| == j + |chain| && rest == chain[next - j..]
      invariant Filled(cells[..], all, next)
      decreases |rest|
    {
      assert all[next] == all[j..j + |chain|][next - j] == chain[next - j].0;
      cells[next] := Some(node.key);
      node, rest, next := node.next, rest[1..], next + 1;
    }
  }

  /** Copies the names of one chain of groups to the cells from j on. */
  method CopyGroupNames(head: Group?, ghost chain: Bucket<Group>, cells: array<Option<string>>, j: nat, ghost all: seq<string>)
    returns (next: nat)
    requires GroupsLinked(head, chain)
    requires j + |chain| < cells.Length && j + |chain| <= |all| && all[j..j + |chain|] == Names(chain)
    requires Filled(cells[..], all, j)
    modifies cells
    ensures next == j + |chain| && Filled(cells[..], all, next)
  {
    next := j;
    var grp := head;
    ghost var rest := chain;
    while grp != null
      invariant GroupsLinked(grp, rest)
      invariant next + |rest| == j + |chain| && rest == chain[next - j..]
      invariant Filled(cells[..], all, next)
      decreases |rest|
    {
      assert all[next] == all[j..j + |chain|][next - j] == chain[next - j].0;
      cells[next] := Some(grp.name);
      grp, rest, next := grp.next, rest[1..], next + 1;
    }
  }

  /** The copying loops of `get_grps`. */
  method CopyAllGroups(list: array<Group?>, count: nat, ghost bs: seq<Bucket<Group>>) returns (grps: array<Option<string>>)
    requires list.Length == |bs| && count == |Flatten(bs)|
    requires forall b :: 0 <= b < |bs| ==> GroupsLinked(list[b], bs[b])
    ensures fresh(grps) && grps.Length == count + 1
    ensures Filled(grps[..], Names(Flatten(bs)), count) && grps[count] == None
  {
    ghost var all := Names(Flatten(bs));
    grps := new Option<string>[count + 1](_ => None);
    var i: nat, j: nat := 0, 0;
    while i < list.Length
      invariant 0 <= i <= list.Length
      invariant Filled(grps[..], all, j) && j == |Flatten(bs[..i])|
    {
      ListingSlice(bs, i);
      j := CopyGroupNames(list[i], bs[i], grps, j, all);
      i := i + 1;
    }
    assert bs[..i] == bs;
    grps[j] := None;
  }

  /** The first j cells hold the first j names. */
  ghost predicate Filled(cells: seq<Option<string>>, names: seq<string>, j: nat) {
    j <= |names| && j <= |cells| && forall t :: 0 <= t < j ==> cells[t] == Some(names[t])
  }

  /** A NULL-terminated array that names every key of the map exactly once. */
  ghost predicate IsListing<V>(cells: seq<Option<string>>, m: map<string, V>) {
    && |cells| == |m| + 1
    && cells[|m|] == None
    && (forall t :: 0 <= t < |m| ==> cells[t].Some? && cells[t].value in m)
    && (forall t, u :: 0 <= t < u < |m| ==> cells[t] != cells[u])
    && (forall k :: k in m ==> Some(k) in cells)
  }

  lemma ListingFilled<V>(cells: seq<Option<string>>, names: seq<string>, m: map<string, V>)
    requires NoDuplicates(names) && (forall k :: k in names <==> k in m) && |names| == |m|
    requires |cells| == |m| + 1 && Filled(cells, names, |m|) && cells[|m|] == None
    ensures IsListing(cells, m)
  {
    forall t | 0 <= t < |m| ensures cells[t].Some? && cells[t].value in m {
      assert names[t] in names;
    }
    forall k | k in m ensures Some(k) in cells {
      var t :| 0 <= t < |names| && names[t] == k;
      assert cells[t] == Some(k);
    }
  }

  /** The chain from `head` holds exactly these groups, under their names. */
  ghost predicate GroupsLinked(head: Group?, chain: Bucket<Group>) {
    if chain == [] then head == null
    else head != null && chain[0] == (head.name, head) && GroupsLinked(head.next, chain[1..])
  }

  /** One group of the table: it is filed under its name, and holds its pairs. */
  ghost predicate HoldsGroup(g: Group, name: string, pairs: Pairs, storage: set<object>, hash: Hash)
    reads storage
  {
    g in storage && g.list in storage && g.name == name && g.hash == hash && g.Valid() && g.pairs == pairs
  }

  /** The groups hold the model. */
  ghost predicate Holds(groups: map<string, Group>, model: Model, storage: set<object>, hash: Hash)
    reads storage
  {
    model.Keys == groups.Keys && forall n {:trigger HoldsGroup(groups[n], n, model[n], storage, hash)} ::
      n in groups ==> HoldsGroup(groups[n], n, model[n], storage, hash)
  }

  /** No two groups share storage. */
  ghost predicate Apart(groups: map<string, Group>) {
    forall n, o {:trigger OwnLists(groups, n, o)} :: OwnLists(groups, n, o)
  }

  ghost predicate OwnLists(groups: map<string, Group>, n: string, o: string) {
    n in groups && o in groups && n != o ==> groups[n].list != groups[o].list
  }

  twostate lemma GroupKept(g: Group)
    requires old(g.Valid()) && unchanged(g, g.list)
    ensures g.Valid() && g.pairs == old(g.pairs)
  {
  }

  lemma HoldsAdded(groups: map<string, Group>, model: Model, storage: set<object>, hash: Hash, added: Group)
    requires Holds(groups, model, storage, hash) && Apart(groups) && added.name !in groups
    requires added.Valid() && added.pairs == map[] && added.hash == hash && added.list !in storage
    ensures Holds(groups[added.name := added], model[added.name := map[]], storage + {added, added.list}, hash)
    ensures Apart(groups[added.name := added])
  {
    assert HoldsGroup(added, added.name, map[], storage + {added, added.list}, hash);
    forall n | n in groups
      ensures HoldsGroup(groups[n], n, model[n], storage + {added, added.list}, hash) && groups[n].list != added.list
    {
      assert HoldsGroup(groups[n], n, model[n], storage, hash);
    }
    ApartAdded(groups, added);
  }

  lemma ApartAdded(groups: map<string, Group>, added: Group)
    requires Apart(groups) && forall n :: n in groups ==> groups[n].list != added.list
    ensures Apart(groups[added.name := added])
  {
    var after := groups[added.name := added];
    forall n: string, o: string {:trigger OwnLists(after, n, o)} ensures OwnLists(after, n, o) {
      assert OwnLists(groups, n, o);
    }
  }

  class GroupTable {
    const hash: Hash
    var numOfGrps: nat
    const grpsHash: array<Group?>
    ghost var buckets: seq<Bucket<Group>>
    ghost var groups: map<string, Group>
    /** What the table stands for. */
    ghost var model: Model
    /** The objects of the groups, and of the whole table. */
    ghost var storage: set<object>
    ghost var repr: set<object>

    /** The top level: which groups there are and where. */
    ghost predicate Indexed()
      reads `numOfGrps, `buckets, `groups, grpsHash
    {
      && grpsHash.Length == MAX_UNIQ_GRPS == |buckets|
      && (forall b :: 0 <= b < MAX_UNIQ_GRPS ==> GroupsLinked(grpsHash[b], buckets[b]))
      && Represents(hash, buckets, groups)
      && numOfGrps == |Flatten(buckets)|
    }

    ghost predicate Valid()
      reads this, repr
    {
      && this !in storage && grpsHash !in storage && repr == storage + {this, grpsHash}
      && Indexed()
      && Holds(groups, model, storage, hash)
      && Apart(groups)
    }

    /** `get_key_file` */
    constructor (hash: Hash)
      ensures Valid() && model == map[] && fresh(repr) && this.hash == hash
    {
      this.hash := hash;
      numOfGrps := 0;
      grpsHash := new Group?[MAX_UNIQ_GRPS](_ => null);
      buckets := seq(MAX_UNIQ_GRPS, _ => []);
      groups := map[];
      model := map[];
      new;
      storage, repr := {}, {this, grpsHash};
      EmptyTable(hash, buckets);
    }

    /** The scan of one chain of groups, shared by the lookups and by `grp_exist`. */
    method FindGroup(name: string) returns (grp: Group?)
      requires Valid()
      ensures grp == null <==> name !in model
      ensures grp != null ==> name in groups && grp == groups[name] && HoldsGroup(grp, name, model[name], storage, hash)
    {
      var b := hash(name) % MAX_UNIQ_GRPS;
      grp := grpsHash[b];
      ghost var rest := buckets[b];
      while grp != null && grp.name != name
        invariant GroupsLinked(grp, rest)
        invariant Find(rest, name) == Find(buckets[b], name)
        decreases |rest|
      {
        grp, rest := grp.next, rest[1..];
      }
      LookupIsMap(hash, buckets, groups, name);
    }

    /** The pointer updates of `add_grp`: the new group becomes the head of its chain. */
    method LinkGroup(added: Group)
      requires Indexed() && added.name !in groups
      requires added.next == grpsHash[hash(added.name) % MAX_UNIQ_GRPS]
      modifies this, grpsHash
      ensures Indexed() && groups == old(groups)[added.name := added]
      ensures model == old(model)[added.name := map[]]
      ensures storage == old(storage) + {added, added.list} && repr == old(repr) + {added, added.list}
    {
      var b := hash(added.name) % MAX_UNIQ_GRPS;
      InsertRepresents(hash, buckets, groups, added.name, added);
      InsertFlatten(buckets, b, (added.name, added));
      ghost var after := Insert(hash, buckets, added.name, added);
      assert after[b][1..] == buckets[b];
      grpsHash[b] := added;
      buckets, groups, model := after, groups[added.name := added], model[added.name := map[]];
      storage, repr := storage + {added, added.list}, repr + {added, added.list};
      numOfGrps := numOfGrps + 1;
    }

    /** A linked group joins the table's groups. */
    method PushGroup(added: Group)
      requires Valid() && added.Valid() && added.pairs == map[] && added.hash == hash
      requires added.name !in groups && added !in repr && added.list !in repr
      requires added.next == grpsHash[hash(added.name) % MAX_UNIQ_GRPS]
      modifies this, grpsHash
      ensures Valid() && repr == old(repr) + {added, added.list}
      ensures model == old(model)[added.name := map[]]
    {
      HoldsAdded(groups, model, storage, hash, added);
      LinkGroup(added);
    }

    /** `add_grp` */
    method AddGrp(name: string) returns (ok: bool)
      requires Valid()
      modifies repr
      ensures Valid() && fresh(repr - old(repr))
      ensures ok == (name !in old(model))
      ensures model == if ok then old(model)[name := map[]] else old(model)
      ensures !ok ==> unchanged(old(repr))
    {
      var found := FindGroup(name);
      ok := found == null;
      if ok {
        var added := new Group(name, hash, grpsHash[hash(name) % MAX_UNIQ_GRPS]);
        PushGroup(added);
      }
    }

    /** A pair is added to one of the groups; the others do not share its storage. */
    method PushPairKeep(grp: Group, key: string, value: string)
      requires Holds(groups, model, storage, hash) && Apart(groups)
      requires grp.name in groups && grp == groups[grp.name] && key !in grp.pairs
      modifies grp, grp.list
      ensures Holds(groups, model[grp.name := model[grp.name][key := value]], storage, hash)
    {
      assert HoldsGroup(grp, grp.name, model[grp.name], storage, hash);
      grp.PushPair(key, value);
      forall n | n in groups && n != grp.name ensures HoldsGroup(groups[n], n, model[n], storage, hash) {
        assert old(HoldsGroup(groups[n], n, model[n], storage, hash)) && OwnLists(groups, n, grp.name);
        GroupKept(groups[n]);
      }
    }

    method PushPairTo(grp: Group, key: string, value: string)
      requires Valid() && grp.name in groups && grp == groups[grp.name] && key !in grp.pairs
      modifies `model, grp, grp.list
      ensures Valid()
      ensures model == old(model)[grp.name := old(model)[grp.name][key := value]]
    {
      PushPairKeep(grp, key, value);
      model := model[grp.name := model[grp.name][key := value]];
    }

    /** The duplicate check of `add_key_value_pair` and the insertion. */
    method AddPairTo(grp: Group, key: string, value: string) returns (ok: bool)
      requires Valid() && grp.name in groups && grp == groups[grp.name]
      modifies `model, grp, grp.list
      ensures Valid() && ok == (key !in old(model)[grp.name])
      ensures model == if ok then old(model)[grp.name := old(model)[grp.name][key := value]] else old(model)
      ensures !ok ==> unchanged(this, grp, grp.list)
    {
      assert HoldsGroup(grp, grp.name, model[grp.name], storage, hash);
      var node := grp.FindPair(key);
      ok := node == null;
      if ok {
        PushPairTo(grp, key, value);
      }
    }

    /** `add_key_value_pair` */
    method AddKeyValuePair(curGrp: string, key: string, value: string) returns (ok: bool)
      requires Valid()
      modifies repr
      ensures Valid() && repr == old(repr)
      ensures ok == (key != "" && curGrp in old(model) && key !in old(model)[curGrp])
      ensures model == if ok then old(model)[curGrp := old(model)[curGrp][key := value]] else old(model)
      ensures !ok ==> unchanged(old(repr))
    {
      ok := false;
      if key != "" {
        var grp := FindGroup(curGrp);
        if grp != null {
          ok := AddPairTo(grp, key, value);
        }
      }
    }

    /** `get_value` */
    method GetValue(grpName: string, key: string) returns (value: Option<string>)
      requires Valid()
      ensures value == if grpName != "" && key != "" && grpName in model && key in model[grpName]
                       then Some(model[grpName][key]) else None
    {
      if grpName == "" || key == "" {
        return None;
      }
      var grp := FindGroup(grpName);
      if grp == null {
        return None;
      }
      var node := grp.FindPair(key);
      value := if node == null then None else Some(node.value);
    }

    /** `get_keys`: NULL for an unknown or empty group, otherwise the NULL-terminated key list. */
    method GetKeys(grpName: string) returns (keys: array?<Option<string>>)
      requires Valid()
      ensures keys == null <==> grpName == "" || grpName !in model || model[grpName] == map[]
      ensures keys != null ==> fresh(keys) && IsListing(keys[..], model[grpName])
    {
      if numOfGrps == 0 || grpName == "" {
        ListingIsKeys(hash, buckets, groups);
        assert numOfGrps == 0 ==> |model.Keys| == |groups.Keys| == 0;
        return null;
      }
      var grp := FindGroup(grpName);
      if grp == null {
        return null;
      }
      ListingIsKeys(hash, grp.buckets, grp.pairs);
      if grp.numOfKeys == 0 {
        return null;
      }
      keys := grp.ListKeys();
    }

    /** `get_grps`: NULL for an empty table, otherwise the NULL-terminated list of group names. */
    method GetGrps() returns (grps: array?<Option<string>>)
      requires Valid()
      ensures grps == null <==> model == map[]
      ensures grps != null ==> fresh(grps) && IsListing(grps[..], model)
    {
      ListingIsKeys(hash, buckets, groups);
      assert |model.Keys| == |groups.Keys| == numOfGrps;
      if numOfGrps == 0 {
        return null;
      }
      grps := CopyAllGroups(grpsHash, numOfGrps, buckets);
      ListingFilled(grps[..], Names(Flatten(buckets)), model);
    }
  }
}
