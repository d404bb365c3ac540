/** The mesh path table (mesh_pathtbl.c): a chained hash table that grows, seen as a map from interface
    and destination to route. */
module PathTbl {
  import opened Wrappers

  type Addr = nat
  type Iface = nat

  datatype Key = Key(sdata: Iface, dst: Addr)

  datatype Error = ENOTSUPP | ENOSPC | ENOMEM | EAGAIN | ENXIO

  const INIT_BUCKETS := 4
  const MEAN_CHAIN_LEN := 2

  /** A route. Tables hold references to routes, so that two tables can share one while growing. */
  class MeshPath {
    const key: Key
    var active: bool
    var nextHop: Option<Addr>
    var expTime: nat

    constructor (key: Key, now: nat)
      ensures this.key == key && !active && nextHop == None && expTime == now
    {
      this.key := key;
      active, nextHop, expTime := false, None, now;
    }
  }

  type Hash = (Key, nat) -> nat

  /** The bucket of a key: the hash function and its seed are arbitrary. */
  function Index(hash: Hash, rnd: nat, size: nat, key: Key): (i: nat)
    requires size > 0
    ensures i < size
  {
    hash(key, rnd) % size
  }

  // ---------------------------------------------------------------- nodes

  function Nodes(buckets: seq<seq<MeshPath>>): nat
  {
    if buckets == [] then 0 else Nodes(buckets[..|buckets| - 1]) + |buckets[|buckets| - 1]|
  }

  lemma {:induction false} NodesUpdate(buckets: seq<seq<MeshPath>>, i: nat, b: seq<MeshPath>)
    requires i < |buckets|
    ensures Nodes(buckets[i := b]) == Nodes(buckets) - |buckets[i]| + |b|
    decreases |buckets|
  {
    var n := |buckets| - 1;
    if i < n {
      NodesUpdate(buckets[..n], i, b);
      assert buckets[i := b][..n] == buckets[..n][i := b];
    } else {
      assert buckets[i := b][..n] == buckets[..n];
    }
  }

  lemma {:induction false} NodesPrefix(buckets: seq<seq<MeshPath>>, i: nat)
    requires i < |buckets|
    ensures Nodes(buckets[..i + 1]) == Nodes(buckets[..i]) + |buckets[i]| <= Nodes(buckets)
    decreases |buckets|
  {
    var n := |buckets| - 1;
    assert buckets[..i + 1][..i] == buckets[..i];
    if i < n {
      NodesPrefix(buckets[..n], i);
      assert buckets[..n][..i + 1] == buckets[..i + 1] && buckets[..n][..i] == buckets[..i];
    } else {
      assert buckets[..i + 1] == buckets;
    }
  }

  lemma {:induction false} NodesNone(buckets: seq<seq<MeshPath>>)
    requires forall i :: 0 <= i < |buckets| ==> buckets[i] == []
    ensures Nodes(buckets) == 0
    decreases |buckets|
  {
    if buckets != [] {
      NodesNone(buckets[..|buckets| - 1]);
    }
  }

  // ---------------------------------------------------------------- a table is a map

  /** A node is in the bucket of its key, and the map knows it. */
  ghost predicate Placed(p: MeshPath, i: nat, hash: Hash, rnd: nat, size: nat, paths: map<Key, MeshPath>)
    requires size > 0
  {
    Index(hash, rnd, size, p.key) == i && p.key in paths && paths[p.key] == p
  }

  ghost predicate BucketOk(b: seq<MeshPath>, i: nat, hash: Hash, rnd: nat, size: nat, paths: map<Key, MeshPath>)
    requires size > 0
  {
    && (forall p :: p in b ==> Placed(p, i, hash, rnd, size, paths))
    && (forall j, k :: 0 <= j < k < |b| ==> b[j] != b[k])
  }

  /** The buckets hold exactly the routes of the map, each once. */
  ghost predicate Holds(buckets: seq<seq<MeshPath>>, hash: Hash, rnd: nat, paths: map<Key, MeshPath>)
  {
    && |buckets| > 0
    && (forall i {:trigger BucketOk(buckets[i], i, hash, rnd, |buckets|, paths)} :: 0 <= i < |buckets| ==>
       BucketOk(buckets[i], i, hash, rnd, |buckets|, paths))
    && (forall key {:trigger Index(hash, rnd, |buckets|, key)} :: key in paths ==>
       paths[key].key == key && paths[key] in buckets[Index(hash, rnd, |buckets|, key)])
  }

  /** Whatever the history of the table, two nodes with the same key are one node. */
  lemma UniqueKeys(buckets: seq<seq<MeshPath>>, hash: Hash, rnd: nat, paths: map<Key, MeshPath>, i: nat, j: nat,
                   i': nat, j': nat)
    requires Holds(buckets, hash, rnd, paths)
    requires i < |buckets| && j < |buckets[i]| && i' < |buckets| && j' < |buckets[i']|
             && buckets[i][j].key == buckets[i'][j'].key
    ensures i == i' && j == j'
  {
    assert BucketOk(buckets[i], i, hash, rnd, |buckets|, paths)
           && BucketOk(buckets[i'], i', hash, rnd, |buckets|, paths);
    assert buckets[i][j] in buckets[i] && buckets[i'][j'] in buckets[i'];
  }

  /** Adding a node at the head of its bucket. */
  lemma AddHolds(buckets: seq<seq<MeshPath>>, hash: Hash, rnd: nat, paths: map<Key, MeshPath>, p: MeshPath)
    requires Holds(buckets, hash, rnd, paths) && p.key !in paths
    ensures var i := Index(hash, rnd, |buckets|, p.key); Holds(buckets[i := [p] + buckets[i]], hash, rnd,
            paths[p.key := p])
  {
    var i := Index(hash, rnd, |buckets|, p.key);
    var b', paths' := [p] + buckets[i], paths[p.key := p];
    forall t | 0 <= t < |buckets|
      ensures BucketOk(if t == i then b' else buckets[t], t, hash, rnd, |buckets|, paths')
    {
      assert BucketOk(buckets[t], t, hash, rnd, |buckets|, paths);
      if t == i {
        assert forall k :: 1 <= k < |b'| ==> b'[k] == buckets[i][k - 1] && b'[k] in buckets[i];
      }
    }
  }

  function Without(b: seq<MeshPath>, j: nat): seq<MeshPath>
    requires j < |b|
  {
    b[..j] + b[j + 1..]
  }

  /** Unlinking a node. */
  lemma DelHolds(buckets: seq<seq<MeshPath>>, hash: Hash, rnd: nat, paths: map<Key, MeshPath>, i: nat, j: nat)
    requires Holds(buckets, hash, rnd, paths) && i < |buckets| && j < |buckets[i]|
    ensures buckets[i][j].key in paths && paths[buckets[i][j].key] == buckets[i][j]
    ensures Holds(buckets[i := Without(buckets[i], j)], hash, rnd, paths - {buckets[i][j].key})
  {
    var b, p := buckets[i], buckets[i][j];
    var b', paths' := Without(b, j), paths - {p.key};
    assert BucketOk(b, i, hash, rnd, |buckets|, paths) && p in b;
    forall q | q in b && q != p
      ensures q in b'
    {
      var k :| 0 <= k < |b| && b[k] == q;
      assert b'[if k < j then k else k - 1] == q;
    }
    forall t | 0 <= t < |buckets|
      ensures BucketOk(if t == i then b' else buckets[t], t, hash, rnd, |buckets|, paths')
    {
      assert BucketOk(buckets[t], t, hash, rnd, |buckets|, paths);
      if t == i {
        assert forall q :: q in b' ==> q in b && q != p;
      }
    }
    forall key | key in paths'
      ensures paths'[key].key == key && paths'[key] in buckets[i := b'][Index(hash, rnd, |buckets|, key)]
    {
      assert paths[key] in buckets[Index(hash, rnd, |buckets|, key)];
    }
  }

  /** Some routes through this peer are gone, and no others. */
  ghost predicate Thinned(before: map<Key, MeshPath>, after: map<Key, MeshPath>, hop: Addr)
    reads before.Values`nextHop
  {
    && (forall key :: key in after ==> key in before && after[key] == before[key])
    && (forall key :: key in before && key !in after ==> before[key].nextHop == Some(hop))
  }

  /** No route of this chain goes through the peer. */
  ghost predicate Spared(b: seq<MeshPath>, hop: Addr)
    reads (set p | p in b)`nextHop
  {
    forall p :: p in b ==> p.nextHop != Some(hop)
  }

  ghost predicate Elsewhere(before: seq<seq<MeshPath>>, after: seq<seq<MeshPath>>, i: nat)
  {
    |before| == |after| && forall t :: 0 <= t < |after| && t != i ==> after[t] == before[t]
  }

  lemma ThinnedTwice(a: map<Key, MeshPath>, b: map<Key, MeshPath>, c: map<Key, MeshPath>, hop: Addr)
    requires Thinned(a, b, hop) && Thinned(b, c, hop)
    ensures Thinned(a, c, hop)
  {
  }

  lemma FlushedAll(buckets: seq<seq<MeshPath>>, hash: Hash, rnd: nat, before: map<Key, MeshPath>, after: map<Key,
                   MeshPath>, hop: Addr)
    requires Holds(buckets, hash, rnd, after) && Thinned(before, after, hop)
    requires forall t :: 0 <= t < |buckets| ==> Spared(buckets[t], hop)
    ensures after == map key | key in before && before[key].nextHop != Some(hop) :: before[key]
  {
    forall key | key in after
      ensures after[key].nextHop != Some(hop)
    {
      assert Spared(buckets[Index(hash, rnd, |buckets|, key)], hop);
    }
  }

  // ---------------------------------------------------------------- the table

  class MeshTable {
    const hash: Hash
    const rnd: nat
    var buckets: seq<seq<MeshPath>>
    var entries: int
    ghost var paths: map<Key, MeshPath>

    ghost predicate Valid()
      reads this
    {
      Holds(buckets, hash, rnd, paths) && entries == |paths| == Nodes(buckets)
    }

    /** mesh_table_alloc */
    constructor (hash: Hash, rnd: nat, size: nat)
      requires size > 0
      ensures Valid() && paths == map[] && |buckets| == size && this.hash == hash && this.rnd == rnd
      ensures forall i :: 0 <= i < size ==> buckets[i] == []
    {
      this.hash, this.rnd := hash, rnd;
      buckets := seq(size, _ => []);
      entries := 0;
      paths := map[];
      new;
      NodesNone(buckets);
    }

    /** Walks the bucket of a key. */
    method Find(key: Key) returns (i: nat, j: nat)
      requires Valid()
      ensures i == Index(hash, rnd, |buckets|, key) && j <= |buckets[i]|
      ensures j < |buckets[i]| ==> key in paths && buckets[i][j] == paths[key]
      ensures j == |buckets[i]| ==> key !in paths
    {
      i := Index(hash, rnd, |buckets|, key);
      j := 0;
      assert BucketOk(buckets[i], i, hash, rnd, |buckets|, paths);
      while j < |buckets[i]| && buckets[i][j].key != key
        invariant 0 <= j <= |buckets[i]|
        invariant forall k :: 0 <= k < j ==> buckets[i][k].key != key
      {
        j := j + 1;
      }
      if j < |buckets[i]| {
        assert buckets[i][j] in buckets[i];
      }
    }

    /** mpath_lookup: what the map says, and an expired route is no longer active. */
    method Lookup(key: Key, now: nat) returns (r: Option<MeshPath>)
      requires Valid()
      modifies paths.Values`active
      ensures r == if key in paths then Some(paths[key]) else None
      ensures r.Some? ==> r.value.active == (old(r.value.active) && now <= r.value.expTime)
      ensures forall p :: p in paths.Values && r != Some(p) ==> p.active == old(p.active)
    {
      var i, j := Find(key);
      if j == |buckets[i]| {
        return None;
      }
      var p := buckets[i][j];
      if p.active && now > p.expTime {
        p.active := false;
      }
      r := Some(p);
    }

    /** mesh_path_add, for an interface with address self. `room` stands for the limit on routes. */
    method Add(key: Key, self: Addr, multicast: bool, room: bool, allocOk: bool, now: nat)
        returns (r: Option<MeshPath>, err: Option<Error>, grow: bool)
      requires Valid()
      modifies this
      ensures Valid() && |buckets| == old(|buckets|)
      ensures key.dst == self || multicast ==> err == Some(ENOTSUPP)
      ensures !(key.dst == self || multicast) && !room ==> err == Some(ENOSPC)
      ensures !(key.dst == self || multicast) && room ==>
              err == if key in old(paths) || allocOk then None else Some(ENOMEM)
      ensures err.Some? ==> r == None && paths == old(paths) && buckets == old(buckets)
      ensures err.None? ==> r.Some? && key in paths && paths[key] == r.value
      ensures err.None? && key in old(paths) ==> paths == old(paths)
      ensures err.None? && key !in old(paths) ==> fresh(r.value) && paths == old(paths)[key := r.value]
      ensures err.None? && key !in old(paths) ==>
                r.value.key == key && !r.value.active && r.value.nextHop == None && r.value.expTime == now
      ensures grow <==> entries > old(entries) && entries >= MEAN_CHAIN_LEN * |buckets|
    {
      r, err, grow := None, None, false;
      if key.dst == self || multicast {
        err := Some(ENOTSUPP);
        return;
      }
      if !room {
        err := Some(ENOSPC);
        return;
      }
      var i, j := Find(key);
      if j < |buckets[i]| {
        r := Some(buckets[i][j]);
        return;
      }
      if !allocOk {
        err := Some(ENOMEM);
        return;
      }
      var p := new MeshPath(key, now);
      AddHolds(buckets, hash, rnd, paths, p);
      NodesUpdate(buckets, i, [p] + buckets[i]);
      buckets := buckets[i := [p] + buckets[i]];
      entries := entries + 1;
      paths := paths[key := p];
      grow := entries >= MEAN_CHAIN_LEN * |buckets|;
      r := Some(p);
    }

    /** __mesh_path_del */
    method Unlink(i: nat, j: nat)
      requires Valid() && i < |buckets| && j < |buckets[i]|
      modifies this
      ensures Valid() && buckets == old(buckets)[i := Without(old(buckets)[i], j)]
      ensures paths == old(paths) - {old(buckets)[i][j].key}
      ensures old(buckets)[i][j].key in old(paths) && old(paths)[old(buckets)[i][j].key] == old(buckets)[i][j]
    {
      DelHolds(buckets, hash, rnd, paths, i, j);
      NodesUpdate(buckets, i, Without(buckets[i], j));
      paths := paths - {buckets[i][j].key};
      buckets := buckets[i := buckets[i][..j] + buckets[i][j + 1..]];
      entries := entries - 1;
    }

    /** mesh_path_del */
    method Del(key: Key) returns (err: Option<Error>)
      requires Valid()
      modifies this
      ensures Valid() && paths == old(paths) - {key} && |buckets| == old(|buckets|)
      ensures err == if key in old(paths) then None else Some(ENXIO)
    {
      var i, j := Find(key);
      if j < |buckets[i]| {
        Unlink(i, j);
        err := None;
      } else {
        err := Some(ENXIO);
      }
    }

    /** Looks at one node for mesh_path_flush_by_nexthop. */
    method FlushNode(i: nat, j: nat, hop: Addr) returns (j': nat)
      requires Valid() && i < |buckets| && j < |buckets[i]|
      modifies this
      ensures Valid() && Elsewhere(old(buckets), buckets, i)
      ensures j' <= |buckets[i]| && |buckets[i]| - j' == |old(buckets)[i]| - j - 1
      ensures buckets[i][..j'] == old(buckets)[i][..j] + if old(buckets)[i][j].nextHop == Some(hop) then []
              else [old(buckets)[i][j]]
      ensures Thinned(old(paths), paths, hop)
    {
      ghost var b := buckets[i];
      if buckets[i][j].nextHop == Some(hop) {
        Unlink(i, j);
        assert buckets[i][..j] == b[..j];
        j' := j;
      } else {
        assert b[..j + 1] == b[..j] + [b[j]];
        j' := j + 1;
      }
    }

    /** One bucket of mesh_path_flush_by_nexthop. */
    method FlushBucket(i: nat, hop: Addr)
      requires Valid() && i < |buckets|
      modifies this
      ensures Valid() && Elsewhere(old(buckets), buckets, i)
      ensures Spared(buckets[i], hop)
      ensures Thinned(old(paths), paths, hop)
    {
      var j: nat := 0;
      while j < |buckets[i]|
        invariant Valid() && Elsewhere(old(buckets), buckets, i) && j <= |buckets[i]|
        invariant Spared(buckets[i][..j], hop)
        invariant Thinned(old(paths), paths, hop)
        decreases |buckets[i]| - j
      {
        ghost var before := paths;
        j := FlushNode(i, j, hop);
        ThinnedTwice(old(paths), before, paths, hop);
      }
      assert buckets[i][..j] == buckets[i];
    }

    /** mesh_path_flush_by_nexthop: exactly the routes through this peer go. */
    method FlushByNexthop(hop: Addr)
      requires Valid()
      modifies this
      ensures Valid() && |buckets| == old(|buckets|)
      ensures paths == map key | key in old(paths) && old(paths)[key].nextHop != Some(hop) :: old(paths)[key]
    {
      for i := 0 to |buckets|
        invariant Valid() && |buckets| == old(|buckets|)
        invariant forall t :: 0 <= t < i ==> Spared(buckets[t], hop)
        invariant Thinned(old(paths), paths, hop)
      {
        ghost var before := paths;
        FlushBucket(i, hop);
        ThinnedTwice(old(paths), before, paths, hop);
      }
      FlushedAll(buckets, hash, rnd, old(paths), paths, hop);
    }
  }

  // ---------------------------------------------------------------- growing

  /** The new table has the routes of the first i chains, and of the first j nodes of chain i. */
  ghost predicate Copied(buckets: seq<seq<MeshPath>>, hash: Hash, rnd: nat, paths: map<Key, MeshPath>, i: nat, j: nat,
                         copy: map<Key, MeshPath>)
    requires |buckets| > 0
  {
    && i <= |buckets| && (if i < |buckets| then j <= |buckets[i]| else j == 0)
    && (forall key {:trigger Index(hash, rnd, |buckets|, key)} :: key in copy ==>
       key in paths && copy[key] == paths[key] && Reached(buckets, i, j, Index(hash, rnd, |buckets|, key), copy[key]))
    && (forall t {:trigger ChainIn(buckets[t], copy)} :: 0 <= t < i ==> ChainIn(buckets[t], copy))
    && (i < |buckets| ==> ChainIn(buckets[i][..j], copy))
  }

  ghost predicate ChainIn(b: seq<MeshPath>, copy: map<Key, MeshPath>)
  {
    forall p :: p in b ==> p.key in copy
  }

  ghost predicate Reached(buckets: seq<seq<MeshPath>>, i: nat, j: nat, t: nat, p: MeshPath)
    requires t < |buckets| && (i < |buckets| ==> j <= |buckets[i]|)
  {
    t < i || (t == i && p in buckets[t][..j])
  }

  /** The next node is not in the new table yet, and is the only one that copying it adds. */
  lemma CopiedNext(buckets: seq<seq<MeshPath>>, hash: Hash, rnd: nat, paths: map<Key, MeshPath>, i: nat, j: nat,
                   copy: map<Key, MeshPath>)
    requires Holds(buckets, hash, rnd, paths) && i < |buckets| && j < |buckets[i]|
             && Copied(buckets, hash, rnd, paths, i, j, copy)
    ensures var p := buckets[i][j]; p.key !in copy && Copied(buckets, hash, rnd, paths, i, j + 1, copy[p.key := p])
  {
    var p := buckets[i][j];
    assert BucketOk(buckets[i], i, hash, rnd, |buckets|, paths) && p in buckets[i];
    assert buckets[i][..j + 1] == buckets[i][..j] + [p];
    var copy' := copy[p.key := p];
    assert Index(hash, rnd, |buckets|, p.key) == i && p !in buckets[i][..j];
    forall t | 0 <= t < i
      ensures ChainIn(buckets[t], copy')
    {
      assert ChainIn(buckets[t], copy);
    }
    forall key | key in copy'
      ensures key in paths && copy'[key] == paths[key]
              && Reached(buckets, i, j + 1, Index(hash, rnd, |buckets|, key), copy'[key])
    {
      assert key != p.key ==> Reached(buckets, i, j, Index(hash, rnd, |buckets|, key), copy[key]);
    }
  }

  lemma CopiedChain(buckets: seq<seq<MeshPath>>, hash: Hash, rnd: nat, paths: map<Key, MeshPath>, i: nat,
                    copy: map<Key, MeshPath>)
    requires |buckets| > 0 && i < |buckets| && Copied(buckets, hash, rnd, paths, i, |buckets[i]|, copy)
    ensures Copied(buckets, hash, rnd, paths, i + 1, 0, copy)
  {
    assert buckets[i][..|buckets[i]|] == buckets[i];
    forall key | key in copy
      ensures key in paths && copy[key] == paths[key]
              && Reached(buckets, i + 1, 0, Index(hash, rnd, |buckets|, key), copy[key])
    {
      assert Reached(buckets, i, |buckets[i]|, Index(hash, rnd, |buckets|, key), copy[key]);
    }
  }

  lemma CopiedAll(buckets: seq<seq<MeshPath>>, hash: Hash, rnd: nat, paths: map<Key, MeshPath>, copy: map<Key,
                  MeshPath>)
    requires Holds(buckets, hash, rnd, paths) && Copied(buckets, hash, rnd, paths, |buckets|, 0, copy)
    ensures copy == paths
  {
    forall key | key in paths
      ensures key in copy && copy[key] == paths[key]
    {
      var t := Index(hash, rnd, |buckets|, key);
      assert ChainIn(buckets[t], copy);
    }
    forall key | key in copy
      ensures key in paths
    {
      var _ := Index(hash, rnd, |buckets|, key);
    }
  }

  /** mesh_path_node_copy: the copy goes to the head of its new chain. `mem` allocations succeed. */
  method NodeCopy(p: MeshPath, newtbl: MeshTable, mem: nat) returns (ok: bool)
    requires Holds(newtbl.buckets, newtbl.hash, newtbl.rnd, newtbl.paths) && p.key !in newtbl.paths
    modifies newtbl`buckets, newtbl`paths
    ensures ok <==> mem > 0
    ensures Holds(newtbl.buckets, newtbl.hash, newtbl.rnd, newtbl.paths) && |newtbl.buckets| == old(|newtbl.buckets|)
    ensures newtbl.paths == if ok then old(newtbl.paths)[p.key := p] else old(newtbl.paths)
    ensures Nodes(newtbl.buckets) == old(Nodes(newtbl.buckets)) + if ok then 1 else 0
  {
    ok := mem > 0;
    if ok {
      var i := Index(newtbl.hash, newtbl.rnd, |newtbl.buckets|, p.key);
      AddHolds(newtbl.buckets, newtbl.hash, newtbl.rnd, newtbl.paths, p);
      NodesUpdate(newtbl.buckets, i, [p] + newtbl.buckets[i]);
      newtbl.buckets := newtbl.buckets[i := [p] + newtbl.buckets[i]];
      newtbl.paths := newtbl.paths[p.key := p];
    }
  }

  ghost predicate Growing(oldtbl: MeshTable, newtbl: MeshTable, size: nat, i: nat, j: nat)
    reads oldtbl, newtbl
  {
    && oldtbl.Valid() && |newtbl.buckets| == size
    && Holds(newtbl.buckets, newtbl.hash, newtbl.rnd, newtbl.paths) && |newtbl.paths| == Nodes(newtbl.buckets)
    && Copied(oldtbl.buckets, oldtbl.hash, oldtbl.rnd, oldtbl.paths, i, j, newtbl.paths)
  }

  /** Copies one chain. */
  method ChainCopy(oldtbl: MeshTable, newtbl: MeshTable, i: nat, mem: nat) returns (ok: bool, left: nat)
    requires oldtbl != newtbl && i < |oldtbl.buckets| && Growing(oldtbl, newtbl, |newtbl.buckets|, i, 0)
    modifies newtbl`buckets, newtbl`paths
    ensures |newtbl.buckets| == old(|newtbl.buckets|)
    ensures ok ==> Growing(oldtbl, newtbl, |newtbl.buckets|, i + 1, 0)
    ensures ok <==> mem >= |oldtbl.buckets[i]|
    ensures ok ==> left == mem - |oldtbl.buckets[i]|
  {
    var j: nat := 0;
    left := mem;
    while j < |oldtbl.buckets[i]|
      invariant j <= |oldtbl.buckets[i]| && left == mem - j && Growing(oldtbl, newtbl, old(|newtbl.buckets|), i, j)
    {
      CopiedNext(oldtbl.buckets, oldtbl.hash, oldtbl.rnd, oldtbl.paths, i, j, newtbl.paths);
      ok := NodeCopy(oldtbl.buckets[i][j], newtbl, left);
      if !ok {
        return;
      }
      left := left - 1;
      j := j + 1;
    }
    CopiedChain(oldtbl.buckets, oldtbl.hash, oldtbl.rnd, oldtbl.paths, i, newtbl.paths);
    ok := true;
  }

  /** mesh_table_grow: on success the new table is the same map; otherwise it is empty again. The old
      table is not touched. */
  method TableGrow(oldtbl: MeshTable, newtbl: MeshTable, mem: nat) returns (err: Option<Error>)
    requires oldtbl.Valid() && newtbl.Valid() && oldtbl != newtbl && newtbl.paths == map[]
    modifies newtbl
    ensures |newtbl.buckets| == old(|newtbl.buckets|)
    ensures err == Some(EAGAIN) <==> oldtbl.entries < MEAN_CHAIN_LEN * |oldtbl.buckets|
    ensures err.None? ==> newtbl.Valid() && newtbl.paths == oldtbl.paths && newtbl.entries == oldtbl.entries
    ensures err.None? ==> mem >= oldtbl.entries
    ensures err == Some(ENOMEM) ==> mem < oldtbl.entries
    ensures err == Some(ENOMEM) ==> forall i :: 0 <= i < |newtbl.buckets| ==> newtbl.buckets[i] == []
    ensures err.None? || err == Some(EAGAIN) || err == Some(ENOMEM)
  {
    if oldtbl.entries < MEAN_CHAIN_LEN * |oldtbl.buckets| {
      return Some(EAGAIN);
    }
    newtbl.entries := oldtbl.entries;
    var i: nat, left: nat, ok := 0, mem, true;
    ghost var size := |newtbl.buckets|;
    assert oldtbl.buckets[0][..0] == [];
    while i < |oldtbl.buckets| && ok
      invariant i <= |oldtbl.buckets| && |newtbl.buckets| == size && newtbl.entries == oldtbl.entries
      invariant ok ==> Growing(oldtbl, newtbl, size, i, 0) && mem == left + Nodes(oldtbl.buckets[..i])
      invariant !ok ==> mem < Nodes(oldtbl.buckets)
      decreases |oldtbl.buckets| - i
    {
      NodesPrefix(oldtbl.buckets, i);
      ok, left := ChainCopy(oldtbl, newtbl, i, left);
      i := i + 1;
    }
    if ok {
      assert oldtbl.buckets[..i] == oldtbl.buckets;
      CopiedAll(oldtbl.buckets, oldtbl.hash, oldtbl.rnd, oldtbl.paths, newtbl.paths);
      return None;
    }
    i := 0;
    while i < |newtbl.buckets|
      invariant i <= |newtbl.buckets| == size
      invariant forall t :: 0 <= t < i ==> newtbl.buckets[t] == []
    {
      newtbl.buckets := newtbl.buckets[i := []];
      i := i + 1;
    }
    err := Some(ENOMEM);
  }

  /** The table in use. */
  class Paths {
    var tbl: MeshTable

    constructor (hash: Hash, rnd: nat)
      ensures fresh(tbl) && tbl.Valid() && tbl.paths == map[]
    {
      tbl := new MeshTable(hash, rnd, INIT_BUCKETS);
    }

    /** mesh_mpath_table_grow: however far it gets, the table in use is the same map. */
    method Grow(rnd: nat, allocOk: bool, mem: nat)
      requires tbl.Valid()
      modifies this
      ensures tbl.Valid() && tbl.paths == old(tbl.paths) && tbl.entries == old(tbl.entries) && tbl.hash == old(tbl.hash)
      ensures tbl != old(tbl) <==> allocOk && MEAN_CHAIN_LEN * old(|tbl.buckets|) <= old(tbl.entries) <= mem
      ensures tbl != old(tbl) ==> fresh(tbl) && |tbl.buckets| == 2 * old(|tbl.buckets|)
      ensures tbl == old(tbl) ==> |tbl.buckets| == old(|tbl.buckets|)
    {
      if !allocOk {
        return;
      }
      var newtbl := new MeshTable(tbl.hash, rnd, 2 * |tbl.buckets|);
      var err := TableGrow(tbl, newtbl, mem);
      if err.None? {
        tbl := newtbl;
      }
    }
  }
}
