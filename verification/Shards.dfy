/** From directories and requests to packed shards. */
module Shards {
  import opened Partition
  import opened Loads
  import opened ShardPlan
  import UnionFind

  /** The weight of every merged group: that of its directories together. */
  function Weights(merged: map<Key, seq<Key>>, size: map<Key, nat>): map<Key, nat> {
    map r | r in merged :: Sum(All(size, merged[r]))
  }

  /** The directories of all the groups in a shard. */
  function Laid(merged: map<Key, seq<Key>>, roots: seq<Key>): seq<Key> {
    if roots == [] then []
    else
      var r := roots[|roots| - 1];
      Laid(merged, roots[..|roots| - 1]) + if r in merged then merged[r] else []
  }

  /** What directories weigh together; one without files weighs nothing. */
  function Total(size: map<Key, nat>, dirs: seq<Key>): nat {
    if dirs == [] then 0
    else
      var d := dirs[|dirs| - 1];
      Total(size, dirs[..|dirs| - 1]) + if d in size then size[d] else 0
  }

  lemma {:induction false} TotalIs(size: map<Key, nat>, dirs: seq<Key>)
    ensures Total(size, dirs) == Sum(All(size, dirs))
  {
    if dirs != [] {
      var n := |dirs| - 1;
      TotalIs(size, dirs[..n]);
      assert All(size, dirs)[..n] == All(size, dirs[..n]);
    }
  }

  lemma {:induction false} TotalJoins(size: map<Key, nat>, a: seq<Key>, b: seq<Key>)
    ensures Total(size, a + b) == Total(size, a) + Total(size, b)
  {
    if b == [] {
      assert a + b == a;
    } else {
      var n := |b| - 1;
      TotalJoins(size, a, b[..n]);
      assert (a + b)[..|a| + n] == a + b[..n];
    }
  }

  /** A shard's groups weigh what their directories do. */
  lemma {:induction false} WeighsDirs(merged: map<Key, seq<Key>>, size: map<Key, nat>, roots: seq<Key>)
    ensures Sum(All(Weights(merged, size), roots)) == Total(size, Laid(merged, roots))
  {
    if roots != [] {
      var n, w := |roots| - 1, Weights(merged, size);
      WeighsDirs(merged, size, roots[..n]);
      assert All(w, roots)[..n] == All(w, roots[..n]);
      if roots[n] in merged {
        TotalIs(size, merged[roots[n]]);
        TotalJoins(size, Laid(merged, roots[..n]), merged[roots[n]]);
      } else {
        assert Laid(merged, roots[..n]) + [] == Laid(merged, roots[..n]);
      }
    }
  }

  function Dirs(dirs: seq<Key>): set<Key> {
    set d | d in dirs
  }

  lemma {:induction false} HasMember(keys: seq<Key>, rep: map<Key, Key>, i: nat)
    requires Known(rep, keys) && i < |keys|
    ensures keys[i] in UnionFind.Members(keys, rep, rep[keys[i]])
  {
    if i < |keys| - 1 { HasMember(keys[..|keys| - 1], rep, i); }
  }

  lemma {:induction false} OnceIn(s: seq<Key>, i: nat)
    requires i < |s| && forall a, b :: 0 <= a < b < |s| ==> s[a] != s[b]
    ensures multiset(s)[s[i]] == 1
  {
    var n := |s| - 1;
    assert s == s[..n] + [s[n]];
    if i < n {
      OnceIn(s[..n], i);
    } else {
      assert forall a :: 0 <= a < n ==> s[..n][a] != s[n];
      assert s[n] !in s[..n];
    }
  }

  /** Every key's group is one of the roots, once. */
  lemma RootOnce(roots: seq<Key>, merged: map<Key, seq<Key>>, rep: map<Key, Key>, keys: seq<Key>, k: Key)
    requires Known(rep, keys) && UnionFind.Sorts(merged, rep, keys) && UnionFind.Lists(roots, merged.Keys)
    requires k in keys
    ensures k in rep && multiset(roots)[rep[k]] == 1 && rep[k] in merged && k in merged[rep[k]]
  {
    var i :| 0 <= i < |keys| && keys[i] == k;
    HasMember(keys, rep, i);
    assert rep[k] in merged;
    var j :| 0 <= j < |roots| && roots[j] == rep[k];
    OnceIn(roots, j);
  }

  method Gather(dirs: seq<Key>) returns (groups: UnionFind.Groups)
    ensures fresh(groups) && groups.Valid() && groups.rep == Singletons(Dirs(dirs))
  {
    hide UnionFind.Forest, UnionFind.Lists;
    groups := new UnionFind.Groups();
    for i := 0 to |dirs|
      invariant fresh(groups) && groups.Valid() && groups.rep == Singletons(Dirs(dirs[..i]))
    {
      groups.Add(dirs[i]);
      assert Dirs(dirs[..i + 1]) == Dirs(dirs[..i]) + {dirs[i]};
    }
    assert dirs[..|dirs|] == dirs;
  }

  /** Every request joins what it names. */
  method Colocate(groups: UnionFind.Groups, us: seq<seq<Key>>)
    requires groups.Valid() && AllKnown(groups.rep, us) && forall i :: 0 <= i < |us| ==> us[i] != []
    modifies groups
    ensures groups.Valid() && groups.rep == JoinAll(old(groups.rep), us) && groups.keys == old(groups.keys)
  {
    hide UnionFind.Forest, UnionFind.Lists, Join;
    ghost var was := groups.rep;
    for i := 0 to |us|
      invariant groups.Valid() && AllKnown(was, us[..i]) && groups.rep == JoinAll(was, us[..i])
      invariant groups.keys == old(groups.keys)
    {
      assert Known(was, us[i]);
      var _ := groups.Union(us[i]);
      assert us[..i + 1][..i] == us[..i];
    }
    assert us[..|us|] == us;
  }

  /** Every group holds each directory of its class once, and no other; none is
      empty. */
  ghost predicate Grouped(merged: map<Key, seq<Key>>, rep: map<Key, Key>) {
    && (forall r :: r in merged ==> merged[r] != [])
    && forall r, d :: r in merged ==> multiset(merged[r])[d] == if d in rep && rep[d] == r then 1 else 0
  }

  lemma {:induction false} MemberOnce(keys: seq<Key>, rep: map<Key, Key>, r: Key, d: Key)
    requires Known(rep, keys) && forall a, b :: 0 <= a < b < |keys| ==> keys[a] != keys[b]
    ensures multiset(UnionFind.Members(keys, rep, r))[d] == if d in keys && rep[d] == r then 1 else 0
  {
    if keys != [] {
      var n := |keys| - 1;
      MemberOnce(keys[..n], rep, r, d);
      assert keys == keys[..n] + [keys[n]];
      assert keys[n] !in keys[..n];
    }
  }

  lemma SortsGroups(merged: map<Key, seq<Key>>, rep: map<Key, Key>, keys: seq<Key>)
    requires Known(rep, keys) && UnionFind.Sorts(merged, rep, keys) && UnionFind.Lists(keys, rep.Keys)
    ensures Grouped(merged, rep)
  {
    hide UnionFind.Members;
    forall r, d | r in merged ensures multiset(merged[r])[d] == if d in rep && rep[d] == r then 1 else 0 {
      MemberOnce(keys, rep, r, d);
    }
  }

  /** d is in group r, and r in one shard once. */
  predicate PlacedOnce(shards: seq<Shard>, merged: map<Key, seq<Key>>, d: Key, r: Key) {
    Held(shards)[r] == 1 && r in merged && d in merged[r]
  }

  lemma KeysGathered(keys: seq<Key>, rep: map<Key, Key>, dirs: set<Key>)
    requires UnionFind.Lists(keys, rep.Keys) && rep.Keys == dirs
    ensures forall d :: d in dirs ==> d in keys
  {
  }

  /** Every directory lands in exactly one shard, together with exactly the
      directories the requests force together with it. A shard weighs what its
      directories weigh, and none more than 4/3 - 1/(3K) of the best. */
  method Plan(dirs: seq<Key>, us: seq<seq<Key>>, size: map<Key, nat>)
    returns (shards: seq<Shard>, roots: seq<Key>, merged: map<Key, seq<Key>>)
    requires AllKnown(Singletons(Dirs(dirs)), us) && forall i :: 0 <= i < |us| ==> us[i] != []
    ensures Grouped(merged, JoinAll(Singletons(Dirs(dirs)), us))
    ensures UnionFind.Lists(roots, merged.Keys) && Held(shards) == multiset(roots)
    ensures |shards| == 8 && NearBest(Weights(merged, size), roots, shards)
    ensures forall t :: 0 <= t < 8 ==> shards[t].w == Total(size, Laid(merged, shards[t].roots))
    ensures forall d :: d in dirs ==> PlacedOnce(shards, merged, d, JoinAll(Singletons(Dirs(dirs)), us)[d])
  {
    hide UnionFind.Lists, UnionFind.Forest, UnionFind.Sorts, NearBest, Grouped;
    var groups := Gather(dirs);
    Colocate(groups, us);
    roots, merged := groups.Merge();
    SortsGroups(merged, groups.rep, groups.keys);
    KeysGathered(groups.keys, groups.rep, Dirs(dirs));
    shards := Pack(roots, Weights(merged, size));
    forall t | 0 <= t < 8 ensures shards[t].w == Total(size, Laid(merged, shards[t].roots)) {
      WeighsDirs(merged, size, shards[t].roots);
    }
    forall d | d in dirs ensures PlacedOnce(shards, merged, d, JoinAll(Singletons(Dirs(dirs)), us)[d]) {
      RootOnce(roots, merged, groups.rep, groups.keys, d);
    }
  }
}
