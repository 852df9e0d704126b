/** Grouping a unity build's files: a union-find over directories. */
module Partition {
  type Key = string

  /** Every key stands in the class named by its representative. */
  predicate IsPartition(rep: map<Key, Key>) {
    forall k :: k in rep ==> rep[k] in rep && rep[rep[k]] == rep[k]
  }

  predicate Known(rep: map<Key, Key>, u: seq<Key>) {
    forall i :: 0 <= i < |u| ==> u[i] in rep
  }

  /** k stands in the class of one of the keys u. */
  predicate Touched(rep: map<Key, Key>, u: seq<Key>, k: Key)
    requires k in rep && Known(rep, u)
  {
    exists i :: 0 <= i < |u| && rep[u[i]] == rep[k]
  }

  /** The classes of all the keys u become one, the first key's. */
  function Join(rep: map<Key, Key>, u: seq<Key>): (r: map<Key, Key>)
    requires Known(rep, u)
    ensures r.Keys == rep.Keys
  {
    map k | k in rep :: if Touched(rep, u, k) then rep[u[0]] else rep[k]
  }

  predicate AllKnown(rep: map<Key, Key>, us: seq<seq<Key>>) {
    forall i :: 0 <= i < |us| ==> Known(rep, us[i])
  }

  function JoinAll(rep: map<Key, Key>, us: seq<seq<Key>>): (r: map<Key, Key>)
    requires AllKnown(rep, us)
    ensures r.Keys == rep.Keys
  {
    if us == [] then rep else Join(JoinAll(rep, us[..|us| - 1]), us[|us| - 1])
  }

  function Singletons(keys: set<Key>): map<Key, Key> {
    map k | k in keys :: k
  }

  /** f gives the keys of each request one and the same label. */
  predicate Uniform(f: map<Key, Key>, u: seq<Key>)
    requires Known(f, u)
  {
    forall i, j :: 0 <= i < |u| && 0 <= j < |u| ==> f[u[i]] == f[u[j]]
  }

  predicate Respects(f: map<Key, Key>, us: seq<seq<Key>>) {
    AllKnown(f, us) && forall i :: 0 <= i < |us| ==> Uniform(f, us[i])
  }

  /** f does not tell apart what rep holds together. */
  predicate Coarser(f: map<Key, Key>, rep: map<Key, Key>) {
    f.Keys == rep.Keys && forall a, b :: a in rep && b in rep && rep[a] == rep[b] ==> f[a] == f[b]
  }

  lemma JoinCoarser(f: map<Key, Key>, rep: map<Key, Key>, u: seq<Key>)
    requires Coarser(f, rep) && Known(rep, u) && Uniform(f, u) && IsPartition(rep)
    ensures Coarser(f, Join(rep, u))
  {
    var now := Join(rep, u);
    forall k | k in rep && Touched(rep, u, k) ensures f[k] == f[u[0]] {
      var i :| 0 <= i < |u| && rep[u[i]] == rep[k];
    }
    forall a, b | a in rep && b in rep && now[a] == now[b] ensures f[a] == f[b] {
      assert |u| > 0 && rep[u[0]] == rep[a] ==> Touched(rep, u, a);
      assert |u| > 0 && rep[u[0]] == rep[b] ==> Touched(rep, u, b);
    }
  }

  lemma JoinPartition(rep: map<Key, Key>, u: seq<Key>)
    requires IsPartition(rep) && Known(rep, u)
    ensures IsPartition(Join(rep, u))
  {
    var now := Join(rep, u);
    forall k | k in now ensures now[k] in now && now[now[k]] == now[k] {
      if Touched(rep, u, k) {
        assert rep[u[0]] == rep[rep[u[0]]];
        assert Touched(rep, u, rep[u[0]]);
      }
    }
  }

  lemma {:induction false} JoinAllPartition(rep: map<Key, Key>, us: seq<seq<Key>>)
    requires IsPartition(rep) && AllKnown(rep, us)
    ensures IsPartition(JoinAll(rep, us))
  {
    if us != [] {
      var n := |us| - 1;
      JoinAllPartition(rep, us[..n]);
      assert Known(rep, us[n]);
      JoinPartition(JoinAll(rep, us[..n]), us[n]);
    }
  }

  /** Nothing is put together that the requests do not force together. */
  lemma {:induction false} JoinsNoMore(f: map<Key, Key>, keys: set<Key>, us: seq<seq<Key>>)
    requires f.Keys == keys && Respects(f, us)
    ensures AllKnown(Singletons(keys), us) && Coarser(f, JoinAll(Singletons(keys), us))
  {
    hide Join, Uniform, IsPartition;
    var start := Singletons(keys);
    forall i | 0 <= i < |us| ensures Known(start, us[i]) { assert Known(f, us[i]); }
    if us != [] {
      var n := |us| - 1;
      JoinsNoMore(f, keys, us[..n]);
      JoinAllPartition(start, us[..n]);
      assert Known(start, us[n]) && Uniform(f, us[n]);
      JoinCoarser(f, JoinAll(start, us[..n]), us[n]);
    }
  }

  /** Every request is honoured, and later ones do not undo it. */
  lemma {:induction false} JoinsAll(rep: map<Key, Key>, us: seq<seq<Key>>)
    requires AllKnown(rep, us)
    ensures Respects(JoinAll(rep, us), us)
  {
    hide Join, Uniform;
    if us != [] {
      var n := |us| - 1;
      var was, now := JoinAll(rep, us[..n]), JoinAll(rep, us);
      JoinsAll(rep, us[..n]);
      assert Known(rep, us[n]);
      forall i | 0 <= i < |us| ensures Known(now, us[i]) && Uniform(now, us[i]) {
        assert Known(rep, us[i]);
        if i < n {
          assert us[..n][i] == us[i];
          assert Uniform(was, us[i]);
          JoinKeepsUniform(was, us[n], us[i]);
        } else {
          JoinUniform(was, us[n]);
        }
      }
    }
  }

  lemma JoinUniform(rep: map<Key, Key>, u: seq<Key>)
    requires Known(rep, u)
    ensures Uniform(Join(rep, u), u)
  {
    forall i | 0 <= i < |u| ensures Touched(rep, u, u[i]) { assert rep[u[i]] == rep[u[i]]; }
  }

  lemma JoinKeepsUniform(rep: map<Key, Key>, u: seq<Key>, v: seq<Key>)
    requires Known(rep, u) && Known(rep, v) && Uniform(rep, v)
    ensures Uniform(Join(rep, u), v)
  {
    forall i, j | 0 <= i < |v| && 0 <= j < |v| && Touched(rep, u, v[i]) ensures Touched(rep, u, v[j]) {
      var m :| 0 <= m < |u| && rep[u[m]] == rep[v[i]];
    }
  }

  /** Two keys end up together exactly when every labelling that gives each
      request one label gives them the same: the merged groups are the closure
      of the requests, no finer and no coarser. */
  lemma TogetherIff(keys: set<Key>, us: seq<seq<Key>>, a: Key, b: Key)
    requires a in keys && b in keys && AllKnown(Singletons(keys), us)
    ensures JoinAll(Singletons(keys), us)[a] == JoinAll(Singletons(keys), us)[b]
       <==> forall f: map<Key, Key> :: f.Keys == keys && Respects(f, us) ==> f[a] == f[b]
  {
    var rep := JoinAll(Singletons(keys), us);
    JoinsAll(Singletons(keys), us);
    forall f: map<Key, Key> | rep[a] == rep[b] && f.Keys == keys && Respects(f, us) ensures f[a] == f[b] {
      JoinsNoMore(f, keys, us);
    }
    assert rep.Keys == keys;
  }
}

module UnionFind {
  import opened Partition

  /** Following parents from k stays in its class and goes down, unless k is
      the root that names the class. */
  predicate Linked(parent: map<Key, Key>, rep: map<Key, Key>, depth: map<Key, nat>, k: Key)
    requires k in parent && k in rep && k in depth
  {
    && parent[k] in rep && parent[k] in depth && rep[parent[k]] == rep[k]
    && if parent[k] == k then rep[k] == k else depth[parent[k]] < depth[k]
  }

  /** No chain of parents runs in a circle, and each ends at its class's name. */
  predicate Forest(parent: map<Key, Key>, rep: map<Key, Key>, depth: map<Key, nat>) {
    && parent.Keys == rep.Keys == depth.Keys
    && IsPartition(rep)
    && (forall k {:trigger Linked(parent, rep, depth, k)} :: k in rep ==> Linked(parent, rep, depth, k))
    && (forall k :: k in rep && rep[k] == k ==> parent[k] == k)
  }

  /** The class named below becomes part of the class named root. */
  function Moved(rep: map<Key, Key>, below: Key, root: Key): (m: map<Key, Key>)
    ensures m.Keys == rep.Keys
  {
    map k | k in rep :: if rep[k] == below then root else rep[k]
  }

  function Deepened(rep: map<Key, Key>, depth: map<Key, nat>, below: Key, more: nat): (m: map<Key, nat>)
    requires rep.Keys == depth.Keys
    ensures m.Keys == depth.Keys
  {
    map k | k in rep :: if rep[k] == below then depth[k] + more + 1 else depth[k]
  }

  lemma UpdateKeys(m: map<Key, Key>, k: Key, v: Key)
    requires k in m
    ensures m[k := v].Keys == m.Keys && (m[k] == v ==> m[k := v] == m)
  {
  }

  lemma MovedPartition(rep: map<Key, Key>, below: Key, root: Key)
    requires IsPartition(rep) && root in rep && rep[root] == root
    ensures IsPartition(Moved(rep, below, root))
  {
    var now := Moved(rep, below, root);
    assert now[root] == root;
    forall k | k in now ensures now[k] in now && now[now[k]] == now[k] {
      assert rep[rep[k]] == rep[k];
    }
  }

  lemma LinkLinked(parent: map<Key, Key>, rep: map<Key, Key>, depth: map<Key, nat>, below: Key, root: Key, k: Key)
    requires parent.Keys == rep.Keys == depth.Keys && k in rep && Linked(parent, rep, depth, k)
    requires below in rep && root in rep && rep[below] == below != root == rep[root]
    ensures Linked(parent[below := root], Moved(rep, below, root), Deepened(rep, depth, below, depth[root]), k)
  {
  }

  lemma LinkForest(parent: map<Key, Key>, rep: map<Key, Key>, depth: map<Key, nat>, below: Key, root: Key)
    requires Forest(parent, rep, depth) && below in rep && root in rep && rep[below] == below != root == rep[root]
    ensures Forest(parent[below := root], Moved(rep, below, root), Deepened(rep, depth, below, depth[root]))
  {
    hide Linked, IsPartition;
    var p, r, d := parent[below := root], Moved(rep, below, root), Deepened(rep, depth, below, depth[root]);
    MovedPartition(rep, below, root);
    UpdateKeys(parent, below, root);
    forall k | k in r ensures Linked(p, r, d, k) {
      assert Linked(parent, rep, depth, k);
      LinkLinked(parent, rep, depth, below, root, k);
    }
  }

  function Hung(rep: map<Key, Key>, depth: map<Key, nat>, below: Key, root: Key): map<Key, nat>
    requires rep.Keys == depth.Keys && root in depth
  {
    if below == root then depth else Deepened(rep, depth, below, depth[root])
  }

  /** Hanging one root under another, or under itself, leaves a forest. */
  lemma HangForest(parent: map<Key, Key>, rep: map<Key, Key>, depth: map<Key, nat>, below: Key, root: Key)
    requires Forest(parent, rep, depth) && below in rep && root in rep && rep[below] == below && rep[root] == root
    ensures below in parent && rep.Keys == depth.Keys && parent[below := root].Keys == parent.Keys
    ensures Forest(parent[below := root], Moved(rep, below, root), Hung(rep, depth, below, root))
    ensures root in rep && Moved(rep, below, root)[root] == root
  {
    UpdateKeys(parent, below, root);
    if below == root {
      MovedSelf(rep, root);
    } else {
      LinkForest(parent, rep, depth, below, root);
    }
  }

  lemma MovedSelf(rep: map<Key, Key>, root: Key)
    ensures Moved(rep, root, root) == rep
  {
  }

  lemma AddForest(parent: map<Key, Key>, rep: map<Key, Key>, depth: map<Key, nat>, k: Key)
    requires Forest(parent, rep, depth) && k !in rep
    ensures Forest(parent[k := k], rep[k := k], depth[k := 0])
  {
    var p, r, d := parent[k := k], rep[k := k], depth[k := 0];
    forall x | x in r ensures Linked(p, r, d, x) { assert x in rep ==> Linked(parent, rep, depth, x); }
    assert p.Keys == r.Keys == d.Keys;
  }

  /** The keys, each once. */
  predicate Lists(keys: seq<Key>, all: set<Key>) {
    && (forall i :: 0 <= i < |keys| ==> keys[i] in all)
    && (forall k :: k in all ==> k in keys)
    && (forall i, j :: 0 <= i < j < |keys| ==> keys[i] != keys[j])
  }

  /** A parent per key; a root is its own parent. */
  class Groups {
    var keys: seq<Key>
    var parent: map<Key, Key>
    ghost var rep: map<Key, Key>
    ghost var depth: map<Key, nat>

    ghost predicate Valid()
      reads this
    {
      Forest(parent, rep, depth) && Lists(keys, rep.Keys)
    }

    constructor ()
      ensures Valid() && keys == [] && rep == map[]
    {
      keys, parent, rep, depth := [], map[], map[], map[];
    }

    /** A directory seen for the first time is a group of its own. */
    method Add(d: Key)
      requires Valid()
      modifies this
      ensures Valid()
      ensures if d in old(rep) then rep == old(rep) && keys == old(keys)
              else rep == old(rep)[d := d] && keys == old(keys) + [d]
    {
      if d !in parent {
        AddForest(parent, rep, depth, d);
        hide Forest;
        keys, parent := keys + [d], parent[d := d];
        rep, depth := rep[d := d], depth[d := 0];
      }
    }

    method Find(k: Key) returns (r: Key)
      requires Valid() && k in rep
      ensures parent.Keys == rep.Keys && r == rep[k] && r in rep && rep[r] == r
    {
      r := k;
      while parent[r] != r
        invariant r in parent && rep[r] == rep[k]
        decreases depth[r]
      {
        assert Linked(parent, rep, depth, r);
        r := parent[r];
      }
      assert Linked(parent, rep, depth, r);
    }

    /** Hangs the root of one class under the root of another. */
    method Link(below: Key, root: Key)
      requires Valid() && below in rep && root in rep && rep[below] == below && rep[root] == root
      modifies this`parent, this`rep, this`depth
      ensures Valid() && rep == Moved(old(rep), below, root) && rep[root] == root
      ensures parent.Keys == old(parent.Keys)
    {
      hide Lists, Forest, Moved, Hung;
      HangForest(parent, rep, depth, below, root);
      parent, rep, depth := parent[below := root], Moved(rep, below, root), Hung(rep, depth, below, root);
    }

    /** One group of all the groups of the keys u, under the first one's root. */
    method Union(u: seq<Key>) returns (root: Key)
      requires Valid() && u != [] && Known(rep, u)
      modifies this`parent, this`rep, this`depth
      ensures Valid() && rep == Join(old(rep), u)
      ensures root == rep[u[0]]
    {
      hide Lists, Join, Forest, Moved, IsPartition;
      ghost var was := rep;
      root := Find(u[0]);
      JoinFirst(rep, u[0]);
      assert u[..1] == [u[0]];
      for i := 1 to |u|
        invariant Valid() && parent.Keys == rep.Keys == was.Keys && Known(was, u) && was[u[0]] == root
        invariant rep == Join(was, u[..i]) && rep[root] == root
      {
        var below := Find(u[i]);
        assert u[..i + 1] == u[..i] + [u[i]];
        JoinNext(was, u[..i], u[i]);
        Link(below, root);
      }
      assert u[..|u|] == u;
      JoinNames(was, u);
    }

    /** The groups by root: their roots in order of appearance, and the keys of
        each in order. */
    method Merge() returns (roots: seq<Key>, merged: map<Key, seq<Key>>)
      requires Valid()
      ensures Known(rep, keys) && Sorts(merged, rep, keys) && Lists(roots, merged.Keys)
    {
      roots, merged := [], map[];
      hide Forest;
      for i := 0 to |keys|
        invariant Known(rep, keys[..i]) && Sorts(merged, rep, keys[..i]) && Lists(roots, merged.Keys)
      {
        hide Sorts, Known, Lists;
        Listed(keys, rep.Keys, i);
        var k := keys[i];
        var r := Find(k);
        assert keys[..i + 1] == keys[..i] + [k];
        SortsNext(merged, rep, keys[..i], k);
        if r !in merged {
          ListsNext(roots, merged, r, []);
          roots, merged := roots + [r], merged[r := []];
        }
        ListsSame(merged, r, merged[r] + [k]);
        merged := merged[r := merged[r] + [k]];
      }
      assert keys[..|keys|] == keys;
    }
  }

  /** The keys of class r, in order. */
  function Members(keys: seq<Key>, rep: map<Key, Key>, r: Key): seq<Key>
    requires Known(rep, keys)
  {
    if keys == [] then []
    else Members(keys[..|keys| - 1], rep, r) + if rep[keys[|keys| - 1]] == r then [keys[|keys| - 1]] else []
  }

  /** merged holds the keys of every class that has one. */
  ghost predicate Sorts(merged: map<Key, seq<Key>>, rep: map<Key, Key>, keys: seq<Key>)
    requires Known(rep, keys)
  {
    forall r :: if r in merged then merged[r] == Members(keys, rep, r) != [] else Members(keys, rep, r) == []
  }

  lemma SortsNext(merged: map<Key, seq<Key>>, rep: map<Key, Key>, keys: seq<Key>, k: Key)
    requires Known(rep, keys) && k in rep && Sorts(merged, rep, keys)
    ensures Known(rep, keys + [k])
    ensures rep[k] in merged ==> Sorts(merged[rep[k] := merged[rep[k]] + [k]], rep, keys + [k])
    ensures rep[k] !in merged ==> Sorts(merged[rep[k] := []][rep[k] := [] + [k]], rep, keys + [k])
  {
    var all, r := keys + [k], rep[k];
    assert all[..|keys|] == keys;
    assert forall x :: Members(all, rep, x) == Members(keys, rep, x) + if r == x then [k] else [];
    hide Members;
    assert Members(keys, rep, r) == if r in merged then merged[r] else [];
  }

  lemma Listed(keys: seq<Key>, all: set<Key>, i: nat)
    requires Lists(keys, all) && i < |keys|
    ensures keys[i] in all
  {
  }

  lemma ListsNext(roots: seq<Key>, merged: map<Key, seq<Key>>, r: Key, s: seq<Key>)
    requires Lists(roots, merged.Keys) && r !in merged
    ensures Lists(roots + [r], merged[r := s].Keys)
  {
    var now := roots + [r];
    assert now[|roots|] == r;
    forall x | x in merged ensures x in now {
      var i :| 0 <= i < |roots| && roots[i] == x;
      assert now[i] == x;
    }
  }

  lemma ListsSame(merged: map<Key, seq<Key>>, r: Key, s: seq<Key>)
    requires r in merged
    ensures merged[r := s].Keys == merged.Keys
  {
  }

  lemma JoinNames(rep: map<Key, Key>, u: seq<Key>)
    requires u != [] && Known(rep, u)
    ensures Join(rep, u)[u[0]] == rep[u[0]]
  {
  }

  lemma JoinFirst(rep: map<Key, Key>, k: Key)
    requires k in rep
    ensures Join(rep, [k]) == rep
  {
    forall x | x in rep ensures Join(rep, [k])[x] == rep[x] { assert Touched(rep, [k], x) ==> rep[[k][0]] == rep[x]; }
  }

  lemma TouchedNext(rep: map<Key, Key>, u: seq<Key>, k: Key, x: Key)
    requires Known(rep, u) && k in rep && x in rep
    ensures Known(rep, u + [k]) && (Touched(rep, u + [k], x) <==> Touched(rep, u, x) || rep[k] == rep[x])
  {
    var v := u + [k];
    assert v[|u|] == k;
    if Touched(rep, u, x) {
      var i :| 0 <= i < |u| && rep[u[i]] == rep[x];
      assert rep[v[i]] == rep[x];
    }
  }

  lemma TouchedAlike(rep: map<Key, Key>, u: seq<Key>, k: Key, x: Key)
    requires Known(rep, u) && k in rep && x in rep && rep[k] == rep[x]
    ensures Touched(rep, u, k) <==> Touched(rep, u, x)
  {
  }

  lemma JoinNext(rep: map<Key, Key>, u: seq<Key>, k: Key)
    requires u != [] && Known(rep, u) && k in rep
    ensures Known(rep, u + [k])
    ensures Moved(Join(rep, u), Join(rep, u)[k], rep[u[0]]) == Join(rep, u + [k])
  {
    var v, was := u + [k], Join(rep, u);
    TouchedNext(rep, u, k, k);
    forall x | x in rep ensures Moved(was, was[k], rep[u[0]])[x] == Join(rep, v)[x] {
      JoinNextAt(rep, u, k, x);
    }
  }

  lemma JoinNextAt(rep: map<Key, Key>, u: seq<Key>, k: Key, x: Key)
    requires u != [] && Known(rep, u) && k in rep && x in rep && Known(rep, u + [k])
    ensures Moved(Join(rep, u), Join(rep, u)[k], rep[u[0]])[x] == Join(rep, u + [k])[x]
  {
    hide Touched;
    TouchedNext(rep, u, k, x);
    if rep[k] == rep[x] { TouchedAlike(rep, u, k, x); }
    MayTouch(rep, u, x);
    MayTouch(rep, u, k);
  }

  lemma MayTouch(rep: map<Key, Key>, u: seq<Key>, x: Key)
    requires u != [] && Known(rep, u) && x in rep
    ensures rep[x] == rep[u[0]] ==> Touched(rep, u, x)
  {
  }
}
