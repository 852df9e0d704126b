/** Packing weighted groups into a fixed number of shards: heaviest first, each
    into the lightest shard. */
module Loads {
  /** What shard t carries when job i of weight w[i] goes to shard a[i]. */
  function Load(w: seq<nat>, a: seq<nat>, t: nat): nat
    requires |w| == |a|
  {
    if a == [] then 0
    else Load(w[..|w| - 1], a[..|a| - 1], t) + if a[|a| - 1] == t then w[|w| - 1] else 0
  }

  function Sum(w: seq<nat>): nat {
    if w == [] then 0 else Sum(w[..|w| - 1]) + w[|w| - 1]
  }

  function LoadsBelow(w: seq<nat>, a: seq<nat>, k: nat): nat
    requires |w| == |a|
  {
    if k == 0 then 0 else LoadsBelow(w, a, k - 1) + Load(w, a, k - 1)
  }

  /** Every job goes to one of the k shards. */
  predicate Within(a: seq<nat>, k: nat) {
    forall i :: 0 <= i < |a| ==> a[i] < k
  }

  lemma {:induction false} LoadsStep(w: seq<nat>, a: seq<nat>, k: nat)
    requires |w| == |a| && a != []
    ensures LoadsBelow(w, a, k)
         == LoadsBelow(w[..|w| - 1], a[..|a| - 1], k) + if a[|a| - 1] < k then w[|w| - 1] else 0
  {
    if k > 0 { LoadsStep(w, a, k - 1); }
  }

  /** Nothing is lost or doubled: the shards carry the whole weight. */
  lemma {:induction false} LoadsAreAll(w: seq<nat>, a: seq<nat>, k: nat)
    requires |w| == |a| && Within(a, k)
    ensures LoadsBelow(w, a, k) == Sum(w)
  {
    if a == [] {
      NoLoads(w, a, k);
    } else {
      LoadsStep(w, a, k);
      LoadsAreAll(w[..|w| - 1], a[..|a| - 1], k);
    }
  }

  lemma {:induction false} NoLoads(w: seq<nat>, a: seq<nat>, k: nat)
    requires |w| == |a| == 0
    ensures LoadsBelow(w, a, k) == 0
  {
    if k > 0 { NoLoads(w, a, k - 1); }
  }

  lemma {:induction false} LoadsAtMost(w: seq<nat>, a: seq<nat>, k: nat, c: nat)
    requires |w| == |a| && forall t :: 0 <= t < k ==> Load(w, a, t) <= c
    ensures LoadsBelow(w, a, k) <= k * c
  {
    if k > 0 {
      LoadsAtMost(w, a, k - 1, c);
      assert k * c == (k - 1) * c + c;
    }
  }

  lemma {:induction false} LoadsAtLeast(w: seq<nat>, a: seq<nat>, k: nat, c: nat)
    requires |w| == |a| && forall t :: 0 <= t < k ==> Load(w, a, t) >= c
    ensures LoadsBelow(w, a, k) >= k * c
  {
    if k > 0 {
      LoadsAtLeast(w, a, k - 1, c);
      assert k * c == (k - 1) * c + c;
    }
  }

  lemma {:induction false} LoadHasOne(w: seq<nat>, a: seq<nat>, t: nat, x: nat)
    requires |w| == |a| && x < |a| && a[x] == t
    ensures Load(w, a, t) >= w[x]
  {
    if x < |a| - 1 { LoadHasOne(w[..|w| - 1], a[..|a| - 1], t, x); }
  }

  lemma {:induction false} LoadHasTwo(w: seq<nat>, a: seq<nat>, t: nat, x: nat, y: nat)
    requires |w| == |a| && x < y < |a| && a[x] == a[y] == t
    ensures Load(w, a, t) >= w[x] + w[y]
  {
    if y < |a| - 1 {
      LoadHasTwo(w[..|w| - 1], a[..|a| - 1], t, x, y);
    } else {
      LoadHasOne(w[..|w| - 1], a[..|a| - 1], t, x);
    }
  }

  /** Job x has its shard to itself. */
  predicate Alone(a: seq<nat>, x: nat) {
    x < |a| && forall i :: 0 <= i < |a| && a[i] == a[x] ==> i == x
  }

  lemma {:induction false} LoadOfNone(w: seq<nat>, a: seq<nat>, t: nat)
    requires |w| == |a| && forall i :: 0 <= i < |a| ==> a[i] != t
    ensures Load(w, a, t) == 0
  {
    if a != [] { LoadOfNone(w[..|w| - 1], a[..|a| - 1], t); }
  }

  lemma {:induction false} LoadOfAlone(w: seq<nat>, a: seq<nat>, x: nat)
    requires |w| == |a| && Alone(a, x)
    ensures Load(w, a, a[x]) == w[x]
  {
    var n := |a| - 1;
    if x < n {
      LoadOfAlone(w[..n], a[..n], x);
    } else {
      LoadOfNone(w[..n], a[..n], a[x]);
    }
  }

  /** A shard whose jobs all weigh more than c / 3 and together at most c has
      no more than two of them: counting 1 for each, at most 2. */
  lemma {:induction false} LoadOfBig(w: seq<nat>, u: seq<nat>, a: seq<nat>, t: nat, c: nat)
    requires |w| == |a| == |u|
    requires forall i :: 0 <= i < |a| && a[i] == t ==> 3 * w[i] > c && u[i] == 1
    ensures 3 * Load(w, a, t) >= (c + 1) * Load(u, a, t)
  {
    if a != [] {
      var n := |a| - 1;
      LoadOfBig(w[..n], u[..n], a[..n], t, c);
      assert (c + 1) * (Load(u[..n], a[..n], t) + 1) == (c + 1) * Load(u[..n], a[..n], t) + (c + 1);
    }
  }
}

module LongestFirst {
  import opened Loads

  predicate Descending(p: seq<nat>) {
    forall i, j :: 0 <= i < j < |p| ==> p[i] >= p[j]
  }

  /** Job i goes to a shard no heavier than any other at that point. */
  predicate Lightest(p: seq<nat>, g: seq<nat>, k: nat, i: nat)
    requires i < |p| == |g|
  {
    g[i] < k && forall t :: 0 <= t < k ==> Load(p[..i], g[..i], g[i]) <= Load(p[..i], g[..i], t)
  }

  predicate Greedy(p: seq<nat>, g: seq<nat>, k: nat) {
    |p| == |g| && forall i :: 0 <= i < |p| ==> Lightest(p, g, k, i)
  }

  /** a spreads the jobs over k shards with no load above c. */
  predicate Fits(p: seq<nat>, a: seq<nat>, k: nat, c: nat) {
    |p| == |a| && Within(a, k) && forall t :: 0 <= t < k ==> Load(p, a, t) <= c
  }

  /** Two for a job that g leaves alone in its shard, one for any other. */
  function Marks(g: seq<nat>): (u: seq<nat>)
    ensures |u| == |g| && forall i :: 0 <= i < |g| ==> u[i] == if Alone(g, i) then 2 else 1
  {
    seq(|g|, i requires 0 <= i < |g| => if Alone(g, i) then 2 else 1)
  }

  lemma {:induction false} FitsPrefix(p: seq<nat>, a: seq<nat>, k: nat, c: nat, n: nat)
    requires Fits(p, a, k, c) && n <= |p|
    ensures Fits(p[..n], a[..n], k, c)
    decreases |p|
  {
    if n < |p| {
      var q, b := p[..|p| - 1], a[..|a| - 1];
      assert q[..n] == p[..n] && b[..n] == a[..n];
      forall t | 0 <= t < k ensures Load(q, b, t) <= c { assert Load(p, a, t) <= c; }
      FitsPrefix(q, b, k, c, n);
    } else {
      assert p[..n] == p && a[..n] == a;
    }
  }

  /** When the last job does not fit beside any shard's load, every shard of the
      greedy spread counts at least two marks... */
  lemma GreedyMarks(p: seq<nat>, g: seq<nat>, k: nat, c: nat, last: nat, t: nat)
    requires |p| == |g| && t < k && last <= c && Load(p, g, t) + last > c
    ensures Load(Marks(g), g, t) >= 2
  {
    if forall i :: 0 <= i < |g| ==> g[i] != t { LoadOfNone(p, g, t); }
    var x: nat :| x < |g| && g[x] == t;
    if Alone(g, x) {
      LoadHasOne(Marks(g), g, t, x);
    } else {
      var y: nat :| y < |g| && g[y] == g[x] && y != x;
      LoadHasTwo(Marks(g), g, t, if x < y then x else y, if x < y then y else x);
    }
  }

  /** ... and every shard of a spread that fits c at most two. */
  lemma FittingMarks(p: seq<nat>, g: seq<nat>, a: seq<nat>, k: nat, c: nat, t: nat)
    requires Descending(p) && Fits(p, a, k, c) && t < k && |g| == |p| - 1
    requires 3 * p[|g|] > c && forall x :: 0 <= x < |g| && Alone(g, x) ==> p[x] + p[|g|] > c
    ensures Load(Marks(g) + [1], a, t) <= 2
  {
    var u := Marks(g) + [1];
    if x: nat :| x < |g| && Alone(g, x) && a[x] == t {
      MarkedAlone(p, g, a, k, c, x);
      LoadOfAlone(u, a, x);
    } else {
      forall i | 0 <= i < |a| && a[i] == t ensures u[i] == 1 && 3 * p[i] > c {
        assert i < |g| ==> !Alone(g, i);
      }
      LoadOfBig(p, u, a, t, c);
      AtMostTwo(Load(u, a, t), c, Load(p, a, t));
    }
  }

  /** A job alone under g is alone under any spread that fits c. */
  lemma MarkedAlone(p: seq<nat>, g: seq<nat>, a: seq<nat>, k: nat, c: nat, x: nat)
    requires Descending(p) && Fits(p, a, k, c) && |g| == |p| - 1 && x < |g| && p[x] + p[|g|] > c
    ensures Alone(a, x)
  {
    forall y | 0 <= y < |a| && a[y] == a[x] ensures y == x {
      if x < y { LoadHasTwo(p, a, a[x], x, y); }
      if y < x { LoadHasTwo(p, a, a[x], y, x); }
    }
  }

  lemma AtMostTwo(n: nat, c: nat, w: nat)
    requires 3 * w >= (c + 1) * n && w <= c
    ensures n <= 2
  {
    assert n >= 3 ==> (c + 1) * n >= (c + 1) * 3;
  }

  /** A job heavier than a third of what some spread needs still fits beside the
      lightest load. */
  lemma BigJobFits(p: seq<nat>, g: seq<nat>, a: seq<nat>, k: nat, c: nat)
    requires k > 0 && Descending(p) && Fits(p, a, k, c) && |g| == |p| - 1 && Within(g, k)
    requires 3 * p[|p| - 1] > c
    ensures exists t :: 0 <= t < k && Load(p[..|g|], g, t) + p[|p| - 1] <= c
  {
    if forall t :: 0 <= t < k ==> Load(p[..|g|], g, t) + p[|p| - 1] > c {
      var n := |g|;
      var u := Marks(g) + [1];
      LoadHasOne(p, a, a[n], n);
      forall t | 0 <= t < k ensures Load(Marks(g), g, t) >= 2 { GreedyMarks(p[..n], g, k, c, p[n], t); }
      LoadsAtLeast(Marks(g), g, k, 2);
      LoadsAreAll(Marks(g), g, k);
      forall x | 0 <= x < n && Alone(g, x) ensures p[x] + p[n] > c { LoadOfAlone(p[..n], g, x); }
      forall t | 0 <= t < k ensures Load(u, a, t) <= 2 { FittingMarks(p, g, a, k, c, t); }
      assert u[..n] == Marks(g);
      LoadsAtMost(u, a, k, 2);
      LoadsAreAll(u, a, k);
    }
  }

  lemma GreedyWithin(p: seq<nat>, g: seq<nat>, k: nat)
    requires Greedy(p, g, k)
    ensures Within(g, k)
  {
    forall i | 0 <= i < |g| ensures g[i] < k { assert Lightest(p, g, k, i); }
  }

  /** After job j its shard carries at most 4/3 - 1/(3k) of any spread's peak. */
  lemma JobBound(p: seq<nat>, g: seq<nat>, a: seq<nat>, k: nat, c: nat, j: nat)
    requires k > 0 && Descending(p) && Greedy(p, g, k) && Fits(p, a, k, c) && j < |p|
    ensures 3 * k * (Load(p[..j], g[..j], g[j]) + p[j]) <= (4 * k - 1) * c
  {
    var q, b, h := p[..j + 1], a[..j + 1], g[..j];
    FitsPrefix(p, a, k, c, j + 1);
    assert q[..j] == p[..j] && b[..j] == a[..j];
    assert Lightest(p, g, k, j);
    var low := Load(p[..j], h, g[j]);
    GreedyWithin(p, g, k);
    if 3 * p[j] > c {
      BigJobFits(q, h, b, k, c);
      BigBound(low + p[j], k, c);
    } else {
      LoadsAtLeast(p[..j], h, k, low);
      LoadsAreAll(p[..j], h, k);
      LoadsAtMost(q, b, k, c);
      LoadsAreAll(q, b, k);
      SmallBound(low, p[j], k, c);
    }
  }

  lemma TimesSum(k: int, x: int, y: int)
    ensures k * (x + y) == k * x + k * y
  {
  }

  lemma TimesMonotone(k: nat, x: int, y: int)
    requires x <= y
    ensures k * x <= k * y
  {
  }

  lemma BoundIs(k: nat, c: nat)
    ensures (4 * k - 1) * c == 4 * (k * c) - c
  {
  }

  lemma BigBound(load: nat, k: nat, c: nat)
    requires k > 0 && load <= c
    ensures 3 * k * load <= (4 * k - 1) * c
  {
    BoundIs(k, c);
    TimesMonotone(k, load, c);
    TimesMonotone(c, 1, k);
  }

  lemma SmallBound(low: nat, job: nat, k: nat, c: nat)
    requires k > 0 && 3 * job <= c && k * low + job <= k * c
    ensures 3 * k * (low + job) <= (4 * k - 1) * c
  {
    BoundIs(k, c);
    TimesSum(k, low, job);
    TimesMonotone(k - 1, 3 * job, c);
    assert (k - 1) * (3 * job) == 3 * (k * job) - 3 * job;
    assert (k - 1) * c == k * c - c;
  }

  /** Longest first is within 4/3 - 1/(3k) of the best spread there is. */
  lemma {:induction false} LongestFirstBound(p: seq<nat>, g: seq<nat>, a: seq<nat>, k: nat, c: nat, t: nat)
    requires k > 0 && Descending(p) && Greedy(p, g, k) && Fits(p, a, k, c) && t < k
    ensures 3 * k * Load(p, g, t) <= (4 * k - 1) * c
    decreases |p|
  {
    if p == [] {
      BigBound(0, k, c);
    } else if g[|p| - 1] == t {
      JobBound(p, g, a, k, c, |p| - 1);
    } else {
      var n := |p| - 1;
      GreedyPrefix(p, g, k, n);
      FitsPrefix(p, a, k, c, n);
      LongestFirstBound(p[..n], g[..n], a[..n], k, c, t);
    }
  }

  lemma GreedyPrefix(p: seq<nat>, g: seq<nat>, k: nat, n: nat)
    requires Greedy(p, g, k) && n <= |p|
    ensures Greedy(p[..n], g[..n], k)
  {
    forall i | 0 <= i < n ensures Lightest(p[..n], g[..n], k, i) {
      assert Lightest(p, g, k, i);
      assert p[..n][..i] == p[..i] && g[..n][..i] == g[..i];
    }
  }

  lemma GreedyNext(p: seq<nat>, g: seq<nat>, k: nat, w: nat, s: nat)
    requires Greedy(p, g, k) && s < k && forall t :: 0 <= t < k ==> Load(p, g, s) <= Load(p, g, t)
    ensures Greedy(p + [w], g + [s], k)
  {
    var q, h := p + [w], g + [s];
    forall i | 0 <= i < |q| ensures Lightest(q, h, k, i) {
      assert q[..i] == p[..i] && h[..i] == g[..i];
      if i < |p| {
        assert Lightest(p, g, k, i);
      } else {
        assert p[..i] == p && g[..i] == g;
      }
    }
  }
}

module ShardPlan {
  import opened Loads
  import opened LongestFirst

  type Root = string

  const K: nat := 8

  datatype Shard = Shard(w: nat, roots: seq<Root>)

  /** A weight or a shard looked up by root. */
  function Of(m: map<Root, nat>, r: Root): nat {
    if r in m then m[r] else 0
  }

  function All(m: map<Root, nat>, rs: seq<Root>): (s: seq<nat>)
    ensures |s| == |rs| && forall i :: 0 <= i < |rs| ==> s[i] == Of(m, rs[i])
  {
    seq(|rs|, i requires 0 <= i < |rs| => Of(m, rs[i]))
  }

  // ---- Heaviest first ----

  function Insert(weight: map<Root, nat>, r: Root, rs: seq<Root>): (s: seq<Root>)
    ensures |s| == |rs| + 1
  {
    if rs == [] || Of(weight, r) >= Of(weight, rs[0]) then [r] + rs
    else [rs[0]] + Insert(weight, r, rs[1..])
  }

  /** The stable sort by falling weight. */
  function Sorted(weight: map<Root, nat>, rs: seq<Root>): seq<Root> {
    if rs == [] then [] else Insert(weight, rs[0], Sorted(weight, rs[1..]))
  }

  lemma {:induction false} InsertHolds(weight: map<Root, nat>, r: Root, rs: seq<Root>)
    ensures multiset(Insert(weight, r, rs)) == multiset{r} + multiset(rs)
  {
    if rs != [] && Of(weight, r) < Of(weight, rs[0]) {
      InsertHolds(weight, r, rs[1..]);
      assert rs == [rs[0]] + rs[1..];
    }
  }

  lemma {:induction false} SortedHolds(weight: map<Root, nat>, rs: seq<Root>)
    ensures multiset(Sorted(weight, rs)) == multiset(rs)
  {
    if rs != [] {
      SortedHolds(weight, rs[1..]);
      InsertHolds(weight, rs[0], Sorted(weight, rs[1..]));
      assert rs == [rs[0]] + rs[1..];
    }
  }

  lemma DescendsCons(weight: map<Root, nat>, r: Root, rs: seq<Root>)
    requires Descending(All(weight, rs)) && (rs != [] ==> Of(weight, r) >= Of(weight, rs[0]))
    ensures Descending(All(weight, [r] + rs))
  {
    var w, v := All(weight, rs), All(weight, [r] + rs);
    assert v == [Of(weight, r)] + w;
    assert forall i :: 0 < i < |w| ==> w[0] >= w[i];
  }

  lemma DescendsTail(weight: map<Root, nat>, rs: seq<Root>)
    requires rs != [] && Descending(All(weight, rs))
    ensures Descending(All(weight, rs[1..])) && (|rs| > 1 ==> Of(weight, rs[0]) >= Of(weight, rs[1]))
  {
    var w := All(weight, rs);
    assert All(weight, rs[1..]) == w[1..];
    assert |w| > 1 ==> w[0] >= w[1];
  }

  lemma {:induction false} InsertDescends(weight: map<Root, nat>, r: Root, rs: seq<Root>)
    requires Descending(All(weight, rs))
    ensures Descending(All(weight, Insert(weight, r, rs)))
    decreases |rs|
  {
    hide Descending, All;
    if rs == [] || Of(weight, r) >= Of(weight, rs[0]) {
      DescendsCons(weight, r, rs);
    } else {
      DescendsTail(weight, rs);
      InsertDescends(weight, r, rs[1..]);
      DescendsCons(weight, rs[0], Insert(weight, r, rs[1..]));
    }
  }

  lemma {:induction false} SortedDescends(weight: map<Root, nat>, rs: seq<Root>)
    ensures Descending(All(weight, Sorted(weight, rs)))
  {
    if rs != [] {
      SortedDescends(weight, rs[1..]);
      InsertDescends(weight, rs[0], Sorted(weight, rs[1..]));
    }
  }

  /** The roots of one weight, in order. */
  function OfWeight(weight: map<Root, nat>, v: nat, rs: seq<Root>): seq<Root> {
    if rs == [] then []
    else (if Of(weight, rs[0]) == v then [rs[0]] else []) + OfWeight(weight, v, rs[1..])
  }

  lemma {:induction false} InsertStable(weight: map<Root, nat>, r: Root, rs: seq<Root>, v: nat)
    ensures OfWeight(weight, v, Insert(weight, r, rs)) == (if Of(weight, r) == v then [r] else []) + OfWeight(weight, v, rs)
  {
    hide Of, OfWeight;
    if rs == [] || Of(weight, r) >= Of(weight, rs[0]) {
      OfWeightThen(weight, v, r, rs);
    } else {
      var more := Insert(weight, r, rs[1..]);
      InsertStable(weight, r, rs[1..], v);
      OfWeightThen(weight, v, rs[0], more);
      OfWeightThen(weight, v, rs[0], rs[1..]);
      assert [rs[0]] + rs[1..] == rs;
    }
  }

  lemma OfWeightThen(weight: map<Root, nat>, v: nat, r: Root, rs: seq<Root>)
    ensures OfWeight(weight, v, [r] + rs) == (if Of(weight, r) == v then [r] else []) + OfWeight(weight, v, rs)
  {
    hide Of;
    assert ([r] + rs)[1..] == rs;
  }

  /** Roots of one weight keep their order. */
  lemma {:induction false} SortedStable(weight: map<Root, nat>, rs: seq<Root>, v: nat)
    ensures OfWeight(weight, v, Sorted(weight, rs)) == OfWeight(weight, v, rs)
  {
    if rs != [] {
      SortedStable(weight, rs[1..], v);
      InsertStable(weight, rs[0], Sorted(weight, rs[1..]), v);
    }
  }

  // ---- Loads do not depend on the order ----

  /** What shard t carries when m says where each root goes. */
  function Carried(weight: map<Root, nat>, m: map<Root, nat>, rs: seq<Root>, t: nat): nat {
    Load(All(weight, rs), All(m, rs), t)
  }

  lemma {:induction false} LoadCons(x: nat, w: seq<nat>, b: nat, a: seq<nat>, t: nat)
    requires |w| == |a|
    ensures Load([x] + w, [b] + a, t) == (if b == t then x else 0) + Load(w, a, t)
  {
    if w == [] {
      assert Load([x] + w, [b] + a, t) == Load([], [], t) + if b == t then x else 0;
    } else {
      var n := |w| - 1;
      LoadCons(x, w[..n], b, a[..n], t);
      assert ([x] + w)[..n + 1] == [x] + w[..n] && ([b] + a)[..n + 1] == [b] + a[..n];
    }
  }

  lemma CarriedCons(weight: map<Root, nat>, m: map<Root, nat>, r: Root, rs: seq<Root>, t: nat)
    ensures Carried(weight, m, [r] + rs, t)
         == (if Of(m, r) == t then Of(weight, r) else 0) + Carried(weight, m, rs, t)
  {
    LoadCons(Of(weight, r), All(weight, rs), Of(m, r), All(m, rs), t);
    assert All(weight, [r] + rs) == [Of(weight, r)] + All(weight, rs);
    assert All(m, [r] + rs) == [Of(m, r)] + All(m, rs);
  }

  lemma {:induction false} CarriedInsert(weight: map<Root, nat>, m: map<Root, nat>, r: Root, rs: seq<Root>, t: nat)
    ensures Carried(weight, m, Insert(weight, r, rs), t) == Carried(weight, m, [r] + rs, t)
  {
    if rs != [] && Of(weight, r) < Of(weight, rs[0]) {
      CarriedInsert(weight, m, r, rs[1..], t);
      CarriedCons(weight, m, rs[0], Insert(weight, r, rs[1..]), t);
      CarriedCons(weight, m, r, rs[1..], t);
      CarriedCons(weight, m, r, rs, t);
      CarriedCons(weight, m, rs[0], rs[1..], t);
      assert [rs[0]] + rs[1..] == rs;
    }
  }

  lemma {:induction false} CarriedSorted(weight: map<Root, nat>, m: map<Root, nat>, rs: seq<Root>, t: nat)
    ensures Carried(weight, m, Sorted(weight, rs), t) == Carried(weight, m, rs, t)
  {
    hide Carried, Insert;
    if rs != [] {
      CarriedSorted(weight, m, rs[1..], t);
      CarriedInsert(weight, m, rs[0], Sorted(weight, rs[1..]), t);
      CarriedCons(weight, m, rs[0], Sorted(weight, rs[1..]), t);
      CarriedCons(weight, m, rs[0], rs[1..], t);
      assert [rs[0]] + rs[1..] == rs;
    }
  }

  // ---- The packer ----

  /** The first of the lightest shards. */
  method LightestShard(shards: seq<Shard>) returns (s: nat)
    requires shards != []
    ensures s < |shards|
    ensures forall t :: 0 <= t < |shards| ==> shards[s].w <= shards[t].w
    ensures forall t :: 0 <= t < s ==> shards[s].w < shards[t].w
  {
    s := 0;
    for i := 1 to |shards|
      invariant s < i
      invariant forall t :: 0 <= t < i ==> shards[s].w <= shards[t].w
      invariant forall t :: 0 <= t < s ==> shards[s].w < shards[t].w
    {
      if shards[i].w < shards[s].w { s := i; }
    }
  }

  /** All the roots of the shards, with how often each occurs. */
  function Held(shards: seq<Shard>): multiset<Root> {
    if shards == [] then multiset{} else Held(shards[..|shards| - 1]) + multiset(shards[|shards| - 1].roots)
  }

  lemma {:induction false} NoneHeld(shards: seq<Shard>)
    requires forall t :: 0 <= t < |shards| ==> shards[t].roots == []
    ensures Held(shards) == multiset{}
  {
    if shards != [] { NoneHeld(shards[..|shards| - 1]); }
  }

  lemma Put(rs: seq<Root>, r: Root)
    ensures multiset(rs + [r]) == multiset(rs) + multiset{r}
  {
  }

  lemma Sum3(a: multiset<Root>, b: multiset<Root>, c: multiset<Root>)
    ensures a + (b + c) == a + b + c
  {
  }

  lemma Swap(a: multiset<Root>, b: multiset<Root>, r: Root)
    ensures a + multiset{r} + b == a + b + multiset{r}
  {
  }

  lemma HeldLast(shards: seq<Shard>)
    requires shards != []
    ensures Held(shards) == Held(shards[..|shards| - 1]) + multiset(shards[|shards| - 1].roots)
  {
  }

  lemma {:induction false} PlaceHolds(shards: seq<Shard>, s: nat, to: Shard, r: Root)
    requires s < |shards| && to.roots == shards[s].roots + [r]
    ensures Held(shards[s := to]) == Held(shards) + multiset{r}
  {
    var n, now := |shards| - 1, shards[s := to];
    hide Held;
    HeldLast(shards);
    HeldLast(now);
    if s < n {
      PlaceHolds(shards[..n], s, to, r);
      assert now[..n] == shards[..n][s := to];
      Swap(Held(shards[..n]), multiset(shards[n].roots), r);
    } else {
      assert now[..n] == shards[..n];
      Put(shards[n].roots, r);
      Sum3(Held(shards[..n]), multiset(shards[n].roots), multiset{r});
    }
  }

  /** m spreads the roots over k shards with no load above c. */
  predicate Spreads(weight: map<Root, nat>, m: map<Root, nat>, rs: seq<Root>, k: nat, c: nat) {
    (forall r :: r in rs ==> Of(m, r) < k) && forall t :: 0 <= t < k ==> Carried(weight, m, rs, t) <= c
  }

  /** No shard weighs more than 4/3 - 1/(3k) of the peak of any spread. */
  ghost predicate NearBest(weight: map<Root, nat>, rs: seq<Root>, shards: seq<Shard>) {
    forall m, c, t :: Spreads(weight, m, rs, |shards|, c) && 0 <= t < |shards| ==>
      3 * |shards| * shards[t].w <= (4 * |shards| - 1) * c
  }

  /** Each shard's weight is that of its roots, and they are the shards' loads
      in the greedy spread so far. */
  predicate Weighed(weight: map<Root, nat>, shards: seq<Shard>, w: seq<nat>, at: seq<nat>) {
    |w| == |at| && forall t :: 0 <= t < |shards| ==>
      shards[t].w == Load(w, at, t) == Sum(All(weight, shards[t].roots))
  }

  lemma WeighedNext(weight: map<Root, nat>, shards: seq<Shard>, w: seq<nat>, at: seq<nat>, s: nat, r: Root)
    requires Weighed(weight, shards, w, at) && s < |shards|
    ensures Weighed(weight, shards[s := Shard(shards[s].w + Of(weight, r), shards[s].roots + [r])],
                    w + [Of(weight, r)], at + [s])
  {
    var x := Of(weight, r);
    assert (w + [x])[..|w|] == w && (at + [s])[..|at|] == at;
    var own := All(weight, shards[s].roots + [r]);
    assert own[..|own| - 1] == All(weight, shards[s].roots);
  }

  lemma NearBestIs(weight: map<Root, nat>, rs: seq<Root>, shards: seq<Shard>, at: seq<nat>)
    requires shards != [] && Greedy(All(weight, Sorted(weight, rs)), at, |shards|)
    requires Weighed(weight, shards, All(weight, Sorted(weight, rs)), at)
    ensures NearBest(weight, rs, shards)
  {
    var order, k := Sorted(weight, rs), |shards|;
    hide Sorted, All;
    SortedDescends(weight, rs);
    forall m, c, t | Spreads(weight, m, rs, k, c) && 0 <= t < k
      ensures 3 * k * shards[t].w <= (4 * k - 1) * c
    {
      SpreadFits(weight, m, rs, k, c);
      LongestFirstBound(All(weight, order), at, All(m, order), k, c, t);
    }
  }

  lemma SpreadFits(weight: map<Root, nat>, m: map<Root, nat>, rs: seq<Root>, k: nat, c: nat)
    requires Spreads(weight, m, rs, k, c)
    ensures Fits(All(weight, Sorted(weight, rs)), All(m, Sorted(weight, rs)), k, c)
  {
    var order := Sorted(weight, rs);
    SortedHolds(weight, rs);
    hide Sorted;
    assert forall i :: 0 <= i < |order| ==> order[i] in multiset(order);
    forall t | 0 <= t < k ensures Load(All(weight, order), All(m, order), t) <= c {
      CarriedSorted(weight, m, rs, t);
    }
  }

  /** The first i roots are packed, greedily. */
  predicate Packed(weight: map<Root, nat>, order: seq<Root>, i: nat, shards: seq<Shard>, at: seq<nat>) {
    && i <= |order| && Greedy(All(weight, order[..i]), at, |shards|)
    && Weighed(weight, shards, All(weight, order[..i]), at)
    && Held(shards) == multiset(order[..i])
  }

  lemma PackedNext(weight: map<Root, nat>, order: seq<Root>, i: nat, shards: seq<Shard>, at: seq<nat>, s: nat, to: Shard)
    requires i < |order| && Packed(weight, order, i, shards, at) && s < |shards|
    requires forall t :: 0 <= t < |shards| ==> shards[s].w <= shards[t].w
    requires to == Shard(shards[s].w + Of(weight, order[i]), shards[s].roots + [order[i]])
    ensures Packed(weight, order, i + 1, shards[s := to], at + [s])
  {
    hide Greedy, Held, Load, Sum;
    var w, r := All(weight, order[..i]), order[i];
    AllNext(weight, order, i);
    forall t | 0 <= t < |shards| ensures Load(w, at, s) <= Load(w, at, t) { assert Load(w, at, t) == shards[t].w; }
    GreedyNext(w, at, |shards|, Of(weight, r), s);
    WeighedNext(weight, shards, w, at, s, r);
    PlaceHolds(shards, s, to, r);
    assert order[..i + 1] == order[..i] + [r];
  }

  lemma AllNext(weight: map<Root, nat>, order: seq<Root>, i: nat)
    requires i < |order|
    ensures All(weight, order[..i + 1]) == All(weight, order[..i]) + [Of(weight, order[i])]
  {
  }

  lemma PackedNone(weight: map<Root, nat>, order: seq<Root>, shards: seq<Shard>)
    requires forall t :: 0 <= t < |shards| ==> shards[t] == Shard(0, [])
    ensures Packed(weight, order, 0, shards, [])
  {
    NoneHeld(shards);
  }

  /** Every merged group lands in exactly one shard, each shard's weight is that
      of its groups, and none is heavier than 4/3 - 1/(3K) of the best peak. */
  method Pack(merged: seq<Root>, weight: map<Root, nat>) returns (shards: seq<Shard>)
    ensures |shards| == 8 && Held(shards) == multiset(merged)
    ensures forall t :: 0 <= t < 8 ==> shards[t].w == Sum(All(weight, shards[t].roots))
    ensures NearBest(weight, merged, shards)
  {
    hide Sorted, NearBest, Held, Greedy, Packed;
    var order := Sorted(weight, merged);
    shards := seq(K, _ => Shard(0, []));
    ghost var at: seq<nat> := [];
    PackedNone(weight, order, shards);
    for i := 0 to |order|
      invariant |shards| == K && Packed(weight, order, i, shards, at)
    {
      var s := LightestShard(shards);
      var to := Shard(shards[s].w + Of(weight, order[i]), shards[s].roots + [order[i]]);
      PackedNext(weight, order, i, shards, at, s, to);
      shards, at := shards[s := to], at + [s];
    }
    PackedAll(weight, merged, shards, at);
  }

  lemma PackedAll(weight: map<Root, nat>, merged: seq<Root>, shards: seq<Shard>, at: seq<nat>)
    requires shards != []
    requires Packed(weight, Sorted(weight, merged), |Sorted(weight, merged)|, shards, at)
    ensures NearBest(weight, merged, shards) && Held(shards) == multiset(merged)
    ensures forall t :: 0 <= t < |shards| ==> shards[t].w == Sum(All(weight, shards[t].roots))
  {
    hide Sorted, NearBest, Greedy;
    var order := Sorted(weight, merged);
    assert order[..|order|] == order;
    SortedHolds(weight, merged);
    NearBestIs(weight, merged, shards, at);
  }
}
