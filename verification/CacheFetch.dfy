/** A FETCH walk over the arena itself, and where it and the history part. */
module CacheFetch {
  import opened Options
  import opened Bytes
  import opened Locations
  import opened Seqs
  import opened CacheRecord
  import opened CacheLayout
  import opened CacheSpec
  import opened CacheLookup
  import opened CacheArena
  import opened CacheRuns
  import opened CacheAdmit
  import opened CacheWalk

  lemma ExpireIdempotent(recs: seq<Rec>, now: u64)
    ensures Expire(Expire(recs, now), now) == Expire(recs, now)
  {
    ExpireLeavesNone(recs, now);
  }

  lemma {:induction false} ExpireIds(recs: seq<Rec>, now: u64)
    requires IdsInRange(recs)
    ensures IdsInRange(Expire(recs, now))
    decreases Weight(recs)
  {
    var i := FirstExpired(recs, now, 0);
    if i < |recs| {
      var t, g := recs[i].h.tag, recs[i].h.group;
      var e, d := Entomb(recs, t, g), Drop(recs, t, g, false);
      DropMembers(recs, t, g, false);
      forall j | 0 <= j < |e| ensures e[j].h.obj <= OBJ_ID_MAX && e[j].h.group < U64_MAX {
        if j < |d| {
          assert e[j] in d;
          var k :| 0 <= k < |recs| && recs[k] == e[j];
        }
      }
      EntombLowers(recs, i);
      ExpireIds(e, now);
    }
  }

  /** The last unknown range of a walk, if it has one. */
  function LastUnknown(w: seq<Stop>): (g: Option<Item>)
    ensures g.None? <==> forall k :: 0 <= k < |w| ==> !w[k].item.unknown
    ensures g.Some? ==>
              exists k :: 0 <= k < |w| && w[k].item == g.value && g.value.unknown
                          && forall j :: k < j < |w| ==> !w[j].item.unknown
  {
    if w == [] then None
    else if w[|w| - 1].item.unknown then Some(w[|w| - 1].item)
    else LastUnknown(w[..|w| - 1])
  }

  /** Walks a range of the cache for the last item it cannot vouch for. */
  method LastGap(c: Cache, tag: u64, start: Loc, end: Loc) returns (gap: Option<Item>)
    requires c.Valid() && IdsInRange(c.recs) && !Less(end, start)
    modifies c, c.arena
    ensures c.Valid() && c.now == old(c.now) && c.recs == Expire(old(c.recs), c.now)
    ensures IdsInRange(c.recs) && gap == LastUnknown(Walk(c.recs, tag, start, end))
  {
    ExpireIdempotent(c.recs, c.now);
    ExpireIds(c.recs, c.now);
    ghost var recs := Expire(c.recs, c.now);
    ghost var w := Walk(recs, tag, start, end);
    gap := None;
    WalkStep(recs, tag, start, end);
    ghost var done: seq<Stop>, at := [], start;
    var cur := c.Skip(tag, start, end);
    while Less(cur, end)
      invariant c.Valid() && c.now == old(c.now) && c.recs == recs
      invariant !Less(end, at) && cur == Skip(recs, tag, at, end)
      invariant w == done + Walk(recs, tag, at, end) && gap == LastUnknown(done)
      decreases Pos(end) - Pos(at)
    {
      var it := c.ItemAt(tag, cur, end);
      WalkStep(recs, tag, at, end);
      if it.unknown {
        gap := Some(it);
      }
      InitOfAppend(done, Stop(cur, it));
      Assoc(done, [Stop(cur, it)], Walk(recs, tag, it.next, end));
      done := done + [Stop(cur, it)];
      at := it.next;
      cur := c.Skip(tag, it.next, end);
    }
    WalkStep(recs, tag, at, end);
    assert w == done;
  }

  // ---- Where expiry and the history part ----

  /** Object 0, with a payload of n zero bytes, of a group of track 7. */
  function Sample(group: u64, n: nat, exp: u64): (r: Rec)
    requires n <= OBJ_MAX
  {
    Rec(Header(7, group, 0, n, exp), seq(n, _ => 0))
  }

  lemma KeepNone(recs: seq<Rec>, t: u64, g: u64)
    requires forall i :: 0 <= i < |recs| ==> !Hit(recs[i].h, t, g, false)
    ensures Keep(recs, t, g) == [] && Drop(recs, t, g, false) == recs
  {
    if recs != [] {
      KeepNone(recs[..|recs| - 1], t, g);
    }
  }

  lemma DropAppend(recs: seq<Rec>, r: Rec, t: u64, g: u64)
    ensures Drop(recs + [r], t, g, false) == Drop(recs, t, g, false) + if Hit(r.h, t, g, false) then [] else [r]
  {
    InitOfAppend(recs, r);
  }

  lemma {:induction false} DropOne(a: seq<Rec>, x: Rec, b: seq<Rec>)
    requires forall i :: 0 <= i < |a| ==> !Hit(a[i].h, x.h.tag, x.h.group, false)
    requires forall i :: 0 <= i < |b| ==> !Hit(b[i].h, x.h.tag, x.h.group, false)
    ensures Drop(a + [x] + b, x.h.tag, x.h.group, false) == a + b
    decreases |b|
  {
    var t, g := x.h.tag, x.h.group;
    if b == [] {
      KeepNone(a, t, g);
      DropAppend(a, x, t, g);
      assert a + [x] + b == a + [x] && a + b == a;
    } else {
      var c, y := b[..|b| - 1], b[|b| - 1];
      assert b == c + [y];
      DropOne(a, x, c);
      Assoc(a + [x], c, [y]);
      Assoc(a, c, [y]);
      DropAppend(a + [x] + c, y, t, g);
    }
  }

  lemma ExpireFirst(recs: seq<Rec>, now: u64, i: nat)
    requires i < |recs| && Expired(recs[i].h, now) && forall j :: 0 <= j < i ==> !Expired(recs[j].h, now)
    ensures Expire(recs, now) == Expire(Entomb(recs, recs[i].h.tag, recs[i].h.group), now)
  {
    hide FirstExpired, Entomb, Expired;
  }

  lemma ExpireNone(recs: seq<Rec>, now: u64)
    requires forall i :: 0 <= i < |recs| ==> !Expired(recs[i].h, now)
    ensures Expire(recs, now) == recs
  {
    hide FirstExpired, Entomb, Expired;
  }

  lemma TombstoneLasts(tag: u64, group: u64, now: u64)
    ensures !Expired(Tombstone(tag, group).h, now)
  {
  }

  /** Of [.., a, x, b, ..] with only x expired, x's tombstone goes last. */
  lemma ExpireOne(a: seq<Rec>, x: Rec, b: seq<Rec>, now: u64)
    requires forall i :: 0 <= i < |a| ==> !Hit(a[i].h, x.h.tag, x.h.group, false) && !Expired(a[i].h, now)
    requires forall i :: 0 <= i < |b| ==> !Hit(b[i].h, x.h.tag, x.h.group, false) && !Expired(b[i].h, now)
    requires Expired(x.h, now)
    ensures Expire(a + [x] + b, now) == a + b + [Tombstone(x.h.tag, x.h.group)]
  {
    hide Expire, Expired, Hit, Drop, Tombstone;
    var recs, e := a + [x] + b, a + b + [Tombstone(x.h.tag, x.h.group)];
    assert recs[|a|] == x;
    assert forall m :: 0 <= m < |a| ==> recs[m] == a[m];
    ExpireFirst(recs, now, |a|);
    DropOne(a, x, b);
    TombstoneLasts(x.h.tag, x.h.group, now);
    forall m | 0 <= m < |e| ensures !Expired(e[m].h, now) {
      assert e[m] == if m < |a| then a[m] else if m < |a| + |b| then b[m - |a|] else Tombstone(x.h.tag, x.h.group);
    }
    ExpireNone(e, now);
  }

  lemma TwoArrive(a: Rec, b: Rec, cap: nat)
    requires Wf(a) && Wf(b) && a.h.group != b.h.group && Size(a.h) == Size(b.h) == HDR && 2 * HDR <= cap
    ensures Append(Append([], a, cap), b, cap) == [a, b]
  {
    AppendFits([], a, cap);
    assert [] + [a] == [a];
    Sizes([a], 1);
    AppendFits([a], b, cap);
    assert [a] + [b] == [a, b];
  }

  /** Three groups, the middle one expired: its tombstone lies behind the newest
      group, so a skip from the middle group passes an Object that was
      appended as if it never existed. */
  lemma ExpiryHidesGroup(a: Rec, b: Rec, c: Rec)
    requires a == Sample(0, 0, NEVER) && b == Sample(1, 0, 5) && c == Sample(2, 0, NEVER)
    ensures Append(Append(Append([], a, 1000), b, 1000), c, 1000) == [a, b, c]
    ensures Expire([a, b, c], 5) == [a, c, Tombstone(7, 1)]
    ensures Skip([a, c, Tombstone(7, 1)], 7, At(b), Loc(1, 1)) == Loc(1, 1)
  {
    hide Append, Expire, Skip, Used, Tombstone, OBJ_MAX;
    TwoArrive(a, b, 1000);
    Sizes([a, b], 2);
    AppendFits([a, b], c, 1000);
    assert [a, b] + [c] == [a, b, c];
    ExpireOne([a], b, [c], 5);
    assert [a] + [b] + [c] == [a, b, c] && [a] + [c] + [Tombstone(7, 1)] == [a, c, Tombstone(7, 1)];
    SkipsPast([a, c, Tombstone(7, 1)], At(b));
  }

  /** Where the first record is older than l and the next is newer, l is passed. */
  lemma SkipsPast(recs: seq<Rec>, l: Loc)
    requires |recs| >= 2 && recs[0].h.tag == recs[1].h.tag == 7 && l.obj < U64_MAX
    requires recs[0].h.group < l.group < recs[1].h.group
    ensures Skip(recs, 7, l, NextObject(l)) == NextObject(l)
  {
    assert Scan(recs, 0, 7, l) == 1;
    assert AtOrAfter(recs[0].h, 7, Loc(0, 0));
    assert Scan(recs, 0, 7, Loc(0, 0)) == 0;
  }

  lemma Sizes(recs: seq<Rec>, n: nat)
    requires n == |recs| && forall i :: 0 <= i < |recs| ==> Size(recs[i].h) == HDR
    ensures Used(recs) == n * HDR
  {
    if recs != [] {
      Sizes(recs[..n - 1], n - 1);
    }
  }

  /** The oldest of two groups expired, its tombstone outlives the younger one
      in the arena: a skip then passes the evicted group as if it never
      existed. */
  lemma ExpiryLeavesHole(b: Rec, c: Rec, d: Rec)
    requires b == Sample(1, 0, 5) && c == Sample(2, 0, NEVER) && d == Sample(3, 10, NEVER)
    ensures Append(Append([], b, 120), c, 120) == [b, c]
    ensures Expire([b, c], 5) == [c, Tombstone(7, 1)]
    ensures Append([c, Tombstone(7, 1)], d, 120) == [Tombstone(7, 1), d]
    ensures Skip([Tombstone(7, 1), d], 7, At(c), Loc(2, 1)) == Loc(2, 1)
  {
    hide Append, Expire, Skip, Used;
    TwoArrive(b, c, 120);
    ExpireOne([], b, [c], 5);
    assert [] + [b] + [c] == [b, c] && [] + [c] + [Tombstone(7, 1)] == [c, Tombstone(7, 1)];
    EvictsForThird(c, d);
    SkipsPast([Tombstone(7, 1), d], At(c));
  }

  lemma EvictsForThird(c: Rec, d: Rec)
    requires c == Sample(2, 0, NEVER) && d == Sample(3, 10, NEVER)
    ensures Append([c, Tombstone(7, 1)], d, 120) == [Tombstone(7, 1), d]
  {
    hide Append, EvictOne, Used;
    var t := Tombstone(7, 1);
    Sizes([c, t], 2);
    Sizes([t], 1);
    EvictsFirst(c, t);
    AppendEvicts([c, t], [t], d, 120);
    assert [t] + [d] == [t, d];
  }

  lemma EvictsFirst(c: Rec, t: Rec)
    requires c == Sample(2, 0, NEVER) && t == Tombstone(7, 1)
    ensures EvictOne([c, t], 7, 3) == Some([t])
  {
    hide Drop, Used;
    var recs := [c, t];
    assert Victim(recs, c.h, 7, 3) && !StaysOpen(recs, c.h, 7, 3);
    DropOne([], c, [t]);
    assert [] + [c] + [t] == recs && [] + [t] == [t];
  }

  /** An append for which one eviction makes room. */
  lemma AppendEvicts(recs: seq<Rec>, fewer: seq<Rec>, r: Rec, cap: nat)
    requires forall i :: 0 <= i < |recs| ==> !Hit(recs[i].h, r.h.tag, r.h.group, false)
    requires Wf(r) && |r.payload| <= OBJ_MAX && Used(recs) + Size(r.h) > cap >= Used(fewer) + Size(r.h)
    requires EvictOne(recs, r.h.tag, r.h.group) == Some(fewer)
    ensures Append(recs, r, cap) == fewer + [r]
  {
    hide Keep, Hit, Kill, Used, Size, EvictOne;
    KeepNone(recs, r.h.tag, r.h.group);
    UsedShares(recs, r.h.tag, r.h.group);
    SizeIs(r);
    assert MakeRoom(fewer, r.h.tag, r.h.group, Size(r.h), cap) == fewer;
  }
}
