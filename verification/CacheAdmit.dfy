/** Which Objects the cache holds: an append loses nothing that fits. */
module CacheAdmit {
  import opened Bytes
  import opened Seqs
  import opened CacheRecord
  import opened CacheLayout
  import opened CacheSpec
  import opened CacheRuns

  /** A record of the group says it is gone. */
  predicate Buried(recs: seq<Rec>, tag: u64, group: u64) {
    exists i :: 0 <= i < |recs| && recs[i].h.tag == tag && recs[i].h.group == group && Dead(recs[i].h)
  }

  /** Bytes of a track's group. */
  function GroupUse(recs: seq<Rec>, tag: u64, group: u64): nat {
    if recs == [] then 0
    else
      var r := recs[|recs| - 1];
      GroupUse(recs[..|recs| - 1], tag, group) + if r.h.tag == tag && r.h.group == group then Size(r.h) else 0
  }

  lemma BuriedIff(recs: seq<Rec>, tag: u64, group: u64)
    ensures HasDead(Keep(recs, tag, group)) <==> Buried(recs, tag, group)
  {
    var own := Keep(recs, tag, group);
    KeepMembers(recs, tag, group);
    hide Keep;
    if HasDead(own) {
      var k :| 0 <= k < |own| && Dead(own[k].h);
      assert own[k] in own;
      var i :| 0 <= i < |recs| && recs[i] == own[k];
    }
    if Buried(recs, tag, group) {
      var i :| 0 <= i < |recs| && recs[i].h.tag == tag && recs[i].h.group == group && Dead(recs[i].h);
      assert recs[i] in recs;
      var k :| 0 <= k < |own| && own[k] == recs[i];
    }
  }

  /** A group and the others share the bytes used. */
  lemma {:induction false} UsedShares(recs: seq<Rec>, tag: u64, group: u64)
    ensures GroupUse(recs, tag, group) == Used(Keep(recs, tag, group))
    ensures Used(recs) == Used(Keep(recs, tag, group)) + Used(Drop(recs, tag, group, false))
  {
    if recs != [] {
      var init, r := recs[..|recs| - 1], recs[|recs| - 1];
      UsedShares(init, tag, group);
      WeighAppend(Keep(init, tag, group), r);
      WeighAppend(Drop(init, tag, group, false), r);
    }
  }

  lemma SizeIs(r: Rec)
    requires Wf(r)
    ensures Size(r.h) == HDR + |r.payload|
  {
  }

  lemma PutFits(recs: seq<Rec>, r: Rec, cap: nat)
    requires Used(recs) + Size(r.h) <= cap
    ensures Put(recs, r, cap) == PutResult(recs + [r], true)
  {
    hide Used, Size, EvictOne;
  }

  /** An Object there is room for is written behind all that is held. */
  lemma AppendFits(recs: seq<Rec>, r: Rec, cap: nat)
    requires !Buried(recs, r.h.tag, r.h.group)
    requires Wf(r) && |r.payload| <= 65472 && Used(recs) + 40 + |r.payload| <= cap
    ensures Append(recs, r, cap) == recs + [r]
  {
    hide Keep, Drop, Put, Kill, Used, Size, Buried, HasDead;
    BuriedIff(recs, r.h.tag, r.h.group);
    UsedShares(recs, r.h.tag, r.h.group);
    SizeIs(r);
    PutFits(recs, r, cap);
  }

  // ---- What makes way ----

  /** More of v's group may come: no record of its track, and not the Object on its
      way, is of a later one. */
  predicate MayGrow(recs: seq<Rec>, v: Rec, tag: u64, group: u64) {
    && (v.h.tag == tag ==> group <= v.h.group)
    && forall i :: 0 <= i < |recs| && recs[i].h.tag == v.h.tag ==> recs[i].h.group <= v.h.group
  }

  /** The oldest record that is not of the group on its way, nor a tombstone of a
      group that may grow, gives up its group: to a tombstone if that group may
      grow, entirely if not. Every other group keeps its records. */
  lemma EvictOneTakes(recs: seq<Rec>, tag: u64, group: u64) returns (i: nat)
    ensures i <= |recs| && (EvictOne(recs, tag, group).None? <==> i == |recs|)
    ensures forall j :: 0 <= j < i ==>
              (recs[j].h.tag == tag && recs[j].h.group == group) || (Dead(recs[j].h) && MayGrow(recs, recs[j], tag, group))
    ensures i < |recs| ==>
      var v, e := recs[i], EvictOne(recs, tag, group).value;
      && !(v.h.tag == tag && v.h.group == group) && !(Dead(v.h) && MayGrow(recs, v, tag, group))
      && (forall t, g :: !(t == v.h.tag && g == v.h.group) ==> Keep(e, t, g) == Keep(recs, t, g))
      && Keep(e, v.h.tag, v.h.group)
         == if MayGrow(recs, v, tag, group) then [Tombstone(v.h.tag, v.h.group)] else []
  {
    i := FirstVictim(recs, tag, group, 0);
    forall j | 0 <= j < |recs| ensures StaysOpen(recs, recs[j].h, tag, group) <==> MayGrow(recs, recs[j], tag, group) {}
    hide Keep, Drop, Entomb, StaysOpen, MayGrow;
    if i < |recs| {
      var v := recs[i].h;
      forall t, g
        ensures Keep(Entomb(recs, v.tag, v.group), t, g)
             == if t == v.tag && g == v.group then [Tombstone(t, g)] else Keep(recs, t, g)
        ensures Keep(Drop(recs, v.tag, v.group, false), t, g)
             == if t == v.tag && g == v.group then [] else Keep(recs, t, g)
      {
        KeepEntomb(recs, v.tag, v.group, t, g);
        KeepDrop(recs, v.tag, v.group, false, t, g);
      }
    }
  }

  // ---- What a full arena still takes ----

  /** Every track appended from has a record. */
  lemma TracksHeld(recs: seq<Rec>, hist: seq<Rec>)
    requires GroupsWhole(recs, hist) && NewestHeld(recs, hist)
    ensures Tags(recs) == Tags(hist)
  {
    forall t | t in Tags(recs) ensures t in Tags(hist) {
      var i :| 0 <= i < |recs| && recs[i].h.tag == t;
      var j := HeldBy(hist, recs[i].h.tag, recs[i].h.group);
    }
    forall t | t in Tags(hist) ensures t in Tags(recs) {
      var i := NewestOf(hist, t);
      var j := HeldBy(recs, hist[i].h.tag, hist[i].h.group);
    }
  }

  lemma {:induction false} NewestOf(hist: seq<Rec>, t: u64) returns (i: nat)
    requires t in Tags(hist)
    ensures i < |hist| && hist[i].h.tag == t && IsOpen(hist, hist[i].h)
    decreases |hist|
  {
    var init, r := hist[..|hist| - 1], hist[|hist| - 1];
    if t in Tags(init) {
      i := NewestOf(init, t);
      if Later(r.h, hist[i].h) { i := |hist| - 1; }
      forall k | 0 <= k < |hist| ensures !Later(hist[k].h, hist[i].h) {
        assert k < |init| ==> hist[k] == init[k];
      }
    } else {
      i := |hist| - 1;
      var j :| 0 <= j < |hist| && hist[j].h.tag == t;
      assert forall k :: 0 <= k < |init| ==> init[k].h.tag in Tags(init);
    }
  }

  lemma {:induction false} UsedAtLeast(recs: seq<Rec>)
    ensures Used(recs) >= HDR * |Tags(recs)|
  {
    if recs != [] {
      var init, r := recs[..|recs| - 1], recs[|recs| - 1];
      UsedAtLeast(init);
      assert Tags(recs) == Tags(init) + {r.h.tag};
    }
  }

  lemma TagsMonotone(a: set<u64>, b: set<u64>)
    requires a <= b
    ensures HDR * |a| <= HDR * |b|
  {
    SubsetSize(a, b);
  }

  /** However much is evicted, every other track keeps a header. */
  lemma OthersKeepHeader(recs: seq<Rec>, hist: seq<Rec>, tag: u64, group: u64)
    requires Evicting(recs, hist, tag)
    ensures Used(Drop(recs, tag, group, false)) >= HDR * |Tags(hist) - {tag}|
  {
    var d := Drop(recs, tag, group, false);
    forall t | t in Tags(hist) - {tag} ensures t in Tags(d) {
      var i := NewestOf(hist, t);
      var j := HeldBy(recs, hist[i].h.tag, hist[i].h.group);
      DropMembers(recs, tag, group, false);
      assert recs[j] in d;
      var k :| 0 <= k < |d| && d[k] == recs[j];
    }
    UsedAtLeast(d);
    TagsMonotone(Tags(hist) - {tag}, Tags(d));
  }

  /** Where nothing more can be evicted, one header for each other track is all
      there is beside the group. */
  lemma StuckOthers(recs: seq<Rec>, hist: seq<Rec>, tag: u64, group: u64)
    requires Evicting(recs, hist, tag) && EvictOne(recs, tag, group).None? && Newest(hist, tag, group)
    ensures Used(Drop(recs, tag, group, false)) <= HDR * |Tags(hist) - {tag}|
  {
    var d := Drop(recs, tag, group, false);
    DropEvicting(recs, hist, tag, group);
    KeepDrop(recs, tag, group, false, tag, group);
    forall i | 0 <= i < |d| ensures !Victim(d, d[i].h, tag, group) {
      StuckInDrop(recs, hist, tag, group, i);
    }
    TombstoneFits(d, hist, tag, group);
  }

  lemma StuckInDrop(recs: seq<Rec>, hist: seq<Rec>, tag: u64, group: u64, i: nat)
    requires EvictOne(recs, tag, group).None? && i < |Drop(recs, tag, group, false)|
    ensures var d := Drop(recs, tag, group, false); !Victim(d, d[i].h, tag, group)
  {
    var d := Drop(recs, tag, group, false);
    DropMembers(recs, tag, group, false);
    hide Drop;
    assert d[i] in d;
    var j :| 0 <= j < |recs| && recs[j] == d[i];
    assert !Victim(recs, recs[j].h, tag, group);
    forall k | 0 <= k < |d| ensures !Later(d[k].h, d[i].h) {
      assert d[k] in d;
      var m :| 0 <= m < |recs| && recs[m] == d[k];
    }
  }

  /** Making room succeeds exactly when the group with the Object fits beside one
      header for each other track. */
  lemma RoomIff(s: State, r: Rec, cap: nat)
    requires Inv(s, cap) && Arrives(s.hist, r, cap)
    ensures var tag, group := r.h.tag, r.h.group;
            var room := MakeRoom(s.recs, tag, group, Size(r.h), cap);
            (Used(room) + Size(r.h) <= cap <==>
             HDR * |Tags(s.recs) - {tag}| + GroupUse(s.recs, tag, group) + Size(r.h) <= cap)
  {
    hide Keep, Drop, Used, Size, Tags, MakeRoom, EvictOne, Newest;
    var tag, group := r.h.tag, r.h.group;
    var room := MakeRoom(s.recs, tag, group, Size(r.h), cap);
    TracksHeld(s.recs, s.hist);
    assert Evicting(s.recs, s.hist, tag);
    MakeRoomKeeps(s.recs, s.hist, tag, group, Size(r.h), cap);
    UsedShares(s.recs, tag, group);
    UsedShares(room, tag, group);
    OthersKeepHeader(room, s.hist, tag, group);
    if EvictOne(room, tag, group).None? { StuckOthers(room, s.hist, tag, group); }
  }

  /** After an append the Object is held exactly when its group had no tombstone,
      its payload is at most 65472 bytes, and the group with it fits beside one
      header for each other track. */
  lemma HeldIff(s: State, r: Rec, cap: nat)
    requires Inv(s, cap) && Arrives(s.hist, r, cap)
    ensures r in Append(s.recs, r, cap)
       <==> && !Buried(s.recs, r.h.tag, r.h.group) && |r.payload| <= 65472
            && 40 * |Tags(s.recs) - {r.h.tag}| + GroupUse(s.recs, r.h.tag, r.h.group) + 40 + |r.payload| <= cap
  {
    var tag, group := r.h.tag, r.h.group;
    var own := Keep(s.recs, tag, group);
    hide Keep, Drop, Used, Size, Tags, MakeRoom, Kill, Newest, Buried, HasDead;
    BuriedIff(s.recs, tag, group);
    UsedShares(s.recs, tag, group);
    SizeIs(r);
    if HasDead(own) {
      BuriedHasNone(s, r, cap);
    } else {
      RoomIff(s, r, cap);
      var st := Store(s.recs, r, Used(own), cap);
      if st.stored {
        assert st.recs[|st.recs| - 1] == r;
      } else {
        assert Evicting(s.recs, s.hist, tag);
        MakeRoomKeeps(s.recs, s.hist, tag, group, Size(r.h), cap);
        StoreCases(s.recs, r, Used(own), cap);
        KilledIsGone(st.recs, s.hist, r, cap);
      }
    }
  }

  lemma BuriedHasNone(s: State, r: Rec, cap: nat)
    requires Inv(s, cap) && !Dead(r.h) && HasDead(Keep(s.recs, r.h.tag, r.h.group))
    ensures r !in s.recs
  {
    var own := Keep(s.recs, r.h.tag, r.h.group);
    assert WholeOrNot(s.recs, s.hist, r.h.tag, r.h.group);
    KeepMembers(s.recs, r.h.tag, r.h.group);
    KeepMembers(s.hist, r.h.tag, r.h.group);
    hide Keep;
    var k :| 0 <= k < |own| && Dead(own[k].h);
    assert own[k] in own;
    assert own != Keep(s.hist, r.h.tag, r.h.group);
  }

  lemma KilledIsGone(recs: seq<Rec>, hist: seq<Rec>, r: Rec, cap: nat)
    requires Used(recs) <= cap && Evicting(recs, hist, r.h.tag) && !Dead(r.h)
    requires Newest(hist, r.h.tag, r.h.group) && RoomForTombstones(hist, r.h.tag, cap)
    ensures r !in Kill(recs, r.h.tag, r.h.group, cap)
  {
    var tag, group := r.h.tag, r.h.group;
    KillWrites(recs, hist, tag, group, cap);
    var room := MakeRoom(Drop(recs, tag, group, false), tag, group, HDR, cap);
    KeepMembers(room, tag, group);
  }

  // ---- What expires ----

  /** An Object of the group may no longer be served at now. */
  predicate Stale(recs: seq<Rec>, tag: u64, group: u64, now: u64) {
    exists i :: 0 <= i < |recs| && recs[i].h.tag == tag && recs[i].h.group == group
                && !Dead(recs[i].h) && recs[i].h.exp <= now
  }

  /** A lookup takes the groups in which an Object expired, whole, and no other;
      a tombstone is left of each. */
  lemma {:induction false} ExpireTakes(recs: seq<Rec>, now: u64)
    ensures var e := Expire(recs, now);
            && (forall r: Rec :: !Dead(r.h) ==> (r in e <==> r in recs && !Stale(recs, r.h.tag, r.h.group, now)))
            && (forall t, g :: Buried(e, t, g) <==> Buried(recs, t, g) || Stale(recs, t, g, now))
    decreases Weight(recs)
  {
    var i := FirstExpired(recs, now, 0);
    if i < |recs| {
      var tag, group := recs[i].h.tag, recs[i].h.group;
      EntombLowers(recs, i);
      var m := Entomb(recs, tag, group);
      ExpireTakes(m, now);
      hide Expire, FirstExpired;
      EntombTakes(recs, tag, group);
      assert Stale(recs, tag, group, now);
      forall t, g ensures Stale(m, t, g, now) <==> Stale(recs, t, g, now) && !(t == tag && g == group) {
        EntombStale(recs, tag, group, t, g, now);
      }
      forall t, g ensures Buried(m, t, g) <==> Buried(recs, t, g) || (t == tag && g == group) {
        EntombBuried(recs, tag, group, t, g);
      }
    } else {
      forall t, g ensures !Stale(recs, t, g, now) {}
    }
  }

  lemma EntombTakes(recs: seq<Rec>, tag: u64, group: u64)
    ensures forall r: Rec :: !Dead(r.h) ==>
              (r in Entomb(recs, tag, group) <==> r in recs && !(r.h.tag == tag && r.h.group == group))
  {
    DropMembers(recs, tag, group, false);
  }

  lemma EntombStale(recs: seq<Rec>, tag: u64, group: u64, t: u64, g: u64, now: u64)
    ensures Stale(Entomb(recs, tag, group), t, g, now) <==> Stale(recs, t, g, now) && !(t == tag && g == group)
  {
    var m := Entomb(recs, tag, group);
    EntombTakes(recs, tag, group);
    hide Entomb;
    if Stale(m, t, g, now) {
      var i :| 0 <= i < |m| && m[i].h.tag == t && m[i].h.group == g && !Dead(m[i].h) && m[i].h.exp <= now;
      assert m[i] in m;
      var j :| 0 <= j < |recs| && recs[j] == m[i];
    }
    if Stale(recs, t, g, now) && !(t == tag && g == group) {
      var i :| 0 <= i < |recs| && recs[i].h.tag == t && recs[i].h.group == g && !Dead(recs[i].h) && recs[i].h.exp <= now;
      assert recs[i] in m;
      var j :| 0 <= j < |m| && m[j] == recs[i];
    }
  }

  lemma EntombBuried(recs: seq<Rec>, tag: u64, group: u64, t: u64, g: u64)
    ensures Buried(Entomb(recs, tag, group), t, g) <==> Buried(recs, t, g) || (t == tag && g == group)
  {
    var d, m := Drop(recs, tag, group, false), Entomb(recs, tag, group);
    assert m[|d|] == Tombstone(tag, group);
    DropMembers(recs, tag, group, false);
    hide Drop, Entomb;
    assert forall i :: 0 <= i < |d| ==> m[i] == d[i] && d[i] in d;
    if Buried(m, t, g) && !(t == tag && g == group) {
      var i :| 0 <= i < |m| && m[i].h.tag == t && m[i].h.group == g && Dead(m[i].h);
      var j :| 0 <= j < |recs| && recs[j] == m[i];
    }
    if Buried(recs, t, g) && !(t == tag && g == group) {
      var i :| 0 <= i < |recs| && recs[i].h.tag == t && recs[i].h.group == g && Dead(recs[i].h);
      assert recs[i] in d;
      var j :| 0 <= j < |d| && d[j] == recs[i];
    }
  }

  /** A departure takes the track's records, and no other. */
  lemma ReleaseTakes(recs: seq<Rec>, tag: u64)
    ensures forall r :: r in Release(recs, tag) <==> r in recs && r.h.tag != tag
    ensures forall t, g :: t != tag ==> Keep(Release(recs, tag), t, g) == Keep(recs, t, g)
  {
    DropMembers(recs, tag, 0, true);
    forall t, g | t != tag ensures Keep(Release(recs, tag), t, g) == Keep(recs, t, g) {
      KeepDrop(recs, tag, 0, true, t, g);
    }
  }

  // ---- Runs that fit ----

  /** Everything appended and not released fits the arena, all along, and nothing
      expires. */
  ghost predicate Roomy(hist: seq<Rec>, ops: seq<Op>, cap: nat)
    decreases |ops|
  {
    ops == [] ||
    match ops[0]
    case Arrival(r) =>
      && !Dead(r.h) && Wf(r) && |r.payload| <= 65472 && Used(hist) + 40 + |r.payload| <= cap
      && Roomy(hist + [r], ops[1..], cap)
    case Departure(tag) => Roomy(Release(hist, tag), ops[1..], cap)
    case Lookup(now) =>
      && (forall i :: 0 <= i < |hist| ==> now < hist[i].h.exp)
      && Roomy(hist, ops[1..], cap)
  }

  /** A cache everything fits in holds everything. */
  lemma {:induction false} RoomyHoldsAll(hist: seq<Rec>, ops: seq<Op>, cap: nat)
    requires AllLive(hist) && Roomy(hist, ops, cap)
    ensures var s := Run(State(hist, hist), ops, cap);
            s.recs == s.hist
    decreases |ops|
  {
    if ops != [] {
      match ops[0]
      case Arrival(r) =>
        AppendFits(hist, r, cap);
        RoomyHoldsAll(hist + [r], ops[1..], cap);
      case Departure(tag) =>
        ReleaseLive(hist, tag);
        RoomyHoldsAll(Release(hist, tag), ops[1..], cap);
      case Lookup(now) =>
        NothingExpired(hist, now);
        RoomyHoldsAll(hist, ops[1..], cap);
    }
  }

  lemma ReleaseLive(hist: seq<Rec>, tag: u64)
    requires AllLive(hist)
    ensures AllLive(Release(hist, tag))
  {
    DropMembers(hist, tag, 0, true);
    var d := Release(hist, tag);
    forall i | 0 <= i < |d| ensures !Dead(d[i].h) { assert d[i] in d; }
  }

  lemma NothingExpired(recs: seq<Rec>, now: u64)
    requires forall i :: 0 <= i < |recs| ==> now < recs[i].h.exp
    ensures Expire(recs, now) == recs
  {
    var i := FirstExpired(recs, now, 0);
  }
}
