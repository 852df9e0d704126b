/** Every run of appends, releases and lookups holds each group whole, as its
    tombstone, or not at all. */
module CacheRuns {
  import opened Bytes
  import opened Seqs
  import opened CacheRecord
  import opened CacheLayout
  import opened CacheSpec

  // ---- Groups under the record operations ----

  lemma KeepAppend(recs: seq<Rec>, r: Rec, t: u64, g: u64)
    ensures Keep(recs + [r], t, g) == Keep(recs, t, g) + if Hit(r.h, t, g, false) then [r] else []
  {
    InitOfAppend(recs, r);
  }

  lemma {:induction false} KeepDrop(recs: seq<Rec>, tag: u64, group: u64, any: bool, t: u64, g: u64)
    ensures Keep(Drop(recs, tag, group, any), t, g)
         == if t == tag && (any || g == group) then [] else Keep(recs, t, g)
  {
    if recs != [] {
      var init, r := recs[..|recs| - 1], recs[|recs| - 1];
      KeepDrop(init, tag, group, any, t, g);
      KeepAppend(Drop(init, tag, group, any), r, t, g);
    }
  }

  lemma KeepEntomb(recs: seq<Rec>, tag: u64, group: u64, t: u64, g: u64)
    ensures Keep(Entomb(recs, tag, group), t, g)
         == if t == tag && g == group then [Tombstone(t, g)] else Keep(recs, t, g)
  {
    KeepDrop(recs, tag, group, false, t, g);
    KeepAppend(Drop(recs, tag, group, false), Tombstone(tag, group), t, g);
  }

  lemma {:induction false} KeepMembers(recs: seq<Rec>, t: u64, g: u64)
    ensures forall r :: r in Keep(recs, t, g) <==> r in recs && Hit(r.h, t, g, false)
  {
    if recs != [] {
      KeepMembers(recs[..|recs| - 1], t, g);
      assert recs == recs[..|recs| - 1] + [recs[|recs| - 1]];
    }
  }

  lemma Held(recs: seq<Rec>, i: nat)
    requires i < |recs|
    ensures recs[i] in Keep(recs, recs[i].h.tag, recs[i].h.group)
  {
    KeepMembers(recs, recs[i].h.tag, recs[i].h.group);
  }

  lemma HeldBy(recs: seq<Rec>, t: u64, g: u64) returns (i: nat)
    requires Keep(recs, t, g) != []
    ensures i < |recs| && Hit(recs[i].h, t, g, false)
  {
    KeepMembers(recs, t, g);
    var r := Keep(recs, t, g)[0];
    assert r in Keep(recs, t, g);
    i :| 0 <= i < |recs| && recs[i] == r;
  }

  // ---- The invariant ----

  /** hist is everything appended and not released since, in arrival order. */
  datatype State = State(recs: seq<Rec>, hist: seq<Rec>)

  /** tag's group is not held, is a tombstone, or is held whole. */
  predicate WholeOrNot(recs: seq<Rec>, hist: seq<Rec>, t: u64, g: u64) {
    var own := Keep(recs, t, g);
    own == [] || own == [Tombstone(t, g)] || own == Keep(hist, t, g)
  }

  ghost predicate AllLive(hist: seq<Rec>) {
    forall i :: 0 <= i < |hist| ==> !Dead(hist[i].h)
  }

  /** Every group is whole, a tombstone or absent, and was once appended. */
  ghost predicate GroupsWhole(recs: seq<Rec>, hist: seq<Rec>) {
    && (forall t, g :: WholeOrNot(recs, hist, t, g))
    && (forall i :: 0 <= i < |recs| ==> Keep(hist, recs[i].h.tag, recs[i].h.group) != [])
  }

  /** The newest group of every track but tag's is held, if only as a tombstone. */
  ghost predicate OthersNewestHeld(recs: seq<Rec>, hist: seq<Rec>, tag: u64) {
    forall i :: 0 <= i < |hist| && hist[i].h.tag != tag && IsOpen(hist, hist[i].h) ==>
                  Keep(recs, hist[i].h.tag, hist[i].h.group) != []
  }

  ghost predicate NewestHeld(recs: seq<Rec>, hist: seq<Rec>) {
    forall i :: 0 <= i < |hist| && IsOpen(hist, hist[i].h) ==>
                  Keep(recs, hist[i].h.tag, hist[i].h.group) != []
  }

  ghost predicate Inv(s: State, cap: nat) {
    && Used(s.recs) <= cap
    && AllLive(s.hist)
    && GroupsWhole(s.recs, s.hist)
    && NewestHeld(s.recs, s.hist)
  }

  /** group is not older than anything of tag appended so far. */
  ghost predicate Newest(hist: seq<Rec>, tag: u64, group: u64) {
    forall i :: 0 <= i < |hist| && hist[i].h.tag == tag ==> hist[i].h.group <= group
  }

  // ---- Evicting ----

  /** What holds while room is made for an Object of tag. */
  ghost predicate Evicting(recs: seq<Rec>, hist: seq<Rec>, tag: u64) {
    AllLive(hist) && GroupsWhole(recs, hist) && OthersNewestHeld(recs, hist, tag)
  }

  lemma DropKeepsWhole(recs: seq<Rec>, hist: seq<Rec>, tag: u64, group: u64)
    requires GroupsWhole(recs, hist)
    ensures GroupsWhole(Drop(recs, tag, group, false), hist)
  {
    var d := Drop(recs, tag, group, false);
    forall t, g ensures WholeOrNot(d, hist, t, g) {
      assert WholeOrNot(recs, hist, t, g);
      KeepDrop(recs, tag, group, false, t, g);
    }
    forall i | 0 <= i < |d| ensures Keep(hist, d[i].h.tag, d[i].h.group) != [] {
      DropMembers(recs, tag, group, false);
      assert d[i] in d;
      var j :| 0 <= j < |recs| && recs[j] == d[i];
    }
  }

  lemma EntombKeepsWhole(recs: seq<Rec>, hist: seq<Rec>, tag: u64, group: u64)
    requires GroupsWhole(recs, hist) && Keep(hist, tag, group) != []
    ensures GroupsWhole(Entomb(recs, tag, group), hist)
  {
    DropKeepsWhole(recs, hist, tag, group);
    var e := Entomb(recs, tag, group);
    forall t, g ensures WholeOrNot(e, hist, t, g) {
      assert WholeOrNot(recs, hist, t, g);
      KeepEntomb(recs, tag, group, t, g);
    }
  }

  /** A group newest in the history is newest among the records held. */
  lemma OpenInHistory(recs: seq<Rec>, hist: seq<Rec>, v: Header)
    requires GroupsWhole(recs, hist) && IsOpen(hist, v)
    ensures IsOpen(recs, v)
  {
    forall i | 0 <= i < |recs| ensures !Later(recs[i].h, v) {
      var j := HeldBy(hist, recs[i].h.tag, recs[i].h.group);
      assert !Later(hist[j].h, v);
    }
  }

  lemma EvictOneKeeps(recs: seq<Rec>, hist: seq<Rec>, tag: u64, group: u64)
    requires Evicting(recs, hist, tag) && EvictOne(recs, tag, group).Some?
    ensures Evicting(EvictOne(recs, tag, group).value, hist, tag)
    ensures Keep(EvictOne(recs, tag, group).value, tag, group) == Keep(recs, tag, group)
  {
    var k := FirstVictim(recs, tag, group, 0);
    var v, after := recs[k].h, EvictOne(recs, tag, group).value;
    DropKeepsWhole(recs, hist, v.tag, v.group);
    EntombKeepsWhole(recs, hist, v.tag, v.group);
    KeepDrop(recs, v.tag, v.group, false, tag, group);
    KeepEntomb(recs, v.tag, v.group, tag, group);
    forall i | 0 <= i < |hist| && hist[i].h.tag != tag && IsOpen(hist, hist[i].h)
      ensures Keep(after, hist[i].h.tag, hist[i].h.group) != []
    {
      var h := hist[i].h;
      OpenInHistory(recs, hist, h);
      KeepDrop(recs, v.tag, v.group, false, h.tag, h.group);
      KeepEntomb(recs, v.tag, v.group, h.tag, h.group);
      assert h.tag == v.tag && h.group == v.group ==> StaysOpen(recs, v, tag, group);
    }
  }

  lemma {:induction false} MakeRoomKeeps(
      recs: seq<Rec>, hist: seq<Rec>, tag: u64, group: u64, need: nat, cap: nat)
    requires Evicting(recs, hist, tag)
    ensures var room := MakeRoom(recs, tag, group, need, cap);
            && Evicting(room, hist, tag)
            && Keep(room, tag, group) == Keep(recs, tag, group)
            && Used(room) <= Used(recs)
            && (Used(room) + need <= cap || EvictOne(room, tag, group).None?)
    decreases Weight(recs)
  {
    if Used(recs) + need > cap && EvictOne(recs, tag, group).Some? {
      EvictOneLowers(recs, tag, group);
      EvictOneKeeps(recs, hist, tag, group);
      MakeRoomKeeps(EvictOne(recs, tag, group).value, hist, tag, group, need, cap);
    }
  }

  // ---- Room for a tombstone ----

  function Tags(recs: seq<Rec>): set<u64> {
    set i | 0 <= i < |recs| :: recs[i].h.tag
  }

  /** Records none of which can be evicted: one tombstone for each of some
      other open tracks. */
  ghost predicate Stuck(recs: seq<Rec>, tag: u64, group: u64) {
    && EvictOne(recs, tag, group).None?
    && Keep(recs, tag, group) == []
  }

  lemma {:induction false} AllDeadBytes(recs: seq<Rec>)
    requires forall i :: 0 <= i < |recs| ==> Dead(recs[i].h)
    ensures Used(recs) == HDR * |recs|
  {
    if recs != [] {
      AllDeadBytes(recs[..|recs| - 1]);
    }
  }

  lemma {:induction false} DistinctTags(recs: seq<Rec>)
    requires forall i, j :: 0 <= i < j < |recs| ==> recs[i].h.tag != recs[j].h.tag
    ensures |Tags(recs)| == |recs|
  {
    if recs != [] {
      var init, r := recs[..|recs| - 1], recs[|recs| - 1];
      DistinctTags(init);
      assert Tags(recs) == Tags(init) + {r.h.tag};
    }
  }

  lemma StuckRecord(recs: seq<Rec>, hist: seq<Rec>, tag: u64, group: u64, i: nat)
    requires Evicting(recs, hist, tag) && Stuck(recs, tag, group) && i < |recs|
    requires Newest(hist, tag, group)
    ensures Dead(recs[i].h) && IsOpen(recs, recs[i].h) && recs[i].h.tag != tag
    ensures recs[i].h.tag in Tags(hist)
    ensures Keep(recs, recs[i].h.tag, recs[i].h.group) == [Tombstone(recs[i].h.tag, recs[i].h.group)]
  {
    var h := recs[i].h;
    assert !Victim(recs, h, tag, group);
    Held(recs, i);
    var j := HeldBy(hist, h.tag, h.group);
    assert WholeOrNot(recs, hist, h.tag, h.group);
    KeepMembers(hist, h.tag, h.group);
    KeepMembers(recs, h.tag, h.group);
    assert Dead(h);
    assert recs[i] in Keep(recs, h.tag, h.group);
    assert Keep(recs, h.tag, h.group) != Keep(hist, h.tag, h.group);
  }

  lemma {:induction false} TwoHits(recs: seq<Rec>, i: nat, j: nat, t: u64, g: u64)
    requires i < j < |recs| && Hit(recs[i].h, t, g, false) && Hit(recs[j].h, t, g, false)
    ensures |Keep(recs, t, g)| >= 2
    decreases |recs|
  {
    var init := recs[..|recs| - 1];
    if j < |recs| - 1 {
      TwoHits(init, i, j, t, g);
    } else {
      Held(init, i);
    }
  }

  /** Where nothing more can be evicted, a tombstone still fits beside one
      header for every other track. */
  lemma TombstoneFits(recs: seq<Rec>, hist: seq<Rec>, tag: u64, group: u64)
    requires Evicting(recs, hist, tag) && Stuck(recs, tag, group) && Newest(hist, tag, group)
    ensures Used(recs) <= HDR * |Tags(hist) - {tag}|
  {
    forall i | 0 <= i < |recs|
      ensures Dead(recs[i].h) && recs[i].h.tag in Tags(hist) - {tag}
    {
      StuckRecord(recs, hist, tag, group, i);
    }
    forall i, j | 0 <= i < j < |recs| ensures recs[i].h.tag != recs[j].h.tag {
      StuckRecord(recs, hist, tag, group, i);
      StuckRecord(recs, hist, tag, group, j);
      if recs[i].h.tag == recs[j].h.tag {
        assert recs[i].h.group == recs[j].h.group;
        TwoHits(recs, i, j, recs[i].h.tag, recs[i].h.group);
      }
    }
    AllDeadBytes(recs);
    DistinctTags(recs);
    SubsetSize(Tags(recs), Tags(hist) - {tag});
  }

  /** The arena has room for a header of each track, this one's included. */
  predicate RoomForTombstones(hist: seq<Rec>, tag: u64, cap: nat) {
    HDR * (|Tags(hist) - {tag}| + 1) <= cap
  }

  /** Writing r where its group holds own: the record joins an Evicting state. */
  lemma WriteKeeps(room: seq<Rec>, hist: seq<Rec>, r: Rec)
    requires Evicting(room, hist, r.h.tag) && Newest(hist, r.h.tag, r.h.group) && !Dead(r.h)
    requires Keep(room, r.h.tag, r.h.group) == Keep(hist, r.h.tag, r.h.group)
    ensures GroupsWhole(room + [r], hist + [r]) && NewestHeld(room + [r], hist + [r])
  {
    WriteKeepsAny(room, hist, r, r);
    KeepAppend(hist, r, r.h.tag, r.h.group);
    KeepAppend(room, r, r.h.tag, r.h.group);
  }

  /** The same for a tombstone in r's place, once its group is gone. */
  lemma BuryKeeps(room: seq<Rec>, hist: seq<Rec>, r: Rec)
    requires Evicting(room, hist, r.h.tag) && Newest(hist, r.h.tag, r.h.group) && !Dead(r.h)
    requires Keep(room, r.h.tag, r.h.group) == []
    ensures var t := Tombstone(r.h.tag, r.h.group);
            GroupsWhole(room + [t], hist + [r]) && NewestHeld(room + [t], hist + [r])
  {
    var t := Tombstone(r.h.tag, r.h.group);
    WriteKeepsAny(room, hist, r, t);
    KeepAppend(room, t, r.h.tag, r.h.group);
  }

  /** All but r's own group after w, a record of that group, is written. */
  lemma WriteKeepsAny(room: seq<Rec>, hist: seq<Rec>, r: Rec, w: Rec)
    requires Evicting(room, hist, r.h.tag) && Newest(hist, r.h.tag, r.h.group)
    requires Hit(w.h, r.h.tag, r.h.group, false)
    ensures forall t, g :: !(t == r.h.tag && g == r.h.group) ==> WholeOrNot(room + [w], hist + [r], t, g)
    ensures forall i :: 0 <= i < |room + [w]| ==>
                          Keep(hist + [r], (room + [w])[i].h.tag, (room + [w])[i].h.group) != []
    ensures NewestHeld(room + [w], hist + [r])
  {
    forall t, g | !(t == r.h.tag && g == r.h.group) ensures WholeOrNot(room + [w], hist + [r], t, g) {
      assert WholeOrNot(room, hist, t, g);
      KeepAppend(room, w, t, g);
      KeepAppend(hist, r, t, g);
    }
    forall i | 0 <= i < |room + [w]|
      ensures Keep(hist + [r], (room + [w])[i].h.tag, (room + [w])[i].h.group) != []
    {
      var h := (room + [w])[i].h;
      KeepAppend(hist, r, h.tag, h.group);
      assert i < |room| ==> h == room[i].h;
    }
    forall i | 0 <= i < |hist + [r]| && IsOpen(hist + [r], (hist + [r])[i].h)
      ensures Keep(room + [w], (hist + [r])[i].h.tag, (hist + [r])[i].h.group) != []
    {
      var h := (hist + [r])[i].h;
      KeepAppend(room, w, h.tag, h.group);
      assert !Later((hist + [r])[|hist|].h, h);
      if h.tag != r.h.tag {
        assert h == hist[i].h;
        forall j | 0 <= j < |hist| ensures !Later(hist[j].h, h) {
          assert !Later((hist + [r])[j].h, h);
        }
      }
    }
  }

  lemma DropEvicting(recs: seq<Rec>, hist: seq<Rec>, tag: u64, group: u64)
    requires Evicting(recs, hist, tag)
    ensures Evicting(Drop(recs, tag, group, false), hist, tag)
  {
    var d := Drop(recs, tag, group, false);
    DropKeepsWhole(recs, hist, tag, group);
    forall i | 0 <= i < |hist| && hist[i].h.tag != tag && IsOpen(hist, hist[i].h)
      ensures Keep(d, hist[i].h.tag, hist[i].h.group) != []
    {
      KeepDrop(recs, tag, group, false, hist[i].h.tag, hist[i].h.group);
    }
  }

  /** A kill drops the group, makes room, and always writes the tombstone. */
  lemma KillWrites(recs: seq<Rec>, hist: seq<Rec>, tag: u64, group: u64, cap: nat)
    requires Used(recs) <= cap && Evicting(recs, hist, tag) && Newest(hist, tag, group)
    requires RoomForTombstones(hist, tag, cap)
    ensures var room := MakeRoom(Drop(recs, tag, group, false), tag, group, HDR, cap);
            && Evicting(room, hist, tag) && Keep(room, tag, group) == [] && Used(room) + HDR <= cap
            && Kill(recs, tag, group, cap) == room + [Tombstone(tag, group)]
  {
    var d := Drop(recs, tag, group, false);
    DropEvicting(recs, hist, tag, group);
    KeepDrop(recs, tag, group, false, tag, group);
    MakeRoomKeeps(d, hist, tag, group, HDR, cap);
    var room := MakeRoom(d, tag, group, HDR, cap);
    if EvictOne(room, tag, group).None? {
      TombstoneFits(room, hist, tag, group);
    }
  }

  lemma KillKeeps(recs: seq<Rec>, hist: seq<Rec>, r: Rec, cap: nat)
    requires Used(recs) <= cap && Evicting(recs, hist, r.h.tag) && !Dead(r.h)
    requires Newest(hist, r.h.tag, r.h.group) && RoomForTombstones(hist, r.h.tag, cap)
    ensures Inv(State(Kill(recs, r.h.tag, r.h.group, cap), hist + [r]), cap)
  {
    var tag, group := r.h.tag, r.h.group;
    KillWrites(recs, hist, tag, group, cap);
    var room := MakeRoom(Drop(recs, tag, group, false), tag, group, HDR, cap);
    BuryKeeps(room, hist, r);
    InitOfAppend(room, Tombstone(tag, group));
    assert AllLive(hist + [r]);
  }

  /** What arrives: a live record in a group not older than its track's last. */
  ghost predicate Arrives(hist: seq<Rec>, r: Rec, cap: nat) {
    && !Dead(r.h) && Wf(r)
    && Newest(hist, r.h.tag, r.h.group)
    && RoomForTombstones(hist, r.h.tag, cap)
  }

  /** Where tag's group is not a tombstone, all of it so far is held. */
  lemma OwnIsWhole(recs: seq<Rec>, hist: seq<Rec>, tag: u64, group: u64)
    requires GroupsWhole(recs, hist) && NewestHeld(recs, hist) && Newest(hist, tag, group)
    requires !HasDead(Keep(recs, tag, group))
    ensures Keep(recs, tag, group) == Keep(hist, tag, group)
  {
    assert WholeOrNot(recs, hist, tag, group);
    if Keep(recs, tag, group) == [Tombstone(tag, group)] {
      assert Dead(Keep(recs, tag, group)[0].h);
      assert false;
    }
    if Keep(hist, tag, group) != [] {
      var i := HeldBy(hist, tag, group);
      assert IsOpen(hist, hist[i].h);
    }
  }

  /** A store writes the record behind what making room leaves, or writes
      nothing. */
  lemma StoreCases(recs: seq<Rec>, r: Rec, held: nat, cap: nat)
    ensures var st, room := Store(recs, r, held, cap), MakeRoom(recs, r.h.tag, r.h.group, Size(r.h), cap);
            if st.stored then st.recs == room + [r] && Used(st.recs) <= cap
            else st.recs == recs || st.recs == room
  {
    InitOfAppend(MakeRoom(recs, r.h.tag, r.h.group, Size(r.h), cap), r);
  }

  lemma AppendKeeps(s: State, r: Rec, cap: nat)
    requires Inv(s, cap) && Arrives(s.hist, r, cap)
    ensures Inv(State(Append(s.recs, r, cap), s.hist + [r]), cap)
  {
    var tag, group := r.h.tag, r.h.group;
    var own := Keep(s.recs, tag, group);
    if HasDead(own) {
      DeadAbsorbs(s, r, cap);
    } else {
      OwnIsWhole(s.recs, s.hist, tag, group);
      assert Evicting(s.recs, s.hist, tag);
      MakeRoomKeeps(s.recs, s.hist, tag, group, Size(r.h), cap);
      StoreCases(s.recs, r, Used(own), cap);
      var st := Store(s.recs, r, Used(own), cap);
      if st.stored {
        WriteKeeps(MakeRoom(s.recs, tag, group, Size(r.h), cap), s.hist, r);
        assert AllLive(s.hist + [r]);
      } else {
        KillKeeps(st.recs, s.hist, r, cap);
      }
    }
  }

  /** An Object of a tombstoned group changes nothing. */
  lemma DeadAbsorbs(s: State, r: Rec, cap: nat)
    requires Inv(s, cap) && Arrives(s.hist, r, cap) && HasDead(Keep(s.recs, r.h.tag, r.h.group))
    ensures Inv(State(s.recs, s.hist + [r]), cap)
  {
    var own := Keep(s.recs, r.h.tag, r.h.group);
    forall t, g ensures WholeOrNot(s.recs, s.hist + [r], t, g) {
      assert WholeOrNot(s.recs, s.hist, t, g);
      KeepAppend(s.hist, r, t, g);
      KeepMembers(s.hist, t, g);
      if t == r.h.tag && g == r.h.group {
        var k :| 0 <= k < |own| && Dead(own[k].h);
        assert own[k] in own;
        assert own != Keep(s.hist, t, g);
      }
    }
    forall i | 0 <= i < |s.recs|
      ensures Keep(s.hist + [r], s.recs[i].h.tag, s.recs[i].h.group) != []
    {
      KeepAppend(s.hist, r, s.recs[i].h.tag, s.recs[i].h.group);
    }
    forall i | 0 <= i < |s.hist + [r]| && IsOpen(s.hist + [r], (s.hist + [r])[i].h)
      ensures Keep(s.recs, (s.hist + [r])[i].h.tag, (s.hist + [r])[i].h.group) != []
    {
      var h := (s.hist + [r])[i].h;
      assert !Later((s.hist + [r])[|s.hist|].h, h);
      if i < |s.hist| {
        forall j | 0 <= j < |s.hist| ensures !Later(s.hist[j].h, h) {
          assert !Later((s.hist + [r])[j].h, h);
        }
      }
    }
  }

  // ---- Expiring and releasing ----

  lemma EntombKeeps(s: State, i: nat, cap: nat)
    requires Inv(s, cap) && i < |s.recs|
    ensures Inv(State(Entomb(s.recs, s.recs[i].h.tag, s.recs[i].h.group), s.hist), cap)
  {
    var tag, group := s.recs[i].h.tag, s.recs[i].h.group;
    EntombLowers(s.recs, i);
    EntombKeepsWhole(s.recs, s.hist, tag, group);
    forall j | 0 <= j < |s.hist| && IsOpen(s.hist, s.hist[j].h)
      ensures Keep(Entomb(s.recs, tag, group), s.hist[j].h.tag, s.hist[j].h.group) != []
    {
      KeepEntomb(s.recs, tag, group, s.hist[j].h.tag, s.hist[j].h.group);
    }
  }

  lemma {:induction false} ExpireKeeps(s: State, now: u64, cap: nat)
    requires Inv(s, cap)
    ensures Inv(State(Expire(s.recs, now), s.hist), cap)
    decreases Weight(s.recs)
  {
    var i := FirstExpired(s.recs, now, 0);
    if i < |s.recs| {
      EntombLowers(s.recs, i);
      EntombKeeps(s, i, cap);
      ExpireKeeps(State(Entomb(s.recs, s.recs[i].h.tag, s.recs[i].h.group), s.hist), now, cap);
    }
  }

  /** After expiring, no held record has expired. */
  lemma {:induction false} ExpireLeavesNone(recs: seq<Rec>, now: u64)
    ensures forall i :: 0 <= i < |Expire(recs, now)| ==> !Expired(Expire(recs, now)[i].h, now)
    decreases Weight(recs)
  {
    var i := FirstExpired(recs, now, 0);
    if i < |recs| {
      EntombLowers(recs, i);
      ExpireLeavesNone(Entomb(recs, recs[i].h.tag, recs[i].h.group), now);
    }
  }

  lemma ReleaseKeeps(s: State, tag: u64, cap: nat)
    requires Inv(s, cap)
    ensures Inv(State(Release(s.recs, tag), Release(s.hist, tag)), cap)
  {
    var recs, hist := Release(s.recs, tag), Release(s.hist, tag);
    DropLowers(s.recs, tag, 0, true);
    DropMembers(s.recs, tag, 0, true);
    DropMembers(s.hist, tag, 0, true);
    forall t, g ensures WholeOrNot(recs, hist, t, g) {
      assert WholeOrNot(s.recs, s.hist, t, g);
      KeepDrop(s.recs, tag, 0, true, t, g);
      KeepDrop(s.hist, tag, 0, true, t, g);
    }
    forall i | 0 <= i < |recs| ensures Keep(hist, recs[i].h.tag, recs[i].h.group) != [] {
      assert recs[i] in recs;
      var j :| 0 <= j < |s.recs| && s.recs[j] == recs[i];
      KeepDrop(s.hist, tag, 0, true, recs[i].h.tag, recs[i].h.group);
    }
    forall i | 0 <= i < |hist| ensures !Dead(hist[i].h) {
      assert hist[i] in hist;
    }
    forall i | 0 <= i < |hist| && IsOpen(hist, hist[i].h)
      ensures Keep(recs, hist[i].h.tag, hist[i].h.group) != []
    {
      assert hist[i] in hist;
      StillOpen(s.hist, tag, hist[i]);
      KeepDrop(s.recs, tag, 0, true, hist[i].h.tag, hist[i].h.group);
    }
  }

  /** Releasing a track leaves the others' newest groups newest. */
  lemma StillOpen(hist: seq<Rec>, tag: u64, r: Rec)
    requires r in Release(hist, tag) && IsOpen(Release(hist, tag), r.h)
    ensures r in hist && r.h.tag != tag && IsOpen(hist, r.h)
  {
    var d := Release(hist, tag);
    DropMembers(hist, tag, 0, true);
    forall i | 0 <= i < |hist| ensures !Later(hist[i].h, r.h) {
      assert hist[i] in hist;
      if hist[i].h.tag == r.h.tag {
        assert hist[i] in d;
        var j :| 0 <= j < |d| && d[j] == hist[i];
      }
    }
  }

  // ---- Runs ----

  /** An Object arriving, a publisher leaving, or a lookup at some clock. */
  datatype Op = Arrival(r: Rec) | Departure(tag: u64) | Lookup(now: u64)

  function Step(s: State, op: Op, cap: nat): State {
    match op
    case Arrival(r) => State(Append(s.recs, r, cap), s.hist + [r])
    case Departure(tag) => State(Release(s.recs, tag), Release(s.hist, tag))
    case Lookup(now) => State(Expire(s.recs, now), s.hist)
  }

  function Run(s: State, ops: seq<Op>, cap: nat): State
    decreases |ops|
  {
    if ops == [] then s else Run(Step(s, ops[0], cap), ops[1..], cap)
  }

  /** Groups ascend per track, and the arena has a header for every track. */
  ghost predicate Admissible(s: State, ops: seq<Op>, cap: nat)
    decreases |ops|
  {
    ops == [] ||
    ((ops[0].Arrival? ==> Arrives(s.hist, ops[0].r, cap)) && Admissible(Step(s, ops[0], cap), ops[1..], cap))
  }

  lemma StepKeeps(s: State, op: Op, cap: nat)
    requires Inv(s, cap) && (op.Arrival? ==> Arrives(s.hist, op.r, cap))
    ensures Inv(Step(s, op, cap), cap)
  {
    match op
    case Arrival(r) => AppendKeeps(s, r, cap);
    case Departure(tag) => ReleaseKeeps(s, tag, cap);
    case Lookup(now) => ExpireKeeps(s, now, cap);
  }

  lemma {:induction false} RunKeeps(s: State, ops: seq<Op>, cap: nat)
    requires Inv(s, cap) && Admissible(s, ops, cap)
    ensures Inv(Run(s, ops, cap), cap)
    decreases |ops|
  {
    if ops != [] {
      StepKeeps(s, ops[0], cap);
      RunKeeps(Step(s, ops[0], cap), ops[1..], cap);
    }
  }

  /** Over every run from the empty cache: the budget holds, every group is
      whole, a tombstone or absent, and a track's newest group is never lost
      without a tombstone. */
  lemma EveryRun(ops: seq<Op>, cap: nat)
    requires Admissible(State([], []), ops, cap)
    ensures var s := Run(State([], []), ops, cap);
            && Used(s.recs) <= cap
            && (forall t, g :: WholeOrNot(s.recs, s.hist, t, g))
            && NewestHeld(s.recs, s.hist)
  {
    RunKeeps(State([], []), ops, cap);
  }

  // ---- Evicting no more than needed ----

  function EvictN(recs: seq<Rec>, tag: u64, group: u64, n: nat): seq<Rec>
    decreases n
  {
    if n == 0 then recs
    else match EvictOne(recs, tag, group)
      case None => recs
      case Some(fewer) => EvictN(fewer, tag, group, n - 1)
  }

  /** Room is made by evicting groups one at a time, oldest first, and not one
      after the arriving Object fits. */
  lemma {:induction false} EvictsFewest(recs: seq<Rec>, tag: u64, group: u64, need: nat, cap: nat) returns (n: nat)
    ensures MakeRoom(recs, tag, group, need, cap) == EvictN(recs, tag, group, n)
    ensures forall k :: 0 <= k < n ==> Used(EvictN(recs, tag, group, k)) + need > cap
    ensures Used(EvictN(recs, tag, group, n)) + need <= cap || EvictOne(EvictN(recs, tag, group, n), tag, group).None?
    decreases Weight(recs)
  {
    if Used(recs) + need > cap && EvictOne(recs, tag, group).Some? {
      EvictOneLowers(recs, tag, group);
      var fewer := EvictOne(recs, tag, group).value;
      var m := EvictsFewest(fewer, tag, group, need, cap);
      n := m + 1;
      forall k | 0 <= k < n ensures Used(EvictN(recs, tag, group, k)) + need > cap {
        if k > 0 {
          assert EvictN(recs, tag, group, k) == EvictN(fewer, tag, group, k - 1);
        }
      }
    } else {
      n := 0;
    }
  }
}
