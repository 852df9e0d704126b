/** The order of records in the arena, over every run: what makes a FETCH walk
    agree with the history. */
module CacheOrder {
  import opened Bytes
  import opened Locations
  import opened CacheRecord
  import opened CacheLayout
  import opened CacheSpec
  import opened CacheLookup
  import opened CacheRuns
  import opened CacheWalk

  // ---- Order under the record operations ----

  lemma AscendAppend(a: seq<Rec>, x: Rec, liveOnly: bool)
    requires Ascending(a, liveOnly)
    requires (liveOnly && Dead(x.h)) || forall r :: r in a && r.h.tag == x.h.tag ==> Less(Last(r.h), First(x.h))
    ensures Ascending(a + [x], liveOnly)
  {
    var b := a + [x];
    forall i, j | 0 <= i < j < |b| && b[i].h.tag == b[j].h.tag && !(liveOnly && Dead(b[j].h))
      ensures Less(Last(b[i].h), First(b[j].h))
    {
      if j == |a| {
        assert b[i] == a[i] && a[i] in a;
      }
    }
  }

  lemma {:induction false} DropAscends(recs: seq<Rec>, tag: u64, group: u64, any: bool, liveOnly: bool)
    requires Ascending(recs, liveOnly)
    ensures Ascending(Drop(recs, tag, group, any), liveOnly)
  {
    if recs != [] {
      var n := |recs| - 1;
      var init, x := recs[..n], recs[n];
      DropAscends(init, tag, group, any, liveOnly);
      DropMembers(init, tag, group, any);
      var d := Drop(init, tag, group, any);
      forall r | r in d && r.h.tag == x.h.tag && !(liveOnly && Dead(x.h)) ensures Less(Last(r.h), First(x.h)) {
        var i :| 0 <= i < n && init[i] == r;
        assert recs[i] == r;
      }
      AscendAppend(d, x, liveOnly);
    }
  }

  /** A tombstone of a track's newest group keeps the order. */
  lemma EntombAscends(recs: seq<Rec>, tag: u64, group: u64, liveOnly: bool)
    requires Ascending(recs, liveOnly)
    requires liveOnly || forall i :: 0 <= i < |recs| && recs[i].h.tag == tag ==> recs[i].h.group <= group
    ensures Ascending(Entomb(recs, tag, group), liveOnly)
  {
    DropAscends(recs, tag, group, false, liveOnly);
    DropMembers(recs, tag, group, false);
    AscendAppend(Drop(recs, tag, group, false), Tombstone(tag, group), liveOnly);
  }

  // ---- No group missing between held ones ----

  /** Every appended group not older than some held group of its track is held;
      tag's own group is exempt while it is being replaced. */
  ghost predicate NoHolesBut(recs: seq<Rec>, hist: seq<Rec>, tag: u64, group: u64) {
    forall i, k :: 0 <= i < |recs| && 0 <= k < |hist| && recs[i].h.tag == hist[k].h.tag
                   && recs[i].h.group <= hist[k].h.group && !Hit(hist[k].h, tag, group, false) ==>
                     Keep(recs, hist[k].h.tag, hist[k].h.group) != []
  }

  ghost predicate NoHoles(recs: seq<Rec>, hist: seq<Rec>) {
    forall i, k :: 0 <= i < |recs| && 0 <= k < |hist| && recs[i].h.tag == hist[k].h.tag
                   && recs[i].h.group <= hist[k].h.group ==>
                     Keep(recs, hist[k].h.tag, hist[k].h.group) != []
  }

  /** Dropping a track's oldest held group, or an exempt one, makes no hole. */
  lemma DropNoHoles(recs: seq<Rec>, hist: seq<Rec>, tag: u64, group: u64, t: u64, g: u64)
    requires NoHolesBut(recs, hist, tag, group)
    requires (t == tag && g == group) || forall i :: 0 <= i < |recs| && recs[i].h.tag == t ==> recs[i].h.group >= g
    ensures NoHolesBut(Drop(recs, t, g, false), hist, tag, group)
  {
    var d := Drop(recs, t, g, false);
    DropMembers(recs, t, g, false);
    forall i, k | 0 <= i < |d| && 0 <= k < |hist| && d[i].h.tag == hist[k].h.tag
                  && d[i].h.group <= hist[k].h.group && !Hit(hist[k].h, tag, group, false)
      ensures Keep(d, hist[k].h.tag, hist[k].h.group) != []
    {
      assert d[i] in d;
      var j :| 0 <= j < |recs| && recs[j] == d[i];
      KeepDrop(recs, t, g, false, hist[k].h.tag, hist[k].h.group);
    }
  }

  lemma EntombNoHoles(recs: seq<Rec>, hist: seq<Rec>, tag: u64, group: u64, v: nat)
    requires NoHolesBut(recs, hist, tag, group) && v < |recs|
    ensures NoHolesBut(Entomb(recs, recs[v].h.tag, recs[v].h.group), hist, tag, group)
  {
    hide Keep, Hit, Entomb;
    var e := Entomb(recs, recs[v].h.tag, recs[v].h.group);
    forall i, k | 0 <= i < |e| && 0 <= k < |hist| && e[i].h.tag == hist[k].h.tag
                  && e[i].h.group <= hist[k].h.group && !Hit(hist[k].h, tag, group, false)
      ensures Keep(e, hist[k].h.tag, hist[k].h.group) != []
    {
      KeepEntomb(recs, recs[v].h.tag, recs[v].h.group, hist[k].h.tag, hist[k].h.group);
      var j := EntombedWas(recs, v, i);
    }
  }

  /** A record left by entombing a group stands for one that was held. */
  lemma EntombedWas(recs: seq<Rec>, v: nat, i: nat) returns (j: nat)
    requires v < |recs| && i < |Entomb(recs, recs[v].h.tag, recs[v].h.group)|
    ensures var h := Entomb(recs, recs[v].h.tag, recs[v].h.group)[i].h;
            j < |recs| && recs[j].h.tag == h.tag && recs[j].h.group == h.group
  {
    var d := Drop(recs, recs[v].h.tag, recs[v].h.group, false);
    DropMembers(recs, recs[v].h.tag, recs[v].h.group, false);
    hide Drop;
    if i < |d| {
      assert d[i] in d;
      j :| 0 <= j < |recs| && recs[j] == d[i];
    } else {
      j := v;
    }
  }

  // ---- Evicting ----

  /** The first victim is the oldest held of its track. */
  lemma VictimIsOldest(recs: seq<Rec>, hist: seq<Rec>, tag: u64, group: u64)
    requires GroupsWhole(recs, hist) && Newest(hist, tag, group) && Ascending(recs, false)
    ensures var v := FirstVictim(recs, tag, group, 0);
            v < |recs| ==> forall i :: 0 <= i < |recs| && recs[i].h.tag == recs[v].h.tag ==>
                                         recs[i].h.group >= recs[v].h.group
  {
    var v := FirstVictim(recs, tag, group, 0);
    if v < |recs| {
      forall i | 0 <= i < |recs| && recs[i].h.tag == recs[v].h.tag ensures recs[i].h.group >= recs[v].h.group {
        if v < i {
          assert Less(Last(recs[v].h), First(recs[i].h));
        } else if recs[i].h.group < recs[v].h.group {
          assert !Victim(recs, recs[i].h, tag, group);
          assert Later(recs[v].h, recs[i].h);
          var k := HeldBy(hist, recs[v].h.tag, recs[v].h.group);
          assert false;
        }
      }
    }
  }

  lemma EvictOneOrder(recs: seq<Rec>, hist: seq<Rec>, tag: u64, group: u64, calm: bool)
    requires GroupsWhole(recs, hist) && Newest(hist, tag, group) && EvictOne(recs, tag, group).Some?
    requires Ascending(recs, !calm) && (calm ==> NoHolesBut(recs, hist, tag, group))
    ensures var after := EvictOne(recs, tag, group).value;
            Ascending(after, !calm) && (calm ==> NoHolesBut(after, hist, tag, group))
  {
    var k := FirstVictim(recs, tag, group, 0);
    var v := recs[k].h;
    if StaysOpen(recs, v, tag, group) {
      forall i | 0 <= i < |recs| && recs[i].h.tag == v.tag ensures recs[i].h.group <= v.group {
        assert !Later(recs[i].h, v);
      }
      EntombAscends(recs, v.tag, v.group, !calm);
      if calm { EntombNoHoles(recs, hist, tag, group, k); }
    } else {
      DropAscends(recs, v.tag, v.group, false, !calm);
      if calm {
        VictimIsOldest(recs, hist, tag, group);
        DropNoHoles(recs, hist, tag, group, v.tag, v.group);
      }
    }
  }

  lemma {:induction false} MakeRoomOrder(
      recs: seq<Rec>, hist: seq<Rec>, tag: u64, group: u64, need: nat, cap: nat, calm: bool)
    requires Evicting(recs, hist, tag) && Newest(hist, tag, group)
    requires Ascending(recs, !calm) && (calm ==> NoHolesBut(recs, hist, tag, group))
    ensures var room := MakeRoom(recs, tag, group, need, cap);
            Ascending(room, !calm) && (calm ==> NoHolesBut(room, hist, tag, group))
    decreases Weight(recs)
  {
    if Used(recs) + need > cap && EvictOne(recs, tag, group).Some? {
      EvictOneLowers(recs, tag, group);
      EvictOneKeeps(recs, hist, tag, group);
      EvictOneOrder(recs, hist, tag, group, calm);
      MakeRoomOrder(EvictOne(recs, tag, group).value, hist, tag, group, need, cap, calm);
    }
  }

  // ---- Steps ----

  /** What arrives comes after everything of its track, with an ID in range. */
  ghost predicate ArrivesNext(hist: seq<Rec>, r: Rec) {
    && r.h.obj <= OBJ_ID_MAX && r.h.group < U64_MAX
    && forall i :: 0 <= i < |hist| && hist[i].h.tag == r.h.tag ==> Less(At(hist[i]), At(r))
  }

  /** Order of the arena in a state; while calm, tombstones too, and no hole. */
  ghost predicate InOrder(s: State, calm: bool) {
    && Ascending(s.hist, true) && IdsInRange(s.hist)
    && Ascending(s.recs, !calm) && (calm ==> NoHoles(s.recs, s.hist))
  }

  /** A held record is a tombstone of an appended group, or was appended. */
  lemma HeldWas(recs: seq<Rec>, hist: seq<Rec>, i: nat)
    requires GroupsWhole(recs, hist) && i < |recs|
    ensures recs[i] == Tombstone(recs[i].h.tag, recs[i].h.group) || recs[i] in hist
    ensures exists k :: 0 <= k < |hist| && hist[k].h.tag == recs[i].h.tag && hist[k].h.group == recs[i].h.group
  {
    var h := recs[i].h;
    Held(recs, i);
    assert WholeOrNot(recs, hist, h.tag, h.group);
    KeepMembers(hist, h.tag, h.group);
    assert recs[i] in Keep(recs, h.tag, h.group);
    var k := HeldBy(hist, h.tag, h.group);
  }

  /** All of r's track that is held ends before r, but for r's own tombstone. */
  lemma EndsBefore(recs: seq<Rec>, hist: seq<Rec>, r: Rec, x: Rec)
    requires GroupsWhole(recs, hist) && AllLive(hist) && ArrivesNext(hist, r)
    requires x in recs && x.h.tag == r.h.tag && !(Dead(x.h) && x.h.group == r.h.group)
    ensures x.h.group <= r.h.group && Less(Last(x.h), At(r))
  {
    var i :| 0 <= i < |recs| && recs[i] == x;
    HeldWas(recs, hist, i);
    var k :| 0 <= k < |hist| && hist[k].h.tag == x.h.tag && hist[k].h.group == x.h.group;
    assert Less(At(hist[k]), At(r));
    if x in hist {
      var m :| 0 <= m < |hist| && hist[m] == x;
      assert Less(At(hist[m]), At(r));
      assert !Dead(hist[m].h);
    }
  }

  lemma StoreOrder(room: seq<Rec>, hist: seq<Rec>, r: Rec, calm: bool)
    requires GroupsWhole(room, hist) && AllLive(hist) && ArrivesNext(hist, r) && !Dead(r.h)
    requires Keep(room, r.h.tag, r.h.group) == Keep(hist, r.h.tag, r.h.group)
    requires Ascending(room, !calm)
    ensures Ascending(room + [r], !calm)
  {
    var tag, g := r.h.tag, r.h.group;
    KeepMembers(room, tag, g);
    KeepMembers(hist, tag, g);
    forall x | x in room && x.h.tag == tag ensures Less(Last(x.h), First(r.h)) {
      assert x.h.group == g ==> x in hist;
      EndsBefore(room, hist, r, x);
    }
    AscendAppend(room, r, !calm);
  }

  lemma BuryOrder(room: seq<Rec>, hist: seq<Rec>, r: Rec, calm: bool)
    requires GroupsWhole(room, hist) && AllLive(hist) && ArrivesNext(hist, r)
    requires Keep(room, r.h.tag, r.h.group) == [] && Ascending(room, !calm)
    ensures Ascending(room + [Tombstone(r.h.tag, r.h.group)], !calm)
  {
    var tag, g := r.h.tag, r.h.group;
    KeepMembers(room, tag, g);
    forall x | x in room && x.h.tag == tag ensures Less(Last(x.h), Loc(g, 0)) {
      assert x !in Keep(room, tag, g);
      EndsBefore(room, hist, r, x);
    }
    AscendAppend(room, Tombstone(tag, g), !calm);
  }

  /** Once r's group is held again, nothing is exempt. */
  lemma FillsHole(room: seq<Rec>, hist: seq<Rec>, r: Rec, w: Rec)
    requires NoHolesBut(room, hist, r.h.tag, r.h.group) && ArrivesNext(hist, r)
    requires Hit(w.h, r.h.tag, r.h.group, false)
    ensures NoHoles(room + [w], hist + [r])
  {
    var a, b := room + [w], hist + [r];
    forall i, k | 0 <= i < |a| && 0 <= k < |b| && a[i].h.tag == b[k].h.tag && a[i].h.group <= b[k].h.group
      ensures Keep(a, b[k].h.tag, b[k].h.group) != []
    {
      KeepAppend(room, w, b[k].h.tag, b[k].h.group);
      if !Hit(b[k].h, r.h.tag, r.h.group, false) {
        assert k < |hist| && b[k] == hist[k];
        assert hist[k].h.tag == r.h.tag ==> Less(At(hist[k]), At(r));
        assert i < |room| && a[i] == room[i];
      }
    }
  }

  lemma KillOrder(recs: seq<Rec>, hist: seq<Rec>, r: Rec, cap: nat, calm: bool)
    requires Used(recs) <= cap && Evicting(recs, hist, r.h.tag) && !Dead(r.h) && ArrivesNext(hist, r)
    requires RoomForTombstones(hist, r.h.tag, cap)
    requires Ascending(recs, !calm) && (calm ==> NoHolesBut(recs, hist, r.h.tag, r.h.group))
    ensures var k := Kill(recs, r.h.tag, r.h.group, cap);
            Ascending(k, !calm) && (calm ==> NoHoles(k, hist + [r]))
  {
    var tag, g := r.h.tag, r.h.group;
    var d, t := Drop(recs, tag, g, false), Tombstone(tag, g);
    NewestNext(hist, r);
    DropEvicting(recs, hist, tag, g);
    DropAscends(recs, tag, g, false, !calm);
    if calm { DropNoHoles(recs, hist, tag, g, tag, g); }
    KillWrites(recs, hist, tag, g, cap);
    MakeRoomOrder(d, hist, tag, g, HDR, cap, calm);
    var room := MakeRoom(d, tag, g, HDR, cap);
    BuryOrder(room, hist, r, calm);
    if calm { FillsHole(room, hist, r, t); }
  }

  lemma NewestNext(hist: seq<Rec>, r: Rec)
    requires ArrivesNext(hist, r)
    ensures Newest(hist, r.h.tag, r.h.group)
  {
    forall i | 0 <= i < |hist| && hist[i].h.tag == r.h.tag ensures hist[i].h.group <= r.h.group {
      assert Less(At(hist[i]), At(r));
    }
  }

  lemma AppendOrder(s: State, r: Rec, cap: nat, calm: bool)
    requires Inv(s, cap) && InOrder(s, calm) && Arrives(s.hist, r, cap) && ArrivesNext(s.hist, r)
    ensures InOrder(State(Append(s.recs, r, cap), s.hist + [r]), calm)
  {
    var tag, g := r.h.tag, r.h.group;
    var own := Keep(s.recs, tag, g);
    HistoryOrder(s.hist, r);
    if HasDead(own) {
      if calm { DeadNoHoles(s, r); }
    } else {
      OwnIsWhole(s.recs, s.hist, tag, g);
      MakeRoomKeeps(s.recs, s.hist, tag, g, Size(r.h), cap);
      MakeRoomOrder(s.recs, s.hist, tag, g, Size(r.h), cap, calm);
      var room := MakeRoom(s.recs, tag, g, Size(r.h), cap);
      StoreCases(s.recs, r, Used(own), cap);
      var st := Store(s.recs, r, Used(own), cap);
      if st.stored {
        StoreOrder(room, s.hist, r, calm);
        if calm { FillsHole(room, s.hist, r, r); }
      } else {
        KillOrder(st.recs, s.hist, r, cap, calm);
      }
    }
  }

  lemma HistoryOrder(hist: seq<Rec>, r: Rec)
    requires Ascending(hist, true) && IdsInRange(hist) && AllLive(hist) && ArrivesNext(hist, r) && !Dead(r.h)
    ensures Ascending(hist + [r], true) && IdsInRange(hist + [r])
  {
    forall x | x in hist && x.h.tag == r.h.tag ensures Less(Last(x.h), First(r.h)) {
      var i :| 0 <= i < |hist| && hist[i] == x;
      assert Less(At(hist[i]), At(r));
    }
    AscendAppend(hist, r, true);
  }

  lemma DeadNoHoles(s: State, r: Rec)
    requires NoHoles(s.recs, s.hist) && HasDead(Keep(s.recs, r.h.tag, r.h.group))
    ensures NoHoles(s.recs, s.hist + [r])
  {
    var b := s.hist + [r];
    forall i, k | 0 <= i < |s.recs| && 0 <= k < |b| && s.recs[i].h.tag == b[k].h.tag
                  && s.recs[i].h.group <= b[k].h.group
      ensures Keep(s.recs, b[k].h.tag, b[k].h.group) != []
    {
      assert k < |s.hist| ==> b[k] == s.hist[k];
    }
  }

  lemma {:induction false} ExpireOrder(recs: seq<Rec>, now: u64)
    requires Ascending(recs, true)
    ensures Ascending(Expire(recs, now), true)
    decreases Weight(recs)
  {
    var i := FirstExpired(recs, now, 0);
    if i < |recs| {
      EntombLowers(recs, i);
      EntombAscends(recs, recs[i].h.tag, recs[i].h.group, true);
      ExpireOrder(Entomb(recs, recs[i].h.tag, recs[i].h.group), now);
    }
  }

  lemma ReleaseOrder(s: State, tag: u64, calm: bool)
    requires InOrder(s, calm)
    ensures InOrder(State(Release(s.recs, tag), Release(s.hist, tag)), calm)
  {
    var recs, hist := Release(s.recs, tag), Release(s.hist, tag);
    DropAscends(s.recs, tag, 0, true, !calm);
    DropAscends(s.hist, tag, 0, true, true);
    DropMembers(s.recs, tag, 0, true);
    DropMembers(s.hist, tag, 0, true);
    forall k | 0 <= k < |hist| ensures hist[k].h.obj <= OBJ_ID_MAX && hist[k].h.group < U64_MAX {
      assert hist[k] in hist;
      var m :| 0 <= m < |s.hist| && s.hist[m] == hist[k];
    }
    if calm {
      forall i, k | 0 <= i < |recs| && 0 <= k < |hist| && recs[i].h.tag == hist[k].h.tag
                    && recs[i].h.group <= hist[k].h.group
        ensures Keep(recs, hist[k].h.tag, hist[k].h.group) != []
      {
        assert recs[i] in recs && hist[k] in hist;
        var j :| 0 <= j < |s.recs| && s.recs[j] == recs[i];
        var m :| 0 <= m < |s.hist| && s.hist[m] == hist[k];
        KeepDrop(s.recs, tag, 0, true, hist[k].h.tag, hist[k].h.group);
      }
    }
  }

  // ---- Runs ----

  /** Locations ascend per track; a calm run also never finds a record expired. */
  ghost predicate Ordered(s: State, ops: seq<Op>, cap: nat, calm: bool)
    decreases |ops|
  {
    ops == [] ||
    (&& (ops[0].Arrival? ==> Arrives(s.hist, ops[0].r, cap) && ArrivesNext(s.hist, ops[0].r))
     && (calm && ops[0].Lookup? ==> FirstExpired(s.recs, ops[0].now, 0) == |s.recs|)
     && Ordered(Step(s, ops[0], cap), ops[1..], cap, calm))
  }

  lemma {:induction false} RunOrder(s: State, ops: seq<Op>, cap: nat, calm: bool)
    requires Inv(s, cap) && InOrder(s, calm) && Ordered(s, ops, cap, calm)
    ensures Inv(Run(s, ops, cap), cap) && InOrder(Run(s, ops, cap), calm)
    decreases |ops|
  {
    if ops != [] {
      StepKeeps(s, ops[0], cap);
      match ops[0] {
        case Arrival(r) => AppendOrder(s, r, cap, calm);
        case Departure(tag) => ReleaseOrder(s, tag, calm);
        case Lookup(now) => if !calm { ExpireOrder(s.recs, now); }
      }
      RunOrder(Step(s, ops[0], cap), ops[1..], cap, calm);
    }
  }

  lemma InOrderReadable(s: State, cap: nat, calm: bool)
    requires Inv(s, cap) && InOrder(s, calm)
    ensures Readable(s)
  {
    forall i | 0 <= i < |s.recs| ensures s.recs[i].h.obj <= OBJ_ID_MAX && s.recs[i].h.group < U64_MAX {
      HeldWas(s.recs, s.hist, i);
      if s.recs[i] in s.hist {
        var k :| 0 <= k < |s.hist| && s.hist[k] == s.recs[i];
      }
    }
  }

  lemma CalmIsFaithful(s: State, cap: nat, tag: u64)
    requires Inv(s, cap) && InOrder(s, true)
    ensures Faithful(s, tag)
  {
    forall k | 0 <= k < |s.hist| && s.hist[k].h.tag == tag && Covered(s.recs, tag, At(s.hist[k]))
      ensures Findable(s.recs, tag, s.hist[k].h.group)
    {
      var g := s.hist[k].h.group;
      var i := HeldBy(s.recs, tag, g);
      var m := Scan(s.recs, 0, tag, Loc(g, 0));
      assert AtOrAfter(s.recs[i].h, tag, Loc(g, 0));
      if m < i {
        assert Less(Last(s.recs[m].h), First(s.recs[i].h));
      }
    }
  }

  /** After every run whose Locations ascend, expiry included: skips agree with
      the history exactly when each covered group is found by its start. */
  lemma EveryRunReads(ops: seq<Op>, cap: nat, tag: u64)
    requires Ordered(State([], []), ops, cap, false)
    ensures var s := Run(State([], []), ops, cap);
            Readable(s) && (SkipsOnlyAbsent(s, tag) <==> Faithful(s, tag))
  {
    RunOrder(State([], []), ops, cap, false);
    InOrderReadable(Run(State([], []), ops, cap), cap, false);
    SkipsOnlyAbsentIff(Run(State([], []), ops, cap), tag);
  }

  /** After every run, expiry included, each item of a FETCH over any range is a
      held Object, or a range the cache cannot speak for that holds none and is as
      wide as it can be. */
  lemma EveryRunTells(ops: seq<Op>, cap: nat, tag: u64, start: Loc, end: Loc)
    requires Ordered(State([], []), ops, cap, false) && !Less(end, start)
    ensures var s := Run(State([], []), ops, cap);
            Readable(s) && var w := Walk(s.recs, tag, start, end);
            forall m :: 0 <= m < |w| ==> Tells(s.recs, tag, w[m], end)
  {
    RunOrder(State([], []), ops, cap, false);
    InOrderReadable(Run(State([], []), ops, cap), cap, false);
    WalkTells(Run(State([], []), ops, cap).recs, tag, start, end);
  }

  /** After every run in which nothing expired, a FETCH over any range tells,
      of each Object appended there, its payload or that it is unknown, once,
      and passes over none. */
  lemma CalmRunAnswers(ops: seq<Op>, cap: nat, tag: u64, start: Loc, end: Loc, k: nat) returns (j: nat)
    requires Ordered(State([], []), ops, cap, true)
    requires var s := Run(State([], []), ops, cap);
             && k < |s.hist| && s.hist[k].h.tag == tag
             && !Less(end, start) && !Less(At(s.hist[k]), start) && Less(At(s.hist[k]), end)
    ensures var s := Run(State([], []), ops, cap);
            Readable(s) && var w := Walk(s.recs, tag, start, end);
            Answered(s, w, k, j) && forall m :: 0 <= m < |w| ==> Tells(s.recs, tag, w[m], end)
  {
    var s := Run(State([], []), ops, cap);
    RunOrder(State([], []), ops, cap, true);
    InOrderReadable(s, cap, true);
    CalmIsFaithful(s, cap, tag);
    j := WalkAnswers(s, tag, start, end, k);
    WalkTells(s.recs, tag, start, end);
  }
}
