/** What a FETCH is told, against the history of what was appended. */
module CacheWalk {
  import opened Bytes
  import opened Locations
  import opened CacheRecord
  import opened CacheSpec
  import opened CacheLookup
  import opened CacheRuns

  function At(r: Rec): Loc {
    Loc(r.h.group, r.h.obj)
  }

  /** Every record of a tag ends before each later one of that tag begins; or
      each later live one, when liveOnly. */
  ghost predicate Ascending(recs: seq<Rec>, liveOnly: bool) {
    forall i, j :: 0 <= i < j < |recs| && recs[i].h.tag == recs[j].h.tag && !(liveOnly && Dead(recs[j].h)) ==>
                     Less(Last(recs[i].h), First(recs[j].h))
  }

  /** Only tombstones are ever out of order: true of every arena, expiry or not. */
  ghost predicate LiveAscend(recs: seq<Rec>) {
    Ascending(recs, true)
  }

  /** Object IDs a Location can carry, Group IDs below the last. */
  ghost predicate IdsInRange(recs: seq<Rec>) {
    forall i :: 0 <= i < |recs| ==> recs[i].h.obj <= OBJ_ID_MAX && recs[i].h.group < U64_MAX
  }

  ghost predicate Readable(s: State) {
    && AllLive(s.hist) && GroupsWhole(s.recs, s.hist)
    && LiveAscend(s.hist) && LiveAscend(s.recs) && IdsInRange(s.recs) && IdsInRange(s.hist)
  }

  // ---- When skipping is sound ----

  /** No appended Location of tag lies in a stretch a skip passes over. */
  ghost predicate SkipsOnlyAbsent(s: State, tag: u64) {
    forall cur, end, k :: 0 <= k < |s.hist| && s.hist[k].h.tag == tag && !Less(At(s.hist[k]), cur) ==>
                            !Less(At(s.hist[k]), Skip(s.recs, tag, cur, end))
  }

  /** A record of the group is held, and every record of the tag before it is of
      an older group. */
  predicate Findable(recs: seq<Rec>, tag: u64, g: u64) {
    exists i :: 0 <= i < |recs| && recs[i].h.tag == tag && recs[i].h.group == g && OlderBefore(recs, i, tag, g)
  }

  predicate OlderBefore(recs: seq<Rec>, i: nat, tag: u64, g: u64) {
    i <= |recs| && forall j :: 0 <= j < i && recs[j].h.tag == tag ==> recs[j].h.group < g
  }

  /** A lookup of a group's start stops at the first record that is not of an
      older group: it finds the group exactly where that order lets it. */
  lemma FindableIff(recs: seq<Rec>, tag: u64, g: u64)
    ensures var i := Scan(recs, 0, tag, Loc(g, 0));
            && (Findable(recs, tag, g) <==> i < |recs| && recs[i].h.group == g)
            && (i < |recs| ==> recs[i].h.group >= g)
  {
    var i := Scan(recs, 0, tag, Loc(g, 0));
    assert forall j :: 0 <= j < |recs| && recs[j].h.tag == tag ==>
                         (AtOrAfter(recs[j].h, tag, Loc(g, 0)) <==> recs[j].h.group >= g);
    assert OlderBefore(recs, i, tag, g);
  }

  /** Every appended group from the tag's first record's group on is findable. */
  ghost predicate Faithful(s: State, tag: u64) {
    forall k :: 0 <= k < |s.hist| && s.hist[k].h.tag == tag && Covered(s.recs, tag, At(s.hist[k])) ==>
                  Findable(s.recs, tag, s.hist[k].h.group)
  }

  /** A record found by its group's start covers or precedes any appended
      Location of the group. */
  lemma FoundNoLater(s: State, tag: u64, k: nat, cur: Loc)
    requires Readable(s) && k < |s.hist| && s.hist[k].h.tag == tag && !Less(At(s.hist[k]), cur)
    requires Findable(s.recs, tag, s.hist[k].h.group)
    ensures var i := Scan(s.recs, 0, tag, cur);
            i < |s.recs| && !Less(At(s.hist[k]), First(s.recs[i].h))
  {
    hide Findable;
    var r := s.hist[k];
    var g := r.h.group;
    FindableIff(s.recs, tag, g);
    var f, i := Scan(s.recs, 0, tag, Loc(g, 0)), Scan(s.recs, 0, tag, cur);
    Held(s.recs, f);
    Held(s.hist, k);
    assert WholeOrNot(s.recs, s.hist, tag, g);
    if Dead(s.recs[f].h) {
      assert AtOrAfter(s.recs[f].h, tag, cur);
    } else {
      var own := Keep(s.recs, tag, g);
      KeepMembers(s.recs, tag, g);
      assert own == Keep(s.hist, tag, g) by {
        assert s.recs[f] in own;
        assert own != [Tombstone(tag, g)];
      }
      assert r in own;
      var j :| 0 <= j < |s.recs| && s.recs[j] == r;
      assert AtOrAfter(s.recs[j].h, tag, cur);
      if i < j {
        assert Less(Last(s.recs[i].h), First(s.recs[j].h));
      }
    }
  }

  lemma FaithfulSkip(s: State, tag: u64, cur: Loc, end: Loc, k: nat)
    requires Readable(s) && Faithful(s, tag)
    requires k < |s.hist| && s.hist[k].h.tag == tag && !Less(At(s.hist[k]), cur)
    ensures !Less(At(s.hist[k]), Skip(s.recs, tag, cur, end))
  {
    if Covered(s.recs, tag, cur) {
      assert Covered(s.recs, tag, At(s.hist[k]));
      FoundNoLater(s, tag, k, cur);
    }
  }

  /** Where an appended, covered group is not found, a skip from one of its
      own Locations passes it. */
  lemma UnfoundIsSkipped(s: State, tag: u64, k: nat)
    requires Readable(s) && k < |s.hist| && s.hist[k].h.tag == tag
    requires Covered(s.recs, tag, At(s.hist[k])) && !Findable(s.recs, tag, s.hist[k].h.group)
    ensures var l := At(s.hist[k]); Skip(s.recs, tag, l, NextObject(l)) == NextObject(l) && Less(l, NextObject(l))
  {
    hide Findable;
    var l := At(s.hist[k]);
    FindableIff(s.recs, tag, l.group);
    var f, i := Scan(s.recs, 0, tag, Loc(l.group, 0)), Scan(s.recs, 0, tag, l);
    assert f <= i;
    // A record of a later group, found first, also reaches l.
    assert f < |s.recs| ==> s.recs[f].h.group > l.group && AtOrAfter(s.recs[f].h, tag, l);
  }

  /** Skips pass only Locations that were never appended exactly where every
      appended group that is not older than the tag's first record still has a
      record, with only older groups of the tag before it. */
  lemma SkipsOnlyAbsentIff(s: State, tag: u64)
    requires Readable(s)
    ensures SkipsOnlyAbsent(s, tag) <==> Faithful(s, tag)
  {
    hide Findable, Readable;
    if Faithful(s, tag) {
      forall cur, end, k | 0 <= k < |s.hist| && s.hist[k].h.tag == tag && !Less(At(s.hist[k]), cur)
        ensures !Less(At(s.hist[k]), Skip(s.recs, tag, cur, end))
      {
        FaithfulSkip(s, tag, cur, end, k);
      }
    } else {
      var k :| 0 <= k < |s.hist| && s.hist[k].h.tag == tag && Covered(s.recs, tag, At(s.hist[k]))
               && !Findable(s.recs, tag, s.hist[k].h.group);
      UnfoundIsSkipped(s, tag, k);
      var l := At(s.hist[k]);
      assert !Less(At(s.hist[k]), l) && Less(At(s.hist[k]), Skip(s.recs, tag, l, NextObject(l)));
    }
  }

  // ---- The walk ----

  /** A Location as one number: group, then Object. */
  function Pos(l: Loc): nat {
    l.group * 0x1_0000_0000_0000_0000 + l.obj
  }

  lemma PosOrders(a: Loc, b: Loc)
    ensures Less(a, b) <==> Pos(a) < Pos(b)
  {
  }

  /** A lookup moves the cursor forward, except from the last Object ID: when
      that Object is held, or the record found is the tombstone of the last Group
      ID, the Location after it wraps around. */
  lemma ItemAdvancesIff(recs: seq<Rec>, tag: u64, cur: Loc, end: Loc)
    requires Less(cur, end)
    ensures var i := Scan(recs, 0, tag, cur);
            Less(cur, ItemAt(recs, tag, cur, end).next) <==>
            !(cur.obj == U64_MAX && i < |recs| &&
              (IsObj(recs[i].h, cur) || (Dead(recs[i].h) && recs[i].h.group == U64_MAX)))
    ensures !Less(end, ItemAt(recs, tag, cur, end).next)
  {
  }

  lemma SkipAdvances(recs: seq<Rec>, tag: u64, cur: Loc, end: Loc)
    requires !Less(end, cur)
    ensures var c := Skip(recs, tag, cur, end); !Less(c, cur) && !Less(end, c)
  {
  }

  /** One response item and the Location it starts at. */
  datatype Stop = Stop(from: Loc, item: Item)

  /** The walk a FETCH makes: skip what does not exist, serve the item there,
      go on after it. */
  ghost function Walk(recs: seq<Rec>, tag: u64, cur: Loc, end: Loc): seq<Stop>
    requires IdsInRange(recs) && !Less(end, cur)
    decreases Pos(end) - Pos(cur)
  {
    SkipAdvances(recs, tag, cur, end);
    var c := Skip(recs, tag, cur, end);
    if !Less(c, end) then []
    else
      ItemAdvancesIff(recs, tag, c, end);
      PosOrders(cur, c);
      PosOrders(c, ItemAt(recs, tag, c, end).next);
      var it := ItemAt(recs, tag, c, end);
      [Stop(c, it)] + Walk(recs, tag, it.next, end)
  }

  /** One step of the walk. */
  lemma WalkStep(recs: seq<Rec>, tag: u64, cur: Loc, end: Loc)
    requires IdsInRange(recs) && !Less(end, cur)
    ensures var c := Skip(recs, tag, cur, end);
            if Less(c, end) then
              var it := ItemAt(recs, tag, c, end);
              && !Less(c, cur) && Less(c, it.next) && !Less(end, it.next) && Pos(cur) < Pos(it.next) <= Pos(end)
              && Walk(recs, tag, cur, end) == [Stop(c, it)] + Walk(recs, tag, it.next, end)
            else Walk(recs, tag, cur, end) == []
  {
    SkipAdvances(recs, tag, cur, end);
    var c := Skip(recs, tag, cur, end);
    if Less(c, end) {
      ItemAdvancesIff(recs, tag, c, end);
      PosOrders(cur, c);
      PosOrders(c, ItemAt(recs, tag, c, end).next);
      PosOrders(end, ItemAt(recs, tag, c, end).next);
    }
  }

  predicate InStop(st: Stop, l: Loc) {
    !Less(l, st.from) && Less(l, st.item.next)
  }

  /** The stops follow one another, each moving forward, between cur and end. */
  ghost predicate Follow(w: seq<Stop>, cur: Loc, end: Loc) {
    && (forall j :: 0 <= j < |w| ==>
                      !Less(w[j].from, cur) && Less(w[j].from, w[j].item.next) && !Less(end, w[j].item.next))
    && (forall j, k :: 0 <= j < k < |w| ==> !Less(w[k].from, w[j].item.next))
  }

  lemma {:induction false} WalkFollows(recs: seq<Rec>, tag: u64, cur: Loc, end: Loc)
    requires IdsInRange(recs) && !Less(end, cur)
    ensures Follow(Walk(recs, tag, cur, end), cur, end)
    decreases Pos(end) - Pos(cur)
  {
    hide Walk, ItemAt, Skip, Pos, IdsInRange;
    WalkStep(recs, tag, cur, end);
    var c := Skip(recs, tag, cur, end);
    if Less(c, end) {
      var it := ItemAt(recs, tag, c, end);
      WalkFollows(recs, tag, it.next, end);
    }
  }

  /** Record i is the tag's first, in arena order, that does not end before l. */
  ghost predicate FirstFrom(recs: seq<Rec>, tag: u64, l: Loc, i: nat) {
    && i < |recs| && recs[i].h.tag == tag && !Less(Last(recs[i].h), l)
    && forall j :: 0 <= j < i && recs[j].h.tag == tag ==> Less(Last(recs[j].h), l)
  }

  /** A range from l that goes as far as it can: to the end, or to the group of the
      first record there, or past that group where all that is left of it is a
      tombstone. */
  ghost predicate AsWide(recs: seq<Rec>, tag: u64, l: Loc, next: Loc, end: Loc) {
    && ((forall j :: 0 <= j < |recs| && recs[j].h.tag == tag ==> Less(Last(recs[j].h), l)) ==> next == end)
    && forall i: nat :: FirstFrom(recs, tag, l, i) ==>
         var edge := Loc(Wrap(recs[i].h.group + if Dead(recs[i].h) then 1 else 0), 0);
         next == if Less(edge, end) then edge else end
  }

  /** l is the last Location before next, Object IDs going up to 2^62 - 1. */
  ghost predicate JustBefore(l: Loc, next: Loc) {
    if next.obj > 0 then l == Loc(next.group, next.obj - 1)
    else next.group > 0 && l == Loc(next.group - 1, 0x3FFF_FFFF_FFFF_FFFF)
  }

  /** The cache cannot say what there is at l: its group is a tombstone, or older
      than the tag's first record. */
  ghost predicate Unvouched(recs: seq<Rec>, tag: u64, l: Loc) {
    || (exists i :: 0 <= i < |recs| && recs[i].h.tag == tag && Dead(recs[i].h) && recs[i].h.group == l.group)
    || (forall i: nat :: FirstFrom(recs, tag, Loc(0, 0), i) ==> recs[i].h.group > l.group)
  }

  /** What a stop says of the records on a walk to end: a cached Object, or a range
      that starts where the cache cannot say, holds no cached Object and is as wide
      as the records allow. */
  ghost predicate Tells(recs: seq<Rec>, tag: u64, st: Stop, end: Loc) {
    if st.item.unknown then
      && (forall i :: 0 <= i < |recs| && recs[i].h.tag == tag && !Dead(recs[i].h) ==> !InStop(st, At(recs[i])))
      && Unvouched(recs, tag, st.from)
      && AsWide(recs, tag, st.from, st.item.next, end) && JustBefore(st.item.loc, st.item.next)
    else
      && st.item.loc == st.from && st.item.next == NextObject(st.from)
      && exists i :: 0 <= i < |recs| && recs[i].h.tag == tag && !Dead(recs[i].h)
                     && At(recs[i]) == st.from && recs[i].payload == st.item.payload
  }

  /** Where a skip stops short of end, the record found there holds the
      cursor, or nothing of the tag is cached at or before its group. */
  lemma SkipStops(recs: seq<Rec>, tag: u64, cur: Loc, end: Loc)
    requires !Less(end, cur)
    ensures var c := Skip(recs, tag, cur, end);
            Less(c, end) ==> Holds(recs, Scan(recs, 0, tag, c), c) || !Covered(recs, tag, c)
  {
    var c := Skip(recs, tag, cur, end);
    var i := Scan(recs, 0, tag, cur);
    if Less(c, end) && !Holds(recs, i, cur) && Covered(recs, tag, cur) {
      assert i < |recs| && c == First(recs[i].h);
      assert Scan(recs, 0, tag, c) == i by {
        assert AtOrAfter(recs[i].h, tag, c);
        var j := Scan(recs, 0, tag, c);
        assert j < i ==> AtOrAfter(recs[j].h, tag, cur);
      }
    }
  }

  /** The group of an uncovered cursor's found record is a later one. */
  lemma UncoveredFound(recs: seq<Rec>, tag: u64, c: Loc)
    requires !Covered(recs, tag, c)
    ensures var i := Scan(recs, 0, tag, c);
            i < |recs| ==> recs[i].h.group > c.group
  {
    var f, i := Scan(recs, 0, tag, Loc(0, 0)), Scan(recs, 0, tag, c);
    assert f < |recs| ==> AtOrAfter(recs[f].h, tag, c);
    assert i < |recs| ==> AtOrAfter(recs[i].h, tag, Loc(0, 0));
  }

  /** An unknown range ends no later than the record found, or the group it
      stands for. */
  lemma UnknownEnds(recs: seq<Rec>, tag: u64, c: Loc, end: Loc)
    requires IdsInRange(recs) && ItemAt(recs, tag, c, end).unknown
    requires Holds(recs, Scan(recs, 0, tag, c), c) || !Covered(recs, tag, c)
    ensures var i, next := Scan(recs, 0, tag, c), ItemAt(recs, tag, c, end).next;
            i < |recs| ==>
              && (Dead(recs[i].h) ==> !Less(Loc(recs[i].h.group + 1, 0), next))
              && (!Dead(recs[i].h) ==> !Less(At(recs[i]), next))
  {
    hide Covered, UnknownStop, Prev, Holds, IsObj, IdsInRange;
    var i := Scan(recs, 0, tag, c);
    if i < |recs| {
      LiveHeldIsObj(recs, i, tag, c);
      if !Holds(recs, i, c) { UncoveredFound(recs, tag, c); }
      assert recs[i].h.group < U64_MAX by { IdAt(recs, i); }
      StopNoLater(recs, i, tag, c, end);
    }
  }

  /** An unknown range goes as far as it can, and its Location ends it. */
  lemma UnknownIsWide(recs: seq<Rec>, tag: u64, c: Loc, end: Loc)
    requires IdsInRange(recs) && Less(c, end) && ItemAt(recs, tag, c, end).unknown
    requires Holds(recs, Scan(recs, 0, tag, c), c) || !Covered(recs, tag, c)
    ensures var it := ItemAt(recs, tag, c, end);
            AsWide(recs, tag, c, it.next, end) && JustBefore(it.loc, it.next)
  {
    hide Covered, Holds, IdsInRange, FirstFrom, UnknownStop, AsWide, Prev, JustBefore;
    var i := Scan(recs, 0, tag, c);
    FirstIsScan(recs, tag, c);
    if i < |recs| {
      LiveHeldIsObj(recs, i, tag, c);
      if !Holds(recs, i, c) { UncoveredFound(recs, tag, c); }
      IdAt(recs, i);
      StopIsEdge(recs, i, tag, c, end);
      WideToEdge(recs, tag, c, UnknownStop(recs, i, c, end), end, i);
    } else {
      StopIsEnd(recs, c, end);
      WideToEnd(recs, tag, c, end);
    }
    PrevIsJustBefore(c, UnknownStop(recs, i, c, end));
  }

  lemma UnknownStarts(recs: seq<Rec>, tag: u64, c: Loc, end: Loc)
    requires ItemAt(recs, tag, c, end).unknown
    requires Holds(recs, Scan(recs, 0, tag, c), c) || !Covered(recs, tag, c)
    ensures Unvouched(recs, tag, c)
  {
    var i := Scan(recs, 0, tag, c);
    FirstIsScan(recs, tag, Loc(0, 0));
    if Holds(recs, i, c) {
      LiveHeldIsObj(recs, i, tag, c);
      HeldDeadIsGroup(recs[i].h, tag, c);
    }
  }

  lemma HeldDeadIsGroup(h: Header, tag: u64, c: Loc)
    requires Dead(h) && AtOrAfter(h, tag, c) && !Less(c, First(h))
    ensures h.tag == tag && h.group == c.group
  {
  }

  /** The first record from l on is the one a scan stops at, and there is none
      where it goes through. */
  lemma FirstIsScan(recs: seq<Rec>, tag: u64, l: Loc)
    ensures var i := Scan(recs, 0, tag, l);
            && (i < |recs| ==> FirstFrom(recs, tag, l, i))
            && (i == |recs| ==> forall j :: 0 <= j < |recs| && recs[j].h.tag == tag ==> Less(Last(recs[j].h), l))
            && forall k: nat :: FirstFrom(recs, tag, l, k) ==> k == i
  {
    var i := Scan(recs, 0, tag, l);
    hide Scan;
    assert forall j :: 0 <= j < i ==> !AtOrAfter(recs[j].h, tag, l);
  }

  lemma IdAt(recs: seq<Rec>, i: nat)
    requires IdsInRange(recs) && i < |recs|
    ensures recs[i].h.obj <= OBJ_ID_MAX && recs[i].h.group < U64_MAX
  {
  }

  lemma LiveHeldIsObj(recs: seq<Rec>, i: nat, tag: u64, c: Loc)
    requires i < |recs| && AtOrAfter(recs[i].h, tag, c)
    ensures !Dead(recs[i].h) && Holds(recs, i, c) ==> IsObj(recs[i].h, c)
  {
  }

  lemma WideToEdge(recs: seq<Rec>, tag: u64, l: Loc, next: Loc, end: Loc, i: nat)
    requires FirstFrom(recs, tag, l, i) && recs[i].h.group < U64_MAX
    requires forall k: nat :: FirstFrom(recs, tag, l, k) ==> k == i
    requires var edge := Loc(recs[i].h.group + if Dead(recs[i].h) then 1 else 0, 0);
             next == if Less(edge, end) then edge else end
    ensures AsWide(recs, tag, l, next, end)
  {
  }

  lemma WideToEnd(recs: seq<Rec>, tag: u64, l: Loc, end: Loc)
    requires forall j :: 0 <= j < |recs| && recs[j].h.tag == tag ==> Less(Last(recs[j].h), l)
    ensures AsWide(recs, tag, l, end, end)
  {
  }

  lemma StopIsEnd(recs: seq<Rec>, c: Loc, end: Loc)
    requires Less(c, end)
    ensures UnknownStop(recs, |recs|, c, end) == end
  {
  }

  lemma PrevIsJustBefore(c: Loc, next: Loc)
    requires Less(c, next)
    ensures JustBefore(Prev(next), next)
  {
  }

  lemma StopIsEdge(recs: seq<Rec>, i: nat, tag: u64, c: Loc, end: Loc)
    requires i < |recs| && AtOrAfter(recs[i].h, tag, c) && recs[i].h.group < U64_MAX
    requires !Dead(recs[i].h) ==> recs[i].h.group > c.group
    ensures var edge := Loc(recs[i].h.group + if Dead(recs[i].h) then 1 else 0, 0);
            Less(c, edge) && UnknownStop(recs, i, c, end) == if Less(edge, end) then edge else end
  {
  }

  lemma StopNoLater(recs: seq<Rec>, i: nat, tag: u64, c: Loc, end: Loc)
    requires i < |recs| && AtOrAfter(recs[i].h, tag, c) && recs[i].h.group < U64_MAX
    requires !Dead(recs[i].h) ==> recs[i].h.group > c.group
    ensures Dead(recs[i].h) ==> !Less(Loc(recs[i].h.group + 1, 0), UnknownStop(recs, i, c, end))
    ensures !Dead(recs[i].h) ==> !Less(At(recs[i]), UnknownStop(recs, i, c, end))
  {
  }

  /** No live record of the tag lies in the unknown range at an uncovered or held
      cursor. */
  lemma UnknownIsEmpty(recs: seq<Rec>, tag: u64, c: Loc, end: Loc, j: nat)
    requires LiveAscend(recs) && j < |recs| && recs[j].h.tag == tag && !Dead(recs[j].h) && IdsInRange(recs)
    requires Holds(recs, Scan(recs, 0, tag, c), c) || !Covered(recs, tag, c)
    requires ItemAt(recs, tag, c, end).unknown
    ensures !InStop(Stop(c, ItemAt(recs, tag, c, end)), At(recs[j]))
  {
    UnknownEnds(recs, tag, c, end);
    hide Holds, Covered, ItemAt, LiveAscend;
    var i := Scan(recs, 0, tag, c);
    LiveAfter(recs, i, j, tag);
    assert j < i ==> !AtOrAfter(recs[j].h, tag, c);
  }

  lemma LiveAfter(recs: seq<Rec>, i: nat, j: nat, tag: u64)
    requires LiveAscend(recs) && j < |recs| && recs[j].h.tag == tag && !Dead(recs[j].h)
    ensures i < j && recs[i].h.tag == tag ==> Less(Last(recs[i].h), First(recs[j].h))
  {
  }

  lemma ItemTells(recs: seq<Rec>, tag: u64, c: Loc, end: Loc)
    requires LiveAscend(recs) && IdsInRange(recs) && Less(c, end)
    requires Holds(recs, Scan(recs, 0, tag, c), c) || !Covered(recs, tag, c)
    ensures Tells(recs, tag, Stop(c, ItemAt(recs, tag, c, end)), end)
  {
    hide LiveAscend, IdsInRange, Holds, Covered, UnknownStop, Prev;
    var i, it := Scan(recs, 0, tag, c), ItemAt(recs, tag, c, end);
    if it.unknown {
      hide ItemAt, InStop;
      forall j | 0 <= j < |recs| && recs[j].h.tag == tag && !Dead(recs[j].h)
        ensures !InStop(Stop(c, it), At(recs[j]))
      {
        UnknownIsEmpty(recs, tag, c, end, j);
      }
      UnknownIsWide(recs, tag, c, end);
      UnknownStarts(recs, tag, c, end);
    } else {
      assert At(recs[i]) == c;
    }
  }

  lemma {:induction false} WalkTells(recs: seq<Rec>, tag: u64, cur: Loc, end: Loc)
    requires LiveAscend(recs) && IdsInRange(recs) && !Less(end, cur)
    ensures forall j :: 0 <= j < |Walk(recs, tag, cur, end)| ==> Tells(recs, tag, Walk(recs, tag, cur, end)[j], end)
    decreases Pos(end) - Pos(cur)
  {
    WalkStep(recs, tag, cur, end);
    var c := Skip(recs, tag, cur, end);
    if Less(c, end) {
      var it := ItemAt(recs, tag, c, end);
      WalkTells(recs, tag, it.next, end);
      SkipStops(recs, tag, cur, end);
      ItemTells(recs, tag, c, end);
    }
  }

  /** Every appended Location in the range lies in a stop. */
  lemma {:induction false} WalkReaches(s: State, tag: u64, cur: Loc, end: Loc, k: nat) returns (j: nat)
    requires Readable(s) && Faithful(s, tag) && k < |s.hist| && s.hist[k].h.tag == tag
    requires !Less(end, cur) && !Less(At(s.hist[k]), cur) && Less(At(s.hist[k]), end)
    ensures j < |Walk(s.recs, tag, cur, end)| && InStop(Walk(s.recs, tag, cur, end)[j], At(s.hist[k]))
    decreases Pos(end) - Pos(cur)
  {
    hide Walk, ItemAt, Skip, Pos, Faithful, LiveAscend, IdsInRange, GroupsWhole, AllLive;
    WalkStep(s.recs, tag, cur, end);
    FaithfulSkip(s, tag, cur, end, k);
    var c := Skip(s.recs, tag, cur, end);
    var it := ItemAt(s.recs, tag, c, end);
    if Less(At(s.hist[k]), it.next) {
      j := 0;
    } else {
      var m := WalkReaches(s, tag, it.next, end, k);
      j := m + 1;
    }
  }

  /** Two records of one history at one Location are one record. */
  lemma SameLocation(s: State, i: nat, k: nat)
    requires Readable(s) && i < |s.recs| && k < |s.hist| && !Dead(s.recs[i].h)
    requires s.recs[i].h.tag == s.hist[k].h.tag && At(s.recs[i]) == At(s.hist[k])
    ensures s.recs[i] == s.hist[k]
  {
    var tag, g := s.recs[i].h.tag, s.recs[i].h.group;
    Held(s.recs, i);
    KeepMembers(s.hist, tag, g);
    assert WholeOrNot(s.recs, s.hist, tag, g);
    assert s.recs[i] in s.hist by {
      assert s.recs[i] in Keep(s.recs, tag, g);
      assert s.recs[i] != Tombstone(tag, g);
    }
    var m :| 0 <= m < |s.hist| && s.hist[m] == s.recs[i];
    OneAt(s.hist, m, k);
  }

  lemma OneAt(hist: seq<Rec>, m: nat, k: nat)
    requires LiveAscend(hist) && m < |hist| && k < |hist| && !Dead(hist[m].h) && !Dead(hist[k].h)
    requires hist[m].h.tag == hist[k].h.tag && At(hist[m]) == At(hist[k])
    ensures m == k
  {
    LiveAfter(hist, m, k, hist[k].h.tag);
    LiveAfter(hist, k, m, hist[k].h.tag);
  }

  /** The appended Object k falls in stop j and no other: it is served there,
      payload and all, when the cache still holds it, and lies in an unknown range
      when it does not. */
  ghost predicate Answered(s: State, w: seq<Stop>, k: nat, j: nat)
    requires k < |s.hist|
  {
    var r := s.hist[k];
    && j < |w| && InStop(w[j], At(r))
    && (forall m :: 0 <= m < |w| && InStop(w[m], At(r)) ==> m == j)
    && (r in s.recs ==> w[j].item == Item(false, At(r), r.payload, NextObject(At(r))))
    && (r !in s.recs ==> w[j].item.unknown)
  }

  /** Each appended Object in a range is answered by the walk over it. */
  lemma WalkAnswers(s: State, tag: u64, start: Loc, end: Loc, k: nat) returns (j: nat)
    requires Readable(s) && Faithful(s, tag) && k < |s.hist| && s.hist[k].h.tag == tag
    requires !Less(end, start) && !Less(At(s.hist[k]), start) && Less(At(s.hist[k]), end)
    ensures Answered(s, Walk(s.recs, tag, start, end), k, j)
  {
    var w, r := Walk(s.recs, tag, start, end), s.hist[k];
    j := WalkReaches(s, tag, start, end, k);
    WalkFollows(s.recs, tag, start, end);
    WalkTells(s.recs, tag, start, end);
    assert Tells(s.recs, tag, w[j], end);
    forall m | 0 <= m < |w| && InStop(w[m], At(r)) ensures m == j {
      assert m < j ==> !Less(w[j].from, w[m].item.next);
      assert j < m ==> !Less(w[m].from, w[j].item.next);
    }
    if r in s.recs {
      var i :| 0 <= i < |s.recs| && s.recs[i] == r;
      assert !w[j].item.unknown;
      ServedIs(s, tag, w[j], end, k);
    } else if !w[j].item.unknown {
      ServedIs(s, tag, w[j], end, k);
    }
  }

  lemma ServedIs(s: State, tag: u64, st: Stop, end: Loc, k: nat)
    requires Readable(s) && k < |s.hist| && s.hist[k].h.tag == tag
    requires !st.item.unknown && Tells(s.recs, tag, st, end) && InStop(st, At(s.hist[k]))
    ensures s.hist[k] in s.recs && st.from == At(s.hist[k]) && st.item.payload == s.hist[k].payload
  {
    var i :| 0 <= i < |s.recs| && s.recs[i].h.tag == tag && !Dead(s.recs[i].h)
             && At(s.recs[i]) == st.from && s.recs[i].payload == st.item.payload;
    assert st.from == At(s.hist[k]);
    SameLocation(s, i, k);
  }
}
