/** A FETCH answered from the cache: the walk's items as a fetch stream. */
module FetchServe {
  import opened Bytes
  import opened Parsing
  import opened Locations
  import opened CacheRecord
  import CacheSpec
  import Lookup = CacheLookup
  import opened CacheWalk
  import opened CacheDescend
  import opened FetchSpec
  import opened FetchStream

  // ---- The walk's Locations ascend ----

  /** A cursor has a wire Object ID, or lies behind a cached Object of its group. */
  ghost predicate Reached(recs: seq<Rec>, tag: u64, cur: Loc) {
    cur.obj <= OBJ_ID_MAX ||
    exists i :: 0 <= i < |recs| && recs[i].h.tag == tag && !Dead(recs[i].h) && recs[i].h.group == cur.group
  }

  lemma SkipReaches(recs: seq<Rec>, tag: u64, cur: Loc, end: Loc)
    requires LiveAscend(recs) && IdsInRange(recs) && Reached(recs, tag, cur) && !Less(end, cur)
    requires Less(Lookup.Skip(recs, tag, cur, end), end)
    ensures Lookup.Skip(recs, tag, cur, end).obj <= OBJ_ID_MAX
  {
    if cur.obj > OBJ_ID_MAX {
      var i :| 0 <= i < |recs| && recs[i].h.tag == tag && !Dead(recs[i].h) && recs[i].h.group == cur.group;
      var f := CacheSpec.Scan(recs, 0, tag, Loc(0, 0));
      assert AtOrAfter(recs[i].h, tag, Loc(0, 0));
      assert f < i ==> Less(Last(recs[f].h), First(recs[i].h));
    }
  }

  lemma ItemReaches(recs: seq<Rec>, tag: u64, c: Loc, end: Loc)
    requires IdsInRange(recs) && c.obj <= OBJ_ID_MAX && Less(c, end)
    ensures var it := Lookup.ItemAt(recs, tag, c, end);
            && (it.next == end || Reached(recs, tag, it.next))
            && !Less(it.loc, c) && Less(it.loc, it.next)
  {
    hide CacheSpec.Scan;
    var i := CacheSpec.Scan(recs, 0, tag, c);
    if i < |recs| && Lookup.IsObj(recs[i].h, c) {
      assert recs[i].h.group == c.group;
    }
  }

  /** Each item's own Location lies in its stop. */
  lemma {:induction false} WalkLocates(recs: seq<Rec>, tag: u64, cur: Loc, end: Loc)
    requires LiveAscend(recs) && IdsInRange(recs) && !Less(end, cur) && (cur == end || Reached(recs, tag, cur))
    ensures Located(Walk(recs, tag, cur, end))
    decreases Pos(end) - Pos(cur)
  {
    WalkStep(recs, tag, cur, end);
    var c := Lookup.Skip(recs, tag, cur, end);
    if Less(c, end) {
      SkipReaches(recs, tag, cur, end);
      ItemReaches(recs, tag, c, end);
      WalkLocates(recs, tag, Lookup.ItemAt(recs, tag, c, end).next, end);
    }
  }

  /** Location l comes after k in the stream's order. */
  predicate Next(descending: bool, k: Loc, l: Loc) {
    After(descending, k.group, k.obj, l.group, l.obj)
  }

  /** The items' Locations come in the stream's order. */
  ghost predicate LocsFollow(descending: bool, w: seq<Stop>) {
    forall j, k :: 0 <= j < k < |w| ==> Next(descending, w[j].item.loc, w[k].item.loc)
  }

  ghost predicate Located(w: seq<Stop>) {
    forall j :: 0 <= j < |w| ==> InStop(w[j], w[j].item.loc)
  }

  lemma WalkAscends(recs: seq<Rec>, tag: u64, start: Loc, end: Loc)
    requires LiveAscend(recs) && IdsInRange(recs) && !Less(end, start) && start.obj <= OBJ_ID_MAX
    ensures LocsFollow(false, Walk(recs, tag, start, end))
  {
    hide LiveAscend, IdsInRange, Walk;
    WalkLocates(recs, tag, start, end);
    WalkFollows(recs, tag, start, end);
    var w := Walk(recs, tag, start, end);
    forall j, k | 0 <= j < k < |w| ensures Next(false, w[j].item.loc, w[k].item.loc) {
      assert InStop(w[j], w[j].item.loc) && InStop(w[k], w[k].item.loc);
      assert !Less(w[k].from, w[j].item.next);
    }
  }

  lemma {:induction false} DownLocates(recs: seq<Rec>, tag: u64, lo: Loc, end: Loc)
    requires LiveAscend(recs) && IdsInRange(recs) && Less(lo, end) && lo.obj <= OBJ_ID_MAX
    ensures Located(WalkDown(recs, tag, lo, end))
    decreases Pos(end)
  {
    hide LiveAscend, IdsInRange, Walk, InStop;
    var from := WindowStart(lo, end);
    WindowFits(lo, end);
    PosOrders(from, end);
    WalkLocates(recs, tag, from, end);
    if EndGroup(end) != lo.group { DownLocates(recs, tag, lo, from); }
  }

  /** Items of a Descending FETCH: groups fall, Objects rise inside a group. */
  lemma WalkDescends(recs: seq<Rec>, tag: u64, lo: Loc, end: Loc)
    requires LiveAscend(recs) && IdsInRange(recs) && Less(lo, end) && lo.obj <= OBJ_ID_MAX
    ensures LocsFollow(true, WalkDown(recs, tag, lo, end))
  {
    hide LiveAscend, IdsInRange, WalkDown;
    DownLocates(recs, tag, lo, end);
    DownFollows(recs, tag, lo, end);
    var w := WalkDown(recs, tag, lo, end);
    forall j, k | 0 <= j < k < |w| ensures Next(true, w[j].item.loc, w[k].item.loc) {
      StopsDescend(w[j], w[k], lo, end);
    }
  }

  lemma StopsDescend(a: Stop, b: Stop, lo: Loc, end: Loc)
    requires OneGroup(a, lo, end) && OneGroup(b, lo, end) && InStop(a, a.item.loc) && InStop(b, b.item.loc)
    requires b.from.group < a.from.group || (b.from.group == a.from.group && !Less(b.from, a.item.next))
    ensures Next(true, a.item.loc, b.item.loc)
  {
  }

  // ---- The walk as a stream ----

  predicate NewGroup(s: Prior, group: u64) {
    !s.haveLoc || s.group != group
  }

  /** From draft-23 the next Object must leave the delta out. */
  function ObjectFlag(s: Prior, group: u64, obj: u64): u64 {
    if s.d23 && s.haveLoc && s.group == group && obj == Wrap(s.obj + 1) then 0 else 0x04
  }

  /** A cache item as a fetch item, an unknown range as the marker eor. */
  function ItemOf(it: Lookup.Item, s: Prior, eor: u64): Item {
    if it.unknown then Blank(eor).(group := it.loc.group, obj := it.loc.obj)
    else
      Item(ObjectFlag(s, it.loc.group, it.loc.obj) + 0x10 + (if NewGroup(s, it.loc.group) then 0x08 else 0),
           it.loc.group, it.loc.obj, true, 0, 128, false, [], it.payload)
  }

  function Serve(s: Prior, w: seq<Stop>, eor: u64): seq<Item>
    decreases |w|
  {
    if w == [] then []
    else
      var o := ItemOf(w[0].item, s, eor);
      [o] + Serve(Noted(s, o), w[1..], eor)
  }

  /** The marker is an End of Range the stream's draft has. */
  predicate IsRange(s: Prior, eor: u64) {
    KindOf(eor, s).RangeKind?
  }

  lemma ItemOfAgrees(it: Lookup.Item, s: Prior, eor: u64)
    requires IsRange(s, eor) && |it.payload| <= U64_MAX
    requires s.haveLoc ==> Next(s.descending, Loc(s.group, s.obj), it.loc)
    ensures Agrees(s, ItemOf(it, s, eor))
    ensures var n := Noted(s, ItemOf(it, s, eor));
            && n.descending == s.descending && IsRange(n, eor) && n.haveLoc && Loc(n.group, n.obj) == it.loc
  {
    var o := ItemOf(it, s, eor);
    if !it.unknown {
      forall i | 0 <= i < STEPS ensures FieldAgrees(i, s, o) {
      }
    }
  }

  ghost predicate PayloadsSized(w: seq<Stop>) {
    forall j :: 0 <= j < |w| ==> |w[j].item.payload| <= U64_MAX
  }

  lemma {:induction false} ServeAgrees(s: Prior, w: seq<Stop>, eor: u64)
    requires IsRange(s, eor) && LocsFollow(s.descending, w) && PayloadsSized(w)
    requires s.haveLoc && w != [] ==> Next(s.descending, Loc(s.group, s.obj), w[0].item.loc)
    ensures AgreesAll(s, Serve(s, w, eor)) && |Serve(s, w, eor)| == |w|
    decreases |w|
  {
    hide Agrees, Noted, ItemOf, IsRange;
    if w != [] {
      var o := ItemOf(w[0].item, s, eor);
      ItemOfAgrees(w[0].item, s, eor);
      assert forall j :: 0 <= j < |w[1..]| ==> w[1..][j] == w[j + 1];
      ServeAgrees(Noted(s, o), w[1..], eor);
      assert ([o] + Serve(Noted(s, o), w[1..], eor))[1..] == Serve(Noted(s, o), w[1..], eor);
    }
  }

  lemma {:induction false} WalkSized(recs: seq<Rec>, tag: u64, cur: Loc, end: Loc)
    requires IdsInRange(recs) && !Less(end, cur) && forall i :: 0 <= i < |recs| ==> Wf(recs[i])
    ensures PayloadsSized(Walk(recs, tag, cur, end))
    decreases Pos(end) - Pos(cur)
  {
    WalkStep(recs, tag, cur, end);
    var c := Lookup.Skip(recs, tag, cur, end);
    if Less(c, end) {
      WalkSized(recs, tag, Lookup.ItemAt(recs, tag, c, end).next, end);
    }
  }

  /** What a fetch item says, as a cache item: an unknown range up to its
      Location, or an Object with its payload, in Subgroup 0 at priority 128. */
  predicate SaysSame(o: Item, it: Lookup.Item, eor: u64) {
    && o.group == it.loc.group && o.obj == it.loc.obj
    && (if it.unknown then o.flags == eor else o.flags < 0x80)
    && (!it.unknown ==> o.payload == it.payload && o.hasSubgroup && o.subgroup == 0 && o.priority == 128 && !o.hasProps)
  }

  lemma {:induction false} ServeSaysSame(s: Prior, w: seq<Stop>, eor: u64)
    requires eor >= 0x80 && |Serve(s, w, eor)| == |w|
    ensures forall j :: 0 <= j < |w| ==> SaysSame(Serve(s, w, eor)[j], w[j].item, eor)
    decreases |w|
  {
    if w != [] {
      var o := ItemOf(w[0].item, s, eor);
      ServeSaysSame(Noted(s, o), w[1..], eor);
      assert forall j :: 1 <= j < |w| ==> w[j] == w[1..][j - 1];
    }
  }

  lemma {:induction false} DownSized(recs: seq<Rec>, tag: u64, lo: Loc, end: Loc)
    requires IdsInRange(recs) && Less(lo, end) && forall i :: 0 <= i < |recs| ==> Wf(recs[i])
    ensures PayloadsSized(WalkDown(recs, tag, lo, end))
    decreases Pos(end)
  {
    hide IdsInRange, Walk, Wf;
    var from := WindowStart(lo, end);
    WindowFits(lo, end);
    PosOrders(from, end);
    WalkSized(recs, tag, from, end);
    if EndGroup(end) != lo.group { DownSized(recs, tag, lo, from); }
  }

  /** The stream built from w decodes, item for item, to what w says. */
  ghost predicate Decodes(s: Prior, w: seq<Stop>, eor: u64) {
    var items := Serve(s, w, eor);
    && (forall i :: 0 <= i < |items| ==> Sized(items[i]))
    && EncodeAll(s, items).Some?
    && var (bytes, after) := EncodeAll(s, items).value;
       && DecodeAll(bytes, 0, s) == Decoded(items, |bytes|, after, Insufficient)
       && |items| == |w| && (forall j :: 0 <= j < |w| ==> SaysSame(items[j], w[j].item, eor))
  }

  lemma ServedDecodes(s: Prior, w: seq<Stop>, eor: u64)
    requires !s.haveLoc && IsRange(s, eor) && LocsFollow(s.descending, w) && PayloadsSized(w)
    ensures Decodes(s, w, eor)
  {
    hide Agrees, Noted, ItemOf, SaysSame, EncodeAll, DecodeAll, Sized, LocsFollow, PayloadsSized, Serve;
    ServeAgrees(s, w, eor);
    StreamRoundTrip(s, Serve(s, w, eor));
    ServeSaysSame(s, w, eor);
  }

  /** A FETCH served from the cache, in either group order: the stream built from
      the walk decodes, item for item, to what the walk found. */
  lemma ServedStreamDecodes(recs: seq<Rec>, tag: u64, start: Loc, end: Loc, s: Prior, eor: u64)
    requires LiveAscend(recs) && IdsInRange(recs) && start.obj <= OBJ_ID_MAX
    requires if s.descending then Less(start, end) else !Less(end, start)
    requires !s.haveLoc && IsRange(s, eor) && forall i :: 0 <= i < |recs| ==> Wf(recs[i])
    ensures Decodes(s, if s.descending then WalkDown(recs, tag, start, end) else Walk(recs, tag, start, end), eor)
  {
    hide LiveAscend, IdsInRange, Walk, WalkDown, Wf, LocsFollow, PayloadsSized, Decodes;
    if s.descending {
      WalkDescends(recs, tag, start, end);
      DownSized(recs, tag, start, end);
      ServedDecodes(s, WalkDown(recs, tag, start, end), eor);
    } else {
      WalkAscends(recs, tag, start, end);
      WalkSized(recs, tag, start, end);
      ServedDecodes(s, Walk(recs, tag, start, end), eor);
    }
  }
}
