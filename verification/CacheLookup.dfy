/** What a FETCH cursor reads from the records the arena holds. */
module CacheLookup {
  import opened Bytes
  import opened Locations
  import opened CacheRecord
  import opened CacheSpec

  /** One response item: an Object, or an unknown range that loc ends. */
  datatype Item = Item(unknown: bool, loc: Loc, payload: seq<u8>, next: Loc)

  /** cur's group is not older than the group of tag's first record. */
  predicate Covered(recs: seq<Rec>, tag: u64, cur: Loc) {
    var i := Scan(recs, 0, tag, Loc(0, 0));
    i < |recs| && recs[i].h.group <= cur.group
  }

  predicate Holds(recs: seq<Rec>, i: nat, cur: Loc) {
    i < |recs| && !Less(cur, First(recs[i].h))
  }

  /** Where a skipped stretch ends. */
  function GapEnd(recs: seq<Rec>, i: nat, end: Loc): Loc {
    if i >= |recs| then end else MinLoc(First(recs[i].h), end)
  }

  function Skip(recs: seq<Rec>, tag: u64, cur: Loc, end: Loc): Loc {
    var i := Scan(recs, 0, tag, cur);
    if Holds(recs, i, cur) || !Covered(recs, tag, cur) then cur else GapEnd(recs, i, end)
  }

  predicate IsObj(h: Header, cur: Loc) {
    !Dead(h) && h.group == cur.group && h.obj == cur.obj
  }

  /** End of the unknown range at cur. */
  function UnknownStop(recs: seq<Rec>, i: nat, cur: Loc, end: Loc): Loc {
    var stop := if i < |recs| then Loc(Wrap(recs[i].h.group + if Dead(recs[i].h) then 1 else 0), 0) else end;
    MinLoc(if Less(cur, stop) then stop else NextObject(cur), end)
  }

  function ItemAt(recs: seq<Rec>, tag: u64, cur: Loc, end: Loc): Item {
    var i := Scan(recs, 0, tag, cur);
    if i < |recs| && IsObj(recs[i].h, cur) then
      Item(false, cur, recs[i].payload, NextObject(cur))
    else
      var next := UnknownStop(recs, i, cur, end);
      Item(true, Prev(next), [], next)
  }
}
