/** The cache over its byte arena: every operation works in place on the bytes
    and is proved to do to the records what CacheSpec and CacheLookup say. */
module CacheArena {
  import opened Bytes
  import opened ByteBuffer
  import opened Locations
  import opened Seqs
  import opened CacheRecord
  import opened CacheLayout
  import opened CacheSpec
  import opened CacheLookup

  lemma KeepBelow(before: seq<u8>, after: seq<u8>, recs: seq<Rec>, n: nat)
    requires Tiles(before, recs) && n == Used(recs)
    requires n <= |before| && n <= |after| && before[..n] == after[..n]
    ensures Tiles(after, recs)
  {
    forall j | 0 <= j < |recs| ensures RecIn(after, recs, j) {
      UsedNext(recs, j);
      assert RecIn(before, recs, j);
      var off := Used(recs[..j]);
      var end := off + Size(recs[j].h);
      SliceOfPrefix(before, n, off, end);
      SliceOfPrefix(after, n, off, end);
      KeepRec(before, after, recs, j, off, end);
    }
  }

  lemma KeepAbove(before: seq<u8>, after: seq<u8>, recs: seq<Rec>, i: nat, n: nat)
    requires i <= |recs| && n == Used(recs[..i]) && n <= |before| == |after|
    requires forall j :: i <= j < |recs| ==> RecIn(before, recs, j)
    requires before[n..] == after[n..]
    ensures forall j :: i <= j < |recs| ==> RecIn(after, recs, j)
  {
    forall j | i <= j < |recs| ensures RecIn(after, recs, j) {
      UsedMonotone(recs, i, j);
      assert RecIn(before, recs, j);
      var off := Used(recs[..j]);
      var end := off + Size(recs[j].h);
      SliceOfTail(before, n, off, end);
      SliceOfTail(after, n, off, end);
      KeepRec(before, after, recs, j, off, end);
    }
  }

  /** A header copied in, then its payload behind it, make a record. */
  lemma Written(before: seq<u8>, mid: seq<u8>, after: seq<u8>, at: nat, r: Rec)
    requires |before| == |mid| == |after| && at + Size(r.h) <= |after| && |r.payload| == Size(r.h) - HDR
    requires mid[..at] == before[..at] && HeaderIs(mid[at..at + HDR], r.h)
    requires after[..at + HDR] == mid[..at + HDR] && after[at + HDR..at + Size(r.h)] == r.payload
    ensures after[..at] == before[..at] && Parses(after[at..at + Size(r.h)], r)
  {
    CutSlice(after, at, at + Size(r.h), HDR);
    SliceOfPrefix(after, at + HDR, at, at + HDR);
    SliceOfPrefix(mid, at + HDR, at, at + HDR);
    assert after[..at] == after[..at + HDR][..at] == mid[..at + HDR][..at] == mid[..at];
  }

  /** A record written behind those held is one more of them. */
  lemma WrittenTiles(before: seq<u8>, mid: seq<u8>, after: seq<u8>, recs: seq<Rec>, r: Rec)
    requires Tiles(before, recs) && |before| == |mid| == |after|
    requires Used(recs) + Size(r.h) <= |after| && |r.payload| == Size(r.h) - HDR
    requires var at := Used(recs);
             && mid[..at] == before[..at] && HeaderIs(mid[at..at + HDR], r.h)
             && after[..at + HDR] == mid[..at + HDR] && after[at + HDR..at + Size(r.h)] == r.payload
    ensures Tiles(after, recs + [r]) && Used(recs + [r]) == Used(recs) + Size(r.h)
  {
    hide HeaderIs, Parses, Tiles, Used;
    Written(before, mid, after, Used(recs), r);
    KeepBelow(before, after, recs, Used(recs));
    TilesAppend(after, recs, r);
  }

  class Cache {
    const arena: array<u8>
    var used: nat
    var hintOff: nat
    var hintTag: u64
    var hintCur: Loc
    var now: u64
    var nextExp: u64
    ghost var recs: seq<Rec>
    /** The record the resume point stands at. */
    ghost var hintIdx: nat

    /** The used bytes are exactly the records. */
    ghost predicate Packs()
      reads this, arena
    {
      used == Used(recs) <= arena.Length && Tiles(arena[..], recs)
    }

    /** Every record of the hinted tag before the resume point ends before
        the hinted Location. */
    ghost predicate Resumable()
      reads this
    {
      && hintIdx <= |recs|
      && hintOff == Used(recs[..hintIdx])
      && forall i :: 0 <= i < hintIdx ==> !AtOrAfter(recs[i].h, hintTag, hintCur)
    }

    ghost predicate Valid()
      reads this, arena
    {
      Packs() && Resumable() && NoneBefore(recs, nextExp)
    }

    constructor (storage: array<u8>)
      ensures Valid() && arena == storage && recs == []
      ensures now == 0 && nextExp == NEVER
    {
      arena := storage;
      used := 0;
      hintOff := 0;
      hintTag := 0;
      hintCur := Loc(0, 0);
      now := 0;
      nextExp := NEVER;
      recs := [];
      hintIdx := 0;
    }

    /** The header of record i, at its offset. */
    method RecAt(off: nat, ghost i: nat) returns (h: Header)
      requires i < |recs| && RecIn(arena[..], recs, i) && off == Used(recs[..i])
      ensures h == recs[i].h
      ensures off + Size(h) == Used(recs[..i + 1]) <= Used(recs)
      ensures off + Size(h) <= arena.Length
    {
      UsedNext(recs, i);
      ReadRec(arena[..], off, recs[i]);
      HeaderRoundTrip(arena[off..off + HDR], recs[i].h);
      h := DecodeHeader(arena[off..off + HDR]);
    }

    /** Record i, the next to read, moved down to end the kept ones. */
    method Slide(w: nat, off: nat, sz: nat, ghost i: nat, ghost kept: seq<Rec>)
      requires i < |recs| && off == Used(recs[..i]) && w == Used(kept) <= off
      requires sz == Size(recs[i].h) && Tiles(arena[..], kept)
      requires forall j :: i <= j < |recs| ==> RecIn(arena[..], recs, j)
      modifies arena
      ensures Tiles(arena[..], kept + [recs[i]])
      ensures Used(kept + [recs[i]]) == w + sz
      ensures forall j :: i < j < |recs| ==> RecIn(arena[..], recs, j)
    {
      hide HeaderIs;
      assert RecIn(arena[..], recs, i);
      ghost var before := arena[..];
      MoveDown(arena, w, off, sz);
      ghost var after := arena[..];
      KeepBelow(before, after, kept, w);
      TilesAppend(after, kept, recs[i]);
      UsedNext(recs, i);
      KeepAbove(before, after, recs, i + 1, off + sz);
    }

    /** The arena while compacting: the kept records at the bottom, the ones
        from i on still in place. */
    ghost predicate Compacting(w: nat, off: nat, i: nat, kept: seq<Rec>)
      reads this, arena
    {
      && i <= |recs| && off == Used(recs[..i])
      && w == Used(kept) <= off <= used == Used(recs) <= arena.Length
      && Tiles(arena[..], kept)
      && forall j :: i <= j < |recs| ==> RecIn(arena[..], recs, j)
    }

    /** Keeps record i, or leaves it behind when it matches. */
    method Sift(w: nat, off: nat, tag: u64, group: u64, any: bool, ghost i: nat, ghost kept: seq<Rec>)
      returns (w': nat, off': nat, ghost kept': seq<Rec>)
      requires Compacting(w, off, i, kept) && i < |recs| && kept == Drop(recs[..i], tag, group, any)
      modifies arena
      ensures Compacting(w', off', i + 1, kept') && kept' == Drop(recs[..i + 1], tag, group, any)
    {
      hide HeaderIs;
      var h := RecAt(off, i);
      DropNext(recs, i, tag, group, any);
      w', kept', off' := w, kept, off + Size(h);
      if !Hit(h, tag, group, any) {
        Slide(w, off, Size(h), i, kept);
        kept' := kept + [recs[i]];
        w' := w + Size(h);
      }
    }

    /** Slides down the records that do not match. */
    method Compact(tag: u64, group: u64, any: bool) returns (w: nat, ghost kept: seq<Rec>)
      requires Packs()
      modifies arena
      ensures kept == Drop(recs, tag, group, any)
      ensures w == Used(kept) <= arena.Length && Tiles(arena[..], kept)
    {
      hide HeaderIs;
      w, kept := 0, [];
      var off: nat := 0;
      ghost var i: nat := 0;
      while off < used
        invariant Compacting(w, off, i, kept) && kept == Drop(recs[..i], tag, group, any)
        decreases |recs| - i
      {
        MoreLeft(recs, i);
        w, off, kept := Sift(w, off, tag, group, any, i, kept);
        i := i + 1;
      }
      MoreLeft(recs, i);
      assert recs[..i] == recs;
    }

    /** Removes the matching records. */
    method DropRecs(tag: u64, group: u64, any: bool)
      requires Packs()
      modifies this`used, this`hintOff, this`recs, this`hintIdx, arena
      ensures Packs() && Resumable()
      ensures recs == Drop(old(recs), tag, group, any)
      ensures old(NoneBefore(recs, nextExp)) ==> NoneBefore(recs, nextExp)
    {
      hide HeaderIs;
      if NoneBefore(recs, nextExp) {
        DropNoneBefore(recs, tag, group, any, nextExp);
      }
      var w, kept := Compact(tag, group, any);
      used := w;
      hintOff := 0;
      recs := kept;
      hintIdx := 0;
    }

    /** Forgets a track. */
    method Release(tag: u64)
      requires Valid()
      modifies this`used, this`hintOff, this`recs, this`hintIdx, arena
      ensures Valid() && recs == CacheSpec.Release(old(recs), tag)
    {
      DropRecs(tag, 0, true);
    }

    /** Copies a field in, least significant byte first. */
    method CopyField(at: nat, v: u64)
      requires at + 8 <= arena.Length
      modifies arena
      ensures forall k :: 0 <= k < at ==> arena[k] == old(arena[k])
      ensures forall j :: 0 <= j < 8 ==> arena[at + j] == ByteOf(v, j)
    {
      for j := 0 to 8
        invariant forall k :: 0 <= k < at ==> arena[k] == old(arena[k])
        invariant forall k :: 0 <= k < j ==> arena[at + k] == ByteOf(v, k)
      {
        arena[at + j] := ByteOf(v, j);
      }
    }

    /** Copies a header in, field by field. */
    method CopyHeader(at: nat, h: Header)
      requires at + HDR <= arena.Length
      modifies arena
      ensures arena[..at] == old(arena[..at])
      ensures HeaderIs(arena[at..at + HDR], h)
    {
      for f := 0 to 5
        invariant arena[..at] == old(arena[..at])
        invariant forall g, j :: 0 <= g < f && 0 <= j < 8 ==> arena[at + 8 * g + j] == ByteOf(Fields(h)[g], j)
      {
        CopyField(at + 8 * f, Fields(h)[f]);
      }
    }

    /** Appends a record; the caller made room. */
    method Write(h: Header, p: seq<u8>)
      requires Packs() && Resumable()
      requires |p| == Size(h) - HDR && used + Size(h) <= arena.Length
      modifies this`used, this`recs, arena
      ensures Packs() && Resumable()
      ensures recs == old(recs) + [Rec(h, p)]
    {
      hide HeaderIs, Tiles, Used;
      ghost var before, r := arena[..], Rec(h, p);
      CopyHeader(used, h);
      ghost var mid := arena[..];
      var _ := PutAt(arena, used + HDR, p);
      WrittenTiles(before, mid, arena[..], recs, r);
      assert (recs + [r])[..hintIdx] == recs[..hintIdx];
      used := used + HDR + |p|;
      recs := recs + [r];
    }

    method StaysOpen(v: Header, tag: u64, group: u64) returns (open: bool)
      requires Packs()
      ensures open == CacheSpec.StaysOpen(recs, v, tag, group)
    {
      hide HeaderIs;
      if v.tag == tag && group > v.group {
        return false;
      }
      var off := 0;
      ghost var i := 0;
      while off < used
        invariant i <= |recs| && off == Used(recs[..i]) <= used
        invariant forall j :: 0 <= j < i ==> !Later(recs[j].h, v)
        decreases |recs| - i
      {
        MoreLeft(recs, i);
        var h := RecAt(off, i);
        if Later(h, v) {
          return false;
        }
        off := off + Size(h);
        i := i + 1;
      }
      MoreLeft(recs, i);
      return true;
    }

    method FirstVictim(tag: u64, group: u64) returns (off: nat, ghost i: nat)
      requires Packs()
      ensures i == CacheSpec.FirstVictim(recs, tag, group, 0) && off == Used(recs[..i])
      ensures off <= used && (off == used <==> i == |recs|)
    {
      hide HeaderIs;
      off, i := 0, 0;
      while off < used
        invariant i <= |recs| && off == Used(recs[..i]) <= used
        invariant CacheSpec.FirstVictim(recs, tag, group, 0) == CacheSpec.FirstVictim(recs, tag, group, i)
        decreases |recs| - i
      {
        MoreLeft(recs, i);
        var h := RecAt(off, i);
        var open := StaysOpen(h, tag, group);
        if !Hit(h, tag, group, false) && !(Dead(h) && open) {
          return;
        }
        off := off + Size(h);
        i := i + 1;
      }
      MoreLeft(recs, i);
    }

    /** Replaces a held group by its tombstone, which always fits. */
    method EntombGroup(tag: u64, group: u64, ghost i: nat)
      requires Packs() && i < |recs| && Hit(recs[i].h, tag, group, false)
      modifies this`used, this`hintOff, this`recs, this`hintIdx, arena
      ensures Packs() && Resumable() && recs == Entomb(old(recs), tag, group)
      ensures old(NoneBefore(recs, nextExp)) ==> NoneBefore(recs, nextExp)
    {
      hide RecIn, Tiles, Drop, Used, AtOrAfter;
      DropLowersBy(recs, i);
      DropRecs(tag, group, false);
      Write(Tombstone(tag, group).h, []);
    }

    /** Evicts the oldest group that may go for an Object of tag's group. */
    method EvictOne(tag: u64, group: u64) returns (evicted: bool)
      requires Valid()
      modifies this`used, this`hintOff, this`recs, this`hintIdx, arena
      ensures Valid()
      ensures var e := CacheSpec.EvictOne(old(recs), tag, group);
              evicted == e.Some? && recs == if evicted then e.value else old(recs)
    {
      hide HeaderIs;
      var off, i := FirstVictim(tag, group);
      if off == used {
        return false;
      }
      var h := RecAt(off, i);
      var open := StaysOpen(h, tag, group);
      if open {
        EntombGroup(h.tag, h.group, i);
        return true;
      }
      DropRecs(h.tag, h.group, false);
      return true;
    }

    /** Evicts the fewest oldest groups that make need more bytes fit. */
    method MakeRoom(tag: u64, group: u64, need: nat)
      requires Valid()
      modifies this`used, this`hintOff, this`recs, this`hintIdx, arena
      ensures Valid()
      ensures recs == CacheSpec.MakeRoom(old(recs), tag, group, need, arena.Length)
    {
      hide HeaderIs;
      while used + need > arena.Length
        invariant Valid()
        invariant CacheSpec.MakeRoom(recs, tag, group, need, arena.Length)
               == CacheSpec.MakeRoom(old(recs), tag, group, need, arena.Length)
        decreases Weight(recs)
      {
        EvictOneLowers(recs, tag, group);
        var evicted := EvictOne(tag, group);
        if !evicted {
          break;
        }
      }
    }

    method Put(h: Header, p: seq<u8>) returns (stored: bool)
      requires Valid() && |p| == Size(h) - HDR
      modifies this`used, this`hintOff, this`recs, this`hintIdx, arena
      ensures Packs() && Resumable()
      ensures NoneBefore(recs, if stored then Min(nextExp, h.exp) else nextExp)
      ensures PutResult(recs, stored) == CacheSpec.Put(old(recs), Rec(h, p), arena.Length)
    {
      hide HeaderIs;
      var need := HDR + |p|;
      if need > arena.Length {
        return false;
      }
      MakeRoom(h.tag, h.group, need);
      if used + need > arena.Length {
        return false;
      }
      Write(h, p);
      return true;
    }

    /** Bytes tag's group holds, and whether it is a tombstone. */
    method GroupBytes(tag: u64, group: u64) returns (n: nat, dead: bool)
      requires Packs()
      ensures n == Used(Keep(recs, tag, group)) && dead == HasDead(Keep(recs, tag, group))
    {
      hide RecIn, Keep, HasDead, Hit;
      n, dead := 0, false;
      assert Keep(recs[..0], tag, group) == [] && !HasDead([]) by { NothingKept(recs[..0], tag, group); }
      var off := 0;
      ghost var i := 0;
      while off < used
        invariant i <= |recs| && off == Used(recs[..i]) <= used
        invariant n == Used(Keep(recs[..i], tag, group)) && dead == HasDead(Keep(recs[..i], tag, group))
        decreases |recs| - i
      {
        MoreLeft(recs, i);
        var h := RecAt(off, i);
        KeepNext(recs, i, tag, group);
        HasDeadAppend(Keep(recs[..i], tag, group), recs[i]);
        WeighAppend(Keep(recs[..i], tag, group), recs[i]);
        if Hit(h, tag, group, false) {
          dead := dead || Dead(h);
          n := n + Size(h);
        }
        off := off + Size(h);
        i := i + 1;
      }
      MoreLeft(recs, i);
      assert recs[..i] == recs;
    }

    /** Drops the group and leaves its tombstone where that fits. */
    method Kill(tag: u64, group: u64)
      requires Valid()
      modifies this`used, this`hintOff, this`recs, this`hintIdx, arena
      ensures Valid()
      ensures recs == CacheSpec.Kill(old(recs), tag, group, arena.Length)
    {
      DropRecs(tag, group, false);
      var stored := Put(Tombstone(tag, group).h, []);
    }

    /** Writes an Object, unless its group with it would outgrow the arena. */
    method Store(h: Header, p: seq<u8>, held: nat) returns (stored: bool)
      requires Valid() && |p| == Size(h) - HDR
      modifies this`used, this`hintOff, this`recs, this`hintIdx, arena
      ensures Packs() && Resumable()
      ensures NoneBefore(recs, if stored then Min(nextExp, h.exp) else nextExp)
      ensures PutResult(recs, stored) == CacheSpec.Store(old(recs), Rec(h, p), held, arena.Length)
    {
      if TooBig(held, |p|, arena.Length) {
        return false;
      }
      stored := Put(h, p);
    }

    /** Caches an Object, served until now reaches exp. */
    method Append(h: Header, p: seq<u8>)
      requires Valid() && h.len == |p| && !Dead(h)
      modifies this, arena
      ensures Valid() && now == old(now)
      ensures recs == CacheSpec.Append(old(recs), Rec(h, p), arena.Length)
    {
      hide CacheSpec.Store, CacheSpec.Kill, Keep, Used, HasDead;
      var held, dead := GroupBytes(h.tag, h.group);
      if dead {
        return;
      }
      var stored := Store(h, p, held);
      if !stored {
        Kill(h.tag, h.group);
        return;
      }
      nextExp := Min(nextExp, h.exp);
    }

    method ExpiredAt() returns (off: nat, ghost i: nat)
      requires Packs()
      ensures i == FirstExpired(recs, now, 0) && off == Used(recs[..i])
      ensures off <= used && (off == used <==> i == |recs|)
    {
      hide HeaderIs;
      off, i := 0, 0;
      while off < used
        invariant i <= |recs| && off == Used(recs[..i]) <= used
        invariant FirstExpired(recs, now, 0) == FirstExpired(recs, now, i)
        decreases |recs| - i
      {
        MoreLeft(recs, i);
        var h := RecAt(off, i);
        if Expired(h, now) {
          return;
        }
        off := off + Size(h);
        i := i + 1;
      }
      MoreLeft(recs, i);
    }

    method MinExp() returns (m: u64)
      requires Packs()
      ensures NoneBefore(recs, m) && (m == NEVER || !NoneBefore(recs, m + 1))
    {
      hide RecIn;
      m := NEVER;
      var off := 0;
      ghost var i, at := 0, 0;
      while off < used
        invariant i <= |recs| && off == Used(recs[..i]) <= used
        invariant forall j :: 0 <= j < i ==> m <= recs[j].h.exp
        invariant m == NEVER || (at < i && m == recs[at].h.exp)
        decreases |recs| - i
      {
        MoreLeft(recs, i);
        var h := RecAt(off, i);
        if h.exp < m { at := i; }
        m := Min(m, h.exp);
        off := off + Size(h);
        i := i + 1;
      }
      MoreLeft(recs, i);
    }

    method EntombExpired()
      requires Packs() && Resumable()
      modifies this`used, this`hintOff, this`recs, this`hintIdx, arena
      ensures Packs() && Resumable()
      ensures recs == CacheSpec.Expire(old(recs), now)
    {
      hide RecIn, Entomb, Used, Weight, AtOrAfter;
      var off, i := ExpiredAt();
      while off < used
        invariant Packs() && Resumable()
        invariant i == FirstExpired(recs, now, 0) && off == Used(recs[..i])
        invariant off <= used && (off == used <==> i == |recs|)
        invariant CacheSpec.Expire(recs, now) == CacheSpec.Expire(old(recs), now)
        decreases Weight(recs)
      {
        var h := RecAt(off, i);
        EntombLowers(recs, i);
        EntombGroup(h.tag, h.group, i);
        off, i := ExpiredAt();
      }
    }

    /** Entombs every group holding an expired record, unless nextExp shows
        there is none. */
    method Expire()
      requires Valid()
      modifies this, arena
      ensures Valid() && now == old(now)
      ensures recs == CacheSpec.Expire(old(recs), now)
    {
      hide HeaderIs;
      if now < nextExp {
        NothingExpires(recs, now, nextExp);
        return;
      }
      EntombExpired();
      nextExp := MinExp();
    }

    method Scan(from: nat, ghost k: nat, tag: u64, cur: Loc) returns (off: nat, ghost i: nat)
      requires Packs() && k <= |recs| && from == Used(recs[..k])
      ensures i == CacheSpec.Scan(recs, k, tag, cur) && off == Used(recs[..i])
      ensures off <= used && (off == used <==> i == |recs|)
    {
      hide HeaderIs;
      off, i := from, k;
      assert off <= used by { UsedSplit(recs, k); }
      while off < used
        invariant k <= i <= |recs| && off == Used(recs[..i]) <= used
        invariant CacheSpec.Scan(recs, k, tag, cur) == CacheSpec.Scan(recs, i, tag, cur)
        decreases |recs| - i
      {
        MoreLeft(recs, i);
        var h := RecAt(off, i);
        if AtOrAfter(h, tag, cur) {
          return;
        }
        off := off + Size(h);
        i := i + 1;
      }
      MoreLeft(recs, i);
    }

    /** Moves the resume point to record i, where the scan for cur stopped. */
    method Resume(off: nat, ghost i: nat, tag: u64, cur: Loc)
      requires Valid() && i == CacheSpec.Scan(recs, 0, tag, cur) && off == Used(recs[..i])
      modifies this`hintOff, this`hintTag, this`hintCur, this`hintIdx
      ensures Valid() && hintOff == off && hintTag == tag && hintCur == cur
    {
      hintOff, hintTag, hintCur, hintIdx := off, tag, cur, i;
    }

    /** Offset of tag's first record reaching cur: with its resume point and
        its expiry shortcut, what a scan of the whole arena finds once every
        expired group is a tombstone. */
    method Find(tag: u64, cur: Loc) returns (off: nat, ghost i: nat)
      requires Valid()
      modifies this, arena
      ensures Valid() && now == old(now)
      ensures recs == CacheSpec.Expire(old(recs), now)
      ensures i == CacheSpec.Scan(recs, 0, tag, cur) && off == Used(recs[..i])
      ensures off <= used && (off == used <==> i == |recs|)
      ensures hintOff == off && hintTag == tag && hintCur == cur
    {
      hide HeaderIs;
      Expire();
      if hintTag == tag && !Less(cur, hintCur) {
        ScanResumes(recs, hintIdx, tag, hintCur, cur);
        off, i := Scan(hintOff, hintIdx, tag, cur);
      } else {
        off, i := Scan(0, 0, tag, cur);
      }
      Resume(off, i, tag, cur);
    }

    method Covered(tag: u64, cur: Loc) returns (b: bool)
      requires Packs()
      ensures b == CacheLookup.Covered(recs, tag, cur)
    {
      hide HeaderIs;
      var off, i := Scan(0, 0, tag, Loc(0, 0));
      if off == used {
        return false;
      }
      var h := RecAt(off, i);
      return h.group <= cur.group;
    }

    /** Where a FETCH goes on from cur: past the gap cur stands in, if any. */
    method Skip(tag: u64, cur: Loc, end: Loc) returns (to: Loc)
      requires Valid()
      modifies this, arena
      ensures Valid() && now == old(now)
      ensures recs == CacheSpec.Expire(old(recs), now)
      ensures to == CacheLookup.Skip(recs, tag, cur, end)
    {
      hide HeaderIs;
      var off, i := Find(tag, cur);
      var covered := Covered(tag, cur);
      if off == used {
        return if covered then end else cur;
      }
      var h := RecAt(off, i);
      if !Less(cur, First(h)) || !covered {
        return cur;
      }
      return MinLoc(First(h), end);
    }

    /** End of the unknown range at cur, never at or before cur. */
    method UnknownStop(off: nat, ghost i: nat, cur: Loc, end: Loc) returns (stop: Loc)
      requires Packs() && i <= |recs| && off == Used(recs[..i]) <= used
      requires off == used <==> i == |recs|
      ensures stop == CacheLookup.UnknownStop(recs, i, cur, end)
    {
      hide HeaderIs;
      stop := end;
      if off < used {
        var h := RecAt(off, i);
        stop := Loc(Wrap(h.group + if Dead(h) then 1 else 0), 0);
      }
      if !Less(cur, stop) {
        stop := NextObject(cur);
      }
      stop := MinLoc(stop, end);
    }

    /** The payload of record i. */
    method Payload(off: nat, ghost i: nat, len: nat) returns (p: seq<u8>)
      requires i < |recs| && RecIn(arena[..], recs, i) && off == Used(recs[..i])
      requires len == Size(recs[i].h) - HDR
      ensures p == recs[i].payload
    {
      ReadRec(arena[..], off, recs[i]);
      p := arena[off + HDR..off + HDR + len];
    }

    /** The FETCH item at cur. */
    method ItemAt(tag: u64, cur: Loc, end: Loc) returns (it: Item)
      requires Valid()
      modifies this, arena
      ensures Valid() && now == old(now)
      ensures recs == CacheSpec.Expire(old(recs), now)
      ensures it == CacheLookup.ItemAt(recs, tag, cur, end)
    {
      hide HeaderIs;
      var off, i := Find(tag, cur);
      if off < used {
        var h := RecAt(off, i);
        if IsObj(h, cur) {
          var p := Payload(off, i, h.len);
          return Item(false, cur, p, NextObject(cur));
        }
      }
      var next := UnknownStop(off, i, cur, end);
      return Item(true, Prev(next), [], next);
    }
  }
}
