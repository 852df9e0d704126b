/** Locations (draft-ietf-moq-transport-19 section 1.4.2). */
module Locations {
  import opened Bytes

  datatype Loc = Loc(group: u64, obj: u64)

  /** The largest Object ID a Location on the wire carries. */
  const OBJ_ID_MAX: u64 := 0x3FFF_FFFF_FFFF_FFFF

  predicate Less(a: Loc, b: Loc) {
    if a.group != b.group then a.group < b.group else a.obj < b.obj
  }

  function MinLoc(a: Loc, b: Loc): Loc {
    if Less(a, b) then a else b
  }

  /** The Location just before an exclusive end. */
  function Prev(excl: Loc): Loc {
    if excl.obj != 0 then Loc(excl.group, excl.obj - 1)
    else Loc(Wrap(excl.group - 1), OBJ_ID_MAX)
  }

  /** The Location one Object further, with the 64-bit Object ID. */
  function NextObject(l: Loc): Loc {
    Loc(l.group, Wrap(l.obj + 1))
  }
}

/** The records of the FETCH object cache and what one says about a Location. */
module CacheRecord {
  import opened Bytes
  import opened Locations

  /** Bytes of a record header: five 64-bit fields. */
  const HDR: nat := 40
  /** Largest cached payload. */
  const OBJ_MAX: nat := 65536 - 64
  /** The len of a tombstone. */
  const DEAD: u64 := 0xFFFF_FFFF_FFFF_FFFF
  /** The exp of a record that does not expire. */
  const NEVER: u64 := 0xFFFF_FFFF_FFFF_FFFF

  datatype Header = Header(tag: u64, group: u64, obj: u64, len: u64, exp: u64)

  /** A header and the payload that follows it in the arena. */
  datatype Rec = Rec(h: Header, payload: seq<u8>)

  predicate Dead(h: Header) {
    h.len == DEAD
  }

  function Size(h: Header): nat {
    HDR + if Dead(h) then 0 else h.len
  }

  predicate Wf(r: Rec) {
    |r.payload| == Size(r.h) - HDR
  }

  function Tombstone(tag: u64, group: u64): Rec {
    Rec(Header(tag, group, 0, DEAD, NEVER), [])
  }

  /** h belongs to tag's group (any group of tag when any). */
  predicate Hit(h: Header, tag: u64, group: u64, any: bool) {
    h.tag == tag && (any || h.group == group)
  }

  /** h is of v's track, in a newer group. */
  predicate Later(h: Header, v: Header) {
    h.tag == v.tag && h.group > v.group
  }

  /** First and last Location a record stands for: a tombstone is its group. */
  function First(h: Header): Loc {
    Loc(h.group, if Dead(h) then 0 else h.obj)
  }

  function Last(h: Header): Loc {
    Loc(h.group, if Dead(h) then OBJ_ID_MAX else h.obj)
  }

  predicate AtOrAfter(h: Header, tag: u64, cur: Loc) {
    h.tag == tag && !Less(Last(h), cur)
  }

  predicate Expired(h: Header, now: u64) {
    !Dead(h) && h.exp <= now
  }
}

/** The bytes of the arena: records packed back to back. */
module CacheLayout {
  import opened Bytes
  import opened CacheRecord
  import opened Seqs

  function Fields(h: Header): seq<u64> {
    [h.tag, h.group, h.obj, h.len, h.exp]
  }

  /** b is h in memory: five 64-bit fields, each least significant byte first. */
  ghost predicate HeaderIs(b: seq<u8>, h: Header) {
    |b| == HDR && forall f, j :: 0 <= f < 5 && 0 <= j < 8 ==> b[8 * f + j] == ByteOf(Fields(h)[f], j)
  }

  function FieldAt(b: seq<u8>, k: nat): u64
    requires k < 5 && |b| == HDR
  {
    Pow256OfField();
    FromLe(b, 8 * k, 8 * k + 8)
  }

  function DecodeHeader(b: seq<u8>): Header
    requires |b| == HDR
  {
    Header(FieldAt(b, 0), FieldAt(b, 1), FieldAt(b, 2), FieldAt(b, 3), FieldAt(b, 4))
  }

  lemma FieldRoundTrip(b: seq<u8>, h: Header, f: nat)
    requires HeaderIs(b, h) && f < 5
    ensures FieldAt(b, f) == Fields(h)[f]
  {
    Pow256OfField();
    FromLeOfBytes(b, 8 * f, 8 * f + 8, Fields(h)[f]);
  }

  /** Reading a header back gives the header written. */
  lemma HeaderRoundTrip(b: seq<u8>, h: Header)
    requires HeaderIs(b, h)
    ensures DecodeHeader(b) == h
  {
    FieldRoundTrip(b, h, 0);
    FieldRoundTrip(b, h, 1);
    FieldRoundTrip(b, h, 2);
    FieldRoundTrip(b, h, 3);
    FieldRoundTrip(b, h, 4);
  }

  /** b is exactly the header and payload of r. */
  ghost predicate Parses(b: seq<u8>, r: Rec) {
    && |b| == Size(r.h)
    && HeaderIs(b[..HDR], r.h)
    && b[HDR..] == r.payload
  }

  /** Bytes a run of records takes. */
  function Used(recs: seq<Rec>): nat {
    if recs == [] then 0 else Used(recs[..|recs| - 1]) + Size(recs[|recs| - 1].h)
  }

  /** Record i lies right after the records before it. */
  ghost predicate RecIn(bytes: seq<u8>, recs: seq<Rec>, i: nat)
    requires i < |recs|
  {
    var off, sz := Used(recs[..i]), Size(recs[i].h);
    off + sz <= |bytes| && Parses(bytes[off..off + sz], recs[i])
  }

  /** The records tile the bytes from 0 to Used(recs). */
  ghost predicate Tiles(bytes: seq<u8>, recs: seq<Rec>) {
    forall i :: 0 <= i < |recs| ==> RecIn(bytes, recs, i)
  }

  lemma {:induction false} UsedSplit(recs: seq<Rec>, i: nat)
    requires i <= |recs|
    ensures Used(recs) == Used(recs[..i]) + Used(recs[i..])
    decreases |recs|
  {
    if i == |recs| {
      assert recs[..i] == recs;
    } else {
      UsedSplit(recs[..|recs| - 1], i);
      InitOfTail(recs, i);
    }
  }

  lemma UsedNext(recs: seq<Rec>, i: nat)
    requires i < |recs|
    ensures Used(recs[..i]) + Size(recs[i].h) == Used(recs[..i + 1]) <= Used(recs)
  {
    assert recs[..i + 1][..i] == recs[..i];
    UsedSplit(recs, i + 1);
  }

  /** Records are never empty, so offsets tell whether any is left. */
  lemma MoreLeft(recs: seq<Rec>, i: nat)
    requires i <= |recs|
    ensures Used(recs[..i]) < Used(recs) <==> i < |recs|
  {
    if i < |recs| {
      UsedNext(recs, i);
    } else {
      assert recs[..i] == recs;
    }
  }

  lemma UsedMonotone(recs: seq<Rec>, i: nat, j: nat)
    requires i <= j <= |recs|
    ensures Used(recs[..i]) <= Used(recs[..j])
  {
    UsedSplit(recs[..j], i);
    assert recs[..j][..i] == recs[..i];
  }

  /** The header and payload of a record, where it lies. */
  lemma ReadRec(bytes: seq<u8>, off: nat, r: Rec)
    requires off + Size(r.h) <= |bytes| && Parses(bytes[off..off + Size(r.h)], r)
    ensures HeaderIs(bytes[off..off + HDR], r.h)
    ensures bytes[off + HDR..off + Size(r.h)] == r.payload
  {
    CutSlice(bytes, off, off + Size(r.h), HDR);
  }

  /** A record keeps parsing while the bytes it lies in stay the same. */
  lemma KeepRec(before: seq<u8>, after: seq<u8>, recs: seq<Rec>, i: nat, off: nat, end: nat)
    requires i < |recs| && RecIn(before, recs, i)
    requires off == Used(recs[..i]) && end == off + Size(recs[i].h) <= |after|
    requires before[off..end] == after[off..end]
    ensures RecIn(after, recs, i)
  {
  }

  /** A record written right after the others joins the tiling. */
  lemma TilesAppend(bytes: seq<u8>, recs: seq<Rec>, r: Rec)
    requires Tiles(bytes, recs) && Used(recs) + Size(r.h) <= |bytes|
    requires Parses(bytes[Used(recs)..Used(recs) + Size(r.h)], r)
    ensures Tiles(bytes, recs + [r])
    ensures Used(recs + [r]) == Used(recs) + Size(r.h)
  {
    var all := recs + [r];
    InitOfAppend(recs, r);
    forall i | 0 <= i < |all| ensures RecIn(bytes, all, i) {
      if i < |recs| {
        assert all[..i] == recs[..i];
        assert RecIn(bytes, recs, i);
      }
    }
  }
}
