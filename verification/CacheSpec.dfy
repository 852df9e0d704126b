/** What each cache operation does, on the sequence of records the arena holds. */
module CacheSpec {
  import opened Options
  import opened Bytes
  import opened Locations
  import opened CacheRecord
  import opened CacheLayout
  import opened Seqs

  /** The records left once the matching ones are removed. */
  function Drop(recs: seq<Rec>, tag: u64, group: u64, any: bool): seq<Rec> {
    if recs == [] then []
    else
      var rest := Drop(recs[..|recs| - 1], tag, group, any);
      var r := recs[|recs| - 1];
      if Hit(r.h, tag, group, any) then rest else rest + [r]
  }

  /** The records of tag's group, in arena order. */
  function Keep(recs: seq<Rec>, tag: u64, group: u64): seq<Rec> {
    if recs == [] then []
    else
      var rest := Keep(recs[..|recs| - 1], tag, group);
      var r := recs[|recs| - 1];
      if Hit(r.h, tag, group, false) then rest + [r] else rest
  }

  /** v's group is its track's newest: more of its Objects may arrive. */
  predicate IsOpen(recs: seq<Rec>, v: Header) {
    forall i :: 0 <= i < |recs| ==> !Later(recs[i].h, v)
  }

  predicate StaysOpen(recs: seq<Rec>, v: Header, tag: u64, group: u64) {
    !(v.tag == tag && group > v.group) && IsOpen(recs, v)
  }

  /** A record that can make way for an Object of tag's group. */
  predicate Victim(recs: seq<Rec>, h: Header, tag: u64, group: u64) {
    !Hit(h, tag, group, false) && !(Dead(h) && StaysOpen(recs, h, tag, group))
  }

  function FirstVictim(recs: seq<Rec>, tag: u64, group: u64, from: nat): (i: nat)
    requires from <= |recs|
    ensures from <= i <= |recs|
    ensures forall j :: from <= j < i ==> !Victim(recs, recs[j].h, tag, group)
    ensures i < |recs| ==> Victim(recs, recs[i].h, tag, group)
    decreases |recs| - from
  {
    if from == |recs| || Victim(recs, recs[from].h, tag, group) then from
    else FirstVictim(recs, tag, group, from + 1)
  }

  /** A group replaced by its tombstone, written at the end of the arena. */
  function Entomb(recs: seq<Rec>, tag: u64, group: u64): seq<Rec> {
    Drop(recs, tag, group, false) + [Tombstone(tag, group)]
  }

  /** The oldest group that may go, gone: whole when closed, to its tombstone
      while its track may still send more of it. */
  function EvictOne(recs: seq<Rec>, tag: u64, group: u64): Option<seq<Rec>> {
    var i := FirstVictim(recs, tag, group, 0);
    if i == |recs| then None
    else
      var v := recs[i].h;
      if StaysOpen(recs, v, tag, group) then Some(Entomb(recs, v.tag, v.group))
      else Some(Drop(recs, v.tag, v.group, false))
  }

  /** Records held plus live records held: every eviction lowers it. */
  function Weight(recs: seq<Rec>): nat {
    if recs == [] then 0
    else Weight(recs[..|recs| - 1]) + if Dead(recs[|recs| - 1].h) then 1 else 2
  }

  /** What one more record weighs and takes. */
  lemma WeighAppend(a: seq<Rec>, x: Rec)
    ensures Weight(a + [x]) == Weight(a) + if Dead(x.h) then 1 else 2
    ensures Used(a + [x]) == Used(a) + Size(x.h)
  {
    InitOfAppend(a, x);
  }

  lemma {:induction false} DropLowers(recs: seq<Rec>, tag: u64, group: u64, any: bool)
    ensures Weight(Drop(recs, tag, group, any)) <= Weight(recs)
    ensures Used(Drop(recs, tag, group, any)) <= Used(recs)
  {
    if recs != [] {
      hide Weight, Used;
      var init, x := recs[..|recs| - 1], recs[|recs| - 1];
      assert recs == init + [x];
      DropLowers(init, tag, group, any);
      WeighAppend(init, x);
      WeighAppend(Drop(init, tag, group, any), x);
    }
  }

  /** Dropping keeps exactly the records that do not match. */
  lemma {:induction false} DropMembers(recs: seq<Rec>, tag: u64, group: u64, any: bool)
    ensures forall r :: r in Drop(recs, tag, group, any) <==> r in recs && !Hit(r.h, tag, group, any)
  {
    if recs != [] {
      DropMembers(recs[..|recs| - 1], tag, group, any);
      assert recs == recs[..|recs| - 1] + [recs[|recs| - 1]];
    }
  }

  /** No record expires before e. */
  predicate NoneBefore(recs: seq<Rec>, e: u64) {
    forall i :: 0 <= i < |recs| ==> e <= recs[i].h.exp
  }

  lemma DropNoneBefore(recs: seq<Rec>, tag: u64, group: u64, any: bool, e: u64)
    requires NoneBefore(recs, e)
    ensures NoneBefore(Drop(recs, tag, group, any), e)
  {
    var d := Drop(recs, tag, group, any);
    DropMembers(recs, tag, group, any);
    forall i | 0 <= i < |d| ensures e <= d[i].h.exp {
      assert d[i] in d;
    }
  }

  lemma {:induction false} DropLowersBy(recs: seq<Rec>, i: nat)
    requires i < |recs|
    ensures var h := recs[i].h;
            && Weight(Drop(recs, h.tag, h.group, false)) + (if Dead(h) then 1 else 2) <= Weight(recs)
            && Used(Drop(recs, h.tag, h.group, false)) + Size(h) <= Used(recs)
    decreases |recs|
  {
    hide Weight, Used;
    var n, h := |recs| - 1, recs[i].h;
    var init, x := recs[..n], recs[n];
    assert recs == init + [x];
    WeighAppend(init, x);
    WeighAppend(Drop(init, h.tag, h.group, false), x);
    if i == n {
      DropLowers(init, h.tag, h.group, false);
    } else {
      DropLowersBy(init, i);
    }
  }

  lemma EntombLowers(recs: seq<Rec>, i: nat)
    requires i < |recs|
    ensures var h := recs[i].h;
            && (!Dead(h) ==> Weight(Entomb(recs, h.tag, h.group)) < Weight(recs))
            && Used(Entomb(recs, h.tag, h.group)) <= Used(recs)
  {
    var h := recs[i].h;
    hide Weight, Used, Drop;
    DropLowersBy(recs, i);
    WeighAppend(Drop(recs, h.tag, h.group, false), Tombstone(h.tag, h.group));
  }

  lemma EvictOneLowers(recs: seq<Rec>, tag: u64, group: u64)
    ensures var e := EvictOne(recs, tag, group);
            e.Some? ==> Weight(e.value) < Weight(recs) && Used(e.value) <= Used(recs)
  {
    var i := FirstVictim(recs, tag, group, 0);
    if i < |recs| {
      DropLowersBy(recs, i);
      EntombLowers(recs, i);
    }
  }

  function MakeRoom(recs: seq<Rec>, tag: u64, group: u64, need: nat, cap: nat): seq<Rec>
    decreases Weight(recs)
  {
    EvictOneLowers(recs, tag, group);
    if Used(recs) + need <= cap then recs
    else match EvictOne(recs, tag, group)
      case None => recs
      case Some(fewer) => MakeRoom(fewer, tag, group, need, cap)
  }

  datatype PutResult = PutResult(recs: seq<Rec>, stored: bool)

  /** r written after evicting just enough other groups, if that makes it fit. */
  function Put(recs: seq<Rec>, r: Rec, cap: nat): PutResult {
    if Size(r.h) > cap then PutResult(recs, false)
    else
      var room := MakeRoom(recs, r.h.tag, r.h.group, Size(r.h), cap);
      if Used(room) + Size(r.h) > cap then PutResult(room, false)
      else PutResult(room + [r], true)
  }

  /** A group that cannot be held whole is dropped for its tombstone. */
  function Kill(recs: seq<Rec>, tag: u64, group: u64, cap: nat): seq<Rec> {
    Put(Drop(recs, tag, group, false), Tombstone(tag, group), cap).recs
  }

  predicate TooBig(held: nat, n: nat, cap: nat) {
    n > OBJ_MAX || held + HDR + n > cap
  }

  predicate HasDead(recs: seq<Rec>) {
    exists i :: 0 <= i < |recs| && Dead(recs[i].h)
  }

  function Store(recs: seq<Rec>, r: Rec, held: nat, cap: nat): PutResult {
    if TooBig(held, |r.payload|, cap) then PutResult(recs, false) else Put(recs, r, cap)
  }

  function Append(recs: seq<Rec>, r: Rec, cap: nat): seq<Rec> {
    var own := Keep(recs, r.h.tag, r.h.group);
    if HasDead(own) then recs
    else
      var s := Store(recs, r, Used(own), cap);
      if s.stored then s.recs else Kill(s.recs, r.h.tag, r.h.group, cap)
  }

  function Release(recs: seq<Rec>, tag: u64): seq<Rec> {
    Drop(recs, tag, 0, true)
  }

  function FirstExpired(recs: seq<Rec>, now: u64, from: nat): (i: nat)
    requires from <= |recs|
    ensures from <= i <= |recs|
    ensures forall j :: from <= j < i ==> !Expired(recs[j].h, now)
    ensures i < |recs| ==> Expired(recs[i].h, now)
    decreases |recs| - from
  {
    if from == |recs| || Expired(recs[from].h, now) then from
    else FirstExpired(recs, now, from + 1)
  }

  /** Every group holding an expired record, replaced by its tombstone. */
  function Expire(recs: seq<Rec>, now: u64): seq<Rec>
    decreases Weight(recs)
  {
    var i := FirstExpired(recs, now, 0);
    if i == |recs| then recs
    else
      EntombLowers(recs, i);
      Expire(Entomb(recs, recs[i].h.tag, recs[i].h.group), now)
  }

  /** Index of tag's first record, from index from on, that reaches cur. */
  function Scan(recs: seq<Rec>, from: nat, tag: u64, cur: Loc): (i: nat)
    requires from <= |recs|
    ensures from <= i <= |recs|
    ensures forall j :: from <= j < i ==> !AtOrAfter(recs[j].h, tag, cur)
    ensures i < |recs| ==> AtOrAfter(recs[i].h, tag, cur)
    decreases |recs| - from
  {
    if from == |recs| || AtOrAfter(recs[from].h, tag, cur) then from
    else Scan(recs, from + 1, tag, cur)
  }

  /** While the clock is below the earliest expiry, expiring changes nothing. */
  lemma NothingExpires(recs: seq<Rec>, now: u64, e: u64)
    requires NoneBefore(recs, e) && now < e
    ensures Expire(recs, now) == recs
  {
    assert forall i :: 0 <= i < |recs| ==> !Expired(recs[i].h, now);
  }

  /** A scan may start after records that all end before some earlier
      Location of the same tag. */
  lemma ScanResumes(recs: seq<Rec>, k: nat, tag: u64, earlier: Loc, cur: Loc)
    requires k <= |recs| && !Less(cur, earlier)
    requires forall i :: 0 <= i < k ==> !AtOrAfter(recs[i].h, tag, earlier)
    ensures Scan(recs, k, tag, cur) == Scan(recs, 0, tag, cur)
  {
    var i := Scan(recs, 0, tag, cur);
    assert i < k ==> !AtOrAfter(recs[i].h, tag, earlier);
  }

  /** What one more record adds to those that stay. */
  lemma DropNext(recs: seq<Rec>, i: nat, tag: u64, group: u64, any: bool)
    requires i < |recs|
    ensures Drop(recs[..i + 1], tag, group, any)
         == Drop(recs[..i], tag, group, any) + if Hit(recs[i].h, tag, group, any) then [] else [recs[i]]
  {
    assert recs[..i + 1][..i] == recs[..i];
  }

  lemma NothingKept(recs: seq<Rec>, tag: u64, group: u64)
    requires recs == []
    ensures Keep(recs, tag, group) == [] && !HasDead([])
  {
  }

  lemma HasDeadAppend(a: seq<Rec>, r: Rec)
    ensures HasDead(a + [r]) <==> HasDead(a) || Dead(r.h)
  {
    assert (a + [r])[|a|] == r;
    if HasDead(a) {
      var k :| 0 <= k < |a| && Dead(a[k].h);
      assert Dead((a + [r])[k].h);
    }
  }

  /** What one more record adds to its group's bytes. */
  lemma KeepNext(recs: seq<Rec>, i: nat, tag: u64, group: u64)
    requires i < |recs|
    ensures Keep(recs[..i + 1], tag, group)
         == if Hit(recs[i].h, tag, group, false) then Keep(recs[..i], tag, group) + [recs[i]]
            else Keep(recs[..i], tag, group)
  {
    assert recs[..i + 1][..i] == recs[..i];
  }
}
