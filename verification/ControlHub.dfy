/** Deliveries to many streams, and what came of them. */
module ControlRuns {
  import opened Bytes
  import opened ControlEvents
  import opened ControlSteps
  import opened ControlAsm

  /** All that log holds for one stream, in order. */
  function Of<T>(a: Asm, log: seq<(Asm, seq<T>)>): seq<T> {
    if log == [] then []
    else
      var last := log[|log| - 1];
      if last.0 == a then Of(a, log[..|log| - 1]) + last.1 else Of(a, log[..|log| - 1])
  }

  lemma OfNext<T>(a: Asm, log: seq<(Asm, seq<T>)>, x: (Asm, seq<T>))
    ensures Of(a, log + [x]) == if x.0 == a then Of(a, log) + x.1 else Of(a, log)
  {
    assert (log + [x])[..|log|] == log;
  }

  lemma {:induction false} OfPrefix<T>(a: Asm, log: seq<(Asm, seq<T>)>, k: nat)
    requires k < |log|
    ensures log[k].0 == a ==> Of(a, log[..k]) + log[k].1 <= Of(a, log)
    decreases |log|
  {
    var n := |log| - 1;
    if k < n {
      OfPrefix(a, log[..n], k);
      assert log[..n][..k] == log[..k];
    }
  }

  /** What a stream holds: bytes unread, bytes owed, and where. */
  datatype Held = Held(rest: seq<u8>, owed: nat, pooled: bool)

  /** Between deliveries: no message is complete, and there is room for the one
      on its way. */
  ghost predicate Settled(vi: bool, h: Held) {
    Quiet(vi, if h.pooled then BIG else INLINE, h.rest)
  }

  /** Each stream came from what it held to what it holds by the deliveries ds,
      and log is what was made of them. */
  ghost predicate Run(
    vis: map<Asm, bool>, was: map<Asm, Held>, now: map<Asm, Held>, ds: seq<(Asm, seq<u8>)>,
    log: seq<(Asm, seq<Event>)>, large: set<Asm>)
  {
    && now.Keys == was.Keys && now.Keys <= vis.Keys
    && forall a :: a in now ==> Came(vis[a], was[a], now[a], Of(a, ds), Of(a, log)) && (a !in large ==> !now[a].pooled)
  }

  ghost predicate Came(vi: bool, was: Held, now: Held, x: seq<u8>, events: seq<Event>) {
    Settled(vi, now) && Outcome(events, now.rest, now.owed) == Resume(vi, BIG, was.rest, was.owed, x)
  }

  lemma RunBegin(vis: map<Asm, bool>, was: map<Asm, Held>, large: set<Asm>)
    requires was.Keys <= vis.Keys && forall a :: a in was ==> Settled(vis[a], was[a]) && (a !in large ==> !was[a].pooled)
    ensures Run(vis, was, was, [], [], large)
  {
    hide Quiet, Resume;
    forall a | a in was ensures Came(vis[a], was[a], was[a], [], []) {
      QuietInBig(vis[a], if was[a].pooled then BIG else INLINE, was[a].rest);
      ResumeNothing(vis[a], BIG, was[a].rest, was[a].owed);
    }
  }

  lemma RunNext(
    vis: map<Asm, bool>, was: map<Asm, Held>, now: map<Asm, Held>, ds: seq<(Asm, seq<u8>)>,
    log: seq<(Asm, seq<Event>)>, large: set<Asm>, a: Asm, data: seq<u8>, events: seq<Event>, h: Held)
    requires Run(vis, was, now, ds, log, large) && a in now
    requires Came(vis[a], now[a], h, data, events) && (a !in large ==> !h.pooled)
    ensures Run(vis, was, now[a := h], ds + [(a, data)], log + [(a, events)], large)
  {
    hide Quiet, Resume, Of;
    ResumeNext(vis[a], BIG, was[a].rest, was[a].owed, Of(a, ds), data,
      Outcome(Of(a, log), now[a].rest, now[a].owed), Outcome(events, h.rest, h.owed));
    forall b | b in now
      ensures Came(vis[b], was[b], now[a := h][b], Of(b, ds + [(a, data)]), Of(b, log + [(a, events)]))
    {
      OfNext(b, ds, (a, data));
      OfNext(b, log, (a, events));
    }
  }
}

/** Reassembly of control messages over arbitrary deliveries: the streams of a
    hub share its pool buffers. */
module ControlHub {
  import opened Options
  import opened Bytes
  import opened Seqs
  import opened ControlFraming
  import opened ControlEvents
  import opened ControlEnvelope
  import opened ControlSteps
  import opened ControlAsm
  import opened ControlRuns

  const POOL: nat := 2

  lemma TwoInside<T>(x: T, y: T, s: set<T>)
    requires x in s && y in s && x != y
    ensures |s| >= 2
  {
    SubsetSize({x, y}, s);
  }

  class Hub {
    const pool: seq<array<u8>>
    var owner: seq<Asm?>
    /** Every stream's reassembly. */
    ghost var asms: set<Asm>

    /** Slot i may be leased: its last owner, if any, no longer uses it. */
    predicate SlotFree(i: nat)
      requires i < |pool| == |owner|
      reads this, if i < |owner| && owner[i] != null then {owner[i]} else {}
    {
      owner[i] == null || owner[i].big != pool[i]
    }

    /** a holds pool buffer i as its owner. */
    ghost predicate Holds(a: Asm, i: nat)
      reads this`owner, a`big
    {
      i < |pool| && i < |owner| && a.big == pool[i] && owner[i] == a
    }

    /** Buffers are apart, and a leased one is leased by its owner. */
    ghost predicate Valid()
      reads this, asms
    {
      && |owner| == |pool| == POOL
      && (forall i :: 0 <= i < |pool| ==> pool[i].Length == BIG && (owner[i] != null ==> owner[i] in asms))
      && (forall i, j :: 0 <= i < j < |pool| ==> pool[i] != pool[j])
      && (forall a :: a in asms ==> a.Shape() && forall i :: 0 <= i < |pool| ==> a.buf != pool[i])
      && (forall a, b :: a in asms && b in asms && a != b ==> a.buf != b.buf)
      && (forall a :: a in asms && a.big != null ==> exists i :: Holds(a, i))
    }

    ghost predicate SomeFree()
      requires Valid()
      reads this, asms
    {
      SlotFree(0) || SlotFree(1)
    }

    /** The other streams that hold a pool buffer. */
    ghost function Others(a: Asm): set<Asm>
      reads this, asms
    {
      set b | b in asms && b != a && b.big != null
    }

    /** What every stream holds. */
    ghost function All(): map<Asm, Held>
      requires Valid()
      reads this, asms, set b | b in asms :: b.Mem()
    {
      map b | b in asms :: Held(b.Rest(), b.skip, b.big != null)
    }

    /** What every other stream holds. */
    ghost function Elsewhere(a: Asm): map<Asm, Held>
      requires Valid()
      reads this, asms, set b | b in asms :: b.Mem()
    {
      map b | b in asms && b != a :: Held(b.Rest(), b.skip, b.big != null)
    }

    /** Bytes of the longest message a can be given room for. */
    ghost function Limit(a: Asm): nat
      reads this, asms
    {
      if |Others(a)| < POOL then BIG else INLINE
    }

    constructor ()
      ensures Valid() && asms == {} && SomeFree()
      ensures fresh(pool[0]) && fresh(pool[1])
    {
      var first, second := new u8[BIG](_ => 0), new u8[BIG](_ => 0);
      pool := [first, second];
      owner := [null, null];
      asms := {};
    }

    /** A new stream. */
    method Open() returns (a: Asm)
      requires Valid()
      modifies this`asms
      ensures Valid() && fresh(a) && fresh(a.buf) && asms == old(asms) + {a}
      ensures a.big == null && a.skip == 0 && a.Rest() == [] && forall vi :: a.Calm(vi)
      ensures forall b :: b in old(asms) ==> b.Rest() == old(b.Rest()) && Others(b) == old(Others(b))
    {
      ghost var held := map b | b in asms && b.big != null :: HeldSlot(b);
      a := new Asm();
      asms := asms + {a};
      forall b | b in asms && b.big != null ensures exists i :: Holds(b, i) {
        assert Holds(b, held[b]);
      }
      NothingHeld(a);
    }

    /** Forgets all a stream holds; its pool buffer, if any, is free again. */
    method Reset(a: Asm)
      requires Valid() && a in asms
      modifies a`n, a`at, a`skip, a`big
      ensures Valid() && a.big == null && a.skip == 0 && a.Rest() == [] && forall vi :: a.Calm(vi)
      ensures old(a.big) != null ==> SomeFree()
      ensures Elsewhere(a) == old(Elsewhere(a))
      ensures Others(a) == old(Others(a)) && forall b :: b in asms && b != a ==> Others(b) == old(Others(b)) - {a}
    {
      FreeIff(a);
      a.n, a.at, a.skip, a.big := 0, 0, 0, null;
      Keeps(a);
      hide Hub.Valid, Asm.Calm, Hub.SlotFree, Hub.SomeFree, Hub.Elsewhere;
      FreeIff(a);
      NothingHeld(a);
    }

    /** With the other streams left alone and no buffer taken, the hub stays valid. */
    twostate lemma Keeps(a: Asm)
      requires old(Valid()) && a in asms && asms == old(asms) && owner == old(owner)
      requires a.Shape() && (a.big == old(a.big) || a.big == null)
      requires forall b :: b in asms && b != a ==> unchanged(b) && b.Shape() && b.Rest() == old(b.Rest())
      ensures Valid() && Elsewhere(a) == old(Elsewhere(a)) && Others(a) == old(Others(a))
    {
      forall b | b in asms && b.big != null ensures exists i :: Holds(b, i) {
        var i :| old(Holds(b, i));
        assert Holds(b, i);
      }
      SameElsewhere(a);
    }

    twostate lemma SameElsewhere(a: Asm)
      requires old(Valid()) && Valid() && asms == old(asms)
      requires forall b :: b in asms && b != a ==> unchanged(b) && b.Rest() == old(b.Rest())
      ensures Elsewhere(a) == old(Elsewhere(a)) && Others(a) == old(Others(a))
    {
    }

    lemma NothingHeld(a: Asm)
      requires Valid() && a in asms && a.n == a.at
      ensures a.Rest() == [] && forall vi :: a.Calm(vi)
    {
      forall vi ensures a.Calm(vi) { NothingIsQuiet(vi, a.Cap()); }
    }

    /** No two reassemblies hold the same buffer. */
    lemma NoSharing(a: Asm, b: Asm)
      requires Valid() && a in asms && b in asms && a != b
      ensures a.Mem() != b.Mem() && b.Mem() != a.buf
    {
      if a.big != null && b.big != null {
        var i :| Holds(a, i);
        var j :| Holds(b, j);
      }
    }

    /** A pool buffer is free to a stream without one exactly when fewer than all
        of them are held by others; a stream that holds one is never shut out. */
    lemma FreeIff(a: Asm)
      requires Valid() && a in asms
      ensures a.big != null ==> |Others(a)| < POOL
      ensures a.big == null ==> (SomeFree() <==> |Others(a)| < POOL)
    {
      if |Others(a)| >= POOL {
        AllHeld(a);
      } else if a.big == null && !SomeFree() {
        assert owner[0].big == pool[0] && owner[1].big == pool[1];
        TwoInside(owner[0], owner[1], Others(a));
      }
    }

    lemma AllHeld(a: Asm)
      requires Valid() && a in asms && |Others(a)| >= POOL
      ensures a.big == null && !SomeFree()
    {
      var b :| b in Others(a);
      assert |Others(a) - {b}| >= 1;
      var c :| c in Others(a) - {b};
      var i :| Holds(b, i);
      var j :| Holds(c, j);
      assert forall k :: !Holds(a, k);
    }

    /** As many streams as pool buffers can be on long messages at once. */
    lemma RoomForEach(a: Asm, large: set<Asm>)
      requires a in large && |large| <= POOL && forall b :: b in asms && b !in large ==> b.big == null
      ensures Limit(a) == BIG
    {
      SubsetSize(Others(a), large - {a});
    }

    /** Gives a the first pool buffer that is free; false when all are taken. */
    method Lease(a: Asm) returns (ok: bool)
      requires Valid() && a in asms && a.big == null
      modifies this`owner, a`n, a`at, a`big, pool
      ensures Valid() && a.Rest() == old(a.Rest()) && Others(a) == old(Others(a))
      ensures ok <==> a.big != null
      ensures ok <==> old(SomeFree())
      ensures Elsewhere(a) == old(Elsewhere(a))
    {
      for i := 0 to POOL
        invariant Valid() && a.big == null && a.Rest() == old(a.Rest()) && owner == old(owner)
        invariant forall j :: 0 <= j < i ==> !SlotFree(j)
        invariant Elsewhere(a) == old(Elsewhere(a))
      {
        if SlotFree(i) {
          LeaseSlot(a, i);
          return true;
        }
      }
      return false;
    }

    method LeaseSlot(a: Asm, i: nat)
      requires Valid() && a in asms && a.big == null && i < POOL && SlotFree(i)
      modifies this`owner, a`n, a`at, a`big, pool[i]
      ensures Valid() && a.Rest() == old(a.Rest()) && Holds(a, i) && Others(a) == old(Others(a))
      ensures Elsewhere(a) == old(Elsewhere(a))
    {
      hide Hub.Elsewhere, Hub.Others;
      forall b | b in asms && b != a ensures b.Mem() != pool[i] {
        if b.big != null {
          var j :| Holds(b, j);
        }
      }
      a.Compact(pool[i]);
      a.big := pool[i];
      ghost var was := owner;
      owner := owner[i := a];
      assert Holds(a, i);
      forall b | b in asms && b.big != null && b != a ensures exists j :: Holds(b, j) {
        var j :| 0 <= j < POOL && was[j] == b && b.big == pool[j];
        assert Holds(b, j);
      }
      SameElsewhere(a);
    }

    /** Delivers bytes to one stream; the others keep theirs. */
    method Push(vi: bool, a: Asm, data: seq<u8>) returns (left: seq<u8>)
      requires Valid() && a in asms && a.Calm(vi)
      modifies a, a.buf, pool
      ensures Valid() && a.Tame(vi) && Others(a) == old(Others(a))
      ensures Took(data, left, old(a.skip), a.skip, old(a.Rest()), a.Rest())
      ensures data != [] ==> |left| < |data|
      ensures old(a.big) == null ==> a.big == null
      ensures Elsewhere(a) == old(Elsewhere(a))
    {
      hide Quiet, Long;
      NotBuf(a);
      forall b | b in asms && b != a ensures a.Mem() != b.Mem() && b.Mem() != a.buf {
        NoSharing(a, b);
      }
      ghost var was, cap := a.Rest(), a.Cap();
      QuietIsShort(vi, was, cap);
      left := a.Push(data);
      if |was| > HDR_MAX { QuietIsLong(vi, cap, was, a.Rest()[|was|..]); }
      Keeps(a);
    }

    lemma NotBuf(a: Asm)
      requires Valid() && a in asms
      ensures a.big != a.buf && (a.big != null ==> a.big in pool)
    {
      if a.big != null {
        var i :| Holds(a, i);
      }
    }

    /** The slot a stream holds. */
    ghost function HeldSlot(a: Asm): (i: nat)
      requires Valid() && a in asms && a.big != null
      reads this, asms
      ensures Holds(a, i)
    {
      var i :| Holds(a, i);
      i
    }

    /** Unlease, with the other streams left alone. */
    method Settle(a: Asm)
      requires Valid() && a in asms
      modifies a`n, a`at, a`big, a.buf
      ensures Valid() && a.Shape() && a.Rest() == old(a.Rest()) && a.skip == old(a.skip) && Others(a) == old(Others(a))
      ensures a.big == if |a.Rest()| <= HDR_MAX then null else old(a.big)
      ensures Elsewhere(a) == old(Elsewhere(a))
    {
      NotBuf(a);
      forall b | b in asms && b != a ensures b.Mem() != a.buf {
        NoSharing(a, b);
      }
      a.Unlease();
      Keeps(a);
    }

    /** Drops k of a's unread bytes. */
    method Advance(a: Asm, k: nat)
      requires Valid() && a in asms && k <= a.n - a.at
      modifies a`at
      ensures Valid() && a.Shape() && a.Rest() == old(a.Rest())[k..] && Others(a) == old(Others(a))
      ensures Elsewhere(a) == old(Elsewhere(a))
    {
      a.at := a.at + k;
      Keeps(a);
    }

    /** Passes over a message: what there is of it is dropped, the rest owed. */
    method SkipHead(a: Asm, total: nat)
      requires Valid() && a in asms && 0 < total && a.skip == 0
      modifies a`at, a`skip
      ensures Valid() && Others(a) == old(Others(a))
      ensures var k := Min(total, |old(a.Rest())|);
              0 <= k && a.Rest() == old(a.Rest())[k..] && a.skip == total - k
      ensures Elsewhere(a) == old(Elsewhere(a))
    {
      var held := Min(total, a.n - a.at);
      a.at, a.skip := a.at + held, total - held;
      Keeps(a);
    }

    /** Gives the message at a's head room, or passes it over: exactly when its
        Length is over the limit, or it needs a pool buffer and none is free. */
    method Fit(vi: bool, a: Asm) returns (fault: Option<Reason>)
      requires Valid() && a in asms && a.skip == 0 && a.Tame(vi)
      modifies this`owner, a`n, a`at, a`big, a`skip, pool
      ensures Valid() && a.Shape() && Others(a) == old(Others(a))
      ensures fault == Refusal(vi, if old(SomeFree()) then BIG else old(a.Cap()), old(a.Rest()))
      ensures fault == Refusal(vi, old(Limit(a)), old(a.Rest()))
      ensures fault.None? ==> a.skip == 0 && a.Rest() == old(a.Rest()) && Refusal(vi, a.Cap(), a.Rest()).None?
      ensures Refusal(vi, INLINE, old(a.Rest())).None? ==> a.big == old(a.big)
      ensures fault.Some? ==> Popped(vi, old(Limit(a)), old(a.Rest()), Some(Skipped(fault.value)), a.Rest(), a.skip)
      ensures Elsewhere(a) == old(Elsewhere(a))
    {
      hide Header;
      FreeIff(a);
      var rest := a.Mem()[a.at..a.n];
      var h := Header(vi, rest);
      HeaderBound(vi, rest);
      if h.None? {
        return None;
      }
      var (_, len, from) := h.value;
      var total := from + Min(len, 0x4000_0000_0000_0000);
      fault := if len > MAX_MSG_LEN then Some(OverCap) else None;
      if fault.None? && total > a.Cap() {
        var ok := Lease(a);
        fault := if ok then None else Some(NoPool);
      }
      if fault.Some? {
        RefusedOwes(vi, Limit(a), rest);
        SkipHead(a, total);
      }
    }

    /** One message off a's head, handed on or passed over; None until it is all
        there. */
    method Pop(vi: bool, a: Asm) returns (r: Option<Event>)
      requires Valid() && a in asms && a.Tame(vi)
      modifies this`owner, a, a.buf, pool
      ensures Valid() && Others(a) == old(Others(a))
      ensures old(a.skip) > 0 ==> r.None? && a.Rest() == old(a.Rest()) && a.skip == old(a.skip)
      ensures old(a.skip) == 0 ==> Popped(vi, old(Limit(a)), old(a.Rest()), r, a.Rest(), a.skip)
      ensures old(a.big) == null && Refusal(vi, INLINE, old(a.Rest())).None? ==> a.big == null
      ensures if r.Some? && r.value.Handed? then a.Tame(vi) && a.skip == 0 && |a.Rest()| < |old(a.Rest())| else a.Calm(vi)
      ensures Elsewhere(a) == old(Elsewhere(a))
    {
      hide Header, Refusal, Complete, First, SkipLen, Long, Hub.Valid, Hub.Elsewhere, Hub.Others, Hub.Holds;
      Settle(a);
      NothingIsQuiet(vi, a.Cap());
      if a.skip > 0 {
        return None;
      }
      var fault := Fit(vi, a);
      NothingIsQuiet(vi, a.Cap());
      if fault.Some? {
        return Some(Skipped(fault.value));
      }
      var rest := a.Mem()[a.at..a.n];
      if !Complete(vi, rest) {
        return None;
      }
      TakenIsTame(vi, rest);
      Advance(a, Cut(vi, rest));
      return Some(Handed(First(vi, rest)));
    }

    /** Takes every complete message a holds, up to one passed over. */
    method Drain(vi: bool, a: Asm) returns (events: seq<Event>)
      requires Valid() && a in asms && a.Tame(vi)
      modifies this`owner, a, a.buf, pool
      ensures Valid() && a.Calm(vi) && Others(a) == old(Others(a))
      ensures Outcome(events, a.Rest(), a.skip)
           == if old(a.skip) > 0 then Outcome([], old(a.Rest()), old(a.skip))
              else Reassemble(vi, old(Limit(a)), old(a.Rest()))
      ensures old(a.big) == null && old(a.skip) == 0 && Sized(vi, INLINE, old(a.Rest())) ==> a.big == null
      ensures Elsewhere(a) == old(Elsewhere(a))
    {
      hide Header, Refusal, Complete, First, SkipLen, Reassemble, Popped, Quiet, Long, Behind, Sized, Hub.Valid, Hub.Others, Hub.Elsewhere;
      events := [];
      ghost var was, limit := a.Rest(), Limit(a);
      ghost var small := a.big == null && a.skip == 0 && Sized(vi, INLINE, was);
      BehindTwice([], [], Reassemble(vi, limit, was));
      var r := Pop(vi, a);
      if old(a.skip) == 0 { PoppedIs(vi, limit, [], was, r, a.Rest(), a.skip); }
      if small { PoppedSized(vi, limit, was, r, a.Rest(), a.skip); }
      while r.Some? && r.value.Handed?
        invariant Valid() && Others(a) == old(Others(a))
        invariant a.Shape()
        invariant small ==> a.big == null && (r.Some? && r.value.Handed? ==> Sized(vi, INLINE, a.Rest()))
        invariant old(a.skip) > 0 ==> r.None? && events == [] && a.Rest() == was && a.skip == old(a.skip)
        invariant old(a.skip) == 0 ==> Reassemble(vi, limit, was) == Pending(vi, limit, events, r, a.Rest(), a.skip)
        invariant if r.Some? && r.value.Handed? then a.Tame(vi) && a.skip == 0 else a.Calm(vi)
        invariant Elsewhere(a) == old(Elsewhere(a))
        decreases r.Some? && r.value.Handed?, |a.Rest()|
      {
        events := events + [r.value];
        ghost var mid := a.Rest();
        r := Pop(vi, a);
        PoppedIs(vi, limit, events, mid, r, a.Rest(), a.skip);
        if small { PoppedSized(vi, limit, mid, r, a.Rest(), a.skip); }
      }
      if r.Some? {
        events := events + [r.value];
      }
    }

    /** Pushes what fits and drains it: at least a byte of data goes. */
    method Round(vi: bool, a: Asm, data: seq<u8>) returns (left: seq<u8>, events: seq<Event>)
      requires Valid() && a in asms && a.Calm(vi)
      modifies this`owner, a, a.buf, pool
      ensures Valid() && a.Calm(vi) && Others(a) == old(Others(a))
      ensures |left| <= |data| && left == data[|data| - |left|..] && (data != [] ==> |left| < |data|)
      ensures Outcome(events, a.Rest(), a.skip)
           == Resume(vi, old(Limit(a)), old(a.Rest()), old(a.skip), data[..|data| - |left|])
      ensures old(a.big) == null && old(a.skip) == 0 && Sized(vi, INLINE, old(a.Rest()) + data) ==>
                a.big == null && a.skip == 0 && Sized(vi, INLINE, a.Rest() + left)
      ensures Elsewhere(a) == old(Elsewhere(a))
    {
      hide Reassemble, Resume, Quiet, Long, Sized, Hub.Valid, Hub.Others, Hub.Elsewhere;
      ghost var was, owed := a.Rest(), a.skip;
      ghost var small := a.big == null && owed == 0 && Sized(vi, INLINE, was + data);
      left := Push(vi, a, data);
      ghost var now, owed' := a.Rest(), a.skip;
      if small { TookSized(vi, Limit(a), data, left, was, now); }
      events := Drain(vi, a);
      TookResumes(vi, Limit(a), data, left, owed, owed', was, now, Outcome(events, a.Rest(), a.skip));
    }

    /** One delivery: its messages are handed on and passed over as if the stream
        came at once, room being what the other streams leave of the pool. */
    method Dispatch(vi: bool, a: Asm, data: seq<u8>) returns (events: seq<Event>)
      requires Valid() && a in asms && a.Calm(vi)
      modifies this`owner, a, a.buf, pool
      ensures Valid() && a.Calm(vi) && Others(a) == old(Others(a))
      ensures Outcome(events, a.Rest(), a.skip) == Resume(vi, old(Limit(a)), old(a.Rest()), old(a.skip), data)
      ensures old(a.big) == null && old(a.skip) == 0 && Sized(vi, INLINE, old(a.Rest()) + data) ==> a.big == null
      ensures Elsewhere(a) == old(Elsewhere(a))
    {
      hide Reassemble, Resume, Quiet, Long, Behind, Sized, Hub.Valid, Hub.Others, Hub.Elsewhere;
      ghost var was, owed, limit := a.Rest(), a.skip, Limit(a);
      ghost var small := a.big == null && owed == 0 && Sized(vi, INLINE, was + data);
      var left;
      left, events := Round(vi, a, data);
      while left != []
        invariant Valid() && a.Calm(vi) && Others(a) == old(Others(a))
        invariant |left| <= |data| && left == data[|data| - |left|..]
        invariant small ==> a.big == null && a.skip == 0 && Sized(vi, INLINE, a.Rest() + left)
        invariant Outcome(events, a.Rest(), a.skip) == Resume(vi, limit, was, owed, data[..|data| - |left|])
        invariant Elsewhere(a) == old(Elsewhere(a))
        decreases |left|
      {
        ghost var mid, before := Outcome(events, a.Rest(), a.skip), left;
        var more;
        left, more := Round(vi, a, left);
        events := events + more;
        ghost var x, y := data[..|data| - |before|], before[..|before| - |left|];
        assert x + y == data[..|data| - |left|];
        ResumeNext(vi, limit, was, owed, x, y, mid, Outcome(more, a.Rest(), a.skip));
      }
      assert data[..|data|] == data;
    }

    lemma CalmIsQuiet(vi: bool, a: Asm)
      requires Valid() && a in asms && a.Calm(vi)
      ensures Quiet(vi, Limit(a), a.Rest())
    {
      hide Header;
      FreeIff(a);
    }

    /** However a stream is split into deliveries, its messages are handed on and
        passed over as if it came at once. None is passed over exactly when each
        can be given room; they are then the stream's framing. */
    method DispatchEach(vi: bool, a: Asm, chunks: seq<seq<u8>>) returns (events: seq<Event>)
      requires Valid() && a in asms && a.Calm(vi)
      modifies this`owner, a, a.buf, pool
      ensures Valid() && a.Calm(vi) && Others(a) == old(Others(a))
      ensures Outcome(events, a.Rest(), a.skip)
           == Resume(vi, old(Limit(a)), old(a.Rest()), old(a.skip), Concat(chunks))
      ensures old(a.skip) == 0 ==>
                var all := old(a.Rest()) + Concat(chunks);
                && (NoneSkipped(events) <==> Sized(vi, old(Limit(a)), all))
                && (NoneSkipped(events) ==> a.skip == 0 && Framed(Msgs(events), a.Rest()) == Frames(vi, all))
      ensures Elsewhere(a) == old(Elsewhere(a))
    {
      hide Reassemble, Resume, Quiet, Long, Behind, Frames, NoneSkipped, Msgs, Sized, Hub.Valid, Hub.Others, Hub.Elsewhere;
      ghost var was, owed, limit := a.Rest(), a.skip, Limit(a);
      events := [];
      CalmIsQuiet(vi, a);
      ResumeNothing(vi, limit, was, owed);
      for k := 0 to |chunks|
        invariant Valid() && a.Calm(vi) && Others(a) == old(Others(a))
        invariant Outcome(events, a.Rest(), a.skip) == Resume(vi, limit, was, owed, Concat(chunks[..k]))
        invariant Elsewhere(a) == old(Elsewhere(a))
      {
        ghost var mid := Outcome(events, a.Rest(), a.skip);
        var more := Dispatch(vi, a, chunks[k]);
        events := events + more;
        ConcatNext(chunks, k);
        ResumeNext(vi, limit, was, owed, Concat(chunks[..k]), chunks[k], mid, Outcome(more, a.Rest(), a.skip));
      }
      assert chunks[..|chunks|] == chunks;
      if owed == 0 { WholeStream(vi, limit, was, Concat(chunks)); }
    }

    /** Messages sent one after the other and delivered in any pieces to a stream
        that holds nothing: each of at most 65535 bytes is handed on as it was sent,
        but while two other streams hold the pool buffers only those of 1042 bytes
        with their header. The others are passed over, and nothing with them. */
    method DispatchMessages(vi: bool, a: Asm, chunks: seq<seq<u8>>, ghost ms: seq<Msg>) returns (events: seq<Event>)
      requires Valid() && a in asms && a.Shape() && a.skip == 0 && a.Rest() == []
      requires Sendable(vi, ms) && Concat(chunks) == Sent(vi, ms)
      modifies this`owner, a, a.buf, pool
      ensures Valid() && a.Shape() && a.skip == 0 && a.Rest() == [] && Elsewhere(a) == old(Elsewhere(a))
      ensures events == EventsOf(vi, if old(|Others(a)|) < 2 then 65553 else 1042, ms)
    {
      hide Reassemble, Quiet, Sized, Frames, NoneSkipped, Msgs, Sent, EventsOf, Hub.Valid, Hub.Elsewhere, Hub.Others;
      NothingIsQuiet(vi, a.Cap());
      ghost var limit := Limit(a);
      events := DispatchEach(vi, a, chunks);
      ghost var stream := Concat(chunks);
      assert [] + stream[0..] == stream;
      SentThrough(vi, limit, ms);
    }

    /** One delivery while no more streams than there are pool buffers carry
        messages past the inline buffer: the pool refuses none. */
    method Deliver(vi: bool, a: Asm, data: seq<u8>, ghost large: set<Asm>) returns (events: seq<Event>)
      requires Valid() && a in asms && a.Calm(vi)
      requires |large| <= POOL && forall b :: b in asms && b !in large ==> b.big == null
      requires a !in large ==> a.skip == 0 && Sized(vi, INLINE, a.Rest() + data)
      modifies this`owner, a, a.buf, pool
      ensures Valid() && a in old(All()) && a in All() && All() == old(All())[a := All()[a]]
      ensures Came(vi, old(All())[a], All()[a], data, events) && (a !in large ==> !All()[a].pooled)
    {
      hide Reassemble, Resume, Quiet, Sized, Hub.Valid, Hub.Others, Hub.All, Hub.Elsewhere;
      if a in large { RoomForEach(a, large); } else { SizedResume(vi, Limit(a), a.Rest(), data); }
      ElsewhereAll(a);
      events := Dispatch(vi, a, data);
      ElsewhereAll(a);
    }

    lemma ElsewhereAll(a: Asm)
      requires Valid() && a in asms
      ensures a in All() && All() == Elsewhere(a)[a := Held(a.Rest(), a.skip, a.big != null)]
    {
    }

    /** Deliveries to many streams in any order. While at most as many of them as
        there are pool buffers carry messages past the inline buffer, each comes
        to what it comes to alone, passed over only for its Length. */
    method Serve(vis: map<Asm, bool>, ds: seq<(Asm, seq<u8>)>, ghost large: set<Asm>)
      returns (log: seq<(Asm, seq<Event>)>)
      requires Valid() && |large| <= POOL && forall k :: 0 <= k < |ds| ==> ds[k].0 in asms
      requires All().Keys <= vis.Keys && forall a :: a in All() ==> Settled(vis[a], All()[a])
      requires forall a :: a in All() && a !in large ==>
                 !All()[a].pooled && All()[a].owed == 0 && Sized(vis[a], INLINE, All()[a].rest + Of(a, ds))
      modifies this`owner, asms, set a | a in asms :: a.buf, pool
      ensures Valid() && All().Keys == old(All()).Keys
      ensures forall a :: a in All() ==>
                && Settled(vis[a], All()[a])
                && Outcome(Of(a, log), All()[a].rest, All()[a].owed)
                   == Resume(vis[a], BIG, old(All())[a].rest, old(All())[a].owed, Of(a, ds))
    {
      hide Reassemble, Resume, Quiet, Sized, Hub.Valid, Hub.Others, Hub.All, Of;
      log := [];
      ghost var was := All();
      RunBegin(vis, was, large);
      for k := 0 to |ds|
        invariant Valid() && asms == old(asms) && ds[..0] == []
        invariant Run(vis, was, All(), ds[..k], log, large)
      {
        var (a, data) := ds[k];
        ServeStep(vis, was, a, data, ds, k, log, large);
        ghost var now := All();
        var events := Deliver(vis[a], a, data, large);
        assert ds[..k + 1] == ds[..k] + [(a, data)];
        RunNext(vis, was, now, ds[..k], log, large, a, data, events, All()[a]);
        log := log + [(a, events)];
      }
      assert ds[..|ds|] == ds;
    }

    lemma ServeStep(
      vis: map<Asm, bool>, was: map<Asm, Held>, a: Asm, data: seq<u8>, ds: seq<(Asm, seq<u8>)>, k: nat,
      log: seq<(Asm, seq<Event>)>, large: set<Asm>)
      requires Valid() && a in asms && k < |ds| && ds[k] == (a, data) && Run(vis, was, All(), ds[..k], log, large)
      requires a in was && a !in large ==> was[a].owed == 0 && Sized(vis[a], INLINE, was[a].rest + Of(a, ds))
      ensures a in vis && a.Calm(vis[a]) && forall b :: b in asms && b !in large ==> b.big == null
      ensures a !in large ==> a.skip == 0 && Sized(vis[a], INLINE, a.Rest() + data)
    {
      hide Reassemble, Resume, Quiet, Sized, Of;
      OfPrefix(a, ds, k);
      if a !in large {
        NextSized(vis[a], was[a].rest, Of(a, ds[..k]), data, Of(a, ds), Outcome(Of(a, log), a.Rest(), a.skip));
      }
    }
  }
}
