/** The window that tells a repeated Request ID from a new one. */
module RequestIds {
  const SLOTS: nat := 64

  /** seen[k] stands for bit k: the even ID base + 2k was used. */
  datatype Window = Window(base: nat, seen: seq<bool>)

  predicate Shaped(w: Window) {
    w.base % 2 == 0 && |w.seen| == SLOTS
  }

  function Empty(n: nat): (s: seq<bool>)
    ensures |s| == n && forall k :: 0 <= k < n ==> !s[k]
  {
    seq(n, _ => false)
  }

  /** The bitmap shifted down by n places. */
  function Shift(s: seq<bool>, n: nat): (t: seq<bool>)
    ensures |t| == |s|
    ensures forall k :: 0 <= k < |s| ==> t[k] == if k + n < |s| then s[k + n] else false
  {
    if n < |s| then s[n..] + Empty(n) else Empty(|s|)
  }

  /** The window slid up so that rid is in it. */
  function Slid(w: Window, rid: nat): (v: Window)
    requires Shaped(w) && rid % 2 == 0 && rid >= w.base
    ensures Shaped(v) && v.base <= rid && (rid - v.base) / 2 < SLOTS
  {
    var k := (rid - w.base) / 2;
    if k < SLOTS then w else Window(w.base + 2 * (k - 63), Shift(w.seen, k - 63))
  }

  /** Used IDs the window starts with. */
  function Leading(s: seq<bool>): (n: nat)
    ensures n <= |s| && (forall k :: 0 <= k < n ==> s[k]) && (n < |s| ==> !s[n])
  {
    if s == [] || !s[0] then 0 else 1 + Leading(s[1..])
  }

  /** The window without its leading used IDs. */
  function Settled(w: Window): (v: Window)
    requires Shaped(w)
    ensures Shaped(v)
  {
    var n := Leading(w.seen);
    Window(w.base + 2 * n, Shift(w.seen, n))
  }

  datatype Answer = Answer(bad: bool, w: Window)

  /** Whether rid is odd or repeated; if not, it is marked. */
  function Check(w: Window, rid: nat): (a: Answer)
    requires Shaped(w)
    ensures Shaped(a.w)
  {
    if rid % 2 == 1 || rid < w.base then Answer(true, w)
    else
      var v := Slid(w, rid);
      var k := (rid - v.base) / 2;
      if v.seen[k] then Answer(true, v)
      else Answer(false, Settled(v.(seen := v.seen[k := true])))
  }

  // ---- Against the set of used IDs ----

  /** used is every ID accepted so far and top the largest; an ID below the
      window that was never used lags top by 64 even IDs or more. */
  ghost predicate Tracks(w: Window, used: set<nat>, top: nat) {
    && Shaped(w) && top < w.base + 2 * SLOTS
    && (forall id :: id in used ==> id % 2 == 0 && id <= top)
    && (forall k :: 0 <= k < SLOTS ==> (w.seen[k] <==> w.base + 2 * k in used))
    && (forall id :: 0 <= id < w.base && id % 2 == 0 && id !in used ==> id + 2 * SLOTS <= top)
  }

  lemma SlidTracks(w: Window, used: set<nat>, top: nat, rid: nat)
    requires Tracks(w, used, top) && rid % 2 == 0 && rid >= w.base
    ensures Tracks(Slid(w, rid), used, if rid > top then rid else top)
  {
    var v := Slid(w, rid);
    SlidBits(w, used, top, rid);
    hide Shift;
    forall id | 0 <= id < v.base && id % 2 == 0 && id !in used
      ensures id + 2 * SLOTS <= if rid > top then rid else top
    {
      assert id < w.base || v.base <= rid - 126;
    }
  }

  lemma SlidBits(w: Window, used: set<nat>, top: nat, rid: nat)
    requires Tracks(w, used, top) && rid % 2 == 0 && rid >= w.base
    ensures forall k :: 0 <= k < SLOTS ==> (Slid(w, rid).seen[k] <==> Slid(w, rid).base + 2 * k in used)
  {
    var v := Slid(w, rid);
    var up := (v.base - w.base) / 2;
    forall k | 0 <= k < SLOTS ensures v.seen[k] <==> v.base + 2 * k in used {
      assert up + k < SLOTS ==> v.base + 2 * k == w.base + 2 * (up + k);
    }
  }

  lemma MarkTracks(w: Window, used: set<nat>, top: nat, k: nat)
    requires Tracks(w, used, top) && k < SLOTS && w.base + 2 * k <= top
    ensures Tracks(w.(seen := w.seen[k := true]), used + {w.base + 2 * k}, top)
  {
  }

  /** A window moved up by n slots keeps its bits. */
  lemma ShiftTracks(w: Window, used: set<nat>, top: nat, n: nat, k: nat)
    requires Tracks(w, used, top) && k < SLOTS && n <= SLOTS
    ensures Shift(w.seen, n)[k] <==> w.base + 2 * n + 2 * k in used
  {
    var id := w.base + 2 * (n + k);
    assert id == w.base + 2 * n + 2 * k;
    if n + k < SLOTS {
      assert w.seen[n + k] <==> id in used;
    }
  }

  lemma LeadingUsed(w: Window, used: set<nat>, top: nat, id: nat)
    requires Tracks(w, used, top) && w.base <= id < w.base + 2 * Leading(w.seen) && id % 2 == 0
    ensures id in used
  {
    var k := (id - w.base) / 2;
    assert w.seen[k] && id == w.base + 2 * k;
  }

  lemma SettledTracks(w: Window, used: set<nat>, top: nat)
    requires Tracks(w, used, top)
    ensures Tracks(Settled(w), used, top)
  {
    hide Shift, Leading;
    var n, v := Leading(w.seen), Settled(w);
    forall k | 0 <= k < SLOTS ensures v.seen[k] <==> v.base + 2 * k in used {
      ShiftTracks(w, used, top, n, k);
    }
    forall id | w.base <= id < v.base && id % 2 == 0 ensures id in used {
      LeadingUsed(w, used, top, id);
    }
  }

  /** One check: an ID is refused exactly when it is odd, used, or lags the
      largest by 64 even IDs or more. */
  lemma CheckTracks(w: Window, used: set<nat>, top: nat, rid: nat)
    requires Tracks(w, used, top)
    ensures var a := Check(w, rid);
            var now := if rid > top && !a.bad then rid else top;
            && Tracks(a.w, if a.bad then used else used + {rid}, now)
            && (a.bad <==> rid % 2 == 1 || rid in used || rid + 128 <= top)
  {
    hide Slid, Settled, Tracks;
    BaseTells(w, used, top, rid);
    if rid % 2 == 0 && rid >= w.base {
      var max := if rid > top then rid else top;
      var v := Slid(w, rid);
      var k := (rid - v.base) / 2;
      SlidTracks(w, used, top, rid);
      SeenTells(v, used, max, k, rid);
      if !v.seen[k] {
        MarkTracks(v, used, max, k);
        SettledTracks(v.(seen := v.seen[k := true]), used + {rid}, max);
      }
    }
  }

  /** Below the window, an even ID was used or lags; in it, none lags. */
  lemma BaseTells(w: Window, used: set<nat>, top: nat, rid: nat)
    requires Tracks(w, used, top)
    ensures Shaped(w) && (rid in used ==> rid <= top)
    ensures if rid < w.base then rid % 2 == 0 ==> rid in used || rid + 2 * SLOTS <= top else rid + 2 * SLOTS > top
  {
  }

  lemma SeenTells(v: Window, used: set<nat>, top: nat, k: nat, rid: nat)
    requires Tracks(v, used, top) && k < SLOTS && k == (rid - v.base) / 2 && rid >= v.base && rid % 2 == 0
    ensures Shaped(v) && v.base + 2 * k == rid && (v.seen[k] <==> rid in used)
  {
  }

  // ---- Runs ----

  /** The IDs accepted, in order, of a sequence checked one by one. */
  function Accepted(w: Window, rids: seq<nat>): seq<nat>
    requires Shaped(w)
    decreases |rids|
  {
    if rids == [] then []
    else
      var a := Check(w, rids[0]);
      (if a.bad then [] else [rids[0]]) + Accepted(a.w, rids[1..])
  }

  /** What an unbounded set of used IDs accepts. */
  function AcceptedBySet(used: set<nat>, rids: seq<nat>): seq<nat>
    decreases |rids|
  {
    if rids == [] then []
    else if rids[0] % 2 == 1 || rids[0] in used then AcceptedBySet(used, rids[1..])
    else [rids[0]] + AcceptedBySet(used + {rids[0]}, rids[1..])
  }

  lemma {:induction false} AcceptedNew(w: Window, used: set<nat>, top: nat, rids: seq<nat>)
    requires Tracks(w, used, top)
    ensures forall i :: 0 <= i < |Accepted(w, rids)| ==>
                          Accepted(w, rids)[i] !in used && Accepted(w, rids)[i] + 2 * SLOTS > top
    ensures forall i, j :: 0 <= i < j < |Accepted(w, rids)| ==> Accepted(w, rids)[i] != Accepted(w, rids)[j]
    decreases |rids|
  {
    if rids != [] {
      hide Check;
      CheckTracks(w, used, top, rids[0]);
      var a := Check(w, rids[0]);
      var now := if rids[0] > top && !a.bad then rids[0] else top;
      AcceptedNew(a.w, if a.bad then used else used + {rids[0]}, now, rids[1..]);
    }
  }

  /** No ID is ever accepted twice. */
  lemma NeverTwice(rids: seq<nat>)
    ensures var w := Window(0, Empty(SLOTS));
            forall i, j :: 0 <= i < j < |Accepted(w, rids)| ==> Accepted(w, rids)[i] != Accepted(w, rids)[j]
  {
    AcceptedNew(Window(0, Empty(SLOTS)), {}, 0, rids);
  }

  /** Each new even ID lags the largest accepted by fewer than 64 even IDs. */
  predicate KeepsUp(used: set<nat>, top: nat, rids: seq<nat>)
    decreases |rids|
  {
    rids == [] ||
    var r := rids[0];
    if r % 2 == 1 || r in used then KeepsUp(used, top, rids[1..])
    else r + 128 > top && KeepsUp(used + {r}, if r > top then r else top, rids[1..])
  }

  lemma {:induction false} WindowIsSetIff(w: Window, used: set<nat>, top: nat, rids: seq<nat>)
    requires Tracks(w, used, top)
    ensures Accepted(w, rids) == AcceptedBySet(used, rids) <==> KeepsUp(used, top, rids)
    decreases |rids|
  {
    if rids != [] {
      hide Check;
      var r, a, rest := rids[0], Check(w, rids[0]), rids[1..];
      CheckTracks(w, used, top, r);
      var now := if r > top && !a.bad then r else top;
      if a.bad && r % 2 == 0 && r !in used {
        AcceptedNew(w, used, top, rids);
        assert AcceptedBySet(used, rids)[0] == r;
      } else {
        var after := if a.bad then used else used + {r};
        WindowIsSetIff(a.w, after, now, rest);
        if !a.bad { SameHead(r, Accepted(a.w, rest), AcceptedBySet(after, rest)); }
      }
    }
  }

  lemma SameHead(r: nat, x: seq<nat>, y: seq<nat>)
    ensures [r] + x == [r] + y <==> x == y
  {
    assert ([r] + x)[1..] == x && ([r] + y)[1..] == y;
  }

  /** The window answers like a set of every ID used exactly while no new ID
      falls 64 behind. */
  lemma AnswersLikeSetIff(rids: seq<nat>)
    ensures Accepted(Window(0, Empty(SLOTS)), rids) == AcceptedBySet({}, rids) <==> KeepsUp({}, 0, rids)
  {
    WindowIsSetIff(Window(0, Empty(SLOTS)), {}, 0, rids);
  }

  // ---- In place ----

  class Peer {
    var base: nat
    var seen: seq<bool>

    ghost function Value(): Window
      reads this
    {
      Window(base, seen)
    }

    constructor ()
      ensures Value() == Window(0, Empty(SLOTS))
    {
      base, seen := 0, Empty(SLOTS);
    }

    /** Brings rid into the window and says at which place. */
    method Slot(rid: nat) returns (k: nat)
      requires Shaped(Value()) && rid % 2 == 0 && rid >= base
      modifies this
      ensures Value() == Slid(old(Value()), rid) && k == (rid - base) / 2
    {
      k := (rid - base) / 2;
      if k < SLOTS {
        return;
      }
      var up := k - 63;
      seen := Shift(seen, up);
      base := base + up * 2;
      k := 63;
    }

    method Settle()
      requires Shaped(Value())
      modifies this
      ensures Value() == Settled(old(Value()))
    {
      ghost var s, i := seen, 0;
      while seen[0]
        invariant |seen| == |s| == SLOTS && i <= Leading(s)
        invariant base == old(base) + 2 * i && seen == Shift(s, i)
        decreases Leading(s) - i
      {
        assert seen[0] == if i < SLOTS then s[i] else false;
        var next := Shift(seen, 1);
        assert next == Shift(s, i + 1);
        seen := next;
        base := base + 2;
        i := i + 1;
      }
      assert i == Leading(s);
    }

    /** Whether rid is odd or repeated; if not, it is marked. */
    method Bad(rid: nat) returns (bad: bool)
      requires Shaped(Value())
      modifies this
      ensures Answer(bad, Value()) == Check(old(Value()), rid)
    {
      hide Slid, Settled;
      if rid % 2 == 1 || rid < base {
        return true;
      }
      var k := Slot(rid);
      if seen[k] {
        return true;
      }
      seen := seen[k := true];
      Settle();
      return false;
    }
  }
}
