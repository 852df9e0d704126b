/** A FETCH in Descending order: group by group from the top of its range, each
    group walked forward. */
module CacheDescend {
  import opened Bytes
  import opened Locations
  import opened CacheRecord
  import opened CacheRuns
  import opened CacheLookup
  import opened CacheWalk
  import opened CacheOrder

  /** The group an exclusive end lies in. */
  function EndGroup(end: Loc): u64
    requires end != Loc(0, 0)
  {
    if end.obj != 0 then end.group else end.group - 1
  }

  /** Where the window below end starts in a range from lo. */
  function WindowStart(lo: Loc, end: Loc): Loc
    requires Less(lo, end)
  {
    if EndGroup(end) == lo.group then lo else Loc(EndGroup(end), 0)
  }

  lemma WindowFits(lo: Loc, end: Loc)
    requires Less(lo, end)
    ensures var g, from := EndGroup(end), WindowStart(lo, end);
            && lo.group <= g && !Less(from, lo) && Less(from, end) && from.group == g
            && (g < U64_MAX ==> !Less(Loc(g + 1, 0), end)) && end.group <= g + 1
            && (g != lo.group ==> from == Loc(g, 0) && Less(lo, from))
  {
  }

  /** The windows' walks, top group first. */
  ghost function WalkDown(recs: seq<Rec>, tag: u64, lo: Loc, end: Loc): seq<Stop>
    requires IdsInRange(recs) && Less(lo, end)
    decreases Pos(end)
  {
    WindowFits(lo, end);
    Walk(recs, tag, WindowStart(lo, end), end) + Below(recs, tag, lo, end)
  }

  /** What comes after the window below end. */
  ghost function Below(recs: seq<Rec>, tag: u64, lo: Loc, end: Loc): seq<Stop>
    requires IdsInRange(recs) && Less(lo, end)
    decreases Pos(end), 0
  {
    WindowFits(lo, end);
    PosOrders(WindowStart(lo, end), end);
    if EndGroup(end) == lo.group then [] else WalkDown(recs, tag, lo, Loc(EndGroup(end), 0))
  }

  /** What is still to come from cur on. */
  ghost function Ahead(recs: seq<Rec>, tag: u64, lo: Loc, cur: Loc, e: Loc): seq<Stop>
    requires IdsInRange(recs) && Less(lo, e) && !Less(e, cur)
  {
    Walk(recs, tag, cur, e) + Below(recs, tag, lo, e)
  }

  // ---- The server's loop ----

  /** The state once what lies before from is out: the window's cursor, or that of
      the next group down that has something to serve. */
  method Settle(recs: seq<Rec>, tag: u64, lo: Loc, from: Loc, end: Loc)
    returns (cursor: Loc, e: Loc, ghost cur: Loc)
    requires IdsInRange(recs) && Less(lo, end) && !Less(from, WindowStart(lo, end)) && !Less(end, from)
    ensures Less(lo, e) && !Less(cur, WindowStart(lo, e)) && !Less(e, cur) && cursor == Skip(recs, tag, cur, e)
    ensures Ahead(recs, tag, lo, from, end) == Ahead(recs, tag, lo, cur, e)
    ensures !Less(cursor, e) ==> Below(recs, tag, lo, e) == []
    ensures (e == end && cur == from) || Pos(e) < Pos(end)
  {
    hide Ahead, Walk, Below, Skip, Pos, IdsInRange, WindowStart;
    e, cur := end, from;
    cursor := Skip(recs, tag, from, e);
    while !Less(cursor, e) && EndGroup(e) != lo.group
      invariant Less(lo, e) && !Less(cur, WindowStart(lo, e)) && !Less(e, cur) && cursor == Skip(recs, tag, cur, e)
      invariant Ahead(recs, tag, lo, from, end) == Ahead(recs, tag, lo, cur, e)
      invariant (e == end && cur == from) || Pos(e) < Pos(end)
      decreases Pos(e)
    {
      StepDown(recs, tag, lo, cur, e);
      var g := EndGroup(e) - 1;
      var start := if g == lo.group then lo else Loc(g, 0);
      e := Loc(g + 1, 0);
      cursor := Skip(recs, tag, start, e);
      cur := start;
    }
    BelowNone(recs, tag, lo, e);
  }

  lemma StepDown(recs: seq<Rec>, tag: u64, lo: Loc, cur: Loc, e: Loc)
    requires IdsInRange(recs) && Less(lo, e) && EndGroup(e) != lo.group && !Less(e, cur)
    requires !Less(Skip(recs, tag, cur, e), e)
    ensures var next := Loc(EndGroup(e), 0);
            && EndGroup(e) > 0 && Less(lo, next) && Pos(next) < Pos(e)
            && WindowStart(lo, next) == (if EndGroup(e) - 1 == lo.group then lo else Loc(EndGroup(e) - 1, 0))
            && !Less(next, WindowStart(lo, next))
            && Ahead(recs, tag, lo, cur, e) == Ahead(recs, tag, lo, WindowStart(lo, next), next)
  {
    hide Walk, Skip;
    WalkStep(recs, tag, cur, e);
    WindowFits(lo, e);
    PosOrders(Loc(EndGroup(e), 0), e);
    WindowFits(lo, Loc(EndGroup(e), 0));
    assert Ahead(recs, tag, lo, cur, e) == Below(recs, tag, lo, e);
  }

  lemma BelowNone(recs: seq<Rec>, tag: u64, lo: Loc, e: Loc)
    requires IdsInRange(recs) && Less(lo, e)
    ensures EndGroup(e) == lo.group ==> Below(recs, tag, lo, e) == []
  {
  }

  /** The items a Descending FETCH sends, one by one. */
  method ServeDown(recs: seq<Rec>, tag: u64, lo: Loc, end: Loc) returns (w: seq<Stop>)
    requires IdsInRange(recs) && Less(lo, end)
    ensures w == WalkDown(recs, tag, lo, end)
  {
    hide Walk, Below, Skip, ItemAt, Pos, IdsInRange;
    WindowFits(lo, end);
    var cursor, e;
    ghost var cur;
    cursor, e, cur := Settle(recs, tag, lo, WindowStart(lo, end), end);
    w := [];
    while Less(cursor, e)
      invariant Less(lo, e) && !Less(cur, WindowStart(lo, e)) && !Less(e, cur) && cursor == Skip(recs, tag, cur, e)
      invariant w + Ahead(recs, tag, lo, cur, e) == WalkDown(recs, tag, lo, end)
      invariant !Less(cursor, e) ==> Below(recs, tag, lo, e) == []
      decreases Pos(e), Pos(e) - Pos(cur)
    {
      hide WalkDown;
      WalkStep(recs, tag, cur, e);
      var it := ItemAt(recs, tag, cursor, e);
      var st := Stop(cursor, it);
      Regroup(w, st, Walk(recs, tag, it.next, e), Below(recs, tag, lo, e));
      w := w + [st];
      cursor, e, cur := Settle(recs, tag, lo, it.next, e);
    }
    WalkStep(recs, tag, cur, e);
  }

  lemma Regroup(w: seq<Stop>, st: Stop, a: seq<Stop>, b: seq<Stop>)
    ensures w + (([st] + a) + b) == (w + [st]) + (a + b)
  {
  }

  // ---- What a Descending FETCH tells ----

  /** Every stop lies between lo and end, inside one group. */
  ghost predicate OneGroup(st: Stop, lo: Loc, end: Loc) {
    && !Less(st.from, lo) && Less(st.from, st.item.next) && !Less(end, st.item.next)
    && (st.item.next.group == st.from.group || st.item.next == Loc(st.from.group + 1, 0))
  }

  /** Groups fall from stop to stop, and inside a group the stops follow one
      another. */
  ghost predicate FollowDown(w: seq<Stop>, lo: Loc, end: Loc) {
    && (forall j :: 0 <= j < |w| ==> OneGroup(w[j], lo, end))
    && (forall j, k :: 0 <= j < k < |w| ==>
                         w[k].from.group < w[j].from.group ||
                         (w[k].from.group == w[j].from.group && !Less(w[k].from, w[j].item.next)))
  }

  lemma {:induction false} DownFollows(recs: seq<Rec>, tag: u64, lo: Loc, end: Loc)
    requires IdsInRange(recs) && Less(lo, end)
    ensures FollowDown(WalkDown(recs, tag, lo, end), lo, end)
    decreases Pos(end)
  {
    hide Walk, IdsInRange;
    var from, g := WindowStart(lo, end), EndGroup(end);
    WindowFits(lo, end);
    WalkFollows(recs, tag, from, end);
    WindowFollows(Walk(recs, tag, from, end), lo, from, end);
    if g != lo.group {
      PosOrders(from, end);
      DownFollows(recs, tag, lo, from);
      FollowsJoin(Walk(recs, tag, from, end), WalkDown(recs, tag, lo, from), lo, from, end);
    }
  }

  lemma WindowFollows(w: seq<Stop>, lo: Loc, from: Loc, end: Loc)
    requires Less(lo, end) && from == WindowStart(lo, end) && Follow(w, from, end)
    ensures FollowDown(w, lo, end) && forall j :: 0 <= j < |w| ==> w[j].from.group == from.group
  {
    WindowFits(lo, end);
    forall j | 0 <= j < |w| ensures OneGroup(w[j], lo, end) && w[j].from.group == from.group {
      assert !Less(w[j].from, from) && Less(w[j].from, w[j].item.next) && !Less(end, w[j].item.next);
    }
  }

  lemma FollowsJoin(top: seq<Stop>, low: seq<Stop>, lo: Loc, from: Loc, end: Loc)
    requires FollowDown(top, lo, end) && FollowDown(low, lo, from) && from.obj == 0 && Less(from, end)
    requires forall j :: 0 <= j < |top| ==> top[j].from.group == from.group
    ensures FollowDown(top + low, lo, end)
  {
    var w := top + low;
    forall j | 0 <= j < |low| ensures OneGroup(low[j], lo, end) && low[j].from.group < from.group {
      assert OneGroup(low[j], lo, from);
    }
    assert forall j :: 0 <= j < |w| ==> w[j] == if j < |top| then top[j] else low[j - |top|];
  }

  /** The end of the window a stop lies in. */
  function WindowEnd(st: Stop, end: Loc): Loc
    requires end != Loc(0, 0)
  {
    if st.from.group >= EndGroup(end) then end else Loc(st.from.group + 1, 0)
  }

  /** Each stop of a Descending walk is a held Object, or a range the cache cannot
      speak for that holds none and is as wide as its group allows. */
  lemma {:induction false} DownTells(recs: seq<Rec>, tag: u64, lo: Loc, end: Loc)
    requires LiveAscend(recs) && IdsInRange(recs) && Less(lo, end)
    ensures var w := WalkDown(recs, tag, lo, end);
            forall m :: 0 <= m < |w| ==> Tells(recs, tag, w[m], WindowEnd(w[m], end))
    decreases Pos(end)
  {
    hide Walk, IdsInRange, LiveAscend, Tells;
    var from, g := WindowStart(lo, end), EndGroup(end);
    WindowFits(lo, end);
    var top := Walk(recs, tag, from, end);
    WalkFollows(recs, tag, from, end);
    WindowFollows(top, lo, from, end);
    WalkTells(recs, tag, from, end);
    if g != lo.group {
      PosOrders(from, end);
      DownFollows(recs, tag, lo, from);
      DownTells(recs, tag, lo, from);
      var low := WalkDown(recs, tag, lo, from);
      forall m | 0 <= m < |low| ensures WindowEnd(low[m], from) == WindowEnd(low[m], end) {
        assert OneGroup(low[m], lo, from);
      }
    }
  }

  lemma AnsweredIn(s: State, a: seq<Stop>, w: seq<Stop>, b: seq<Stop>, k: nat, j: nat)
    requires k < |s.hist| && Answered(s, w, k, j)
    requires forall m :: 0 <= m < |a| ==> !InStop(a[m], At(s.hist[k]))
    requires forall m :: 0 <= m < |b| ==> !InStop(b[m], At(s.hist[k]))
    ensures Answered(s, a + w + b, k, |a| + j)
  {
    hide InStop;
    var all := a + w + b;
    assert all[|a| + j] == w[j];
    assert forall m :: 0 <= m < |all| ==>
                         all[m] == if m < |a| then a[m] else if m < |a| + |w| then w[m - |a|] else b[m - |a| - |w|];
  }

  /** Each appended Object in a range is answered by the Descending walk over it. */
  lemma {:induction false} DownAnswers(s: State, tag: u64, lo: Loc, end: Loc, k: nat) returns (j: nat)
    requires Readable(s) && Faithful(s, tag) && k < |s.hist| && s.hist[k].h.tag == tag
    requires Less(lo, end) && !Less(At(s.hist[k]), lo) && Less(At(s.hist[k]), end)
    ensures Answered(s, WalkDown(s.recs, tag, lo, end), k, j)
    decreases Pos(end)
  {
    hide Walk, Faithful, Answered, IdsInRange, LiveAscend, GroupsWhole, AllLive;
    var l, from := At(s.hist[k]), WindowStart(lo, end);
    WindowFits(lo, end);
    PosOrders(from, end);
    var top := Walk(s.recs, tag, from, end);
    WalkFollows(s.recs, tag, from, end);
    if !Less(l, from) {
      j := WalkAnswers(s, tag, from, end, k);
      NotBelow(s.recs, tag, lo, end, l);
      AnsweredIn(s, [], top, Below(s.recs, tag, lo, end), k, j);
      assert [] + top + Below(s.recs, tag, lo, end) == WalkDown(s.recs, tag, lo, end);
    } else {
      var m := DownAnswers(s, tag, lo, from, k);
      assert forall i :: 0 <= i < |top| ==> !InStop(top[i], l);
      var low := WalkDown(s.recs, tag, lo, from);
      AnsweredIn(s, top, low, [], k, m);
      assert top + low + [] == WalkDown(s.recs, tag, lo, end);
      j := |top| + m;
    }
  }

  lemma NotBelow(recs: seq<Rec>, tag: u64, lo: Loc, end: Loc, l: Loc)
    requires IdsInRange(recs) && Less(lo, end) && !Less(l, WindowStart(lo, end))
    ensures forall m :: 0 <= m < |Below(recs, tag, lo, end)| ==> !InStop(Below(recs, tag, lo, end)[m], l)
  {
    hide WalkDown, IdsInRange;
    WindowFits(lo, end);
    if EndGroup(end) != lo.group {
      var from := WindowStart(lo, end);
      DownFollows(recs, tag, lo, from);
      var w := WalkDown(recs, tag, lo, from);
      forall m | 0 <= m < |w| ensures !InStop(w[m], l) { assert OneGroup(w[m], lo, from); }
    }
  }

  /** After every run in which nothing expired, a Descending FETCH over any range
      tells, of each Object appended there, its payload or that it is unknown,
      once, and passes over none. */
  lemma CalmRunAnswersDown(ops: seq<Op>, cap: nat, tag: u64, lo: Loc, end: Loc, k: nat) returns (j: nat)
    requires Ordered(State([], []), ops, cap, true)
    requires var s := Run(State([], []), ops, cap);
             && k < |s.hist| && s.hist[k].h.tag == tag
             && Less(lo, end) && !Less(At(s.hist[k]), lo) && Less(At(s.hist[k]), end)
    ensures var s := Run(State([], []), ops, cap);
            Readable(s) && Answered(s, WalkDown(s.recs, tag, lo, end), k, j)
  {
    var s := Run(State([], []), ops, cap);
    RunOrder(State([], []), ops, cap, true);
    InOrderReadable(s, cap, true);
    CalmIsFaithful(s, cap, tag);
    j := DownAnswers(s, tag, lo, end, k);
  }
}
