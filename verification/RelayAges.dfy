/** How long the relay ring's eight marks tell ages exactly. */
module RelayAges {
  import opened Bytes
  import opened RelaySpec
  import opened RelayRuns

  /** When the bytes still held came. */
  function Times(w: World): set<nat> {
    set o | w.ring.head <= o < |w.came| :: w.came[o]
  }

  /** The times the marks tell. */
  function Told(marks: seq<Mark>): set<nat> {
    set k | 0 <= k < |marks| :: marks[k].ms
  }

  /** Marks past head, each of a later time and further on than the one before. */
  ghost predicate Even(head: nat, marks: seq<Mark>) {
    && (forall k :: 0 <= k < |marks| ==> head < marks[k].end)
    && (forall j, k :: 0 <= j < k < |marks| ==> marks[j].ms < marks[k].ms && marks[j].end < marks[k].end)
  }

  lemma {:induction false} ToldSize(head: nat, marks: seq<Mark>)
    requires Even(head, marks)
    ensures |Told(marks)| == |marks|
  {
    if marks != [] {
      var n := |marks| - 1;
      ToldSize(head, marks[..n]);
      assert Told(marks) == Told(marks[..n]) + {marks[n].ms} by {
        assert forall k :: 0 <= k < n ==> marks[..n][k] == marks[k];
      }
      assert marks[n].ms !in Told(marks[..n]);
    }
  }

  /** The last byte a mark covers. */
  lemma LastCovered(w: World, k: nat)
    requires Inv(w) && Even(w.ring.head, w.ring.marks) && k < |w.ring.marks|
    ensures var o := w.ring.marks[k].end - 1;
            w.ring.head <= o < |w.came| && MarkOf(w.ring.marks, o) == k
  {
    hide MarkOf, Served;
    MarkOfIs(w.ring.marks, w.ring.marks[k].end - 1, k);
  }

  /** While every age is exact, the marks tell the times of the held bytes, each
      once and no other. */
  lemma MarksAreTimes(w: World)
    requires Inv(w) && Even(w.ring.head, w.ring.marks) && !w.merged
    ensures Told(w.ring.marks) == Times(w) && |w.ring.marks| == |Times(w)|
  {
    hide Even, Served;
    var marks := w.ring.marks;
    forall k | 0 <= k < |marks| ensures marks[k].ms in Times(w) { ToldCame(w, k); }
    forall t | t in Times(w) ensures t in Told(marks) {
      var o :| w.ring.head <= o < |w.came| && w.came[o] == t;
      assert MarkTells(marks, w.came, w.merged, o);
    }
    ToldSize(w.ring.head, marks);
  }

  lemma ToldCame(w: World, k: nat)
    requires Inv(w) && Even(w.ring.head, w.ring.marks) && !w.merged && k < |w.ring.marks|
    ensures w.ring.marks[k].ms in Times(w)
  {
    hide Even, Served, MarkOf;
    LastCovered(w, k);
    assert MarkTells(w.ring.marks, w.came, w.merged, w.ring.marks[k].end - 1);
  }

  /** An arrival has to share a mark exactly when the bytes held came at eight other
      times. */
  lemma SharesIff(w: World, now: nat)
    requires Inv(w) && Even(w.ring.head, w.ring.marks) && !w.merged && w.clock <= now
    ensures (|w.ring.marks| == MARKS && w.ring.marks[MARKS - 1].ms != now) <==> |Times(w) - {now}| >= 8
  {
    var marks := w.ring.marks;
    MarksAreTimes(w);
    hide Inv, Times, Even;
    if now in Times(w) {
      assert |Times(w) - {now}| == |Times(w)| - 1;
    } else {
      assert Times(w) - {now} == Times(w);
    }
    SizeAndLast(w, now);
  }

  lemma LastIsLatest(w: World, k: nat)
    requires Inv(w) && Even(w.ring.head, w.ring.marks) && k < |w.ring.marks| - 1
    ensures w.ring.marks[k].ms < w.clock
  {
    hide Served, MarkTells;
    assert w.ring.marks[k].ms < w.ring.marks[|w.ring.marks| - 1].ms;
  }

  lemma SizeAndLast(w: World, now: nat)
    requires Inv(w) && Even(w.ring.head, w.ring.marks) && w.clock <= now
    ensures |w.ring.marks| <= MARKS
    ensures now in Told(w.ring.marks) <==> w.ring.marks != [] && w.ring.marks[|w.ring.marks| - 1].ms == now
  {
    hide Served, MarkTells;
    var marks := w.ring.marks;
    forall k | 0 <= k < |marks| - 1 ensures marks[k].ms != now { LastIsLatest(w, k); }
  }

  lemma StepEven(w: World, op: Op)
    requires Inv(w) && Possible(w, op) && Even(w.ring.head, w.ring.marks)
    ensures Even(Step(w, op).ring.head, Step(w, op).ring.marks)
  {
    hide Served, MarkTells, MarkOf, Slowest, Written, Round;
  }

  /** Whenever bytes are taken, those still held came at fewer than eight other
      times. */
  ghost predicate Airy(w: World, ops: seq<Op>)
    requires Inv(w) && AllPossible(w, ops)
    decreases |ops|
  {
    ops == [] ||
    (StepKeeps(w, ops[0]);
     && (ops[0].Arrive? && ops[0].src != [] && w.ring.tail - w.ring.head + |ops[0].src| <= 147456 ==>
           |Times(w) - {ops[0].now}| < 8)
     && Airy(Step(w, ops[0]), ops[1..]))
  }

  /** Once a mark was shared that is never forgotten. */
  lemma {:induction false} MergedStays(w: World, ops: seq<Op>)
    requires Inv(w) && AllPossible(w, ops) && w.merged
    ensures Run(w, ops).merged
    decreases |ops|
  {
    hide Served, Marked;
    if ops != [] {
      StepKeeps(w, ops[0]);
      MergedStays(Step(w, ops[0]), ops[1..]);
    }
  }

  /** No mark is ever shared for want of room exactly in the runs in which the bytes
      held never came at more than eight times. */
  lemma {:induction false} UnsharedIff(w: World, ops: seq<Op>)
    requires Inv(w) && AllPossible(w, ops) && Even(w.ring.head, w.ring.marks) && !w.merged
    ensures !Run(w, ops).merged <==> Airy(w, ops)
    decreases |ops|
  {
    if ops != [] {
      StepKeeps(w, ops[0]);
      StepEven(w, ops[0]);
      StepShares(w, ops[0]);
      var v := Step(w, ops[0]);
      hide Inv, Even, Step, Possible;
      if v.merged { MergedStays(v, ops[1..]); } else { UnsharedIff(v, ops[1..]); }
    }
  }

  lemma StepShares(w: World, op: Op)
    requires Inv(w) && Possible(w, op) && Even(w.ring.head, w.ring.marks) && !w.merged
    ensures Step(w, op).merged
       <==> && op.Arrive? && op.src != [] && w.ring.tail - w.ring.head + |op.src| <= 147456
            && |Times(w) - {op.now}| >= 8
  {
    if op.Arrive? { SharesIff(w, op.now); }
    hide Inv, Even, Times;
    assert |w.ring.subs| == MAX_SUBS;
  }

  /** Over every run in which the bytes held never came at more than eight times, the
      age of a live cursor's next byte is exact. */
  lemma AiryRunTells(buf: seq<u8>, ops: seq<Op>, i: nat, now: nat)
    requires |buf| == CAP && AllPossible(Start(buf), ops) && Airy(Start(buf), ops)
    requires var w := Run(Start(buf), ops);
             i < MAX_SUBS && w.ring.subs[i].active && !w.ring.subs[i].shed && w.clock <= now
    ensures var w := Run(Start(buf), ops);
            var sent := w.ring.subs[i].sent;
            && sent <= |w.came| == |w.stream|
            && Age(w.ring, sent, now) == if sent < |w.came| then now - w.came[sent] else 0
  {
    UnsharedIff(Start(buf), ops);
    AgeTells(Run(Start(buf), ops), i, now);
  }
}
