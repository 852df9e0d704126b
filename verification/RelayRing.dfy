/** The reliable-relay byte ring: one publisher's bytes, one read cursor per
    subscriber. What each operation does, on values. */
module RelaySpec {
  import opened Bytes

  /** One publisher receive window. */
  const WINDOW: nat := 49152
  const CAP: nat := 3 * WINDOW
  /** Longest slice handed to one send. */
  const ROUND_MAX: nat := 16384
  const MAX_SUBS: nat := 31
  const MARKS: nat := 8

  datatype Cursor = Cursor(sent: nat, lastOk: nat, active: bool, shed: bool, finDone: bool)

  /** Bytes below end, and at or past the previous mark's end, came at ms. */
  datatype Mark = Mark(end: nat, ms: nat)

  /** head and tail are absolute offsets; byte o lives at o % CAP. */
  datatype Ring = Ring(buf: seq<u8>, head: nat, tail: nat, subs: seq<Cursor>, marks: seq<Mark>)

  predicate Pins(s: Cursor) {
    s.active && !s.shed
  }

  predicate Shaped(r: Ring) {
    && |r.buf| == CAP && |r.subs| == MAX_SUBS && |r.marks| <= MARKS
    && r.head <= r.tail <= r.head + CAP
  }

  /** The storage once src is written from absolute offset at on. */
  function Written(buf: seq<u8>, at: nat, src: seq<u8>): (b: seq<u8>)
    requires |buf| == CAP
    ensures |b| == CAP
  {
    seq(CAP, p requires 0 <= p < CAP => var k := (p - at) % CAP; if k < |src| then src[k] else buf[p])
  }

  predicate Fits(r: Ring, n: nat) {
    n <= CAP - (r.tail - r.head)
  }

  function Append(r: Ring, src: seq<u8>): (s: Ring)
    requires Shaped(r)
  {
    if Fits(r, |src|) then r.(buf := Written(r.buf, r.tail, src), tail := r.tail + |src|) else r
  }

  /** Bytes of the next slice for a cursor at offset sent. */
  function RoundLen(r: Ring, sent: nat): nat
    requires sent <= r.tail
  {
    Min(Min(r.tail - sent, ROUND_MAX), CAP - sent % CAP)
  }

  function Round(r: Ring, sent: nat): seq<u8>
    requires |r.buf| == CAP && sent <= r.tail
  {
    r.buf[sent % CAP..sent % CAP + RoundLen(r, sent)]
  }

  function NoteSent(r: Ring, i: nat, n: nat, now: nat): Ring
    requires i < |r.subs|
  {
    r.(subs := r.subs[i := r.subs[i].(sent := r.subs[i].sent + n, lastOk := now)])
  }

  predicate Merges(marks: seq<Mark>, now: nat) {
    |marks| == MARKS || (marks != [] && marks[|marks| - 1].ms == now)
  }

  /** The newest mark takes the append, or a new one does. */
  function NoteMark(marks: seq<Mark>, tail: nat, now: nat): seq<Mark>
    requires |marks| <= MARKS
  {
    if Merges(marks, now) then marks[|marks| - 1 := marks[|marks| - 1].(end := tail)]
    else marks + [Mark(tail, now)]
  }

  /** The first mark whose bytes reach past offset at. */
  function MarkOf(marks: seq<Mark>, at: nat): (k: nat)
    ensures k <= |marks|
    ensures forall j :: 0 <= j < k ==> marks[j].end <= at
    ensures k < |marks| ==> marks[k].end > at
  {
    if marks == [] || marks[0].end > at then 0 else 1 + MarkOf(marks[1..], at)
  }

  lemma MarkOfIs(marks: seq<Mark>, at: nat, k: nat)
    requires k <= |marks| && (k < |marks| ==> marks[k].end > at) && forall j :: 0 <= j < k ==> marks[j].end <= at
    ensures MarkOf(marks, at) == k
  {
    hide MarkOf;
    var m := MarkOf(marks, at);
    assert m < |marks| ==> m >= k;
  }

  function Age(r: Ring, at: nat, now: nat): int {
    var k := MarkOf(r.marks, at);
    if k < |r.marks| then now - r.marks[k].ms else 0
  }

  /** The slowest of the first n cursors that pin the ring, else the tail. */
  function Slowest(r: Ring, n: nat): (low: nat)
    requires n <= |r.subs|
    ensures low <= r.tail
    ensures forall i :: 0 <= i < n && Pins(r.subs[i]) ==> low <= r.subs[i].sent
    ensures low == r.tail || exists i :: 0 <= i < n && Pins(r.subs[i]) && low == r.subs[i].sent
  {
    if n == 0 then r.tail
    else if Pins(r.subs[n - 1]) then Min(Slowest(r, n - 1), r.subs[n - 1].sent)
    else Slowest(r, n - 1)
  }

  /** head moves to the slowest pinning cursor; marks wholly below it go. */
  function Reclaim(r: Ring): Ring
  {
    var low := Slowest(r, |r.subs|);
    r.(head := low, marks := r.marks[MarkOf(r.marks, low)..])
  }
}

/** The ring in place, over a byte array. */
module RelayBuffer {
  import opened Bytes
  import opened RelaySpec

  /** Written in two stretches: up to the end of the ring, then from its start. */
  lemma WrittenTo(buf: seq<u8>, at: nat, src: seq<u8>, p: nat)
    requires |buf| == CAP && |src| <= CAP && p < CAP
    ensures var pos := at % CAP;
            var first := Min(|src|, CAP - pos);
            && (p < |src| - first ==> Written(buf, at, src)[p] == src[p + first])
            && (|src| - first <= p && pos <= p < pos + first ==> Written(buf, at, src)[p] == src[p - pos])
            && (|src| - first <= p && !(pos <= p < pos + first) ==> Written(buf, at, src)[p] == buf[p])
  {
    WrittenWraps(at, |src|, p);
  }

  lemma WrittenWraps(at: nat, n: nat, p: nat)
    requires p < CAP && n <= CAP
    ensures var pos := at % CAP;
            var first := Min(n, CAP - pos);
            && (pos <= p < pos + first ==> (p - at) % CAP == p - pos)
            && (p < n - first ==> (p - at) % CAP == p + first && pos + first == CAP)
            && (!(pos <= p < pos + first) && !(p < n - first) ==> (p - at) % CAP >= n)
  {
  }

  class Buffer {
    const buf: array<u8>
    var head: nat
    var tail: nat
    var subs: seq<Cursor>
    const mark: array<Mark>
    var marks: nat

    ghost predicate Valid()
      reads this
    {
      && buf.Length == CAP && |subs| == MAX_SUBS && mark.Length == MARKS && marks <= MARKS
      && head <= tail <= head + CAP
    }

    /** The ring this buffer is. */
    ghost function Value(): (r: Ring)
      requires Valid()
      reads this, buf, mark
      ensures Shaped(r)
    {
      Ring(buf[..], head, tail, subs, mark[..marks])
    }

    /** Empty: offsets zero, every cursor inactive. */
    constructor ()
      ensures Valid() && fresh(buf) && fresh(mark) && head == tail == marks == 0
      ensures forall i :: 0 <= i < MAX_SUBS ==> subs[i] == Cursor(0, 0, false, false, false)
    {
      buf := new u8[CAP](_ => 0);
      mark := new Mark[MARKS](_ => Mark(0, 0));
      head, tail, marks := 0, 0, 0;
      subs := seq(MAX_SUBS, _ => Cursor(0, 0, false, false, false));
    }

    method CopyIn(src: seq<u8>)
      requires buf.Length == CAP && |src| <= CAP
      modifies buf
      ensures buf[..] == Written(old(buf[..]), tail, src)
    {
      hide Written;
      var pos := tail % CAP;
      var first := Min(|src|, CAP - pos);
      for k := 0 to first
        invariant forall p :: 0 <= p < CAP ==>
                    buf[p] == if pos <= p < pos + k then src[p - pos] else old(buf[p])
      {
        buf[pos + k] := src[k];
      }
      for k := 0 to |src| - first
        invariant forall p :: 0 <= p < CAP ==>
                    buf[p] == if p < k then src[p + first]
                              else if pos <= p < pos + first then src[p - pos] else old(buf[p])
      {
        buf[k] := src[first + k];
      }
      forall p | 0 <= p < CAP ensures buf[p] == Written(old(buf[..]), tail, src)[p] {
        WrittenTo(old(buf[..]), tail, src, p);
      }
    }

    /** Appends src's bytes at tail, or nothing where they do not fit. */
    method Append(src: seq<u8>) returns (ok: bool)
      requires Valid()
      modifies this`tail, buf
      ensures Valid() && (ok <==> old(tail - head) + |src| <= 147456)
      ensures Value() == RelaySpec.Append(old(Value()), src)
    {
      if |src| > CAP - (tail - head) {
        return false;
      }
      CopyIn(src);
      tail := tail + |src|;
      return true;
    }

    /** The next contiguous slice for a cursor. */
    method NextRound(i: nat) returns (round: seq<u8>)
      requires Valid() && i < |subs| && subs[i].sent <= tail
      ensures round == Round(Value(), subs[i].sent)
    {
      var pos := subs[i].sent % CAP;
      var n := Min(tail - subs[i].sent, ROUND_MAX);
      n := Min(n, CAP - pos);
      return buf[pos..pos + n];
    }

    method NoteSent(i: nat, n: nat, now: nat)
      requires Valid() && i < |subs|
      modifies this`subs
      ensures Valid() && Value() == RelaySpec.NoteSent(old(Value()), i, n, now)
      ensures subs == old(subs)[i := old(subs[i]).(sent := old(subs[i].sent) + n, lastOk := now)]
    {
      subs := subs[i := subs[i].(sent := subs[i].sent + n, lastOk := now)];
    }

    /** Records that every byte up to tail has come by now. */
    method NoteMark(now: nat)
      requires Valid()
      modifies this`marks, mark
      ensures Valid() && Value() == old(Value()).(marks := RelaySpec.NoteMark(old(mark[..marks]), tail, now))
    {
      if !(marks == MARKS || (marks > 0 && mark[marks - 1].ms == now)) {
        mark[marks] := Mark(0, now);
        marks := marks + 1;
      }
      mark[marks - 1] := mark[marks - 1].(end := tail);
    }

    /** How long ago a cursor's next unsent byte came. */
    method AgeMs(i: nat, now: nat) returns (age: int)
      requires Valid() && i < |subs|
      ensures age == Age(Value(), subs[i].sent, now)
    {
      hide MarkOf;
      var at := subs[i].sent;
      for k := 0 to marks
        invariant forall j :: 0 <= j < k ==> mark[j].end <= at
      {
        if mark[k].end > at {
          MarkOfIs(mark[..marks], at, k);
          return now - mark[k].ms;
        }
      }
      MarkOfIs(mark[..marks], at, marks);
      return 0;
    }

    /** Drops the marks wholly below head, sliding the rest down. */
    method TrimMarks()
      requires Valid()
      modifies this`marks, mark
      ensures Valid()
      ensures Value() == old(Value()).(marks := old(mark[..marks])[MarkOf(old(mark[..marks]), head)..])
    {
      hide MarkOf;
      var d := 0;
      while d < marks && mark[d].end <= head
        invariant d <= marks && forall j :: 0 <= j < d ==> mark[j].end <= head
      {
        d := d + 1;
      }
      MarkOfIs(mark[..marks], head, d);
      SlideMarks(d);
      marks := marks - d;
    }

    method SlideMarks(d: nat)
      requires Valid() && d <= marks
      modifies mark
      ensures mark[..marks - d] == old(mark[d..marks])
    {
      for k := d to marks
        invariant mark[..k - d] == old(mark[d..k])
        invariant mark[k..] == old(mark[k..])
      {
        assert mark[k] == mark[k..][0];
        mark[k - d] := mark[k];
        assert mark[..k + 1 - d] == mark[..k - d] + [mark[k - d]];
        assert mark[k + 1..] == old(mark[k..])[1..];
      }
    }

    /** Advances head to the slowest pinning cursor. */
    method Reclaim()
      requires Valid()
      requires forall i :: 0 <= i < |subs| && Pins(subs[i]) ==> head <= subs[i].sent
      modifies this`head, this`marks, mark
      ensures Valid() && Value() == RelaySpec.Reclaim(old(Value()))
    {
      ghost var r := Value();
      var low := tail;
      for i := 0 to MAX_SUBS
        invariant low == Slowest(r, i)
      {
        if Pins(subs[i]) {
          low := Min(low, subs[i].sent);
        }
      }
      head := low;
      TrimMarks();
    }
  }
}

/** Every interleaving of arrivals, sends, sheds, activations and reclaims. */
module RelayRuns {
  import opened Bytes
  import opened Seqs
  import opened RelaySpec

  /** The ring and what its history says: every byte the publisher sent and
      when it came, and per cursor where it started and what it was given.
      merged: an append once had to share an older mark. */
  datatype World = World(
    ring: Ring, stream: seq<u8>, came: seq<nat>, clock: nat,
    from: seq<nat>, got: seq<seq<u8>>, merged: bool)

  datatype Op =
    | Arrive(src: seq<u8>, now: nat)
    | Send(i: nat, n: nat, now: nat)
    | Activate(i: nat, at: nat, now: nat)
    | Shed(i: nat)
    | Finish(i: nat)
    | Reclaim

  /** The clock does not run back; a cursor starts at a byte still held; an
      accepted send is a prefix of the round handed out. */
  predicate Possible(w: World, op: Op)
    requires Shaped(w.ring)
  {
    match op
    case Arrive(_, now) => w.clock <= now
    case Send(i, n, now) =>
      && w.clock <= now && i < MAX_SUBS && Pins(w.ring.subs[i])
      && w.ring.subs[i].sent <= w.ring.tail && n <= RoundLen(w.ring, w.ring.subs[i].sent)
    case Activate(i, at, now) =>
      w.clock <= now && i < MAX_SUBS && !Pins(w.ring.subs[i]) && w.ring.head <= at <= w.ring.tail
    case Shed(i) => i < MAX_SUBS
    case Finish(i) => i < MAX_SUBS
    case Reclaim => true
  }

  function Step(w: World, op: Op): World
    requires Shaped(w.ring) && Possible(w, op) && |w.got| == |w.from| == MAX_SUBS
  {
    var r := w.ring;
    match op
    case Arrive(src, now) =>
      if src == [] || !Fits(r, |src|) then w.(clock := now)
      else
        w.(ring := Append(r, src).(marks := NoteMark(r.marks, r.tail + |src|, now)),
           stream := w.stream + src, came := w.came + seq(|src|, _ => now), clock := now,
           merged := w.merged || (|r.marks| == MARKS && r.marks[MARKS - 1].ms != now))
    case Send(i, n, now) =>
      w.(ring := NoteSent(r, i, n, now), clock := now,
         got := w.got[i := w.got[i] + Round(r, r.subs[i].sent)[..n]])
    case Activate(i, at, now) =>
      w.(ring := r.(subs := r.subs[i := Cursor(at, now, true, false, false)]), clock := now,
         from := w.from[i := at], got := w.got[i := []])
    case Shed(i) => w.(ring := r.(subs := r.subs[i := r.subs[i].(shed := true)]))
    case Finish(i) => w.(ring := r.(subs := r.subs[i := r.subs[i].(finDone := true)]))
    case Reclaim => w.(ring := RelaySpec.Reclaim(r))
  }

  // ---- The invariant ----

  /** The bytes still held are the stream's. */
  ghost predicate Stores(r: Ring, stream: seq<u8>) {
    && Shaped(r) && r.tail == |stream|
    && forall o :: r.head <= o < r.tail ==> r.buf[o % CAP] == stream[o]
  }

  /** Cursor i pins what it has not been given, and was given the rest. */
  ghost predicate Served(w: World, i: nat)
    requires i < |w.ring.subs| && i < |w.from| && i < |w.got|
  {
    var s := w.ring.subs[i];
    Pins(s) ==> && w.ring.head <= s.sent <= w.ring.tail && w.from[i] <= s.sent
                && s.sent <= |w.stream| && w.got[i] == w.stream[w.from[i]..s.sent]
  }

  /** The mark over a held byte is never younger than the byte, and is as old
      as the byte while no append had to share a mark. */
  ghost predicate MarkTells(marks: seq<Mark>, came: seq<nat>, merged: bool, o: nat)
    requires o < |came|
  {
    var k := MarkOf(marks, o);
    && k < |marks| && marks[k].ms <= came[o]
    && (!merged ==> marks[k].ms == came[o])
  }

  ghost predicate Marked(w: World) {
    && |w.came| == |w.stream|
    && (forall k :: 0 <= k < |w.ring.marks| ==> w.ring.marks[k].end <= w.ring.tail && w.ring.marks[k].ms <= w.clock)
    && (forall o :: w.ring.head <= o < |w.came| ==> MarkTells(w.ring.marks, w.came, w.merged, o) && w.came[o] <= w.clock)
  }

  ghost predicate Inv(w: World) {
    && Stores(w.ring, w.stream)
    && |w.from| == |w.got| == MAX_SUBS
    && (forall i :: 0 <= i < MAX_SUBS ==> Served(w, i))
    && Marked(w)
  }

  // ---- Bytes ----

  /** Writing keeps what is still held and stores the new bytes in order. */
  lemma WrittenAt(buf: seq<u8>, at: nat, src: seq<u8>, o: nat)
    requires |buf| == CAP && |src| <= CAP && at + |src| <= o + CAP && o < at + |src|
    ensures Written(buf, at, src)[o % CAP] == if o < at then buf[o % CAP] else src[o - at]
  {
    var k := (o % CAP - at) % CAP;
    if o < at {
      assert k == o - at + CAP;
    } else {
      assert k == o - at;
    }
  }

  lemma AppendStores(r: Ring, stream: seq<u8>, src: seq<u8>)
    requires Stores(r, stream) && Fits(r, |src|)
    ensures Stores(Append(r, src), stream + src)
  {
    var a := Append(r, src);
    forall o | a.head <= o < a.tail ensures a.buf[o % CAP] == (stream + src)[o] {
      WrittenAt(r.buf, r.tail, src, o);
    }
  }

  /** A round is the stretch of the stream right after what was sent. */
  lemma RoundIsStream(r: Ring, stream: seq<u8>, sent: nat)
    requires Stores(r, stream) && r.head <= sent <= r.tail
    ensures var n := RoundLen(r, sent);
            && Round(r, sent) == stream[sent..sent + n]
            && (n == 0 <==> sent == r.tail)
  {
    var n, pos := RoundLen(r, sent), sent % CAP;
    var round, stretch := r.buf[pos..pos + n], stream[sent..sent + n];
    forall k | 0 <= k < n ensures round[k] == stretch[k] {
      ModStep(sent, k);
      assert r.buf[(sent + k) % CAP] == stream[sent + k];
    }
  }

  lemma RoundFits(r: Ring, stream: seq<u8>)
    requires Stores(r, stream)
    ensures r.tail == |stream| && Shaped(r) && forall at: nat :: at <= r.tail ==> at + RoundLen(r, at) <= r.tail
  {
  }

  lemma ModStep(o: nat, k: nat)
    requires o % CAP + k < CAP
    ensures (o + k) % CAP == o % CAP + k
  {
  }

  // ---- Cursors ----

  lemma ArriveServes(w: World, src: seq<u8>, now: nat, i: nat)
    requires Inv(w) && Possible(w, Arrive(src, now)) && i < MAX_SUBS
    ensures Served(Step(w, Arrive(src, now)), i)
  {
    assert Served(w, i);
    var s := w.ring.subs[i];
    if src != [] && Fits(w.ring, |src|) && Pins(s) {
      assert (w.stream + src)[w.from[i]..s.sent] == w.stream[w.from[i]..s.sent];
    }
  }

  lemma SendServes(w: World, i: nat, n: nat, now: nat, j: nat)
    requires Inv(w) && Possible(w, Send(i, n, now)) && j < MAX_SUBS
    ensures Served(Step(w, Send(i, n, now)), j)
  {
    hide Round, Marked, Stores;
    RoundFits(w.ring, w.stream);
    assert Served(w, j);
    if i == j {
      var sent, m := w.ring.subs[i].sent, RoundLen(w.ring, w.ring.subs[i].sent);
      RoundIsStream(w.ring, w.stream, sent);
      SliceOfSlice(w.stream, sent, sent + m, 0, n);
      JoinSlices(w.stream, w.from[i], sent, sent + n);
    }
  }

  lemma ReclaimServes(w: World, i: nat)
    requires Inv(w) && i < MAX_SUBS
    ensures Served(Step(w, Reclaim), i)
  {
    assert Served(w, i);
  }

  /** The slowest pinning cursor is not behind head. */
  lemma HeadAdvances(w: World)
    requires Inv(w)
    ensures w.ring.head <= Slowest(w.ring, |w.ring.subs|)
  {
    var low := Slowest(w.ring, |w.ring.subs|);
    if low < w.ring.tail {
      var i :| 0 <= i < |w.ring.subs| && Pins(w.ring.subs[i]) && low == w.ring.subs[i].sent;
      assert Served(w, i);
    }
  }

  // ---- Marks ----

  lemma ArriveMarks(w: World, src: seq<u8>, now: nat)
    requires Inv(w) && Possible(w, Arrive(src, now)) && src != [] && Fits(w.ring, |src|)
    ensures Marked(Step(w, Arrive(src, now)))
  {
    hide Served, Written, MarkOf;
    var v := Step(w, Arrive(src, now));
    var old_, new_ := w.ring.marks, v.ring.marks;
    var last := |new_| - 1;
    forall o | v.ring.head <= o < |v.came|
      ensures MarkTells(new_, v.came, v.merged, o) && v.came[o] <= v.clock
    {
      if o < |w.came| {
        assert MarkTells(old_, w.came, w.merged, o);
        MarkOfIs(new_, o, MarkOf(old_, o));
      } else {
        MarkOfIs(new_, o, last);
      }
    }
  }

  lemma ReclaimMarks(w: World)
    requires Inv(w)
    ensures Marked(Step(w, Reclaim))
  {
    HeadAdvances(w);
    hide Served, MarkTells, MarkOf, Slowest;
    var v := Step(w, Reclaim);
    forall o | v.ring.head <= o < |v.came|
      ensures MarkTells(v.ring.marks, v.came, v.merged, o) && v.came[o] <= v.clock
    {
      TrimTells(w.ring.marks, w.came, w.merged, v.ring.head, o);
    }
  }

  lemma TrimTells(marks: seq<Mark>, came: seq<nat>, merged: bool, head: nat, o: nat)
    requires head <= o < |came| && MarkTells(marks, came, merged, o)
    ensures MarkTells(marks[MarkOf(marks, head)..], came, merged, o)
  {
    hide MarkOf;
    MarkOfTrimmed(marks, head, o);
  }

  /** Trimming below head does not change the mark over a byte at or past it. */
  lemma MarkOfTrimmed(marks: seq<Mark>, head: nat, o: nat)
    requires head <= o && MarkOf(marks, o) < |marks|
    ensures var d, k := MarkOf(marks, head), MarkOf(marks, o);
            d <= k && MarkOf(marks[d..], o) == k - d
  {
    var d, k := MarkOf(marks, head), MarkOf(marks, o);
    MarkOfIs(marks[d..], o, k - d);
  }

  // ---- Runs ----

  lemma StepKeeps(w: World, op: Op)
    requires Inv(w) && Possible(w, op)
    ensures Inv(Step(w, op)) && w.ring.head <= Step(w, op).ring.head
    ensures w.stream <= Step(w, op).stream
  {
    var v := Step(w, op);
    forall i | 0 <= i < MAX_SUBS ensures Served(v, i) {
      assert Served(w, i);
      match op {
        case Arrive(src, now) => ArriveServes(w, src, now, i);
        case Send(k, n, now) => SendServes(w, k, n, now, i);
        case Activate(k, at, now) =>
        case Shed(k) =>
        case Finish(k) =>
        case Reclaim => ReclaimServes(w, i);
      }
    }
    match op {
      case Arrive(src, now) =>
        if src != [] && Fits(w.ring, |src|) {
          AppendStores(w.ring, w.stream, src);
          ArriveMarks(w, src, now);
        }
      case Send(i, n, now) =>
      case Activate(i, at, now) =>
      case Shed(i) =>
      case Finish(i) =>
      case Reclaim =>
        HeadAdvances(w);
        ReclaimMarks(w);
    }
  }

  function Run(w: World, ops: seq<Op>): (v: World)
    requires Inv(w) && AllPossible(w, ops)
    ensures Inv(v)
    decreases |ops|
  {
    if ops == [] then w
    else
      StepKeeps(w, ops[0]);
      Run(Step(w, ops[0]), ops[1..])
  }

  ghost predicate AllPossible(w: World, ops: seq<Op>)
    requires Inv(w)
    decreases |ops|
  {
    ops == [] ||
    (&& Possible(w, ops[0])
     && (StepKeeps(w, ops[0]); AllPossible(Step(w, ops[0]), ops[1..])))
  }

  /** head never moves back, and the stream only grows. */
  lemma {:induction false} RunKeeps(w: World, ops: seq<Op>)
    requires Inv(w) && AllPossible(w, ops)
    ensures w.ring.head <= Run(w, ops).ring.head && w.stream <= Run(w, ops).stream
    decreases |ops|
  {
    if ops != [] {
      StepKeeps(w, ops[0]);
      RunKeeps(Step(w, ops[0]), ops[1..]);
    }
  }

  /** The empty ring, nothing sent yet. */
  function Start(buf: seq<u8>): (w: World)
    requires |buf| == CAP
    ensures Inv(w)
  {
    var idle := seq(MAX_SUBS, _ => Cursor(0, 0, false, false, false));
    World(Ring(buf, 0, 0, idle, []), [], [], 0, seq(MAX_SUBS, _ => 0), seq(MAX_SUBS, _ => []), false)
  }

  /** Over every run: what a live cursor was given is exactly the publisher's
      stream from where it started to its offset, and what it will be given
      next is the stretch right after that, never empty before the end. */
  lemma EveryRunDelivers(buf: seq<u8>, ops: seq<Op>, i: nat)
    requires |buf| == CAP && i < MAX_SUBS && AllPossible(Start(buf), ops)
    requires var s := Run(Start(buf), ops).ring.subs[i]; s.active && !s.shed
    ensures var w := Run(Start(buf), ops);
            var sent := w.ring.subs[i].sent;
            && w.from[i] <= sent <= w.ring.tail == |w.stream| && w.got[i] == w.stream[w.from[i]..sent]
            && Round(w.ring, sent) <= w.stream[sent..]
            && (Round(w.ring, sent) == [] <==> sent == |w.stream|)
            && var next := sent + |Round(w.ring, sent)|;
               && next <= sent + 16384
               && (next == sent + 16384 || next == |w.stream| || next % 147456 == 0)
  {
    var w := Run(Start(buf), ops);
    var sent := w.ring.subs[i].sent;
    assert Served(w, i);
    RoundIsStream(w.ring, w.stream, sent);
    assert w.stream[sent..sent + RoundLen(w.ring, sent)] == w.stream[sent..][..RoundLen(w.ring, sent)];
    RoundIsLong(w.ring, sent);
  }

  /** A round ends only where it must: at its limit, at the tail or at the end of
      the storage. */
  lemma RoundIsLong(r: Ring, sent: nat)
    requires sent <= r.tail
    ensures var n := RoundLen(r, sent);
            n <= 16384 && (n == 16384 || sent + n == r.tail || (sent + n) % 147456 == 0)
  {
    var n := RoundLen(r, sent);
    if n == CAP - sent % CAP { WrapsAround(sent, n); }
  }

  lemma WrapsAround(o: nat, n: nat)
    requires n == 147456 - o % 147456
    ensures (o + n) % 147456 == 0
  {
    assert o + n == 147456 * (o / 147456 + 1);
  }

  // ---- What is accepted ----

  /** What the publisher sends joins the stream whole exactly when the ring has
      that many bytes free, and else nothing of it does. */
  lemma ArriveTakes(w: World, src: seq<u8>, now: nat)
    requires Inv(w) && w.clock <= now
    ensures var v := Step(w, Arrive(src, now));
            if w.ring.tail - w.ring.head + |src| <= 147456 then
              v.stream == w.stream + src && v.ring.tail == w.ring.tail + |src| && v.ring.head == w.ring.head
            else v.stream == w.stream && v.ring == w.ring
  {
    assert w.stream + [] == w.stream;
  }

  /** Reclaiming frees all that no live cursor still needs: with every one of them
      at the end, the ring takes 147456 bytes again. */
  lemma ReclaimFrees(w: World, src: seq<u8>, now: nat)
    requires Inv(w) && w.clock <= now
    ensures var v := Step(w, Reclaim);
            && v.stream == w.stream && v.ring.tail == w.ring.tail
            && (forall i :: 0 <= i < 31 && v.ring.subs[i].active && !v.ring.subs[i].shed ==>
                              v.ring.head <= v.ring.subs[i].sent)
            && (v.ring.head == v.ring.tail ||
                exists i :: 0 <= i < 31 && v.ring.subs[i].active && !v.ring.subs[i].shed
                            && v.ring.head == v.ring.subs[i].sent)
    ensures (forall i :: 0 <= i < 31 && w.ring.subs[i].active && !w.ring.subs[i].shed ==>
                           w.ring.subs[i].sent == w.ring.tail) && |src| <= 147456 ==>
              && Inv(Step(w, Reclaim)) && w.clock == Step(w, Reclaim).clock
              && Step(Step(w, Reclaim), Arrive(src, now)).stream == w.stream + src
  {
    StepKeeps(w, Reclaim);
    var v := Step(w, Reclaim);
    hide Inv, Step;
    ReclaimedHead(w.ring);
    ReclaimStep(w);
    ArriveTakes(v, src, now);
  }

  lemma ReclaimStep(w: World)
    requires Inv(w)
    ensures Step(w, Reclaim) == w.(ring := RelaySpec.Reclaim(w.ring)) && |w.ring.subs| == MAX_SUBS
  {
  }

  lemma ReclaimedHead(r: Ring)
    requires |r.subs| == MAX_SUBS
    ensures var v := RelaySpec.Reclaim(r);
            && v.tail == r.tail && v.subs == r.subs
            && (forall i :: 0 <= i < 31 && r.subs[i].active && !r.subs[i].shed ==> v.head <= r.subs[i].sent)
            && (v.head == r.tail || exists i :: 0 <= i < 31 && r.subs[i].active && !r.subs[i].shed && v.head == r.subs[i].sent)
  {
  }

  /** The age reported for a live cursor is zero once it is caught up, never
      less than its next byte's, and exact while no mark was shared for want
      of room. */
  lemma AgeTells(w: World, i: nat, now: nat)
    requires Inv(w) && i < MAX_SUBS && w.ring.subs[i].active && !w.ring.subs[i].shed && w.clock <= now
    ensures var sent := w.ring.subs[i].sent;
            && sent <= |w.came|
            && (sent == |w.came| ==> Age(w.ring, sent, now) == 0)
            && (sent < |w.came| ==> Age(w.ring, sent, now) >= now - w.came[sent] >= 0)
            && (sent < |w.came| && !w.merged ==> Age(w.ring, sent, now) == now - w.came[sent])
  {
    assert Served(w, i);
    var sent := w.ring.subs[i].sent;
    if sent < |w.came| {
      assert MarkTells(w.ring.marks, w.came, w.merged, sent);
    }
  }
}
