/** What becomes of a control stream: which messages are handed on, and which
    are too long to hold and are passed over. */
module ControlEvents {
  import opened Options
  import opened Bytes
  import opened Seqs
  import opened ControlFraming

  /** Bytes a stream holds by itself, and in a pool buffer. */
  const INLINE: nat := 1024 + HDR_MAX
  const BIG: nat := MAX_MSG_LEN + HDR_MAX

  /** The Length is over the protocol's limit, or no buffer is free. */
  datatype Reason = OverCap | NoPool

  datatype Event = Handed(m: Msg) | Skipped(why: Reason)

  /** What a stretch of stream came to: its events, the unread bytes of an
      incomplete message, and the bytes still owed by one passed over. */
  datatype Outcome = Outcome(events: seq<Event>, rest: seq<u8>, owed: nat)

  /** Why the message at the head is passed over when messages up to limit bytes
      can be held; None while its header is incomplete. */
  function Refusal(vi: bool, limit: nat, b: seq<u8>): Option<Reason> {
    match Header(vi, b)
    case None => None
    case Some((_, len, from)) =>
      if len > MAX_MSG_LEN then Some(OverCap) else if from + len > limit then Some(NoPool) else None
  }

  /** Bytes passed over for the message at the head: its size, with a Length past
      2^62 taken for that. */
  function SkipLen(vi: bool, b: seq<u8>): (n: nat)
    requires Header(vi, b).Some?
    ensures n > 0
  {
    HeaderBound(vi, b);
    Header(vi, b).value.2 + Min(Header(vi, b).value.1, 0x4000_0000_0000_0000)
  }

  /** A stream whose messages are held up to limit bytes. */
  function Reassemble(vi: bool, limit: nat, b: seq<u8>): Outcome
    decreases |b|
  {
    match Refusal(vi, limit, b)
    case Some(why) =>
      if SkipLen(vi, b) > |b| then Outcome([Skipped(why)], [], SkipLen(vi, b) - |b|)
      else Behind([Skipped(why)], Reassemble(vi, limit, b[SkipLen(vi, b)..]))
    case None =>
      if Complete(vi, b) then Behind([Handed(First(vi, b))], Reassemble(vi, limit, b[Cut(vi, b)..]))
      else Outcome([], b, 0)
  }

  function Behind(events: seq<Event>, r: Outcome): Outcome {
    r.(events := events + r.events)
  }

  /** The same from a state that holds rest and is owed bytes. */
  function Resume(vi: bool, limit: nat, rest: seq<u8>, owed: nat, x: seq<u8>): Outcome {
    if owed > |x| then Outcome([], rest, owed - |x|) else Reassemble(vi, limit, rest + x[owed..])
  }

  // ---- Deliveries ----

  lemma RefusalStable(vi: bool, limit: nat, b: seq<u8>, x: seq<u8>)
    requires Header(vi, b).Some?
    ensures Refusal(vi, limit, b + x) == Refusal(vi, limit, b) && Header(vi, b + x) == Header(vi, b)
    ensures SkipLen(vi, b + x) == SkipLen(vi, b)
  {
    hide Header;
    HeaderStable(vi, b, x);
  }

  lemma BehindTwice(e: seq<Event>, f: seq<Event>, r: Outcome)
    ensures Behind(e, Behind(f, r)) == Behind(e + f, r) && Behind([], r) == r
  {
    Assoc(e, f, r.events);
    assert [] + r.events == r.events;
  }

  /** Stopping after b and resuming with x comes to what b and x come to at once. */
  lemma {:induction false} ReassembleSplit(vi: bool, limit: nat, b: seq<u8>, x: seq<u8>)
    ensures var r := Reassemble(vi, limit, b);
            Reassemble(vi, limit, b + x) == Behind(r.events, Resume(vi, limit, r.rest, r.owed, x))
    decreases |b|
  {
    hide Header, Complete, First, Refusal;
    var why := Refusal(vi, limit, b);
    if why.Some? {
      RefusedHasHeader(vi, limit, b);
      RefusalStable(vi, limit, b, x);
      SplitSkip(vi, limit, b, x, why.value);
    } else if Complete(vi, b) {
      CompleteHasHeader(vi, b);
      RefusalStable(vi, limit, b, x);
      FirstStable(vi, b, x);
      var n := Cut(vi, b);
      assert (b + x)[n..] == b[n..] + x;
      ReassembleSplit(vi, limit, b[n..], x);
      var r := Reassemble(vi, limit, b[n..]);
      BehindTwice([Handed(First(vi, b))], r.events, Resume(vi, limit, r.rest, r.owed, x));
    } else {
      assert x[0..] == x;
      BehindTwice([], [], Reassemble(vi, limit, b + x));
    }
  }

  lemma {:induction false} SplitSkip(vi: bool, limit: nat, b: seq<u8>, x: seq<u8>, why: Reason)
    requires Header(vi, b).Some? && Header(vi, b + x) == Header(vi, b)
    requires Refusal(vi, limit, b) == Refusal(vi, limit, b + x) == Some(why) && SkipLen(vi, b + x) == SkipLen(vi, b)
    ensures var r := Reassemble(vi, limit, b);
            Reassemble(vi, limit, b + x) == Behind(r.events, Resume(vi, limit, r.rest, r.owed, x))
    decreases |b|, 0
  {
    hide Header, Complete, First, Refusal;
    var n := SkipLen(vi, b);
    if n <= |b| {
      assert (b + x)[n..] == b[n..] + x;
      ReassembleSplit(vi, limit, b[n..], x);
      var r := Reassemble(vi, limit, b[n..]);
      BehindTwice([Skipped(why)], r.events, Resume(vi, limit, r.rest, r.owed, x));
    } else if n <= |b + x| {
      assert (b + x)[n..] == [] + x[n - |b|..];
    } else {
      assert [Skipped(why)] + [] == [Skipped(why)];
    }
  }

  lemma RefusedHasHeader(vi: bool, limit: nat, b: seq<u8>)
    requires Refusal(vi, limit, b).Some?
    ensures Header(vi, b).Some?
  {
  }

  lemma CompleteHasHeader(vi: bool, b: seq<u8>)
    requires Complete(vi, b)
    ensures Header(vi, b).Some?
  {
  }

  /** Two stretches of stream come to what they come to together. */
  lemma ResumeJoin(vi: bool, limit: nat, rest: seq<u8>, owed: nat, x: seq<u8>, y: seq<u8>)
    ensures var r := Resume(vi, limit, rest, owed, x);
            Resume(vi, limit, rest, owed, x + y) == Behind(r.events, Resume(vi, limit, r.rest, r.owed, y))
  {
    hide Reassemble;
    if owed <= |x| {
      ReassembleSplit(vi, limit, rest + x[owed..], y);
      assert (x + y)[owed..] == x[owed..] + y;
      Assoc(rest, x[owed..], y);
    } else {
      BehindTwice([], [], Resume(vi, limit, rest, owed - |x|, y));
      if owed <= |x| + |y| { assert (x + y)[owed..] == y[owed - |x|..]; }
    }
  }

  // ---- What is passed over ----

  function Msgs(events: seq<Event>): seq<Msg> {
    if events == [] then []
    else (if events[0].Handed? then [events[0].m] else []) + Msgs(events[1..])
  }

  predicate NoneSkipped(events: seq<Event>) {
    forall i :: 0 <= i < |events| ==> events[i].Handed?
  }

  /** Every message of the stream, the last incomplete one included, can be held. */
  predicate Sized(vi: bool, limit: nat, b: seq<u8>)
    decreases |b|
  {
    Refusal(vi, limit, b).None? && (Complete(vi, b) ==> Sized(vi, limit, b[Cut(vi, b)..]))
  }

  lemma NoneSkippedBehind(e: Event, r: Outcome)
    ensures NoneSkipped(Behind([e], r).events) <==> e.Handed? && NoneSkipped(r.events)
  {
    var all := [e] + r.events;
    assert forall i :: 0 <= i < |r.events| ==> all[i + 1] == r.events[i];
    assert all[0] == e;
  }

  /** A stream loses no message exactly when each can be held; its messages are
      then its framing. */
  lemma {:induction false} NoneSkippedIff(vi: bool, limit: nat, b: seq<u8>)
    ensures var r := Reassemble(vi, limit, b);
            && (NoneSkipped(r.events) <==> Sized(vi, limit, b))
            && (Sized(vi, limit, b) ==> r.owed == 0 && Framed(Msgs(r.events), r.rest) == Frames(vi, b))
    decreases |b|
  {
    hide Header, Refusal, Complete, First;
    var why := Refusal(vi, limit, b);
    if why.Some? {
      RefusedHasHeader(vi, limit, b);
      assert Reassemble(vi, limit, b).events[0] == Skipped(why.value);
    } else if Complete(vi, b) {
      var r := Reassemble(vi, limit, b[Cut(vi, b)..]);
      NoneSkippedIff(vi, limit, b[Cut(vi, b)..]);
      NoneSkippedBehind(Handed(First(vi, b)), r);
      MsgsBehind(First(vi, b), r.events);
    }
  }

  lemma MsgsBehind(m: Msg, events: seq<Event>)
    ensures Msgs([Handed(m)] + events) == [m] + Msgs(events)
  {
    assert ([Handed(m)] + events)[1..] == events;
  }

  /** A 16-bit Length never exceeds the limit. */
  lemma {:induction false} SixteenBitsFit(b: seq<u8>)
    ensures Sized(false, BIG, b)
    decreases |b|
  {
    HeaderBound(false, b);
    SixteenBits(b);
    hide Header;
    if Complete(false, b) { SixteenBitsFit(b[Cut(false, b)..]); }
  }

  lemma SixteenBits(b: seq<u8>)
    ensures Header(false, b).Some? ==> Header(false, b).value.1 <= MAX_MSG_LEN
  {
  }

  // ---- What is left ----

  /** No message is complete, and the one at the head can be held. */
  predicate Quiet(vi: bool, limit: nat, b: seq<u8>) {
    !Complete(vi, b) && Refusal(vi, limit, b).None?
  }

  lemma {:induction false} RestIsQuiet(vi: bool, limit: nat, b: seq<u8>)
    ensures var r := Reassemble(vi, limit, b);
            Quiet(vi, limit, r.rest) && (r.owed > 0 ==> r.rest == [])
    decreases |b|
  {
    hide Header, Refusal, Complete, First;
    NothingIsQuiet(vi, limit);
    var why := Refusal(vi, limit, b);
    if why.Some? {
      RefusedHasHeader(vi, limit, b);
      if SkipLen(vi, b) <= |b| { RestIsQuiet(vi, limit, b[SkipLen(vi, b)..]); }
    } else if Complete(vi, b) {
      RestIsQuiet(vi, limit, b[Cut(vi, b)..]);
    }
  }

  lemma NothingIsQuiet(vi: bool, limit: nat)
    ensures Quiet(vi, limit, [])
  {
  }

  // ---- Streams of short messages ----

  lemma RefusalLater(vi: bool, low: nat, high: nat, b: seq<u8>)
    requires low <= high && Refusal(vi, low, b).None?
    ensures Refusal(vi, high, b).None?
  {
    hide Header;
  }

  /** What has come of a stream whose messages can be held. */
  lemma {:induction false} SizedPrefix(vi: bool, limit: nat, b: seq<u8>, x: seq<u8>)
    requires Sized(vi, limit, b + x)
    ensures Sized(vi, limit, b)
    decreases |b|
  {
    hide Header, Refusal, Complete, First;
    if Header(vi, b).Some? { RefusalStable(vi, limit, b, x); } else { NoHeaderYet(vi, limit, b); }
    if Complete(vi, b) {
      FirstStable(vi, b, x);
      var n := Cut(vi, b);
      assert (b + x)[n..] == b[n..] + x;
      SizedPrefix(vi, limit, b[n..], x);
    }
  }

  lemma NoHeaderYet(vi: bool, limit: nat, b: seq<u8>)
    requires Header(vi, b).None?
    ensures Refusal(vi, limit, b).None? && !Complete(vi, b)
  {
  }

  /** Messages that can be held in less come to the same where there is more,
      and so does what follows them. */
  lemma {:induction false} SizedSame(vi: bool, low: nat, high: nat, b: seq<u8>, x: seq<u8>)
    requires low <= high && Sized(vi, low, b + x)
    ensures Reassemble(vi, high, b) == Reassemble(vi, low, b)
    ensures var r := Reassemble(vi, low, b);
            r.owed == 0 && Sized(vi, low, r.rest + x)
    decreases |b|
  {
    hide Header, Refusal, Complete, First;
    SizedPrefix(vi, low, b, x);
    RefusalLater(vi, low, high, b);
    if Complete(vi, b) {
      FirstStable(vi, b, x);
      var n := Cut(vi, b);
      assert (b + x)[n..] == b[n..] + x;
      SizedSame(vi, low, high, b[n..], x);
    }
  }
}

/** A message at a time, and a delivery at a time. */
module ControlSteps {
  import opened Options
  import opened Bytes
  import opened ControlFraming
  import opened ControlEvents

  /** What one attempt to take a message off a stream's head comes to. */
  ghost predicate Popped(vi: bool, limit: nat, was: seq<u8>, r: Option<Event>, rest: seq<u8>, skip: nat) {
    match Refusal(vi, limit, was)
    case Some(why) =>
      SkipLen(vi, was) > |was| && r == Some(Skipped(why)) && rest == [] && skip == SkipLen(vi, was) - |was|
    case None =>
      && skip == 0
      && if Complete(vi, was) then r == Some(Handed(First(vi, was))) && rest == was[Cut(vi, was)..]
         else r == None && rest == was
  }

  /** The outcome of a stream some of whose messages are taken off, r last. */
  ghost function Pending(
    vi: bool, limit: nat, events: seq<Event>, r: Option<Event>, rest: seq<u8>, skip: nat): Outcome
  {
    match r
    case None => Outcome(events, rest, skip)
    case Some(Handed(m)) => Behind(events + [Handed(m)], Reassemble(vi, limit, rest))
    case Some(Skipped(why)) => Outcome(events + [Skipped(why)], rest, skip)
  }

  lemma PoppedIs(
    vi: bool, limit: nat, events: seq<Event>, was: seq<u8>, r: Option<Event>, rest: seq<u8>, skip: nat)
    requires Popped(vi, limit, was, r, rest, skip)
    ensures Behind(events, Reassemble(vi, limit, was)) == Pending(vi, limit, events, r, rest, skip)
  {
    hide Header, Refusal, Complete, First;
    if r.Some? && r.value.Handed? {
      BehindTwice(events, [r.value], Reassemble(vi, limit, rest));
    } else if r.None? {
      assert events + [] == events;
    }
  }

  lemma PoppedSized(vi: bool, limit: nat, was: seq<u8>, r: Option<Event>, rest: seq<u8>, skip: nat)
    requires INLINE <= limit && Popped(vi, limit, was, r, rest, skip) && Sized(vi, INLINE, was)
    ensures Refusal(vi, INLINE, was).None? && (r.Some? && r.value.Handed? ==> Sized(vi, INLINE, rest))
  {
    hide Header, Refusal, Complete, First;
    RefusalLater(vi, INLINE, limit, was);
  }

  // ---- Deliveries ----

  lemma ResumeNext(
    vi: bool, limit: nat, was: seq<u8>, owed: nat, x: seq<u8>, y: seq<u8>, mid: Outcome, r: Outcome)
    requires mid == Resume(vi, limit, was, owed, x) && r == Resume(vi, limit, mid.rest, mid.owed, y)
    ensures Outcome(mid.events + r.events, r.rest, r.owed) == Resume(vi, limit, was, owed, x + y)
  {
    hide Resume;
    ResumeJoin(vi, limit, was, owed, x, y);
  }

  lemma ResumeNothing(vi: bool, limit: nat, rest: seq<u8>, owed: nat)
    requires Quiet(vi, limit, rest)
    ensures Resume(vi, limit, rest, owed, []) == Outcome([], rest, owed)
  {
    hide Header, Complete, Refusal;
    var none: seq<u8> := [];
    assert rest + none[0..] == rest;
  }

  /** A whole stream: it loses no message exactly when each can be held, and they
      are then its framing. */
  lemma WholeStream(vi: bool, limit: nat, was: seq<u8>, x: seq<u8>)
    ensures var r := Resume(vi, limit, was, 0, x);
            && (NoneSkipped(r.events) <==> Sized(vi, limit, was + x))
            && (NoneSkipped(r.events) ==> r.owed == 0 && Framed(Msgs(r.events), r.rest) == Frames(vi, was + x))
  {
    hide Reassemble, Sized, NoneSkipped, Frames, Msgs;
    assert x[0..] == x;
    NoneSkippedIff(vi, limit, was + x);
  }

  lemma SizedResume(vi: bool, limit: nat, was: seq<u8>, x: seq<u8>)
    requires INLINE <= limit <= BIG && Sized(vi, INLINE, was + x)
    ensures Resume(vi, limit, was, 0, x) == Resume(vi, BIG, was, 0, x)
  {
    hide Reassemble, Sized;
    assert x[0..] == x && was + x + [] == was + x;
    SizedSame(vi, INLINE, limit, was + x, []);
    SizedSame(vi, INLINE, BIG, was + x, []);
  }

  lemma NextSized(vi: bool, was: seq<u8>, sent: seq<u8>, data: seq<u8>, all: seq<u8>, r: Outcome)
    requires Sized(vi, INLINE, was + all) && sent + data <= all && r == Resume(vi, BIG, was, 0, sent)
    ensures r.owed == 0 && Sized(vi, INLINE, r.rest + data)
  {
    hide Reassemble, Sized;
    assert sent[0..] == sent;
    assert was + all == was + sent + data + all[|sent + data|..];
    SizedPrefix(vi, INLINE, was + sent + data, all[|sent + data|..]);
    SizedSame(vi, INLINE, BIG, was + sent, data);
  }

  lemma QuietInBig(vi: bool, cap: nat, b: seq<u8>)
    requires cap <= BIG && Quiet(vi, cap, b)
    ensures Quiet(vi, BIG, b)
  {
    RefusalLater(vi, cap, BIG, b);
  }

  // ---- What a buffer holds ----

  /** The message at the head can be held, and takes more than a header's worth. */
  predicate Long(vi: bool, b: seq<u8>) {
    match Header(vi, b)
    case None => false
    case Some((_, len, from)) => len <= MAX_MSG_LEN && from + len > HDR_MAX
  }

  /** An incomplete message its buffer has room for leaves room in it. */
  lemma QuietIsShort(vi: bool, b: seq<u8>, cap: nat)
    requires Quiet(vi, cap, b) && HDR_MAX <= cap
    ensures |b| < cap
  {
    hide Header;
    HeaderBound(vi, b);
  }

  /** A message held past its header is long, and stays so as more comes. */
  lemma QuietIsLong(vi: bool, cap: nat, b: seq<u8>, x: seq<u8>)
    requires Quiet(vi, cap, b) && |b| > HDR_MAX
    ensures Long(vi, b + x)
  {
    hide Header;
    HeaderBound(vi, b);
    HeaderStable(vi, b, x);
  }

  /** A message passed over is never complete: bytes of it are still to come. */
  lemma RefusedOwes(vi: bool, limit: nat, b: seq<u8>)
    requires Refusal(vi, limit, b).Some? && (|b| <= MAX_MSG_LEN || Long(vi, b)) && |b| <= limit
    ensures Header(vi, b).Some? && SkipLen(vi, b) > |b|
  {
    hide Header;
    HeaderBound(vi, b);
  }

  lemma TakenIsTame(vi: bool, b: seq<u8>)
    requires Complete(vi, b) && |b| <= BIG && (|b| <= MAX_MSG_LEN || Long(vi, b))
    ensures |b[Cut(vi, b)..]| <= MAX_MSG_LEN
  {
    hide Header;
  }
}
