/** Whole fetch streams. */
module FetchStream {
  import opened Options
  import opened Bytes
  import opened Parsing
  import opened Seqs
  import Vi = Varint
  import opened Varint
  import opened FetchSpec
  import opened FetchProofs

  // ---- Decoding a stream to its end ----

  lemma StepAdvances(i: nat, b: seq<u8>, at: nat, s: Prior, o: Item)
    requires i < STEPS && TakeStep(i, b, at, s, o).Ok? && at <= |b|
    ensures at <= TakeStep(i, b, at, s, o).at <= |b|
  {
    hide Vi.Take, HasGroup, HasObject, HasPriority, HasProps, IsDatagram, ResolveGroup, ResolveObject;
    if Vi.Take(b, at).Some? {
      TakeStable(b, [], at);
    }
  }

  lemma {:induction false} StepsAdvance(i: nat, b: seq<u8>, at: nat, s: Prior, o: Item)
    requires i <= STEPS && TakeSteps(i, b, at, s, o).Ok? && at <= |b|
    ensures at <= TakeSteps(i, b, at, s, o).at <= |b|
    decreases STEPS - i
  {
    hide TakeStep;
    if i < STEPS {
      StepAdvances(i, b, at, s, o);
      var t := TakeStep(i, b, at, s, o);
      StepsAdvance(i + 1, b, t.at, s, t.value);
    }
  }

  lemma ItemAdvances(b: seq<u8>, at: nat, s: Prior)
    requires TakeItem(b, at, s).Ok?
    ensures at < TakeItem(b, at, s).at <= |b|
  {
    hide Vi.Take, TakeSteps, ResolveRange;
    TakeStable(b, [], at);
    var (flags, next) := Vi.Take(b, at).value;
    match KindOf(flags, s)
    case ObjectKind => StepsAdvance(0, b, next, s, Blank(flags));
    case RangeKind =>
      TakeStable(b, [], next);
      TakeStable(b, [], Vi.Take(b, next).value.1);
    case EndKind =>
  }

  /** What a decoder makes of a buffer: the items, where it stopped, in which
      state, and why. */
  datatype Decoded = Decoded(items: seq<Item>, at: nat, s: Prior, stop: Taken<Item>)

  function DecodeAll(b: seq<u8>, at: nat, s: Prior): Decoded
    requires at <= |b|
    decreases |b| - at
  {
    match TakeItem(b, at, s)
    case Ok(o, next) =>
      ItemAdvances(b, at, s);
      var rest := DecodeAll(b, next, Noted(s, o));
      rest.(items := [o] + rest.items)
    case _ => Decoded([], at, s, TakeItem(b, at, s))
  }

  /** Feeding a stream in two parts gives what feeding it whole gives: resuming
      where the first part ran out continues as if it had never stopped. */
  lemma {:induction false} ChunksAgree(b: seq<u8>, x: seq<u8>, at: nat, s: Prior)
    requires at <= |b|
    ensures var d := DecodeAll(b, at, s);
            && d.at <= |b|
            && var whole := DecodeAll(b + x, at, s);
               if d.stop.Insufficient? then
                 whole == DecodeAll(b + x, d.at, d.s).(items := d.items + DecodeAll(b + x, d.at, d.s).items)
               else whole == d
    decreases |b| - at
  {
    hide TakeItem;
    var t := TakeItem(b, at, s);
    if !t.Insufficient? {
      ItemStable(b, x, at, s);
    }
    if t.Ok? {
      ItemAdvances(b, at, s);
      ChunksAgree(b, x, t.at, Noted(s, t.value));
      var d := DecodeAll(b, t.at, Noted(s, t.value));
      Assoc([t.value], d.items, DecodeAll(b + x, d.at, d.s).items);
    } else {
      assert [] + DecodeAll(b + x, at, s).items == DecodeAll(b + x, at, s).items;
    }
  }

  /** A stream read as it arrives: all bytes so far, and what was made of them. */
  datatype Reader = Reader(b: seq<u8>, d: Decoded)

  /** A delivery: decoding resumes where it ran out, unless it had failed. */
  function Feed(r: Reader, x: seq<u8>): Reader
    requires r.d.at <= |r.b|
  {
    if !r.d.stop.Insufficient? then Reader(r.b + x, r.d)
    else
      var more := DecodeAll(r.b + x, r.d.at, r.d.s);
      Reader(r.b + x, more.(items := r.d.items + more.items))
  }

  lemma {:induction false} FeedKeeps(b: seq<u8>, at: nat, s: Prior)
    requires at <= |b|
    ensures DecodeAll(b, at, s).at <= |b|
    decreases |b| - at
  {
    hide TakeItem;
    if TakeItem(b, at, s).Ok? {
      ItemAdvances(b, at, s);
      FeedKeeps(b, TakeItem(b, at, s).at, Noted(s, TakeItem(b, at, s).value));
    }
  }

  function FeedAll(r: Reader, xs: seq<seq<u8>>): Reader
    requires r.d.at <= |r.b|
    decreases |xs|
  {
    if xs == [] then r
    else
      FeedKeeps(r.b + xs[0], r.d.at, r.d.s);
      FeedAll(Feed(r, xs[0]), xs[1..])
  }

  /** However a stream is cut into deliveries, the items, the state and the
      verdict are those of the whole. */
  lemma {:induction false} AnyChunksAgree(b: seq<u8>, at: nat, s: Prior, xs: seq<seq<u8>>)
    requires at <= |b|
    ensures DecodeAll(b, at, s).at <= |b|
    ensures FeedAll(Reader(b, DecodeAll(b, at, s)), xs) == Reader(b + Concat(xs), DecodeAll(b + Concat(xs), at, s))
    decreases |xs|
  {
    hide DecodeAll;
    FeedKeeps(b, at, s);
    if xs == [] {
      assert b + [] == b;
    } else {
      ChunksAgree(b, xs[0], at, s);
      AnyChunksAgree(b + xs[0], at, s, xs[1..]);
      Assoc(b, xs[0], Concat(xs[1..]));
    }
  }

  // ---- Encoding then decoding a stream ----

  ghost predicate AgreesAll(s: Prior, items: seq<Item>)
    decreases |items|
  {
    items == [] || (Agrees(s, items[0]) && AgreesAll(Noted(s, items[0]), items[1..]))
  }

  /** The bytes of a list of items and the encoder's state after them. */
  function EncodeAll(s: Prior, items: seq<Item>): Option<(seq<u8>, Prior)>
    requires forall i :: 0 <= i < |items| ==> Sized(items[i])
    decreases |items|
  {
    if items == [] then Some(([], s))
    else
      var x := PutItem(s, items[0]);
      var y := EncodeAll(Noted(s, items[0]), items[1..]);
      if x.Some? && y.Some? then Some((x.value + y.value.0, y.value.1)) else None
  }

  lemma {:induction false} AgreesSized(s: Prior, items: seq<Item>)
    requires AgreesAll(s, items)
    ensures forall i :: 0 <= i < |items| ==> Sized(items[i])
    decreases |items|
  {
    if items != [] {
      AgreesSized(Noted(s, items[0]), items[1..]);
      assert forall i :: 0 <= i < |items| ==> items[i] == if i == 0 then items[0] else items[1..][i - 1];
    }
  }

  lemma {:induction false} EncodeAllSome(s: Prior, items: seq<Item>)
    requires AgreesAll(s, items) && forall i :: 0 <= i < |items| ==> Sized(items[i])
    ensures EncodeAll(s, items).Some?
    decreases |items|
  {
    hide PutItem, TakeItem, Agrees, HasAt;
    if items != [] {
      PutSome(s, items[0]);
      EncodeAllSome(Noted(s, items[0]), items[1..]);
    }
  }

  lemma PutSome(s: Prior, o: Item)
    requires Agrees(s, o)
    ensures PutItem(s, o).Some?
  {
    hide PutBody, Agrees;
    BodySome(s, o);
  }

  lemma {:induction false} StreamAt(b: seq<u8>, at: nat, s: Prior, items: seq<Item>)
    requires AgreesAll(s, items) && (forall i :: 0 <= i < |items| ==> Sized(items[i])) && EncodeAll(s, items).Some?
    requires at <= |b| && b[at..] == EncodeAll(s, items).value.0
    ensures DecodeAll(b, at, s) == Decoded(items, |b|, EncodeAll(s, items).value.1, Insufficient)
    decreases |items|
  {
    hide PutItem, TakeItem, Agrees;
    if items == [] {
      EndIsInsufficient(b, s);
    } else {
      var o := items[0];
      var x, y := PutItem(s, o).value, EncodeAll(Noted(s, o), items[1..]).value.0;
      assert b[at..] == x + y;
      assert b[at..at + |x|] == b[at..][..|x|] == x;
      assert b[at + |x|..] == b[at..][|x|..] == y;
      ItemRoundTrip(b, at, s, o);
      StreamAt(b, at + |x|, Noted(s, o), items[1..]);
      assert [o] + items[1..] == items;
    }
  }

  lemma EndIsInsufficient(b: seq<u8>, s: Prior)
    ensures TakeItem(b, |b|, s) == Insufficient
  {
  }

  /** Any list of items whose flags agree with the running state is encoded;
      decoding the bytes gives the list back and leaves the decoder in the
      encoder's state. */
  lemma StreamRoundTrip(s: Prior, items: seq<Item>)
    requires AgreesAll(s, items)
    ensures forall i :: 0 <= i < |items| ==> Sized(items[i])
    ensures EncodeAll(s, items).Some?
    ensures var (bytes, after) := EncodeAll(s, items).value;
            DecodeAll(bytes, 0, s) == Decoded(items, |bytes|, after, Insufficient)
  {
    AgreesSized(s, items);
    EncodeAllSome(s, items);
    var (bytes, after) := EncodeAll(s, items).value;
    assert bytes[0..] == bytes;
    StreamAt(bytes, 0, s, items);
  }

  /** Everything a decoder accepts agrees with its running state. */
  lemma {:induction false} DecodedAgrees(b: seq<u8>, at: nat, s: Prior)
    requires at <= |b|
    ensures AgreesAll(s, DecodeAll(b, at, s).items)
    decreases |b| - at
  {
    hide TakeItem, Agrees;
    var t := TakeItem(b, at, s);
    if t.Ok? {
      ItemAdvances(b, at, s);
      TakeAgrees(b, at, s);
      DecodedAgrees(b, t.at, Noted(s, t.value));
      var rest := DecodeAll(b, t.at, Noted(s, t.value)).items;
      assert ([t.value] + rest)[1..] == rest;
    }
  }

  // ---- Order of Locations on a draft-23 stream ----

  /** Location (g, v) comes after (g0, v0): groups in stream order, Objects
      rising inside a group. */
  predicate After(descending: bool, g0: u64, v0: u64, g: u64, v: u64) {
    if g != g0 then (if descending then g < g0 else g > g0) else v > v0
  }

  predicate IsMark(o: Item) {
    o.flags == END_OF_GROUP || o.flags == END_OF_TRACK
  }

  /** On a draft-23 stream an item that agrees, and is no end marker, lies
      after the prior Location; an end marker ends the prior Group. */
  lemma AgreesAfter(s: Prior, o: Item)
    requires s.d23 && s.haveLoc && Agrees(s, o)
    ensures if IsMark(o) then o.group == s.group && o.obj == U64_MAX
            else After(s.descending, s.group, s.obj, o.group, o.obj)
    ensures var n := Noted(s, o);
            n.haveLoc && n.d23 && n.descending == s.descending && n.group == o.group && n.obj == o.obj
  {
    if KindOf(o.flags, s).ObjectKind? {
      assert FieldAgrees(1, s, o) && FieldAgrees(3, s, o);
    }
  }

  /** From a state on, every item lies after the state's Location and after
      every item before it. */
  ghost predicate InOrder(s: Prior, items: seq<Item>) {
    && (forall j :: 0 <= j < |items| && !IsMark(items[j]) ==>
                      After(s.descending, s.group, s.obj, items[j].group, items[j].obj))
    && (forall i, j :: 0 <= i < j < |items| && !IsMark(items[j]) ==>
                      After(s.descending, items[i].group, items[i].obj, items[j].group, items[j].obj))
  }

  lemma {:induction false} AgreesInOrder(s: Prior, items: seq<Item>)
    requires s.d23 && s.haveLoc && AgreesAll(s, items)
    ensures InOrder(s, items)
    decreases |items|
  {
    hide Agrees, IsMark;
    if items != [] {
      var o, rest := items[0], items[1..];
      var n := Noted(s, o);
      AgreesAfter(s, o);
      AgreesInOrder(n, rest);
      assert forall j :: 1 <= j < |items| ==> items[j] == rest[j - 1];
      forall j | 0 <= j < |items| && !IsMark(items[j])
        ensures After(s.descending, s.group, s.obj, items[j].group, items[j].obj)
      {
        if j > 0 {
          assert After(n.descending, n.group, n.obj, rest[j - 1].group, rest[j - 1].obj);
        }
      }
      forall i, j | 0 <= i < j < |items| && !IsMark(items[j])
        ensures After(s.descending, items[i].group, items[i].obj, items[j].group, items[j].obj)
      {
        assert items[j] == rest[j - 1];
        if i > 0 {
          assert items[i] == rest[i - 1];
        }
      }
    }
  }

  /** For every byte string on a draft-23 stream that starts from nothing:
      accepted Objects and End of Range items never repeat a Location, they
      follow the stream's group order with Objects rising inside a group, and
      after an end marker nothing of its Group decodes but further end markers. */
  lemma Draft23Order(b: seq<u8>, s: Prior)
    requires s.d23
    ensures var items := DecodeAll(b, 0, s).items;
            && (forall i, j :: 0 <= i < j < |items| && !IsMark(items[j]) ==>
                  After(s.descending, items[i].group, items[i].obj, items[j].group, items[j].obj))
            && (forall i, j :: 0 <= i < j < |items| && IsMark(items[i]) && items[j].group == items[i].group ==>
                  IsMark(items[j]))
  {
    hide Agrees, TakeItem;
    var items := DecodeAll(b, 0, s).items;
    DecodedAgrees(b, 0, s);
    if items != [] {
      FirstLocated(s, items[0]);
      MarksAtEnd(s, items);
      AgreesInOrder(Noted(s, items[0]), items[1..]);
      assert forall j :: 1 <= j < |items| ==> items[j] == items[1..][j - 1];
    }
  }

  /** End markers can follow one another: on a draft-23 stream with a Location,
      a second one for the same Group is sent and decoded. */
  lemma EndCanRepeat(s: Prior, m: Item, again: Item)
    requires s.d23 && s.haveLoc && IsMark(m) && IsMark(again)
    requires EndAgrees(s, m) && EndAgrees(s, again)
    ensures Sized(m) && Sized(again) && EncodeAll(s, [m, again]).Some?
    ensures DecodeAll(EncodeAll(s, [m, again]).value.0, 0, s).items == [m, again]
  {
    hide EncodeAll, DecodeAll;
    var n := Noted(s, m);
    assert Agrees(s, m) && Agrees(n, again);
    assert [m, again][1..] == [again] && [again][1..] == [];
    assert AgreesAll(Noted(n, again), []);
    StreamRoundTrip(s, [m, again]);
    assert [m, again][0] == m && [m, again][1] == again;
  }

  lemma FirstLocated(s: Prior, o: Item)
    requires s.d23 && Agrees(s, o)
    ensures var n := Noted(s, o);
            n.haveLoc && n.d23 && n.descending == s.descending && n.group == o.group && n.obj == o.obj
  {
  }

  lemma {:induction false} MarksAtEnd(s: Prior, items: seq<Item>)
    requires s.d23 && AgreesAll(s, items)
    ensures forall i :: 0 <= i < |items| && IsMark(items[i]) ==> items[i].obj == U64_MAX
    decreases |items|
  {
    if items != [] {
      MarksAtEnd(Noted(s, items[0]), items[1..]);
      assert forall j :: 1 <= j < |items| ==> items[j] == items[1..][j - 1];
    }
  }

  /** Before draft-23 a relative Object ID Delta of 0 repeats a Location. */
  lemma Draft22CanRepeat(s: Prior, o: Item)
    requires !s.d23 && s.haveLoc && s.havePriority
    requires o == Blank(0x44).(group := s.group, obj := s.obj, priority := s.priority)
    ensures Agrees(s, o) && !IsMark(o) && !After(s.descending, s.group, s.obj, o.group, o.obj)
  {
  }

  /** An item survives its own encoding exactly when its flags agree with the
      running state. */
  lemma RoundTripIff(s: Prior, o: Item)
    requires Sized(o)
    ensures (PutItem(s, o).Some? && TakeItem(PutItem(s, o).value, 0, s) == Ok(o, |PutItem(s, o).value|)) <==> Agrees(s, o)
  {
    hide PutItem, TakeItem, Agrees;
    if PutItem(s, o).Some? {
      var x := PutItem(s, o).value;
      assert x[0..|x|] == x;
      if TakeItem(x, 0, s).Ok? {
        TakeAgrees(x, 0, s);
      }
      if Agrees(s, o) {
        ItemRoundTrip(x, 0, s, o);
      }
    } else if Agrees(s, o) {
      PutSome(s, o);
    }
  }
}

/** The stream codec over a cursor and a byte buffer. */
module FetchBuffer {
  import opened Options
  import opened Bytes
  import opened Parsing
  import opened ByteBuffer
  import opened Seqs
  import Vi = Varint
  import opened FetchSpec

  /** Runs an Object's take steps in wire order. */
  method RunSteps(b: seq<u8>, at: nat, s: Prior, flags: u64) returns (r: Taken<Item>)
    ensures r == TakeSteps(0, b, at, s, Blank(flags))
  {
    hide TakeStep;
    r := Ok(Blank(flags), at);
    var i := 0;
    while i < STEPS
      invariant i <= STEPS && r.Ok?
      invariant TakeSteps(i, b, r.at, s, r.value) == TakeSteps(0, b, at, s, Blank(flags))
    {
      r := TakeStep(i, b, r.at, s, r.value);
      if !r.Ok? {
        return;
      }
      i := i + 1;
    }
  }

  /** Decodes one item at off; cursor and state move only when it is whole. */
  method TakeOne(b: seq<u8>, off: nat, s: Prior) returns (r: Taken<Item>, at: nat, next: Prior)
    ensures r == TakeItem(b, off, s)
    ensures if r.Ok? then at == r.at && next == Noted(s, r.value) else at == off && next == s
  {
    hide Vi.Take, TakeSteps, TakeRange;
    at, next := off, s;
    var v := Vi.Take(b, off);
    if v.None? {
      return Insufficient, at, next;
    }
    var (flags, from) := v.value;
    match KindOf(flags, s) {
      case ObjectKind => r := RunSteps(b, from, s, flags);
      case RangeKind => r := TakeRange(b, from, s, Blank(flags));
      case EndKind => r := TakeEnd(from, s, Blank(flags));
      case NoKind => r := Violation(BadObject);
    }
    if r.Ok? {
      at, next := r.at, Noted(s, r.value);
    }
  }

  /** Runs an Object's put steps; ok once all are written. */
  /** b[off..at] and the steps from i on make up the fields. */
  predicate FieldsLeft(b: seq<u8>, off: nat, at: nat, i: nat, s: Prior, o: Item)
    requires i <= STEPS && Sized(o)
  {
    var all, rest := PutSteps(0, s, o), PutSteps(i, s, o);
    && off <= at <= |b| && (all.Some? <==> rest.Some?)
    && (all.Some? ==> all.value == b[off..at] + rest.value)
  }

  lemma StepsSplit(i: nat, s: Prior, o: Item)
    requires i < STEPS && Sized(o)
    ensures var x, y := PutStep(i, s, o), PutSteps(i + 1, s, o);
            PutSteps(i, s, o) == if x.Some? && y.Some? then Some(x.value + y.value) else None
  {
    hide PutStep;
  }

  lemma FieldsNone(b: seq<u8>, off: nat, s: Prior, o: Item)
    requires off <= |b| && Sized(o)
    ensures FieldsLeft(b, off, off, 0, s, o)
  {
    hide PutSteps;
    assert b[off..off] == [];
  }

  lemma FieldsStep(before: seq<u8>, after: seq<u8>, off: nat, at: nat, i: nat, s: Prior, o: Item, x: seq<u8>)
    requires i < STEPS && Sized(o) && FieldsLeft(before, off, at, i, s, o) && PutStep(i, s, o) == Some(x)
    requires at + |x| <= |after| && after[..at] == before[..at] && after[at..at + |x|] == x
    ensures after[..off] == before[..off] && FieldsLeft(after, off, at + |x|, i + 1, s, o)
  {
    hide PutStep, PutSteps;
    StepsSplit(i, s, o);
    Grown(before, after, off, at, at + |x|);
    var rest := PutSteps(i + 1, s, o);
    if rest.Some? { Assoc(before[off..at], x, rest.value); }
  }

  lemma FieldsTooLong(b: seq<u8>, off: nat, at: nat, i: nat, s: Prior, o: Item)
    requires i < STEPS && Sized(o) && FieldsLeft(b, off, at, i, s, o)
    ensures var all, x := PutSteps(0, s, o), PutStep(i, s, o);
            all.Some? ==> x.Some? && off + |all.value| >= at + |x.value|
  {
    hide PutStep, PutSteps;
    StepsSplit(i, s, o);
  }

  lemma FieldsAll(b: seq<u8>, off: nat, at: nat, s: Prior, o: Item)
    requires Sized(o) && FieldsLeft(b, off, at, STEPS, s, o)
    ensures off <= at <= |b| && PutSteps(0, s, o) == Some(b[off..at])
  {
    assert PutSteps(STEPS, s, o) == Some([]);
    hide PutSteps;
    assert b[off..at] + [] == b[off..at];
  }

  method PutFields(buf: array<u8>, off: nat, s: Prior, o: Item) returns (ok: bool, at: nat)
    requires off <= buf.Length && Sized(o)
    modifies buf
    ensures buf[..off] == old(buf[..off])
    ensures ok <==> PutSteps(0, s, o).Some? && off + |PutSteps(0, s, o).value| <= buf.Length
    ensures ok ==> at == off + |PutSteps(0, s, o).value| && buf[off..at] == PutSteps(0, s, o).value
  {
    hide PutStep, PutSteps, FieldsLeft;
    at := off;
    FieldsNone(buf[..], off, s, o);
    for i := 0 to STEPS
      invariant off <= at <= buf.Length && buf[..off] == old(buf[..off])
      invariant FieldsLeft(buf[..], off, at, i, s, o)
    {
      ghost var before := buf[..];
      FieldsTooLong(before, off, at, i, s, o);
      var x := PutStep(i, s, o);
      if x.None? {
        return false, at;
      }
      ok := PutAt(buf, at, x.value);
      if !ok {
        Grown(before, buf[..], off, at, at);
        return false, at;
      }
      FieldsStep(before, buf[..], off, at, i, s, o, x.value);
      at := at + |x.value|;
    }
    FieldsAll(buf[..], off, at, s, o);
    ok := true;
  }

  /** Writes what follows an item's flags. */
  method PutRest(buf: array<u8>, off: nat, s: Prior, o: Item) returns (ok: bool, at: nat)
    requires off <= buf.Length && Sized(o)
    modifies buf
    ensures buf[..off] == old(buf[..off])
    ensures ok <==> PutBody(s, o).Some? && off + |PutBody(s, o).value| <= buf.Length
    ensures ok ==> at == off + |PutBody(s, o).value| && buf[off..at] == PutBody(s, o).value
  {
    hide Vi.Encode, Vi.Len, PutSteps, PutRange;
    match KindOf(o.flags, s) {
      case ObjectKind => ok, at := PutFields(buf, off, s, o);
      case RangeKind =>
        ok := PutAt(buf, off, PutRange(s, o));
        at := off + |PutRange(s, o)|;
      case EndKind => ok, at := s.haveLoc, off;
      case NoKind => ok, at := false, off;
    }
  }

  /** Encodes one item at off and advances the state as a decoder would. */
  method PutOne(buf: array<u8>, off: nat, s: Prior, o: Item) returns (ok: bool, at: nat, next: Prior)
    requires off <= buf.Length && Sized(o)
    modifies buf
    ensures buf[..off] == old(buf[..off])
    ensures ok <==> PutItem(s, o).Some? && off + |PutItem(s, o).value| <= buf.Length
    ensures if ok then next == Noted(s, o) && at == off + |PutItem(s, o).value| && buf[off..at] == PutItem(s, o).value
            else next == s
  {
    hide Vi.Encode, Vi.Len, PutBody, Noted;
    at, next := off, s;
    var flags := Vi.Encode(o.flags);
    ok := PutAt(buf, off, flags);
    if !ok {
      return;
    }
    ghost var mid := buf[..];
    ok, at := PutRest(buf, off + |flags|, s, o);
    assert buf[..off] == buf[..off + |flags|][..off];
    if ok {
      Grown(mid, buf[..], off, off + |flags|, at);
      next := Noted(s, o);
    }
  }
}
