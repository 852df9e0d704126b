/** Whole subgroup streams. */
module SubgroupStream {
  import opened Options
  import opened Bytes
  import opened Parsing
  import opened Seqs
  import opened Varint
  import opened SubgroupSpec
  import opened SubgroupStable

  /** What a decoder makes of a buffer: the Objects, where it stopped, in which
      state, and why. */
  datatype Decoded = Decoded(objs: seq<Obj>, at: nat, c: Chain, stop: Taken<Obj>)

  lemma ObjAdvances(b: seq<u8>, at: nat, c: Chain)
    requires TakeObj(b, at, c).Ok?
    ensures at < TakeObj(b, at, c).at <= |b|
  {
    hide TakeObj;
    ObjStable(b, [], at, c);
  }

  function DecodeAll(b: seq<u8>, at: nat, c: Chain): (d: Decoded)
    requires at <= |b|
    ensures at <= d.at <= |b| && !d.stop.Ok?
    decreases |b| - at
  {
    match TakeObj(b, at, c)
    case Ok(o, next) =>
      ObjAdvances(b, at, c);
      var rest := DecodeAll(b, next, Chained(c, o));
      rest.(objs := [o] + rest.objs)
    case _ => Decoded([], at, c, TakeObj(b, at, c))
  }

  // ---- Chunks ----

  /** A stream read as it arrives: all bytes so far, and what was made of them. */
  datatype Reader = Reader(b: seq<u8>, d: Decoded)

  /** A delivery: decoding resumes where it ran out, unless it had failed. */
  function Feed(r: Reader, x: seq<u8>): Reader
    requires r.d.at <= |r.b|
  {
    if !r.d.stop.Insufficient? then Reader(r.b + x, r.d)
    else
      var more := DecodeAll(r.b + x, r.d.at, r.d.c);
      Reader(r.b + x, more.(objs := r.d.objs + more.objs))
  }

  function FeedAll(r: Reader, xs: seq<seq<u8>>): (s: Reader)
    requires r.d.at <= |r.b|
    decreases |xs|
  {
    if xs == [] then r else FeedAll(Feed(r, xs[0]), xs[1..])
  }

  /** Resuming where the first part ran out is as if it had never stopped. */
  lemma {:induction false} ChunksAgree(b: seq<u8>, x: seq<u8>, at: nat, c: Chain)
    requires at <= |b|
    ensures Feed(Reader(b, DecodeAll(b, at, c)), x) == Reader(b + x, DecodeAll(b + x, at, c))
    decreases |b| - at
  {
    hide TakeObj;
    var t := TakeObj(b, at, c);
    ObjStable(b, x, at, c);
    if t.Ok? {
      var d := DecodeAll(b, t.at, Chained(c, t.value));
      ChunksAgree(b, x, t.at, Chained(c, t.value));
      if d.stop.Insufficient? {
        Assoc([t.value], d.objs, DecodeAll(b + x, d.at, d.c).objs);
      }
    } else if t.Insufficient? {
      assert [] + DecodeAll(b + x, at, c).objs == DecodeAll(b + x, at, c).objs;
    }
  }

  /** However a stream is cut into deliveries, the Objects, the place and the
      verdict are those of the whole. */
  lemma {:induction false} AnyChunksAgree(b: seq<u8>, at: nat, c: Chain, xs: seq<seq<u8>>)
    requires at <= |b|
    ensures FeedAll(Reader(b, DecodeAll(b, at, c)), xs) == Reader(b + Concat(xs), DecodeAll(b + Concat(xs), at, c))
    decreases |xs|
  {
    if xs == [] {
      assert b + [] == b;
    } else {
      ChunksAgree(b, xs[0], at, c);
      AnyChunksAgree(b + xs[0], at, c, xs[1..]);
      Assoc(b, xs[0], Concat(xs[1..]));
    }
  }

  // ---- Order ----

  /** IDs rise strictly, from prev on. */
  predicate Ascends(prev: Option<u64>, objs: seq<Obj>) {
    && (forall i :: 0 <= i < |objs| ==> prev.None? || prev.value < objs[i].id)
    && (forall i, j :: 0 <= i < j < |objs| ==> objs[i].id < objs[j].id)
  }

  lemma ObjRises(b: seq<u8>, at: nat, c: Chain)
    requires TakeObj(b, at, c).Ok? && c.prev.Some?
    ensures c.prev.value < TakeObj(b, at, c).value.id
  {
  }

  /** Whatever the bytes, no Object ID repeats or falls. */
  lemma {:induction false} DecodedAscends(b: seq<u8>, at: nat, c: Chain)
    requires at <= |b|
    ensures Ascends(c.prev, DecodeAll(b, at, c).objs)
    decreases |b| - at
  {
    hide TakeObj;
    var t := TakeObj(b, at, c);
    if t.Ok? {
      ObjAdvances(b, at, c);
      if c.prev.Some? { ObjRises(b, at, c); }
      DecodedAscends(b, t.at, Chained(c, t.value));
      var rest := DecodeAll(b, t.at, Chained(c, t.value)).objs;
      assert forall i :: 1 <= i <= |rest| ==> ([t.value] + rest)[i] == rest[i - 1];
    }
  }

  // ---- Encoding then decoding ----

  /** An Object the writer can send: no properties, and a status only in place
      of a payload. */
  predicate Sendable(o: Obj) {
    && o.props == [] && |o.payload| <= U64_MAX && StatusKnown(o.status)
    && (o.payload != [] ==> o.status == STATUS_NORMAL)
  }

  function Delta(prev: Option<u64>, id: u64): u64
    requires prev.Some? ==> prev.value < id
  {
    if prev.None? then id else id - prev.value - 1
  }

  /** The bytes of one Object after prev. */
  function PutNext(prev: Option<u64>, o: Obj): seq<u8>
    requires Sendable(o) && (prev.Some? ==> prev.value < o.id)
  {
    PutObj(Delta(prev, o.id), o.payload, o.status)
  }

  predicate AllSendable(objs: seq<Obj>) {
    forall i :: 0 <= i < |objs| ==> Sendable(objs[i])
  }

  function PutAll(prev: Option<u64>, objs: seq<Obj>): seq<u8>
    requires Ascends(prev, objs) && AllSendable(objs)
    decreases |objs|
  {
    if objs == [] then []
    else
      AscendsTail(prev, objs);
      assert Sendable(objs[0]);
      PutNext(prev, objs[0]) + PutAll(Some(objs[0].id), objs[1..])
  }

  lemma RestRoundTrip(b: seq<u8>, at: nat, o: Obj)
    requires Sendable(o)
    requires HasAt(b, at, Encode(|o.payload|) + if o.payload == [] then Encode(o.status) else o.payload)
    ensures TakeRest(b, at, o.id, [])
         == Ok(o, at + |Encode(|o.payload|)| + |if o.payload == [] then Encode(o.status) else o.payload|)
  {
    hide Take, Encode, Len, HasAt;
    var n := Encode(|o.payload|);
    HasBoth(b, at, n, if o.payload == [] then Encode(o.status) else o.payload);
    RoundTrip(b, at, |o.payload|);
    if o.payload == [] {
      RoundTrip(b, at + |n|, o.status);
    } else {
      BytesAt(b, at + |n|, o.payload);
    }
  }

  lemma BytesAt(b: seq<u8>, at: nat, x: seq<u8>)
    requires HasAt(b, at, x)
    ensures TakeBytes(b, at, |x|) == Ok(x, at + |x|)
  {
  }

  lemma ObjRoundTrip(b: seq<u8>, at: nat, prev: Option<u64>, o: Obj)
    requires (prev.Some? ==> prev.value < o.id) && Sendable(o) && HasAt(b, at, PutNext(prev, o))
    ensures TakeObj(b, at, Chain(false, prev)) == Ok(o, at + |PutNext(prev, o)|)
  {
    hide Take, Encode, Len, HasAt, TakeRest;
    var d, n := Encode(Delta(prev, o.id)), Encode(|o.payload|);
    var tail := if o.payload == [] then Encode(o.status) else o.payload;
    Assoc(d, n, tail);
    HasBoth(b, at, d, n + tail);
    RoundTrip(b, at, Delta(prev, o.id));
    RestRoundTrip(b, at + |d|, o);
  }

  /** Any list of Objects with rising IDs comes back as it was sent. */
  lemma {:induction false} StreamRoundTrip(b: seq<u8>, at: nat, prev: Option<u64>, objs: seq<Obj>)
    requires Ascends(prev, objs) && AllSendable(objs)
    requires at <= |b| && b[at..] == PutAll(prev, objs)
    ensures DecodeAll(b, at, Chain(false, prev)).objs == objs
    ensures DecodeAll(b, at, Chain(false, prev)).at == |b| && DecodeAll(b, at, Chain(false, prev)).stop.Insufficient?
    decreases |objs|
  {
    hide PutNext, Sendable, TakeObj, HasAt, Ascends;
    if objs == [] {
      assert at == |b|;
      NothingLeft(b, Chain(false, prev));
    } else {
      var o, rest := objs[0], objs[1..];
      assert Sendable(o);
      AscendsTail(prev, objs);
      var x := PutNext(prev, o);
      CutTail(b, at, x, PutAll(Some(o.id), rest));
      ObjRoundTrip(b, at, prev, o);
      StreamRoundTrip(b, at + |x|, Some(o.id), rest);
    }
  }

  lemma NothingLeft(b: seq<u8>, c: Chain)
    ensures TakeObj(b, |b|, c) == Insufficient
  {
  }

  lemma AscendsTail(prev: Option<u64>, objs: seq<Obj>)
    requires Ascends(prev, objs) && objs != []
    ensures Ascends(Some(objs[0].id), objs[1..]) && (prev.Some? ==> prev.value < objs[0].id)
  {
  }

  lemma CutTail(b: seq<u8>, at: nat, x: seq<u8>, y: seq<u8>)
    requires at <= |b| && b[at..] == x + y
    ensures HasAt(b, at, x) && b[at + |x|..] == y
  {
    assert b[at..at + |x|] == b[at..][..|x|];
    assert b[at + |x|..] == b[at..][|x|..];
  }
}
