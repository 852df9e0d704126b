/** Subgroup headers, the Object loop of a receiver, and the blob builder. */
module SubgroupHeader {
  import opened Bytes
  import opened Parsing
  import opened Varint
  import opened SubgroupSpec

  /** A header whose fields are those its type lets it carry. */
  predicate Fitting(h: Header) {
    && TypeValid(h.typ) && h.pending == (Mode(h.typ) == 1)
    && (Mode(h.typ) != 2 ==> h.subgroup == 0)
    && (if Bit(h.typ, 0x20) then h.priority == 0 else h.priority < 256)
  }

  /** Only the low byte of a type is looked at: 0x110 passes as 0x10 does. */
  lemma TypeLowByte(high: nat, low: nat)
    requires low < 256 && 256 * high + low <= U64_MAX
    ensures TypeValid(256 * high + low) <==> TypeValid(low)
  {
    TopBitLow(high, low);
    FourthBitLow(high, low);
    ModeLow(high, low);
    hide Bit, Mode;
  }

  lemma TopBitLow(high: nat, low: nat)
    requires low < 256 && 256 * high + low <= U64_MAX
    ensures Bit(256 * high + low, 0x80) == Bit(low, 0x80)
  {
    assert (256 * high + low) / 0x80 == 2 * high + low / 0x80;
  }

  lemma FourthBitLow(high: nat, low: nat)
    requires low < 256 && 256 * high + low <= U64_MAX
    ensures Bit(256 * high + low, 0x10) == Bit(low, 0x10)
  {
    assert (256 * high + low) / 0x10 == 2 * (8 * high) + low / 0x10;
  }

  lemma ModeLow(high: nat, low: nat)
    requires low < 256 && 256 * high + low <= U64_MAX
    ensures Mode(256 * high + low) == Mode(low)
  {
    assert (256 * high + low) / 2 == 4 * (32 * high) + low / 2;
    Fourths(32 * high, low / 2);
  }

  lemma Fourths(x: nat, y: nat)
    ensures (4 * x + y) % 4 == y % 4
  {
  }

  lemma TailRoundTrip(b: seq<u8>, at: nat, h: Header)
    requires Fitting(h) && HasAt(b, at, PutTail(h))
    ensures TakeTail(b, at, h.typ, h.alias, h.group) == Ok(h, at + |PutTail(h)|)
  {
    hide Take, Encode, Len, TypeValid, Bit;
    var sg := if Mode(h.typ) == 2 then Encode(h.subgroup) else [];
    var pr := if Bit(h.typ, 0x20) then [] else [h.priority % 256];
    HasBoth(b, at, sg, pr);
    if Mode(h.typ) == 2 { RoundTrip(b, at, h.subgroup); }
    if !Bit(h.typ, 0x20) { assert b[at + |sg|] == b[at + |sg|..at + |sg| + 1][0]; }
  }

  lemma IdsRoundTrip(b: seq<u8>, at: nat, h: Header)
    requires Fitting(h) && HasAt(b, at, Encode(h.alias) + (Encode(h.group) + PutTail(h)))
    ensures TakeIds(b, at, h.typ) == Ok(h, at + |Encode(h.alias)| + |Encode(h.group)| + |PutTail(h)|)
  {
    hide Take, Encode, Len, Fitting, HasAt, TakeTail, PutTail;
    var a, g := Encode(h.alias), Encode(h.group);
    HasBoth(b, at, a, g + PutTail(h));
    HasBoth(b, at + |a|, g, PutTail(h));
    RoundTrip(b, at, h.alias);
    RoundTrip(b, at + |a|, h.group);
    TailRoundTrip(b, at + |a| + |g|, h);
  }

  /** A header comes back as it was sent. */
  lemma HeaderRoundTrip(b: seq<u8>, at: nat, h: Header)
    requires Fitting(h) && HasAt(b, at, PutHeader(h))
    ensures TakeHeader(b, at) == Ok(h, at + |PutHeader(h)|)
  {
    hide Take, Encode, Len, Bit, Mode, HasAt, TakeIds, PutTail;
    var t, rest := Encode(h.typ), Encode(h.alias) + (Encode(h.group) + PutTail(h));
    HasBoth(b, at, t, rest);
    RoundTrip(b, at, h.typ);
    IdsRoundTrip(b, at + |t|, h);
  }
}

module SubgroupLoop {
  import opened Bytes
  import opened SubgroupSpec
  import opened SubgroupStream

  /** Every whole Object of data from off on, and whether one was refused. */
  method DecodeLoop(data: seq<u8>, off: nat, chain: Chain)
    returns (objs: seq<Obj>, at: nat, c: Chain, bad: bool)
    requires off <= |data|
    ensures objs == DecodeAll(data, off, chain).objs && at == DecodeAll(data, off, chain).at
    ensures c == DecodeAll(data, off, chain).c && bad == DecodeAll(data, off, chain).stop.Violation?
  {
    hide TakeObj;
    objs, at, c, bad := [], off, chain, false;
    ghost var all := DecodeAll(data, off, chain);
    while at < |data|
      invariant off <= at <= |data| && !bad
      invariant all == DecodeAll(data, at, c).(objs := objs + DecodeAll(data, at, c).objs)
      decreases |data| - at
    {
      match TakeObj(data, at, c)
      case Insufficient => break;
      case Violation(_) =>
        bad := true;
        break;
      case Ok(o, next) =>
        ObjAdvances(data, at, c);
        ghost var rest := DecodeAll(data, next, Chained(c, o)).objs;
        assert objs + ([o] + rest) == objs + [o] + rest;
        objs, at, c := objs + [o], next, Chained(c, o);
    }
    if at == |data| { NothingLeft(data, c); }
  }
}

module SubgroupBlob {
  import opened Options
  import opened Bytes
  import opened ByteBuffer
  import opened Seqs
  import opened Varint
  import opened SubgroupSpec
  import opened SubgroupStream
  import opened SubgroupHeader

  const CHUNK: nat := 16384
  const MSG_TYPE: u64 := 0x70
  const MSG_OVERHEAD: nat := 37

  /** The buffer size callers are told to bring for n bytes. */
  function WireCap(n: nat): nat {
    n + MSG_OVERHEAD + 8 * (n / CHUNK + 1)
  }

  function ChunkLen(n: nat): nat {
    if n < CHUNK then n else CHUNK
  }

  /** The Objects a blob is cut into, numbered from id. */
  function Cut(blob: seq<u8>, id: nat): (objs: seq<Obj>)
    requires id + |blob| <= U64_MAX
    ensures |objs| <= |blob|
    decreases |blob|
  {
    if blob == [] then []
    else
      var n := ChunkLen(|blob|);
      [Obj(id, STATUS_NORMAL, blob[..n], [])] + Cut(blob[n..], id + 1)
  }

  function Payloads(objs: seq<Obj>): seq<u8> {
    if objs == [] then [] else objs[0].payload + Payloads(objs[1..])
  }

  function Before(id: nat): Option<u64>
    requires id <= U64_MAX
  {
    if id == 0 then None else Some(id - 1)
  }

  lemma {:induction false} CutNumbers(blob: seq<u8>, id: nat, i: nat)
    requires id + |blob| <= U64_MAX && i < |Cut(blob, id)|
    ensures Cut(blob, id)[i].id == id + i && Cut(blob, id)[i].status == STATUS_NORMAL
    ensures Sendable(Cut(blob, id)[i])
    decreases |blob|
  {
    if i > 0 { CutNumbers(blob[ChunkLen(|blob|)..], id + 1, i - 1); }
  }

  /** Every payload but the last is 16384 bytes, and the last is not empty. */
  lemma {:induction false} CutSizes(blob: seq<u8>, id: nat, i: nat)
    requires id + |blob| <= U64_MAX && i < |Cut(blob, id)|
    ensures var n := |Cut(blob, id)[i].payload|;
            0 < n <= 16384 && (i < |Cut(blob, id)| - 1 ==> n == 16384)
    decreases |blob|
  {
    if i > 0 { CutSizes(blob[ChunkLen(|blob|)..], id + 1, i - 1); }
  }

  /** The payloads are the blob, in order. */
  lemma {:induction false} CutIsWhole(blob: seq<u8>, id: nat)
    requires id + |blob| <= U64_MAX
    ensures Payloads(Cut(blob, id)) == blob
    decreases |blob|
  {
    if blob != [] {
      var n := ChunkLen(|blob|);
      CutIsWhole(blob[n..], id + 1);
      var o := Obj(id, STATUS_NORMAL, blob[..n], []);
      assert Cut(blob, id)[1..] == Cut(blob[n..], id + 1);
      assert blob[..n] + blob[n..] == blob;
    }
  }

  lemma CutAscends(blob: seq<u8>, id: nat)
    requires id + |blob| <= U64_MAX
    ensures Ascends(Before(id), Cut(blob, id)) && AllSendable(Cut(blob, id))
  {
    hide Cut;
    forall i | 0 <= i < |Cut(blob, id)| ensures Cut(blob, id)[i].id == id + i && Sendable(Cut(blob, id)[i]) {
      CutNumbers(blob, id, i);
    }
  }

  /** The Objects on the wire: every delta is 0. */
  function PutCut(blob: seq<u8>): seq<u8>
    requires |blob| <= U64_MAX
    decreases |blob|
  {
    if blob == [] then []
    else PutObj(0, blob[..ChunkLen(|blob|)], STATUS_NORMAL) + PutCut(blob[ChunkLen(|blob|)..])
  }

  lemma CutHead(blob: seq<u8>, id: nat)
    requires id + |blob| <= U64_MAX && blob != []
    ensures var n, objs := ChunkLen(|blob|), Cut(blob, id);
            0 < n <= |blob| && objs != [] && objs[1..] == Cut(blob[n..], id + 1)
            && objs[0] == Obj(id, STATUS_NORMAL, blob[..n], [])
  {
  }

  /** The next ID in turn is a delta of 0. */
  lemma NextPut(id: nat, payload: seq<u8>)
    requires id <= U64_MAX && |payload| <= U64_MAX
    ensures var o := Obj(id, STATUS_NORMAL, payload, []);
            Sendable(o) && PutNext(Before(id), o) == PutObj(0, payload, STATUS_NORMAL)
  {
    hide PutObj;
  }

  lemma PutAllStep(prev: Option<u64>, objs: seq<Obj>)
    requires Ascends(prev, objs) && AllSendable(objs) && objs != []
    requires Ascends(Some(objs[0].id), objs[1..]) && AllSendable(objs[1..]) && Sendable(objs[0])
    requires prev.Some? ==> prev.value < objs[0].id
    ensures PutAll(prev, objs) == PutNext(prev, objs[0]) + PutAll(Some(objs[0].id), objs[1..])
  {
    hide PutNext, Ascends, AllSendable, Sendable;
  }

  lemma {:induction false} PutCutIs(blob: seq<u8>, id: nat)
    requires id + |blob| <= U64_MAX
    ensures Ascends(Before(id), Cut(blob, id)) && AllSendable(Cut(blob, id))
    ensures PutCut(blob) == PutAll(Before(id), Cut(blob, id))
    decreases |blob|
  {
    hide PutObj, PutNext, Ascends, AllSendable, Sendable, PutAll, Cut, PutCut;
    CutAscends(blob, id);
    if blob == [] {
      CutNone(id);
    } else {
      var n := ChunkLen(|blob|);
      CutHead(blob, id);
      NextPut(id, blob[..n]);
      PutCutIs(blob[n..], id + 1);
      PutAllStep(Before(id), Cut(blob, id));
      PutCutStep(blob);
    }
  }

  lemma CutNone(id: nat)
    requires id <= U64_MAX
    ensures PutCut([]) == [] && Cut([], id) == [] && PutAll(Before(id), []) == []
  {
  }

  lemma PutCutStep(blob: seq<u8>)
    requires |blob| <= U64_MAX && blob != []
    ensures PutCut(blob) == PutObj(0, blob[..ChunkLen(|blob|)], STATUS_NORMAL) + PutCut(blob[ChunkLen(|blob|)..])
  {
    hide PutObj;
  }

  function BlobHeader(alias: u64): Header {
    Header(MSG_TYPE, alias, 0, 0, false, 0)
  }

  function BlobBytes(alias: u64, blob: seq<u8>): seq<u8>
    requires |blob| <= U64_MAX
  {
    PutHeader(BlobHeader(alias)) + PutCut(blob)
  }

  // ---- Size ----

  lemma ShortLen(v: u64)
    requires v <= CHUNK
    ensures Len(v) <= 3
  {
    assert v / 128 / 128 / 128 == 0;
  }

  lemma ObjSize(payload: seq<u8>)
    requires 0 < |payload| <= CHUNK
    ensures |PutObj(0, payload, STATUS_NORMAL)| <= |payload| + 8
  {
    hide Encode, Len;
    ShortLen(|payload|);
    ShortLen(0);
  }

  lemma {:induction false} PutCutSize(blob: seq<u8>)
    requires |blob| <= U64_MAX
    ensures |PutCut(blob)| <= |blob| + 8 * (|blob| / CHUNK + 1)
    ensures blob == [] ==> PutCut(blob) == []
    decreases |blob|
  {
    hide PutObj;
    if blob != [] {
      var n := ChunkLen(|blob|);
      ObjSize(blob[..n]);
      PutCutSize(blob[n..]);
      assert n == CHUNK ==> (|blob| - n) / CHUNK == |blob| / CHUNK - 1;
    }
  }

  /** The size callers are told to bring is enough. */
  lemma BlobFits(alias: u64, blob: seq<u8>)
    requires |blob| <= U64_MAX
    ensures |BlobBytes(alias, blob)| <= WireCap(|blob|) == |blob| + 37 + 8 * (|blob| / 16384 + 1)
  {
    hide Encode, Len, PutCut;
    PutCutSize(blob);
    ShortLen(MSG_TYPE);
    ShortLen(0);
  }

  // ---- Building ----

  /** The blob as one stream in buf, or 0 when it is empty or does not fit. A
      buffer of the advertised size always does. */
  method BlobBuild(buf: array<u8>, alias: u64, blob: seq<u8>) returns (w: nat)
    requires |blob| <= U64_MAX
    modifies buf
    ensures w > 0 <==> blob != [] && |BlobBytes(alias, blob)| <= buf.Length
    ensures w > 0 ==> w == |BlobBytes(alias, blob)| && buf[..w] == BlobBytes(alias, blob)
    ensures blob != [] && WireCap(|blob|) <= buf.Length ==> w > 0
  {
    hide PutHeader, PutCut, WireCap;
    BlobFits(alias, blob);
    if blob == [] {
      return 0;
    }
    HeaderShort(alias);
    w := BuildBehind(buf, PutHeader(BlobHeader(alias)), blob);
  }

  method BuildBehind(buf: array<u8>, head: seq<u8>, blob: seq<u8>) returns (w: nat)
    requires head != [] && |blob| <= U64_MAX
    modifies buf
    ensures w > 0 <==> |head + PutCut(blob)| <= buf.Length
    ensures w > 0 ==> w == |head + PutCut(blob)| && buf[..w] == head + PutCut(blob)
  {
    hide PutCut;
    var ok := PutAt(buf, 0, head);
    if !ok {
      return 0;
    }
    ghost var was := buf[..];
    ok, w := PutObjects(buf, |head|, blob);
    if !ok {
      return 0;
    }
    Grown(was, buf[..], 0, |head|, w);
    assert buf[0..w] == buf[..w];
  }

  lemma HeaderShort(alias: u64)
    ensures |PutHeader(BlobHeader(alias))| > 0
  {
    hide Encode, Len;
  }

  lemma CutStep(blob: seq<u8>, pos: nat)
    requires pos < |blob| <= U64_MAX
    ensures var n := ChunkLen(|blob| - pos);
            && 0 < n <= |blob| - pos
            && PutCut(blob[pos..]) == PutObj(0, blob[pos..pos + n], STATUS_NORMAL) + PutCut(blob[pos + n..])
  {
    hide PutObj;
    var n := ChunkLen(|blob| - pos);
    assert blob[pos..][..n] == blob[pos..pos + n] && blob[pos..][n..] == blob[pos + n..];
  }

  lemma CutEnd(blob: seq<u8>, pos: nat)
    requires pos == |blob| <= U64_MAX
    ensures PutCut(blob[pos..]) == []
  {
  }

  method PutObjects(buf: array<u8>, off: nat, blob: seq<u8>) returns (ok: bool, at: nat)
    requires off <= buf.Length && |blob| <= U64_MAX
    modifies buf
    ensures buf[..off] == old(buf[..off])
    ensures ok <==> off + |PutCut(blob)| <= buf.Length
    ensures ok ==> at == off + |PutCut(blob)| && buf[off..at] == PutCut(blob)
  {
    hide PutObj, PutCut, ChunkLen;
    at := off;
    var pos := 0;
    ghost var all := PutCut(blob);
    assert blob[0..] == blob && buf[off..off] == [];
    while pos < |blob|
      invariant pos <= |blob| && off <= at <= buf.Length && buf[..off] == old(buf[..off])
      invariant all == buf[off..at] + PutCut(blob[pos..])
    {
      var n := ChunkLen(|blob| - pos);
      CutStep(blob, pos);
      var x := PutObj(0, blob[pos..pos + n], STATUS_NORMAL);
      ghost var before := buf[..];
      ok := PutAt(buf, at, x);
      Grown(before, buf[..], off, at, if ok then at + |x| else at);
      if !ok {
        return false, at;
      }
      Assoc(before[off..at], x, PutCut(blob[pos + n..]));
      at, pos := at + |x|, pos + n;
    }
    ok := true;
    CutEnd(blob, pos);
  }

  // ---- Decoding ----

  /** Decoding what was built gives the header, then Objects 0, 1, 2, ... whose
      payloads joined are the blob, each 16384 bytes but for the last. */
  lemma BlobRoundTrip(alias: u64, blob: seq<u8>)
    requires |blob| <= U64_MAX
    ensures var b := BlobBytes(alias, blob);
      var h := TakeHeader(b, 0);
      && h.Ok? && h.value == Header(0x70, alias, 0, 0, false, 0) && h.at <= |b|
      && var d := DecodeAll(b, h.at, Chain(false, None));
         && d.at == |b| && d.stop.Insufficient? && Payloads(d.objs) == blob
         && forall i :: 0 <= i < |d.objs| ==>
              && d.objs[i].id == i && d.objs[i].status == 0 && 0 < |d.objs[i].payload| <= 16384
              && (i < |d.objs| - 1 ==> |d.objs[i].payload| == 16384)
  {
    hide PutHeader, TakeHeader, PutCut, DecodeAll, Payloads, Cut, PutAll;
    var h, head := BlobHeader(alias), PutHeader(BlobHeader(alias));
    var b := head + PutCut(blob);
    assert b[0..|head|] == head;
    HeaderRoundTrip(b, 0, h);
    assert b[|head|..] == PutCut(blob);
    PutCutIs(blob, 0);
    StreamRoundTrip(b, |head|, None, Cut(blob, 0));
    CutIsWhole(blob, 0);
    forall i | 0 <= i < |Cut(blob, 0)|
      ensures var o := Cut(blob, 0)[i];
              && o.id == i && o.status == 0 && 0 < |o.payload| <= 16384
              && (i < |Cut(blob, 0)| - 1 ==> |o.payload| == 16384)
    {
      CutNumbers(blob, 0, i);
      CutSizes(blob, 0, i);
    }
  }
}
