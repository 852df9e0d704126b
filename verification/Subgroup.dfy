/** Subgroup data streams (draft-ietf-moq-transport-19 section 11.4.2): a
    header, then Objects whose IDs are chained by deltas. */
module SubgroupSpec {
  import opened Options
  import opened Bytes
  import opened Parsing
  import opened Varint

  const STATUS_NORMAL: u64 := 0
  const STATUS_END_OF_GROUP: u64 := 3
  const STATUS_END_OF_TRACK: u64 := 4

  /** The decoder's state between Objects. */
  datatype Chain = Chain(hasProps: bool, prev: Option<u64>)

  datatype Obj = Obj(id: u64, status: u64, payload: seq<u8>, props: seq<u8>)

  // ---- Object fields ----

  /** The ID a delta leads to; None past 2^64 - 1. */
  function NextId(prev: Option<u64>, delta: u64): Option<u64> {
    if prev.None? then Some(delta)
    else if prev.value >= U64_MAX - delta then None
    else Some(prev.value + delta + 1)
  }

  function TakeId(b: seq<u8>, at: nat, prev: Option<u64>): Taken<u64> {
    match Take(b, at)
    case None => Insufficient
    case Some((delta, next)) =>
      match NextId(prev, delta)
      case None => Violation(DeltaOverflow)
      case Some(id) => Ok(id, next)
  }

  /** n bytes from at on. */
  function TakeBytes(b: seq<u8>, at: nat, n: nat): Taken<seq<u8>> {
    if at + n > |b| then Insufficient else Ok(b[at..at + n], at + n)
  }

  function TakeProps(b: seq<u8>, at: nat, hasProps: bool): Taken<seq<u8>> {
    if !hasProps then Ok([], at)
    else
      match Take(b, at)
      case None => Insufficient
      case Some((n, next)) => TakeBytes(b, next, n)
  }

  predicate StatusKnown(s: u64) {
    s == STATUS_NORMAL || s == STATUS_END_OF_GROUP || s == STATUS_END_OF_TRACK
  }

  /** The status a payload length of 0 announces; only a Normal Object may have
      properties. */
  function TakeStatus(b: seq<u8>, at: nat, props: seq<u8>): Taken<u64> {
    match Take(b, at)
    case None => Insufficient
    case Some((s, next)) =>
      if !StatusKnown(s) || (props != [] && s != STATUS_NORMAL) then Violation(BadStatus) else Ok(s, next)
  }

  function TakeRest(b: seq<u8>, at: nat, id: u64, props: seq<u8>): Taken<Obj> {
    match Take(b, at)
    case None => Insufficient
    case Some((n, next)) =>
      if n == 0 then
        match TakeStatus(b, next, props)
        case Ok(s, end) => Ok(Obj(id, s, [], props), end)
        case Insufficient => Insufficient
        case Violation(c) => Violation(c)
      else
        match TakeBytes(b, next, n)
        case Ok(p, end) => Ok(Obj(id, STATUS_NORMAL, p, props), end)
        case Insufficient => Insufficient
        case Violation(c) => Violation(c)
  }

  function TakeObj(b: seq<u8>, at: nat, c: Chain): Taken<Obj> {
    match TakeId(b, at, c.prev)
    case Insufficient => Insufficient
    case Violation(e) => Violation(e)
    case Ok(id, at1) =>
      match TakeProps(b, at1, c.hasProps)
      case Insufficient => Insufficient
      case Violation(e) => Violation(e)
      case Ok(props, at2) => TakeRest(b, at2, id, props)
  }

  function Chained(c: Chain, o: Obj): Chain {
    c.(prev := Some(o.id))
  }

  // ---- The header ----

  datatype Header = Header(typ: u64, alias: u64, group: u64, subgroup: u64, pending: bool, priority: u64)

  function Bit(t: u64, mask: u64): bool
    requires mask > 0
  {
    t / mask % 2 == 1
  }

  /** Bits 1 and 2: how the Subgroup ID is given. */
  function Mode(t: u64): nat {
    t / 2 % 4
  }

  predicate TypeValid(t: u64) {
    !Bit(t, 0x80) && Bit(t, 0x10) && Mode(t) != 3
  }

  function TakeSubgroup(b: seq<u8>, at: nat, t: u64): Taken<u64> {
    if Mode(t) != 2 then Ok(0, at)
    else
      match Take(b, at)
      case None => Insufficient
      case Some((id, next)) => Ok(id, next)
  }

  function TakePriority(b: seq<u8>, at: nat, t: u64): Taken<u64> {
    if Bit(t, 0x20) then Ok(0, at)
    else if at >= |b| then Insufficient
    else Ok(b[at], at + 1)
  }

  function TakeHeader(b: seq<u8>, at: nat): Taken<Header> {
    match Take(b, at)
    case None => Insufficient
    case Some((t, at1)) => if !TypeValid(t) then Violation(BadHeader) else TakeIds(b, at1, t)
  }

  function TakeIds(b: seq<u8>, at: nat, t: u64): Taken<Header> {
    match Take(b, at)
    case None => Insufficient
    case Some((alias, at1)) =>
      match Take(b, at1)
      case None => Insufficient
      case Some((group, at2)) => TakeTail(b, at2, t, alias, group)
  }

  function TakeTail(b: seq<u8>, at: nat, t: u64, alias: u64, group: u64): Taken<Header> {
    match TakeSubgroup(b, at, t)
    case Insufficient => Insufficient
    case Violation(e) => Violation(e)
    case Ok(sg, at1) =>
      match TakePriority(b, at1, t)
      case Insufficient => Insufficient
      case Violation(e) => Violation(e)
      case Ok(p, end) => Ok(Header(t, alias, group, sg, Mode(t) == 1, p), end)
  }

  // ---- Encoding ----

  function PutTail(h: Header): seq<u8> {
    (if Mode(h.typ) == 2 then Encode(h.subgroup) else []) + if Bit(h.typ, 0x20) then [] else [h.priority % 256]
  }

  function PutHeader(h: Header): seq<u8> {
    Encode(h.typ) + (Encode(h.alias) + (Encode(h.group) + PutTail(h)))
  }

  /** A payload, or a status where the payload is empty. */
  function PutObj(delta: u64, payload: seq<u8>, status: u64): seq<u8>
    requires |payload| <= U64_MAX
  {
    Encode(delta) + Encode(|payload|) + if payload == [] then Encode(status) else payload
  }
}

/** A success or a violation on a prefix is final. */
module SubgroupStable {
  import opened Bytes
  import opened Parsing
  import opened Varint
  import opened SubgroupSpec

  predicate Settled<T(==)>(t: Taken<T>, after: Taken<T>, at: nat, end: nat) {
    !t.Insufficient? ==> after == t && (t.Ok? ==> at <= t.at <= end)
  }

  lemma BytesStable(b: seq<u8>, x: seq<u8>, at: nat, n: nat)
    ensures Settled(TakeBytes(b, at, n), TakeBytes(b + x, at, n), at, |b|)
  {
    if at + n <= |b| { assert (b + x)[at..at + n] == b[at..at + n]; }
  }

  lemma PropsStable(b: seq<u8>, x: seq<u8>, at: nat, hasProps: bool)
    requires at <= |b|
    ensures Settled(TakeProps(b, at, hasProps), TakeProps(b + x, at, hasProps), at, |b|)
  {
    hide Take, TakeBytes;
    if hasProps && Take(b, at).Some? {
      TakeStable(b, x, at);
      var (n, next) := Take(b, at).value;
      BytesStable(b, x, next, n);
    }
  }

  lemma RestStable(b: seq<u8>, x: seq<u8>, at: nat, id: u64, props: seq<u8>)
    ensures Settled(TakeRest(b, at, id, props), TakeRest(b + x, at, id, props), at, |b|)
  {
    hide Take, TakeBytes;
    if Take(b, at).Some? {
      TakeStable(b, x, at);
      var (n, next) := Take(b, at).value;
      BytesStable(b, x, next, n);
      if Take(b, next).Some? { TakeStable(b, x, next); }
    }
  }

  /** More input does not change an Object already decoded or refused. */
  lemma ObjStable(b: seq<u8>, x: seq<u8>, at: nat, c: Chain)
    ensures Settled(TakeObj(b, at, c), TakeObj(b + x, at, c), at + 1, |b|)
  {
    hide Take, TakeProps, TakeRest;
    if Take(b, at).Some? {
      TakeStable(b, x, at);
      var id := TakeId(b, at, c.prev);
      if id.Ok? {
        PropsStable(b, x, id.at, c.hasProps);
        var props := TakeProps(b, id.at, c.hasProps);
        if props.Ok? { RestStable(b, x, props.at, id.value, props.value); }
      }
    }
  }

  lemma TailStable(b: seq<u8>, x: seq<u8>, at: nat, t: u64, alias: u64, group: u64)
    requires at <= |b|
    ensures Settled(TakeTail(b, at, t, alias, group), TakeTail(b + x, at, t, alias, group), at, |b|)
  {
    hide Take;
    if Take(b, at).Some? { TakeStable(b, x, at); }
  }

  lemma IdsStable(b: seq<u8>, x: seq<u8>, at: nat, t: u64)
    ensures Settled(TakeIds(b, at, t), TakeIds(b + x, at, t), at, |b|)
  {
    hide Take, TakeTail;
    if Take(b, at).Some? {
      TakeStable(b, x, at);
      var (alias, at1) := Take(b, at).value;
      if Take(b, at1).Some? {
        TakeStable(b, x, at1);
        var (group, at2) := Take(b, at1).value;
        TailStable(b, x, at2, t, alias, group);
      }
    }
  }

  lemma HeaderStable(b: seq<u8>, x: seq<u8>, at: nat)
    ensures Settled(TakeHeader(b, at), TakeHeader(b + x, at), at + 1, |b|)
  {
    hide Take, TakeIds;
    if Take(b, at).Some? {
      TakeStable(b, x, at);
      var (t, at1) := Take(b, at).value;
      IdsStable(b, x, at1, t);
    }
  }
}
