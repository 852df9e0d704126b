/** Message Parameters: a count, then values in order of type, each type given
    as a delta. Which types a list may hold, and how each value is written,
    depends on the draft and on the message. */
module Params {
  import opened Options
  import opened Bytes
  import opened Locations
  import opened Varint
  import opened ParamWire

  datatype Ver = D23 | D22 | D19 | D18

  datatype Enc =
    | UInt8Enc | VarIntEnc | LocationEnc | BytesEnc | TokenEnc | LocFilterEnc
    | NsEnc | RangeLoc22Enc | SwitchFromEnc | AssignmentEnc | Fill23Enc

  datatype Value =
    | UInt8(b: u8)
    | VarInt(i: u64)
    | Location(loc: Loc)
    | Opaque(bytes: seq<u8>)
    | TokenValue(raw: seq<u8>, token: Token)
    | LocFilter(filter: Filter, range: Range)
    | Namespace(ns: seq<u8>)
    | RangeLoc22(has: bool, range22: Range)
    | SwitchFrom(switch: Switch)
    | SetAssignment(assignment: Assignment)
    | Fill23(inner: seq<u8>)

  datatype Param = Param(typ: u64, value: Value)

  // ---- The rules ----

  type Scopes = bv32

  /** How a type is written, in which messages each draft allows it, the values a
      single byte may take, and whether it may repeat. */
  datatype Rule = Rule(enc: Enc, d23: Scopes, d22: Scopes, d19: Scopes, d18: Scopes, lo: u8, hi: u8, repeats: bool)

  const FETCH: Scopes := 0x10
  const FORWARD: u64 := 0x10
  const PAUSED: u64 := 0x11
  const LOCATION_FILTER: u64 := 0x21
  const FILL_PARAMETERS: u64 := 0x23
  const MAX_PARAMS: nat := 64

  function Varints(d23: Scopes, d22: Scopes, d19: Scopes, d18: Scopes): Option<Rule> {
    Some(Rule(VarIntEnc, d23, d22, d19, d18, 0, 0, false))
  }

  function Byte(d23: Scopes, d22: Scopes, d19: Scopes, d18: Scopes, lo: u8, hi: u8): Option<Rule> {
    Some(Rule(UInt8Enc, d23, d22, d19, d18, lo, hi, false))
  }

  function Other(enc: Enc, d23: Scopes, d22: Scopes, d19: Scopes, d18: Scopes): Option<Rule> {
    Some(Rule(enc, d23, d22, d19, d18, 0, 0, false))
  }

  /** A range filter may come more than once. */
  function RangeFilter(d23: Scopes, d22: Scopes, d19: Scopes): Option<Rule> {
    Some(Rule(BytesEnc, d23, d22, d19, 0, 0, 0, true))
  }

  function RuleFor(typ: u64): Option<Rule> {
    if typ == 0x02 then Varints(0x5005, 0x7C005, 0x7D009, 0x7C009)
    else if typ == 0x03 then Other(TokenEnc, 0x7D555, 0x7D555, 0x7D555, 0x7D555)
    else if typ == 0x04 then Varints(0x1, 0x1, 0x1001, 0x1)
    else if typ == 0x06 then Varints(0x5005, 0x7C005, 0x7D009, 0x7C009)
    else if typ == 0x08 then Varints(0x82AAE, 0x82A0E, 0x82A0E, 0x8000E)
    else if typ == 0x09 then Other(LocationEnc, 0x800A6, 0x80086, 0x80086, 0x80086)
    else if typ == 0x0A then Varints(0x10, 0x10, 0x10, 0x10)
    else if typ == FORWARD then Byte(0, 0x25005, 0x500D, 0x500D, 0, 1)
    else if typ == PAUSED then Byte(0x25005, 0, 0, 0, 0, 1)
    else if typ == 0x20 then Byte(0xD015, 0xC015, 0xD019, 0xC019, 0, 255)
    else if typ == LOCATION_FILTER then Other(LocFilterEnc, 0x5015, 0x4015, 0x5009, 0x4009)
    else if typ == 0x22 then Byte(0x1015, 0x1015, 0x1015, 0x19, 1, 2)
    else if typ == FILL_PARAMETERS then Other(BytesEnc, 0x5005, 0x4001, 0, 0)
    else if typ == 0x24 then Other(SwitchFromEnc, 0x4001, 0x4001, 0, 0)
    else if 0x25 <= typ <= 0x28 then RangeFilter(0x5011, 0x5011, 0x5019)
    else if typ == 0x29 then RangeFilter(0x21000, 0x21000, 0x21000)
    else if typ == 0x32 then Varints(0x4001, 0x4001, 0x5009, 0x4009)
    else if typ == 0x34 then Other(NsEnc, 0x30000, 0x30000, 0x30000, 0x30000)
    else if typ == 0x35 then Byte(0x1051, 0x1051, 0, 0, 0, 1)
    else if typ == 0x41 then Other(AssignmentEnc, 0x4001, 0x4001, 0, 0)
    else None
  }

  function Scope(r: Rule, ver: Ver): Scopes {
    match ver
    case D23 => r.d23
    case D22 => r.d22
    case D19 => r.d19
    case D18 => r.d18
  }

  /** How this draft writes the type. */
  function EncOf(r: Rule, typ: u64, ver: Ver): Enc {
    if typ == LOCATION_FILTER && (ver == D23 || ver == D22) then RangeLoc22Enc
    else if typ == FILL_PARAMETERS && ver == D23 then Fill23Enc
    else r.enc
  }

  predicate Has(ps: seq<Param>, typ: u64) {
    exists i :: 0 <= i < |ps| && ps[i].typ == typ
  }

  /** The type may come next: it belongs here, and is new or may repeat. */
  predicate Admitted(ver: Ver, ctx: Scopes, sofar: seq<Param>, typ: u64) {
    RuleFor(typ).Some? && (Scope(RuleFor(typ).value, ver) & ctx) != 0
    && (RuleFor(typ).value.repeats || !Has(sofar, typ))
  }

  // ---- Decoding a value ----

  /** One client's own filter type, taken to mean the largest Object. */
  predicate IsQuirk(v: seq<u8>) {
    TakeVi(v) == Got(250, |v|)
  }

  /** The draft-19 filter that fills v, read by both parsers. */
  function ParseLocFilter(v: seq<u8>): Got<Value> {
    if IsQuirk(v) then Got(LocFilter(Filter(FILTER_LARGEST, NO_LOC, 0), Range(NextObj, NO_LOC, Unbounded, 0, 0)), |v|)
    else
      match TakeFilter(v)
      case Got(f, n) =>
        if n != |v| then Bad(Malformed)
        else Got(LocFilter(f, match TakeRange19(v)
                              case Got(r, _) => r
                              case _ => Range(RelGroup, NO_LOC, Unbounded, 0, 0)), n)
      case _ => Bad(Malformed)
  }

  /** Values that come as a length and bytes to be decoded further. */
  predicate Prefixed(enc: Enc) {
    enc == TokenEnc || enc == LocFilterEnc || enc == SwitchFromEnc || enc == AssignmentEnc
  }

  function ParseBlock(enc: Enc, v: seq<u8>): Got<Value>
    requires Prefixed(enc)
  {
    match enc
    case TokenEnc => (match ParseToken(v) case Got(t, n) => Got(TokenValue(v, t), n) case Short => Short case Bad(c) => Bad(c))
    case LocFilterEnc => ParseLocFilter(v)
    case SwitchFromEnc => (match ParseSwitch(v) case Got(x, n) => Got(SwitchFrom(x), n) case Short => Short case Bad(c) => Bad(c))
    case AssignmentEnc =>
      match ParseAssignment(v) case Got(x, n) => Got(SetAssignment(x), n) case Short => Short case Bad(c) => Bad(c)
  }

  function TakePrefixed(enc: Enc, s: seq<u8>): (g: Got<Value>)
    requires Prefixed(enc)
    ensures g.Got? ==> 0 < g.n <= |s|
  {
    match TakeBlock(s)
    case Short => Short
    case Bad(c) => Bad(c)
    case Got(v, n) =>
      match ParseBlock(enc, v)
      case Got(x, _) => Got(x, n)
      case Short => Short
      case Bad(c) => Bad(c)
  }

  function TakeDirect(enc: Enc, s: seq<u8>): (g: Got<Value>)
    requires enc != Fill23Enc && !Prefixed(enc)
    ensures g.Got? ==> 0 < g.n <= |s|
  {
    match enc
    case UInt8Enc => (match TakeByte(s) case Got(b, n) => Got(UInt8(b), n) case Short => Short case Bad(c) => Bad(c))
    case VarIntEnc => (match TakeVi(s) case Got(i, n) => Got(VarInt(i), n) case Short => Short case Bad(c) => Bad(c))
    case LocationEnc => (match TakeLoc(s) case Got(l, n) => Got(Location(l), n) case Short => Short case Bad(c) => Bad(c))
    case BytesEnc => (match TakeBlock(s) case Got(x, n) => Got(Opaque(x), n) case Short => Short case Bad(c) => Bad(c))
    case NsEnc => (match TakeNs(s) case Got(x, n) => Got(Namespace(x), n) case Short => Short case Bad(c) => Bad(c))
    case RangeLoc22Enc =>
      match TakeRange22(s) case Got((h, r), n) => Got(RangeLoc22(h, r), n) case Short => Short case Bad(c) => Bad(c)
  }

  // ---- Decoding a list ----

  /** 1 where a list may hold a list: only draft-23 scopes that allow
      FILL_PARAMETERS, and FETCH is not one. */
  function Depth(ver: Ver, ctx: Scopes): nat {
    if ver == D23 && (Scope(RuleFor(FILL_PARAMETERS).value, D23) & ctx) != 0 then 1 else 0
  }

  function TakeValue(ver: Ver, ctx: Scopes, enc: Enc, s: seq<u8>): (g: Got<Value>)
    requires enc == Fill23Enc ==> Depth(ver, ctx) == 1
    ensures g.Got? ==> 0 < g.n <= |s|
    decreases Depth(ver, ctx), 0, 0
  {
    if enc == Fill23Enc then
      match TakeParams(D23, FETCH, s)
      case Short => Short
      case Bad(c) => Bad(c)
      case Got(_, n) => Got(Fill23(s[..n]), n)
    else if Prefixed(enc) then TakePrefixed(enc, s)
    else TakeDirect(enc, s)
  }

  /** Only a scope that allows FILL_PARAMETERS reaches the nested list. */
  lemma FillIsDeep(ver: Ver, ctx: Scopes, sofar: seq<Param>, typ: u64)
    requires Admitted(ver, ctx, sofar, typ) && EncOf(RuleFor(typ).value, typ, ver) == Fill23Enc
    ensures Depth(ver, ctx) == 1
  {
  }

  /** How the type is written here. */
  function Selected(ver: Ver, ctx: Scopes, sofar: seq<Param>, typ: u64): (enc: Enc)
    requires Admitted(ver, ctx, sofar, typ)
    ensures enc == Fill23Enc ==> Depth(ver, ctx) == 1
  {
    if EncOf(RuleFor(typ).value, typ, ver) == Fill23Enc then
      FillIsDeep(ver, ctx, sofar, typ);
      Fill23Enc
    else EncOf(RuleFor(typ).value, typ, ver)
  }

  predicate ValueAllowed(typ: u64, v: Value) {
    v.UInt8? && RuleFor(typ).Some? ==> RuleFor(typ).value.lo <= v.b <= RuleFor(typ).value.hi
  }

  function TakeTyped(ver: Ver, ctx: Scopes, s: seq<u8>, typ: u64, sofar: seq<Param>): (g: Got<Param>)
    ensures g.Got? ==> 0 < g.n <= |s|
    decreases Depth(ver, ctx), 1, 0
  {
    if !Admitted(ver, ctx, sofar, typ) then Bad(BadParam)
    else
      match TakeValue(ver, ctx, Selected(ver, ctx, sofar, typ), s)
      case Short => Short
      case Bad(c) => Bad(c)
      case Got(v, n) => if ValueAllowed(typ, v) then Got(Param(typ, v), n) else Bad(BadParam)
  }

  function TakeOne(ver: Ver, ctx: Scopes, s: seq<u8>, prev: u64, sofar: seq<Param>): (g: Got<Param>)
    ensures g.Got? ==> 0 < g.n <= |s|
    decreases Depth(ver, ctx), 1, 1
  {
    match TakeDelta(s, prev)
    case Short => Short
    case Bad(c) => Bad(c)
    case Got(typ, n) =>
      match TakeTyped(ver, ctx, s[n..], typ, sofar)
      case Short => Short
      case Bad(c) => Bad(c)
      case Got(p, m) => Got(p, n + m)
  }

  /** count more parameters after those so far. */
  function TakeLoop(ver: Ver, ctx: Scopes, s: seq<u8>, count: nat, prev: u64, sofar: seq<Param>): (g: Got<seq<Param>>)
    ensures g.Got? ==> g.n <= |s|
    decreases Depth(ver, ctx), 2, count
  {
    if count == 0 then Got(sofar, 0)
    else if |sofar| >= MAX_PARAMS then Bad(Malformed)
    else
      match TakeOne(ver, ctx, s, prev, sofar)
      case Short => Short
      case Bad(c) => Bad(c)
      case Got(p, n) =>
        match TakeLoop(ver, ctx, s[n..], count - 1, p.typ, sofar + [p])
        case Short => Short
        case Bad(c) => Bad(c)
        case Got(ps, m) => Got(ps, n + m)
  }

  function Flipped(p: Param, from: u64, to: u64): Param {
    if p.typ == from && p.value.UInt8? then Param(to, UInt8(if p.value.b == 0 then 1 else 0)) else p
  }

  /** PAUSED is FORWARD inverted. */
  function Flip(ps: seq<Param>, from: u64, to: u64): (r: seq<Param>)
    ensures |r| == |ps| && forall i :: 0 <= i < |ps| ==> r[i] == Flipped(ps[i], from, to)
  {
    seq(|ps|, i requires 0 <= i < |ps| => Flipped(ps[i], from, to))
  }

  /** A list as it is kept: PAUSED read as FORWARD. */
  function TakeParams(ver: Ver, ctx: Scopes, s: seq<u8>): (g: Got<seq<Param>>)
    ensures g.Got? ==> 0 < g.n <= |s|
    decreases Depth(ver, ctx), 3, 0
  {
    match TakeVi(s)
    case Short => Short
    case Bad(c) => Bad(c)
    case Got(count, n) =>
      match TakeLoop(ver, ctx, s[n..], count, 0, [])
      case Short => Short
      case Bad(c) => Bad(c)
      case Got(ps, m) => Got(Flip(ps, PAUSED, FORWARD), n + m)
  }

  // ---- Encoding ----

  /** What a length-prefixed value holds; None for one that is never sent. The
      scratch buffers are 28, 19 and 46 bytes. */
  function PutInside(v: Value): Option<seq<u8>> {
    match v
    case TokenValue(raw, _) => Some(raw)
    case Opaque(x) => Some(x)
    case LocFilter(f, _) => if |PutFilter(f)| <= 28 then Some(PutFilter(f)) else None
    case SwitchFrom(x) => if x.mode <= SWITCH_SOFT && |PutSwitch(x)| <= 19 then Some(PutSwitch(x)) else None
    case SetAssignment(x) =>
      if WeightOk(x.weight) && |PutAssignment(x)| <= 46 then Some(PutAssignment(x)) else None
    case _ => None
  }

  predicate Writable(v: Value) {
    && (v.RangeLoc22? && v.range22.ek != Unbounded ==> v.range22.start.group <= v.range22.endGroup)
    && (PutInside(v).Some? ==> |PutInside(v).value| <= U64_MAX)
  }

  function PutValue(v: Value): Option<seq<u8>>
    requires Writable(v)
  {
    match v
    case UInt8(b) => Some([b])
    case VarInt(i) => Some(Encode(i))
    case Location(l) => Some(PutLoc(l))
    case Namespace(x) => Some(x)
    case Fill23(x) => Some(x)
    case RangeLoc22(h, r) => Some(PutRange22(h, r))
    case _ => if PutInside(v).Some? then Some(PutBlock(PutInside(v).value)) else None
  }

  predicate AllWritable(ps: seq<Param>) {
    forall i :: 0 <= i < |ps| ==> Writable(ps[i].value)
  }

  /** A falling type cannot be written as a delta. */
  function PutLoop(ps: seq<Param>, prev: u64): Option<seq<u8>>
    requires AllWritable(ps)
    decreases |ps|
  {
    if ps == [] then Some([])
    else if ps[0].typ < prev then None
    else
      var v, rest := PutValue(ps[0].value), PutLoop(ps[1..], ps[0].typ);
      if v.Some? && rest.Some? then Some(Encode(ps[0].typ - prev) + v.value + rest.value) else None
  }

  /** A list as it is sent: FORWARD back to PAUSED for draft-23. */
  function Out(ver: Ver, ps: seq<Param>): seq<Param> {
    if ver == D23 then Flip(ps, FORWARD, PAUSED) else ps
  }

  function PutParams(ps: seq<Param>): Option<seq<u8>>
    requires AllWritable(ps) && |ps| <= U64_MAX
  {
    var body := PutLoop(ps, 0);
    if body.Some? then Some(Encode(|ps|) + body.value) else None
  }
}
