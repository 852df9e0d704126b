/** The pieces Message Parameter values are made of
    (draft-ietf-moq-transport-19 section 10.2, -22 and -23 section 9). */
module ParamWire {
  import opened Options
  import opened Bytes
  import opened Locations
  import opened Varint

  /** VIOLATION, or one of the outcomes that name their own close code. */
  datatype Code = Malformed | BadParam | DeltaOverflow | BadToken | BadNamespace | FieldTooLong

  /** A decoder's answer on the bytes ahead: a value and the bytes it took, not
      enough bytes, or a refusal. */
  datatype Got<+T> = Got(v: T, n: nat) | Short | Bad(code: Code)

  function TakeVi(s: seq<u8>): (g: Got<u64>)
    ensures g.Got? ==> 0 < g.n <= |s|
    ensures !g.Bad?
  {
    match Take(s, 0)
    case None => Short
    case Some((v, n)) => TakeStable(s, [], 0); Got(v, n)
  }

  function TakeByte(s: seq<u8>): Got<u8> {
    if s == [] then Short else Got(s[0], 1)
  }

  /** n bytes. */
  function TakeBytes(s: seq<u8>, n: nat): Got<seq<u8>> {
    if |s| < n then Short else Got(s[..n], n)
  }

  /** A length, then that many bytes. */
  function TakeBlock(s: seq<u8>): (g: Got<seq<u8>>)
    ensures g.Got? ==> 0 < g.n <= |s| && |g.v| <= U64_MAX
    ensures !g.Bad?
  {
    match TakeVi(s)
    case Short => Short
    case Bad(c) => Bad(c)
    case Got(len, n) =>
      match TakeBytes(s[n..], len)
      case Short => Short
      case Bad(c) => Bad(c)
      case Got(x, m) => Got(x, n + m)
  }

  function PutBlock(x: seq<u8>): seq<u8>
    requires |x| <= U64_MAX
  {
    Encode(|x|) + x
  }

  // ---- Location ----

  function TakeLoc(s: seq<u8>): (g: Got<Loc>)
    ensures g.Got? ==> 0 < g.n <= |s|
    ensures !g.Bad?
  {
    match TakeVi(s)
    case Short => Short
    case Bad(c) => Bad(c)
    case Got(group, n) =>
      match TakeVi(s[n..])
      case Short => Short
      case Bad(c) => Bad(c)
      case Got(obj, m) => Got(Loc(group, obj), n + m)
  }

  function PutLoc(l: Loc): seq<u8> {
    Encode(l.group) + Encode(l.obj)
  }

  // ---- Token ----

  const TOKEN_REGISTER: u64 := 1
  const TOKEN_USE_VALUE: u64 := 3

  datatype Token = Token(aliasType: u64, alias: u64, tokenType: u64, value: seq<u8>)

  /** The token that fills v exactly. */
  function ParseToken(v: seq<u8>): Got<Token> {
    match TakeVi(v)
    case Short => Bad(BadToken)
    case Bad(_) => Bad(BadToken)
    case Got(t, n) =>
      if t > TOKEN_USE_VALUE then Bad(BadToken)
      else if t == TOKEN_USE_VALUE then ParseTokenValue(v, n, t, 0)
      else
        match TakeVi(v[n..])
        case Short => Bad(BadToken)
        case Bad(_) => Bad(BadToken)
        case Got(alias, m) => ParseTokenValue(v, n + m, t, alias)
  }

  function ParseTokenValue(v: seq<u8>, at: nat, t: u64, alias: u64): Got<Token>
    requires at <= |v|
  {
    if t != TOKEN_REGISTER && t != TOKEN_USE_VALUE then
      if at == |v| then Got(Token(t, alias, 0, []), at) else Bad(BadToken)
    else
      match TakeVi(v[at..])
      case Short => Bad(BadToken)
      case Bad(_) => Bad(BadToken)
      case Got(typ, n) => Got(Token(t, alias, typ, v[at + n..]), |v|)
  }

  // ---- Location filters ----

  const FILTER_NEXT_GROUP: u64 := 1
  const FILTER_LARGEST: u64 := 2
  const FILTER_ABS_START: u64 := 3
  const FILTER_ABS_RANGE: u64 := 4

  /** A draft-19 filter: the type and the fields it carries. */
  datatype Filter = Filter(typ: u64, start: Loc, endDelta: u64)

  datatype StartKind = RelGroup | NextObj | Abs

  datatype EndKind = Unbounded | EndGroup | EndObj

  /** A filter as every draft understands it. */
  datatype Range = Range(sk: StartKind, start: Loc, ek: EndKind, endGroup: u64, endObj: u64)

  const NO_LOC: Loc := Loc(0, 0)

  /** A delta from base, refused past 2^64 - 1. */
  function TakeDelta(s: seq<u8>, base: u64): (g: Got<u64>)
    ensures g.Got? ==> 0 < g.n <= |s| && base <= g.v
  {
    match TakeVi(s)
    case Short => Short
    case Bad(c) => Bad(c)
    case Got(d, n) => if d > U64_MAX - base then Bad(DeltaOverflow) else Got(base + d, n)
  }

  function TakeFilter(s: seq<u8>): (g: Got<Filter>)
    ensures g.Got? ==> 0 < g.n <= |s|
  {
    match TakeVi(s)
    case Short => Short
    case Bad(c) => Bad(c)
    case Got(t, n) =>
      if !(FILTER_NEXT_GROUP <= t <= FILTER_ABS_RANGE) then Bad(BadParam)
      else if t < FILTER_ABS_START then Got(Filter(t, NO_LOC, 0), n)
      else
        match TakeLoc(s[n..])
        case Short => Short
        case Bad(c) => Bad(c)
        case Got(l, m) => TakeFilterEnd(s, n + m, t, l)
  }

  function TakeFilterEnd(s: seq<u8>, at: nat, t: u64, l: Loc): (g: Got<Filter>)
    requires at <= |s|
    ensures g.Got? ==> at <= g.n <= |s|
  {
    if t != FILTER_ABS_RANGE then Got(Filter(t, l, 0), at)
    else
      match TakeDelta(s[at..], l.group)
      case Short => Short
      case Bad(c) => Bad(c)
      case Got(end, m) => Got(Filter(t, l, end - l.group), at + m)
  }

  function PutFilter(f: Filter): seq<u8> {
    Encode(f.typ)
    + if f.typ == FILTER_ABS_START then PutLoc(f.start)
      else if f.typ == FILTER_ABS_RANGE then PutLoc(f.start) + Encode(f.endDelta)
      else []
  }

  /** The second parser of the same bytes. */
  function TakeRange19(s: seq<u8>): Got<Range> {
    match TakeVi(s)
    case Short => Short
    case Bad(c) => Bad(c)
    case Got(t, n) =>
      if t == FILTER_NEXT_GROUP then Got(Range(RelGroup, NO_LOC, Unbounded, 0, 0), n)
      else if t == FILTER_LARGEST then Got(Range(NextObj, NO_LOC, Unbounded, 0, 0), n)
      else if t == FILTER_ABS_START then TakeAbs(s, n, Unbounded)
      else if t == FILTER_ABS_RANGE then TakeAbs(s, n, EndGroup)
      else Bad(BadParam)
  }

  /** An absolute start at s[at..], then as much of an end as ek has. */
  function TakeAbs(s: seq<u8>, at: nat, ek: EndKind): (g: Got<Range>)
    requires at <= |s|
    ensures g.Got? ==> at <= g.n <= |s|
  {
    match TakeLoc(s[at..])
    case Short => Short
    case Bad(c) => Bad(c)
    case Got(l, n) => TakeEnd(s, at + n, l, ek)
  }

  function TakeEnd(s: seq<u8>, at: nat, l: Loc, ek: EndKind): (g: Got<Range>)
    requires at <= |s|
    ensures g.Got? ==> at <= g.n <= |s|
  {
    if ek == Unbounded then Got(Range(Abs, l, ek, 0, 0), at)
    else
      match TakeDelta(s[at..], l.group)
      case Short => Short
      case Bad(c) => Bad(c)
      case Got(end, n) =>
        if ek == EndGroup then Got(Range(Abs, l, ek, end, 0), at + n)
        else
          match TakeVi(s[at + n..])
          case Short => Short
          case Bad(c) => Bad(c)
          case Got(obj, m) => Got(Range(Abs, l, ek, end, obj), at + n + m)
  }

  /** The draft-22 form: type 0 is no filter at all. */
  function TakeRange22(s: seq<u8>): (g: Got<(bool, Range)>)
    ensures g.Got? ==> 0 < g.n <= |s|
  {
    match TakeVi(s)
    case Short => Short
    case Bad(c) => Bad(c)
    case Got(t, n) =>
      if t == 0 then Got((false, Range(RelGroup, NO_LOC, Unbounded, 0, 0)), n)
      else
        match TakeBody22(t, s, n)
        case Short => Short
        case Bad(c) => Bad(c)
        case Got(r, m) => Got((true, r), m)
  }

  function TakeBody22(t: u64, s: seq<u8>, at: nat): (g: Got<Range>)
    requires at <= |s|
    ensures g.Got? ==> at <= g.n <= |s|
  {
    if t == 1 then
      match TakeVi(s[at..])
      case Short => Short
      case Bad(c) => Bad(c)
      case Got(back, m) => Got(Range(RelGroup, Loc(back, 0), Unbounded, 0, 0), at + m)
    else if t == 2 then TakeAbs(s, at, Unbounded)
    else if t == 3 then TakeAbs(s, at, EndGroup)
    else if t == 4 then TakeAbs(s, at, EndObj)
    else if t == 5 then Got(Range(NextObj, NO_LOC, Unbounded, 0, 0), at)
    else Bad(BadParam)
  }

  function PutEnd(r: Range): seq<u8>
    requires r.ek != Unbounded ==> r.start.group <= r.endGroup
  {
    if r.ek == Unbounded then []
    else if r.ek == EndGroup then Encode(r.endGroup - r.start.group)
    else Encode(r.endGroup - r.start.group) + Encode(r.endObj)
  }

  function PutAbs(r: Range): seq<u8>
    requires r.ek != Unbounded ==> r.start.group <= r.endGroup
  {
    PutLoc(r.start) + PutEnd(r)
  }

  function PutRange22(has: bool, r: Range): seq<u8>
    requires r.ek != Unbounded ==> r.start.group <= r.endGroup
  {
    if !has then Encode(0)
    else if r.sk == RelGroup then Encode(1) + Encode(r.start.group)
    else if r.sk == NextObj then Encode(5)
    else Encode(if r.ek == Unbounded then 2 else if r.ek == EndGroup then 3 else 4) + PutAbs(r)
  }

  // ---- Track Namespace ----

  const MAX_NS_FIELDS: u64 := 32
  const MAX_FTN_LEN: nat := 4096

  /** count fields, none empty; their joint length is carried along. */
  function TakeFields(s: seq<u8>, count: nat, total: nat): (g: Got<nat>)
    ensures g.Got? ==> g.n <= |s|
    decreases count
  {
    if count == 0 then if total > MAX_FTN_LEN then Bad(FieldTooLong) else Got(total, 0)
    else
      match TakeVi(s)
      case Short => Short
      case Bad(c) => Bad(c)
      case Got(len, n) =>
        if len == 0 then Bad(BadNamespace)
        else
          match TakeBytes(s[n..], len)
          case Short => Short
          case Bad(c) => Bad(c)
          case Got(_, m) =>
            match TakeFields(s[n + m..], count - 1, total + len)
            case Short => Short
            case Bad(c) => Bad(c)
            case Got(t, k) => Got(t, n + m + k)
  }

  /** A namespace, kept as the bytes it spans. */
  function TakeNs(s: seq<u8>): (g: Got<seq<u8>>)
    ensures g.Got? ==> 0 < g.n <= |s|
  {
    match TakeVi(s)
    case Short => Short
    case Bad(c) => Bad(c)
    case Got(count, n) =>
      if count > MAX_NS_FIELDS then Bad(BadNamespace)
      else
        match TakeFields(s[n..], count, 0)
        case Short => Short
        case Bad(c) => Bad(c)
        case Got(_, m) => Got(s[..n + m], n + m)
  }

  // ---- Switching ----

  const SWITCH_SOFT: u64 := 1

  datatype Switch = Switch(requestId: u64, mode: u64, publishDone: bool)

  /** The value that fills v exactly: an ID, a mode and one byte of flags. */
  function ParseSwitch(v: seq<u8>): Got<Switch> {
    match TakeVi(v)
    case Short => Bad(Malformed)
    case Bad(_) => Bad(Malformed)
    case Got(id, n) =>
      match TakeVi(v[n..])
      case Short => Bad(Malformed)
      case Bad(_) => Bad(Malformed)
      case Got(mode, m) =>
        if mode > SWITCH_SOFT || |v| - (n + m) != 1 || v[n + m] % 128 != 0 then Bad(Malformed)
        else Got(Switch(id, mode, v[n + m] >= 128), |v|)
  }

  function PutSwitch(s: Switch): seq<u8> {
    Encode(s.requestId) + Encode(s.mode) + [if s.publishDone then 128 else 0]
  }

  datatype Assignment = Assignment(setId: u64, algorithm: u64, threshold: u64, weight: u64, activate: u64, rank: Option<u8>)

  predicate WeightOk(w: u64) {
    1 <= w <= 10
  }

  /** Varints from v[at..], one after the other. */
  function TakeVis(s: seq<u8>, count: nat): (g: Got<seq<u64>>)
    ensures g.Got? ==> |g.v| == count && g.n <= |s|
    decreases count
  {
    if count == 0 then Got([], 0)
    else
      match TakeVi(s)
      case Short => Bad(Malformed)
      case Bad(_) => Bad(Malformed)
      case Got(x, n) =>
        match TakeVis(s[n..], count - 1)
        case Short => Short
        case Bad(c) => Bad(c)
        case Got(xs, m) => Got([x] + xs, n + m)
  }

  function PutVis(xs: seq<u64>): seq<u8> {
    if xs == [] then [] else Encode(xs[0]) + PutVis(xs[1..])
  }

  /** Five varints and, if a byte is left, the rank. */
  function ParseAssignment(v: seq<u8>): Got<Assignment> {
    match TakeVis(v, 5)
    case Short => Bad(Malformed)
    case Bad(_) => Bad(Malformed)
    case Got(f, n) =>
      if !WeightOk(f[3]) || |v| - n > 1 then Bad(Malformed)
      else Got(Assignment(f[0], f[1], f[2], f[3], f[4], if n == |v| then None else Some(v[n])), |v|)
  }

  function PutAssignment(a: Assignment): seq<u8> {
    PutVis([a.setId, a.algorithm, a.threshold, a.weight, a.activate]) + if a.rank.Some? then [a.rank.value] else []
  }
}
