/** The fetch data stream (draft-ietf-moq-transport-22 section 11.4, and
    section 11.4.1 of draft-23): Objects and markers, each encoded against the
    one before it. */
module FetchSpec {
  import opened Options
  import opened Bytes
  import opened Parsing
  import Vi = Varint
  import opened Varint

  // ---- Flags ----

  /** Markers, whose Serialization Flags are 128 or more. */
  const EOR_NONEXISTENT: u64 := 0x8C
  const EOR_UNKNOWN: u64 := 0x10C
  const EOR_TIMED_OUT: u64 := 0x20C
  const EOR_GONE: u64 := 0x40C
  const END_OF_GROUP: u64 := 0x80
  const END_OF_TRACK: u64 := 0x81

  predicate HasObject(flags: u64) { flags / 0x04 % 2 == 1 }

  predicate HasGroup(flags: u64) { flags / 0x08 % 2 == 1 }

  predicate HasPriority(flags: u64) { flags / 0x10 % 2 == 1 }

  predicate HasProps(flags: u64) { flags / 0x20 % 2 == 1 }

  predicate IsDatagram(flags: u64) { flags / 0x40 % 2 == 1 }

  function SubgroupMode(flags: u64): nat { flags % 4 }

  // ---- State and items ----

  /** The prior Object a stream's next item is encoded against. */
  datatype Prior = Prior(
    descending: bool, eorTimedOut: bool, d23: bool,
    haveLoc: bool, haveSubgroup: bool, havePriority: bool,
    group: u64, obj: u64, subgroup: u64, priority: u64)

  /** An Object or marker with every field resolved. */
  datatype Item = Item(
    flags: u64, group: u64, obj: u64, hasSubgroup: bool, subgroup: u64,
    priority: u64, hasProps: bool, props: seq<u8>, payload: seq<u8>)

  function Blank(flags: u64): Item {
    Item(flags, 0, 0, false, 0, 0, false, [], [])
  }

  datatype Kind = ObjectKind | RangeKind | EndKind | NoKind

  function KindOf(flags: u64, s: Prior): Kind {
    if flags < 0x80 then ObjectKind
    else if flags == EOR_NONEXISTENT || flags == EOR_UNKNOWN then RangeKind
    else if flags == EOR_TIMED_OUT then (if s.eorTimedOut then RangeKind else NoKind)
    else if flags == EOR_GONE then (if s.d23 then RangeKind else NoKind)
    else if flags == END_OF_GROUP || flags == END_OF_TRACK then (if s.d23 then EndKind else NoKind)
    else NoKind
  }

  /** The prior state an item leaves. */
  function Noted(s: Prior, o: Item): Prior {
    match KindOf(o.flags, s)
    case ObjectKind =>
      s.(haveLoc := true, group := o.group, obj := o.obj, haveSubgroup := o.hasSubgroup,
         subgroup := o.subgroup, havePriority := true, priority := o.priority)
    case RangeKind => s.(haveLoc := true, group := o.group, obj := o.obj)
    case EndKind => s.(obj := U64_MAX)
    case NoKind => s
  }

  // ---- Decoding ----

  function Add(a: u64, b: u64): Option<u64> {
    if b > U64_MAX - a then None else Some(a + b)
  }

  function GroupUp(prior: u64, d: u64): Option<u64> {
    match Add(d, 1)
    case None => None
    case Some(step) => Add(prior, step)
  }

  function GroupDown(prior: u64, d: u64): Option<u64> {
    if d >= prior then None else Some(prior - d - 1)
  }

  function SetGroup(o: Item, v: Option<u64>, at: nat): Taken<Item> {
    if v.Some? then Ok(o.(group := v.value), at) else Violation(DeltaOverflow)
  }

  function SetSubgroup(o: Item, v: Option<u64>, at: nat): Taken<Item> {
    if v.Some? then Ok(o.(subgroup := v.value), at) else Violation(DeltaOverflow)
  }

  function SetObject(o: Item, v: Option<u64>, at: nat): Taken<Item> {
    if v.Some? then Ok(o.(obj := v.value), at) else Violation(DeltaOverflow)
  }

  function TakeFirst(b: seq<u8>, at: nat, s: Prior, o: Item): Taken<Item> {
    if s.haveLoc || (HasGroup(o.flags) && HasObject(o.flags)) then Ok(o, at) else Violation(BadObject)
  }

  /** The Group a Group ID Delta stands for. */
  function ResolveGroup(s: Prior, d: u64): Option<u64> {
    if !s.haveLoc then Some(d) else if s.descending then GroupDown(s.group, d) else GroupUp(s.group, d)
  }

  function TakeGroup(b: seq<u8>, at: nat, s: Prior, o: Item): Taken<Item> {
    if !HasGroup(o.flags) then Ok(o.(group := s.group), at)
    else match Vi.Take(b, at)
      case None => Insufficient
      case Some((d, next)) => SetGroup(o, ResolveGroup(s, d), next)
  }

  function TakeSubgroup(b: seq<u8>, at: nat, s: Prior, o: Item): Taken<Item> {
    if IsDatagram(o.flags) then Ok(o.(hasSubgroup := false, subgroup := 0), at)
    else
      var p := o.(hasSubgroup := true, subgroup := 0);
      match SubgroupMode(o.flags)
      case 0 => Ok(p, at)
      case 1 => if s.haveSubgroup then Ok(p.(subgroup := s.subgroup), at) else Violation(BadObject)
      case 2 => if s.haveSubgroup then SetSubgroup(p, Add(s.subgroup, 1), at) else Violation(BadObject)
      case _ =>
        match Vi.Take(b, at)
        case None => Insufficient
        case Some((v, next)) => Ok(p.(subgroup := v), next)
  }

  /** With a Group ID Delta, or first, the Object ID Delta is the Object ID. */
  predicate Absolute(s: Prior, o: Item) {
    HasGroup(o.flags) || !s.haveLoc
  }

  /** draft-23 section 11.4.1.1: the delta leaves out the next Object. */
  function Skip2(prior: u64, d: u64): Option<u64> {
    match GroupUp(prior, d)
    case None => None
    case Some(t) => Add(t, 1)
  }

  /** The Object an Object ID Delta stands for. */
  function ResolveObject(s: Prior, o: Item, d: u64): Option<u64> {
    if Absolute(s, o) then Some(d) else if s.d23 then Skip2(s.obj, d) else Add(s.obj, d)
  }

  function TakeObject(b: seq<u8>, at: nat, s: Prior, o: Item): Taken<Item> {
    if !HasObject(o.flags) then SetObject(o, Add(s.obj, 1), at)
    else match Vi.Take(b, at)
      case None => Insufficient
      case Some((d, next)) => SetObject(o, ResolveObject(s, o, d), next)
  }

  function TakePriority(b: seq<u8>, at: nat, s: Prior, o: Item): Taken<Item> {
    if HasPriority(o.flags) then
      if at < |b| then Ok(o.(priority := b[at]), at + 1) else Insufficient
    else if s.havePriority then Ok(o.(priority := s.priority), at) else Violation(BadObject)
  }

  /** A length and that many bytes. */
  function TakeBytes(b: seq<u8>, at: nat): Taken<seq<u8>> {
    match Vi.Take(b, at)
    case None => Insufficient
    case Some((n, next)) => if |b| - next < n then Insufficient else
      (TakeStable(b, [], at); Ok(b[next..next + n], next + n))
  }

  function TakeProps(b: seq<u8>, at: nat, s: Prior, o: Item): Taken<Item> {
    if !HasProps(o.flags) then Ok(o.(hasProps := false, props := []), at)
    else match TakeBytes(b, at)
      case Ok(p, next) => Ok(o.(hasProps := true, props := p), next)
      case Insufficient => Insufficient
      case Violation(c) => Violation(c)
  }

  function TakePayload(b: seq<u8>, at: nat, s: Prior, o: Item): Taken<Item> {
    match TakeBytes(b, at)
    case Ok(p, next) => Ok(o.(payload := p), next)
    case Insufficient => Insufficient
    case Violation(c) => Violation(c)
  }

  /** The fields of an Object, in wire order. */
  const STEPS: nat := 7

  function TakeStep(i: nat, b: seq<u8>, at: nat, s: Prior, o: Item): Taken<Item>
    requires i < STEPS
  {
    if i == 0 then TakeFirst(b, at, s, o)
    else if i == 1 then TakeGroup(b, at, s, o)
    else if i == 2 then TakeSubgroup(b, at, s, o)
    else if i == 3 then TakeObject(b, at, s, o)
    else if i == 4 then TakePriority(b, at, s, o)
    else if i == 5 then TakeProps(b, at, s, o)
    else TakePayload(b, at, s, o)
  }

  function TakeSteps(i: nat, b: seq<u8>, at: nat, s: Prior, o: Item): Taken<Item>
    requires i <= STEPS
    decreases STEPS - i
  {
    if i == STEPS then Ok(o, at)
    else match TakeStep(i, b, at, s, o)
      case Ok(p, next) => TakeSteps(i + 1, b, next, s, p)
      case Insufficient => Insufficient
      case Violation(c) => Violation(c)
  }

  /** An End of Range is relative from draft-23 on, but for the first item. */
  predicate Relative(s: Prior) {
    s.d23 && s.haveLoc
  }

  function RangeGroup(s: Prior, gd: u64): Option<u64> {
    if !s.descending then Add(s.group, gd)
    else if gd > s.group then None else Some(s.group - gd)
  }

  /** The Location an End of Range's two fields stand for. */
  function ResolveRange(s: Prior, gd: u64, od: u64): Option<(u64, u64)> {
    if !Relative(s) then Some((gd, od))
    else
      var g, v := RangeGroup(s, gd), if gd != 0 then Some(od) else GroupUp(s.obj, od);
      if g.Some? && v.Some? then Some((g.value, v.value)) else None
  }

  function TakeRange(b: seq<u8>, at: nat, s: Prior, o: Item): Taken<Item> {
    match Vi.Take(b, at)
    case None => Insufficient
    case Some((gd, mid)) =>
      match Vi.Take(b, mid)
      case None => Insufficient
      case Some((od, next)) =>
        match ResolveRange(s, gd, od)
        case None => Violation(DeltaOverflow)
        case Some((g, v)) => Ok(o.(group := g, obj := v), next)
  }

  function TakeEnd(at: nat, s: Prior, o: Item): Taken<Item> {
    if s.haveLoc then Ok(o.(group := s.group, obj := U64_MAX), at) else Violation(BadObject)
  }

  function TakeBody(b: seq<u8>, at: nat, s: Prior, flags: u64): Taken<Item> {
    match KindOf(flags, s)
    case ObjectKind => TakeSteps(0, b, at, s, Blank(flags))
    case RangeKind => TakeRange(b, at, s, Blank(flags))
    case EndKind => TakeEnd(at, s, Blank(flags))
    case NoKind => Violation(BadObject)
  }

  /** One item at b[at..]. */
  function TakeItem(b: seq<u8>, at: nat, s: Prior): Taken<Item> {
    match Vi.Take(b, at)
    case None => Insufficient
    case Some((flags, next)) => TakeBody(b, next, s, flags)
  }

  // ---- Encoding ----

  function GroupDelta(s: Prior, g: u64): u64 {
    if !s.haveLoc then g else if s.descending then Wrap(s.group - g - 1) else Wrap(g - s.group - 1)
  }

  function PutBytes(p: seq<u8>): seq<u8>
    requires |p| <= U64_MAX
  {
    Vi.Encode(|p|) + p
  }

  /** Lengths a length field can carry. */
  predicate Sized(o: Item) {
    |o.props| <= U64_MAX && |o.payload| <= U64_MAX
  }

  /** The Object ID Delta that goes out; from draft-23 a step under 2 has none. */
  function ObjectDelta(s: Prior, o: Item): Option<u64> {
    if Absolute(s, o) then Some(o.obj)
    else
      var d := Wrap(o.obj - s.obj);
      if !s.d23 then Some(d) else if d >= 2 then Some(d - 2) else None
  }

  function PutObject(s: Prior, o: Item): Option<seq<u8>> {
    if !HasObject(o.flags) then Some([])
    else match ObjectDelta(s, o)
      case None => None
      case Some(d) => Some(Vi.Encode(d))
  }

  /** The bytes of one field of an Object: none for the first, which only checks. */
  function PutStep(i: nat, s: Prior, o: Item): Option<seq<u8>>
    requires i < STEPS && Sized(o)
  {
    if i == 0 then Some([])
    else if i == 1 then Some(if HasGroup(o.flags) then Vi.Encode(GroupDelta(s, o.group)) else [])
    else if i == 2 then Some(if !IsDatagram(o.flags) && SubgroupMode(o.flags) == 3 then Vi.Encode(o.subgroup) else [])
    else if i == 3 then PutObject(s, o)
    else if i == 4 then Some(if HasPriority(o.flags) then [o.priority % 256] else [])
    else if i == 5 then Some(if HasProps(o.flags) then PutBytes(o.props) else [])
    else Some(PutBytes(o.payload))
  }

  function PutSteps(i: nat, s: Prior, o: Item): Option<seq<u8>>
    requires i <= STEPS && Sized(o)
    decreases STEPS - i
  {
    if i == STEPS then Some([])
    else
      var x, y := PutStep(i, s, o), PutSteps(i + 1, s, o);
      if x.Some? && y.Some? then Some(x.value + y.value) else None
  }

  /** The two fields of an End of Range. */
  function RangeDeltas(s: Prior, o: Item): (u64, u64) {
    if !Relative(s) then (o.group, o.obj)
    else
      var gd := Wrap(if s.descending then s.group - o.group else o.group - s.group);
      (gd, if gd != 0 then o.obj else Wrap(o.obj - s.obj - 1))
  }

  function PutRange(s: Prior, o: Item): seq<u8> {
    var (gd, od) := RangeDeltas(s, o);
    Vi.Encode(gd) + Vi.Encode(od)
  }

  /** What follows an item's flags, None where they do not allow any. */
  function PutBody(s: Prior, o: Item): Option<seq<u8>>
    requires Sized(o)
  {
    match KindOf(o.flags, s)
    case ObjectKind => PutSteps(0, s, o)
    case RangeKind => Some(PutRange(s, o))
    case EndKind => if s.haveLoc then Some([]) else None
    case NoKind => None
  }

  /** One item's bytes. */
  function PutItem(s: Prior, o: Item): Option<seq<u8>>
    requires Sized(o)
  {
    match PutBody(s, o)
    case None => None
    case Some(body) => Some(Vi.Encode(o.flags) + body)
  }

  // ---- What agrees with the running state ----

  /** Field i of o is what its flags and the prior Object allow. */
  predicate FieldAgrees(i: nat, s: Prior, o: Item)
    requires i < STEPS
  {
    if i == 0 then s.haveLoc || (HasGroup(o.flags) && HasObject(o.flags))
    else if i == 1 then
      if !HasGroup(o.flags) then o.group == s.group
      else s.haveLoc ==> if s.descending then o.group < s.group else o.group > s.group
    else if i == 2 then
      if IsDatagram(o.flags) then !o.hasSubgroup && o.subgroup == 0
      else
        && o.hasSubgroup
        && (SubgroupMode(o.flags) == 0 ==> o.subgroup == 0)
        && (SubgroupMode(o.flags) == 1 ==> s.haveSubgroup && o.subgroup == s.subgroup)
        && (SubgroupMode(o.flags) == 2 ==> s.haveSubgroup && o.subgroup == s.subgroup + 1)
    else if i == 3 then
      if !HasObject(o.flags) then o.obj == s.obj + 1
      else !Absolute(s, o) ==> o.obj >= s.obj + if s.d23 then 2 else 0
    else if i == 4 then
      if HasPriority(o.flags) then o.priority <= 255 else s.havePriority && o.priority == s.priority
    else if i == 5 then o.hasProps == HasProps(o.flags) && (!o.hasProps ==> o.props == [])
    else true
  }

  ghost predicate ObjectAgrees(s: Prior, o: Item) {
    forall i :: 0 <= i < STEPS ==> FieldAgrees(i, s, o)
  }

  predicate RangeAgrees(s: Prior, o: Item) {
    && o == Blank(o.flags).(group := o.group, obj := o.obj)
    && (Relative(s) ==>
          && (if s.descending then o.group <= s.group else o.group >= s.group)
          && (o.group == s.group ==> o.obj > s.obj))
  }

  predicate EndAgrees(s: Prior, o: Item) {
    s.haveLoc && o == Blank(o.flags).(group := s.group, obj := U64_MAX)
  }

  /** o's flags agree with the running state: an omitted field is what the
      prior Object implies, a delta can be written. */
  ghost predicate Agrees(s: Prior, o: Item) {
    Sized(o) &&
    match KindOf(o.flags, s)
    case ObjectKind => ObjectAgrees(s, o)
    case RangeKind => RangeAgrees(s, o)
    case EndKind => EndAgrees(s, o)
    case NoKind => false
  }
}
