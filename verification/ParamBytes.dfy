/** Message Parameters byte by byte: where each field lies, and which lists are
    legal. */
module ParamBytes {
  import opened Options
  import opened Bytes
  import opened Seqs
  import opened Locations
  import opened Varint
  import opened ParamWire
  import opened Params
  import opened ParamLocal
  import opened ParamValues
  import opened ParamLists

  // ---- Values ----

  /** A draft-19 filter: its type, a start for types 3 and 4, an end for 4. */
  function FilterBytes(f: Filter): seq<u8> {
    if f.typ == 3 then Encode(3) + (Encode(f.start.group) + Encode(f.start.obj))
    else if f.typ == 4 then Encode(4) + (Encode(f.start.group) + Encode(f.start.obj) + Encode(f.endDelta))
    else Encode(f.typ)
  }

  /** A draft-22 filter: none, groups back from the newest, a start with no end, an
      end Group or an end Object, or the next Object. */
  function RangeBytes(has: bool, r: Range): seq<u8>
    requires r.ek != Unbounded ==> r.start.group <= r.endGroup
  {
    var start := Encode(r.start.group) + Encode(r.start.obj);
    if !has then [0]
    else if r.sk == RelGroup then [1] + Encode(r.start.group)
    else if r.sk == NextObj then [5]
    else if r.ek == Unbounded then [2] + start
    else if r.ek == EndGroup then [3] + (start + Encode(r.endGroup - r.start.group))
    else [4] + (start + (Encode(r.endGroup - r.start.group) + Encode(r.endObj)))
  }

  function SwitchBytes(s: Switch): seq<u8> {
    Encode(s.requestId) + Encode(s.mode) + [if s.publishDone then 0x80 else 0]
  }

  function AssignmentBytes(a: Assignment): seq<u8> {
    Encode(a.setId) + (Encode(a.algorithm) + (Encode(a.threshold) + (Encode(a.weight) + Encode(a.activate))))
    + if a.rank.Some? then [a.rank.value] else []
  }

  /** A length and the bytes it counts. */
  function Counted(x: seq<u8>): seq<u8>
    requires |x| <= U64_MAX
  {
    Encode(|x|) + x
  }

  /** The bytes of a value that is its own, or comes with its length. */
  predicate IsBytes(v: Value, b: seq<u8>) {
    match v
    case UInt8(x) => b == [x]
    case VarInt(i) => b == Encode(i)
    case Location(l) => b == Encode(l.group) + Encode(l.obj)
    case Opaque(x) => |x| <= U64_MAX && b == Counted(x)
    case TokenValue(raw, _) => |raw| <= U64_MAX && b == Counted(raw)
    case LocFilter(f, _) => |FilterBytes(f)| <= U64_MAX && b == Counted(FilterBytes(f))
    case Namespace(x) => b == x
    case RangeLoc22(h, r) => (r.ek != Unbounded ==> r.start.group <= r.endGroup) && b == RangeBytes(h, r)
    case SwitchFrom(x) => |SwitchBytes(x)| <= U64_MAX && b == Counted(SwitchBytes(x))
    case SetAssignment(x) => |AssignmentBytes(x)| <= U64_MAX && b == Counted(AssignmentBytes(x))
    case Fill23(x) => b == x
  }

  lemma SmallCodes()
    ensures Encode(0) == [0] && Encode(1) == [1] && Encode(2) == [2] && Encode(3) == [3] && Encode(4) == [4] && Encode(5) == [5]
  {
    hide Encode;
    EncodeIs(0);
    EncodeIs(1);
    EncodeIs(2);
    EncodeIs(3);
    EncodeIs(4);
    EncodeIs(5);
  }

  lemma FilterIs(f: Filter)
    ensures PutFilter(f) == FilterBytes(f)
  {
    hide Encode, Len;
    assert Encode(f.typ) + [] == Encode(f.typ);
  }

  lemma RangeIs(has: bool, r: Range)
    requires r.ek != Unbounded ==> r.start.group <= r.endGroup
    ensures PutRange22(has, r) == RangeBytes(has, r)
  {
    hide Encode, Len;
    SmallCodes();
    assert PutLoc(r.start) + [] == PutLoc(r.start);
  }

  lemma AssignmentIs(a: Assignment)
    ensures PutAssignment(a) == AssignmentBytes(a)
  {
    hide Encode, Len;
    VisThen(a.activate, []);
    VisThen(a.weight, [a.activate]);
    VisThen(a.threshold, [a.weight, a.activate]);
    VisThen(a.algorithm, [a.threshold, a.weight, a.activate]);
    VisThen(a.setId, [a.algorithm, a.threshold, a.weight, a.activate]);
    assert Encode(a.activate) + [] == Encode(a.activate);
  }

  lemma VisThen(x: u64, more: seq<u64>)
    ensures PutVis([x] + more) == Encode(x) + PutVis(more)
  {
    hide Encode, Len;
    assert ([x] + more)[1..] == more;
  }

  /** What is written for a value is its bytes, whatever draft and message. */
  lemma ValueIs(v: Value)
    requires Writable(v) && PutValue(v).Some?
    ensures IsBytes(v, PutValue(v).value)
  {
    hide Encode, Len, PutFilter, FilterBytes, PutRange22, RangeBytes, PutAssignment, AssignmentBytes;
    match v
    case LocFilter(f, _) => FilterIs(f);
    case RangeLoc22(h, r) => RangeIs(h, r);
    case SetAssignment(a) => AssignmentIs(a);
    case _ =>
  }

  /** What a draft-19 filter asks for: 1 the next Group, 2 the next Object, 3 all from
      a Location on, 4 up to the end of a Group. */
  function Meant(f: Filter): Range
    requires f.typ == 4 ==> f.start.group + f.endDelta <= U64_MAX
  {
    if f.typ == 1 then Range(RelGroup, Loc(0, 0), Unbounded, 0, 0)
    else if f.typ == 2 then Range(NextObj, Loc(0, 0), Unbounded, 0, 0)
    else if f.typ == 3 then Range(Abs, f.start, Unbounded, 0, 0)
    else Range(Abs, f.start, EndGroup, if f.typ == 4 then f.start.group + f.endDelta else 0, 0)
  }

  /** Filter types 1 to 4 are read from their bytes; none but 250 of the others is,
      and no end past 2^64 - 1. */
  lemma FilterReads(f: Filter)
    requires (f.typ < 3 ==> f.start == Loc(0, 0)) && (f.typ != 4 ==> f.endDelta == 0)
    requires f.typ != 250
    ensures 1 <= f.typ <= 4 && (f.typ == 4 ==> f.start.group + f.endDelta <= 0xFFFF_FFFF_FFFF_FFFF) ==>
              ParseLocFilter(FilterBytes(f)) == Got(LocFilter(f, Meant(f)), |FilterBytes(f)|)
    ensures !(1 <= f.typ <= 4 && (f.typ == 4 ==> f.start.group + f.endDelta <= 0xFFFF_FFFF_FFFF_FFFF)) ==>
              ParseLocFilter(FilterBytes(f)) == Bad(Malformed)
  {
    hide Encode, Len, TakeVi, ParseLocFilter, FilterBytes, PutFilter;
    FilterIs(f);
    if ProperFilter(f) { LocFilterPut(f); }
    if !ProperFilter(f) { FilterRefused(f); }
  }

  lemma FilterRefused(f: Filter)
    requires f.typ != 250 && (!(1 <= f.typ <= 4) || (f.typ == 4 && f.start.group + f.endDelta > U64_MAX))
    ensures ParseLocFilter(FilterBytes(f)) == Bad(Malformed)
  {
    hide Encode, Len, TakeVi;
    var v := FilterBytes(f);
    if f.typ == 4 {
      var g, o, d := Encode(f.start.group), Encode(f.start.obj), Encode(f.endDelta);
      ViPut(4, g + o + d);
      ViThen(f.start.group, o, d);
      ViPut(f.start.obj, d);
      ViPut(f.endDelta, []);
      assert d + [] == d;
      assert v[|Encode(4)|..] == g + o + d;
      assert (g + o + d)[|g|..] == o + d;
      assert v[|Encode(4)| + (|g| + |o|)..] == d;
    } else {
      ViPut(f.typ, []);
      assert v + [] == v;
    }
  }

  /** A switch has mode 0 or 1. */
  lemma SwitchReads(x: Switch)
    ensures ParseSwitch(SwitchBytes(x)) == if x.mode <= 1 then Got(x, |SwitchBytes(x)|) else Bad(Malformed)
  {
    hide Encode, Len, TakeVi;
    var id, m, f := Encode(x.requestId), Encode(x.mode), [if x.publishDone then 0x80 else 0];
    assert PutSwitch(x) == SwitchBytes(x);
    if x.mode <= 1 { SwitchPut(x); }
    ViThen(x.requestId, m, f);
    ViPut(x.mode, f);
  }

  /** An assignment weighs 1 to 10. */
  lemma AssignmentReads(a: Assignment)
    ensures ParseAssignment(AssignmentBytes(a))
         == if 1 <= a.weight <= 10 then Got(a, |AssignmentBytes(a)|) else Bad(Malformed)
  {
    hide Encode, Len, TakeVis, PutVis, AssignmentBytes;
    AssignmentIs(a);
    if 1 <= a.weight <= 10 { AssignmentPut(a); }
    VisPut([a.setId, a.algorithm, a.threshold, a.weight, a.activate], if a.rank.Some? then [a.rank.value] else []);
  }

  /** A draft-22 filter type past 5 is refused. */
  lemma RangeRefused(t: u64, rest: seq<u8>)
    requires t > 5
    ensures TakeRange22(Encode(t) + rest) == Bad(BadParam)
  {
    hide Encode, Len, TakeVi;
    ViPut(t, rest);
  }

  // ---- Tokens ----

  /** A token: types 0 and 2 carry an alias, 3 a token type and a value, 1 all. */
  function TokenBytes(t: Token): seq<u8> {
    var alias := if t.aliasType == 3 then [] else Encode(t.alias);
    var value := if t.aliasType == 1 || t.aliasType == 3 then Encode(t.tokenType) + t.value else [];
    Encode(t.aliasType) + (alias + value)
  }

  predicate LegalToken(t: Token) {
    && t.aliasType <= 3 && (t.aliasType == 3 ==> t.alias == 0)
    && (t.aliasType == 0 || t.aliasType == 2 ==> t.tokenType == 0 && t.value == [])
  }

  /** Each of the four kinds of token is read from its bytes; any other is refused. */
  lemma TokenReads(t: Token)
    requires LegalToken(t)
    ensures ParseToken(TokenBytes(t)) == Got(t, |TokenBytes(t)|)
  {
    hide Encode, Len, TakeVi;
    var a := if t.aliasType == 3 then [] else Encode(t.alias);
    var v := if t.aliasType == 1 || t.aliasType == 3 then Encode(t.tokenType) + t.value else [];
    ViThen(t.aliasType, a, v);
    Assoc(Encode(t.aliasType), a, v);
    var b, n := TokenBytes(t), |Encode(t.aliasType)|;
    assert b[n..] == a + v;
    if t.aliasType != 3 { ViPut(t.alias, v); }
    assert b[n + |a|..] == v;
    if t.aliasType == 1 || t.aliasType == 3 {
      ViPut(t.tokenType, t.value);
      assert b[n + |a| + |Encode(t.tokenType)|..] == t.value;
    }
  }

  /** Any other kind is refused, and so is anything behind a bare alias. */
  lemma TokenRefused(aliasType: u64, alias: u64, rest: seq<u8>)
    requires aliasType > 3 || (aliasType % 2 == 0 && rest != [])
    ensures ParseToken(Encode(aliasType) + Encode(alias) + rest) == Bad(BadToken)
  {
    hide Encode, Len, TakeVi;
    ViThen(aliasType, Encode(alias), rest);
    ViPut(alias, rest);
    var b, n := Encode(aliasType) + Encode(alias) + rest, |Encode(aliasType)|;
    assert b[n + |Encode(alias)|..] == rest;
  }

  // ---- Namespaces ----

  function FieldsBytes(fs: seq<seq<u8>>): seq<u8>
    requires forall i :: 0 <= i < |fs| ==> |fs[i]| <= U64_MAX
  {
    if fs == [] then [] else Counted(fs[0]) + FieldsBytes(fs[1..])
  }

  function TotalLen(fs: seq<seq<u8>>): nat {
    if fs == [] then 0 else |fs[0]| + TotalLen(fs[1..])
  }

  /** Where a field's length and bytes lie. */
  lemma FieldAt(f: seq<u8>, more: seq<u8>, rest: seq<u8>)
    requires |f| <= U64_MAX
    ensures var (b, n) := (Counted(f) + more + rest, |Encode(|f|)|);
            && TakeVi(b) == Got(|f|, n) && n + |f| <= |b|
            && TakeBytes(b[n..], |f|) == Got(f, |f|) && b[n + |f|..] == more + rest
  {
    hide Encode, Len, TakeVi;
    var b, n := Counted(f) + more + rest, |Encode(|f|)|;
    assert b == Encode(|f|) + (f + (more + rest));
    ViPut(|f|, f + (more + rest));
    assert b[n..] == f + (more + rest);
  }

  lemma {:induction false} FieldsRead(fs: seq<seq<u8>>, total: nat, rest: seq<u8>)
    requires forall i :: 0 <= i < |fs| ==> 0 < |fs[i]| <= U64_MAX
    ensures TakeFields(FieldsBytes(fs) + rest, |fs|, total)
         == if total + TotalLen(fs) > 4096 then Bad(FieldTooLong) else Got(total + TotalLen(fs), |FieldsBytes(fs)|)
    decreases |fs|
  {
    hide Encode, Len, TakeVi;
    if fs != [] {
      var more := FieldsBytes(fs[1..]);
      FieldAt(fs[0], more, rest);
      FieldsRead(fs[1..], total + |fs[0]|, rest);
    }
  }

  /** A Track Namespace of at most 32 fields, none empty, is taken as the bytes it
      spans exactly when its fields are at most 4096 bytes together. */
  lemma NamespaceReads(fs: seq<seq<u8>>, rest: seq<u8>)
    requires |fs| <= 32 && forall i :: 0 <= i < |fs| ==> 0 < |fs[i]| <= U64_MAX
    ensures var b := Encode(|fs|) + FieldsBytes(fs);
            TakeNs(b + rest) == if TotalLen(fs) > 4096 then Bad(FieldTooLong) else Got(b, |b|)
  {
    hide Encode, Len, TakeVi, TakeFields, FieldsBytes;
    ViThen(|fs|, FieldsBytes(fs), rest);
    FieldsRead(fs, 0, rest);
    var b := Encode(|fs|) + FieldsBytes(fs);
    assert (b + rest)[..|b|] == b;
  }

  lemma {:induction false} EmptyField(fs: seq<seq<u8>>, total: nat, more: nat, rest: seq<u8>)
    requires forall i :: 0 <= i < |fs| ==> 0 < |fs[i]| <= U64_MAX
    ensures TakeFields(FieldsBytes(fs) + (Encode(0) + rest), |fs| + 1 + more, total) == Bad(BadNamespace)
    decreases |fs|
  {
    hide Encode, Len, TakeVi;
    if fs == [] {
      ViPut(0, rest);
      assert FieldsBytes([]) + (Encode(0) + rest) == Encode(0) + rest;
    } else {
      FieldAt(fs[0], FieldsBytes(fs[1..]), Encode(0) + rest);
      EmptyField(fs[1..], total + |fs[0]|, more, rest);
    }
  }

  /** More than 32 fields are refused, and so is an empty one, wherever it is. */
  lemma NamespaceRefused(count: u64, fs: seq<seq<u8>>, rest: seq<u8>)
    requires forall i :: 0 <= i < |fs| ==> 0 < |fs[i]| <= U64_MAX
    ensures count > 32 ==> TakeNs(Encode(count) + rest) == Bad(BadNamespace)
    ensures |fs| < count <= 32 ==> TakeNs(Encode(count) + (FieldsBytes(fs) + (Encode(0) + rest))) == Bad(BadNamespace)
  {
    hide Encode, Len, TakeVi, TakeFields, FieldsBytes;
    ViPut(count, rest);
    if |fs| < count <= 32 {
      var body := FieldsBytes(fs) + (Encode(0) + rest);
      ViPut(count, body);
      assert (Encode(count) + body)[|Encode(count)|..] == body;
      EmptyField(fs, 0, count - |fs| - 1, rest);
    }
  }

  // ---- Lists ----

  /** Only range filters, types 0x25 to 0x29, may come twice. */
  lemma RepeatsIff(typ: u64)
    ensures RuleFor(typ).Some? ==> (RuleFor(typ).value.repeats <==> 0x25 <= typ <= 0x29)
  {
    if typ < 0x0A {
    } else if typ < 0x22 {
    } else if typ < 0x29 {
    } else {
    }
  }

  /** The single bytes a type takes: FORWARD, PAUSED and 0x35 are 0 or 1, the group
      order 0x22 is 1 or 2, a priority is any. */
  lemma ByteAllowedIff(typ: u64, b: u8)
    requires typ == 0x10 || typ == 0x11 || typ == 0x20 || typ == 0x22 || typ == 0x35
    ensures ValueAllowed(typ, UInt8(b))
       <==> (typ == 0x20 || (if typ == 0x22 then 1 <= b <= 2 else b <= 1))
  {
  }

  /** How a type's value is written, where the draft or the type decides: the drafts
      have their own Location filters, and draft-23 a list inside a list. */
  lemma WrittenAs(typ: u64, ver: Ver)
    requires RuleFor(typ).Some?
    ensures var enc := EncOf(RuleFor(typ).value, typ, ver);
            && (typ == 0x21 ==> enc == if ver == D23 || ver == D22 then RangeLoc22Enc else LocFilterEnc)
            && (typ == 0x23 ==> enc == if ver == D23 then Fill23Enc else BytesEnc)
            && (typ == 0x03 ==> enc == TokenEnc) && (typ == 0x09 ==> enc == LocationEnc)
            && (0x25 <= typ <= 0x29 ==> enc == BytesEnc)
            && (typ == 0x10 || typ == 0x11 || typ == 0x20 || typ == 0x22 || typ == 0x35 ==> enc == UInt8Enc)
            && (typ <= 0x08 && typ % 2 == 0 ==> enc == VarIntEnc)
  {
    if typ < 0x0A {
    } else if typ < 0x22 {
    } else if typ < 0x29 {
    } else {
    }
  }

  /** A parameter the draft allows in the message, with a value of its type. */
  predicate Placed(ver: Ver, ctx: Scopes, p: Param) {
    && RuleFor(p.typ).Some? && (Scope(RuleFor(p.typ).value, ver) & ctx) != 0
    && ValueAllowed(p.typ, p.value) && Proper(EncOf(RuleFor(p.typ).value, p.typ, ver), p.value)
  }

  /** Types in order, and none twice but range filters. */
  predicate Ordered(ps: seq<Param>) {
    && (forall i, j :: 0 <= i < j < |ps| ==> ps[i].typ <= ps[j].typ)
    && (forall i, j :: 0 <= i < j < |ps| && ps[i].typ == ps[j].typ ==> 0x25 <= ps[j].typ <= 0x29)
  }

  /** None of a type already there, but range filters. */
  predicate NewTo(sofar: seq<Param>, ps: seq<Param>) {
    forall i, j :: 0 <= i < |sofar| && 0 <= j < |ps| && sofar[i].typ == ps[j].typ ==> 0x25 <= ps[j].typ <= 0x29
  }

  predicate LegalAfter(ver: Ver, ctx: Scopes, sofar: seq<Param>, prev: u64, ps: seq<Param>) {
    && (ps != [] ==> |sofar| + |ps| <= 64 && prev <= ps[0].typ)
    && (forall i :: 0 <= i < |ps| ==> Placed(ver, ctx, ps[i])) && Ordered(ps) && NewTo(sofar, ps)
  }

  lemma FittingIsPlaced(ver: Ver, ctx: Scopes, sofar: seq<Param>, prev: u64, p: Param)
    ensures Fitting(ver, ctx, sofar, prev, p)
       <==> prev <= p.typ && |sofar| < 64 && Placed(ver, ctx, p) && NewTo(sofar, [p])
  {
    AdmittedIff(ver, ctx, sofar, p);
    hide Admitted, ValueAllowed, Proper, Selected, NewTo, EncOf, RuleFor, Scope;
    if Admitted(ver, ctx, sofar, p.typ) { SelectedIs(ver, ctx, sofar, p.typ); }
  }

  lemma AdmittedIff(ver: Ver, ctx: Scopes, sofar: seq<Param>, p: Param)
    ensures Admitted(ver, ctx, sofar, p.typ)
       <==> RuleFor(p.typ).Some? && (Scope(RuleFor(p.typ).value, ver) & ctx) != 0 && NewTo(sofar, [p])
  {
    hide RuleFor, Scope, Has, NewTo;
    RepeatsIff(p.typ);
    NewIff(sofar, p);
  }

  lemma NewIff(sofar: seq<Param>, p: Param)
    ensures NewTo(sofar, [p]) <==> 0x25 <= p.typ <= 0x29 || !Has(sofar, p.typ)
  {
    assert [p][0] == p;
  }

  lemma SelectedIs(ver: Ver, ctx: Scopes, sofar: seq<Param>, typ: u64)
    requires Admitted(ver, ctx, sofar, typ)
    ensures RuleFor(typ).Some? && Selected(ver, ctx, sofar, typ) == EncOf(RuleFor(typ).value, typ, ver)
  {
    hide RuleFor, Scope, EncOf, Has;
  }

  /** The first of a list fits, and the others behind it. */
  lemma LegalStep(ver: Ver, ctx: Scopes, sofar: seq<Param>, prev: u64, ps: seq<Param>)
    requires ps != []
    ensures LegalAfter(ver, ctx, sofar, prev, ps)
       <==> && prev <= ps[0].typ && |sofar| < 64 && Placed(ver, ctx, ps[0]) && NewTo(sofar, [ps[0]])
            && LegalAfter(ver, ctx, sofar + [ps[0]], ps[0].typ, ps[1..])
  {
    hide Placed, NewTo, Ordered;
    var p, more := ps[0], ps[1..];
    assert forall j :: 1 <= j < |ps| ==> ps[j] == more[j - 1];
    OrderedStep(ps);
    NewStep(sofar, ps);
    if more != [] { assert more[0] == ps[1]; }
  }

  lemma OrderedStep(ps: seq<Param>)
    requires ps != []
    ensures Ordered(ps)
       <==> && (|ps| > 1 ==> ps[0].typ <= ps[1].typ) && Ordered(ps[1..]) && NewTo([ps[0]], ps[1..])
  {
    var more := ps[1..];
    assert [ps[0]][0] == ps[0];
    assert forall j :: 0 <= j < |more| ==> more[j] == ps[j + 1];
    assert forall j :: 1 <= j < |ps| ==> ps[j] == more[j - 1];
  }

  lemma NewStep(sofar: seq<Param>, ps: seq<Param>)
    requires ps != []
    ensures NewTo(sofar, ps) <==> NewTo(sofar, [ps[0]]) && NewTo(sofar, ps[1..])
    ensures NewTo(sofar + [ps[0]], ps[1..]) <==> NewTo(sofar, ps[1..]) && NewTo([ps[0]], ps[1..])
  {
    var now := sofar + [ps[0]];
    assert [ps[0]][0] == ps[0] && now[|sofar|] == ps[0];
    assert forall i :: 0 <= i < |sofar| ==> now[i] == sofar[i];
    assert forall j :: 1 <= j < |ps| ==> ps[j] == ps[1..][j - 1];
  }

  lemma {:induction false} FittingIff(ver: Ver, ctx: Scopes, sofar: seq<Param>, prev: u64, ps: seq<Param>)
    ensures FittingAll(ver, ctx, sofar, prev, ps) <==> LegalAfter(ver, ctx, sofar, prev, ps)
    decreases |ps|
  {
    hide Fitting, LegalAfter, Placed, NewTo;
    if ps == [] {
      NoneIsLegal(ver, ctx, sofar, prev);
    } else {
      FittingIsPlaced(ver, ctx, sofar, prev, ps[0]);
      LegalStep(ver, ctx, sofar, prev, ps);
      FittingIff(ver, ctx, sofar + [ps[0]], ps[0].typ, ps[1..]);
    }
  }

  lemma NoneIsLegal(ver: Ver, ctx: Scopes, sofar: seq<Param>, prev: u64)
    ensures LegalAfter(ver, ctx, sofar, prev, [])
  {
  }

  /** A legal list: at most 64 parameters the message may hold, types in order, none
      twice but range filters. */
  predicate Legal(ver: Ver, ctx: Scopes, ps: seq<Param>) {
    |ps| <= 64 && (forall i :: 0 <= i < |ps| ==> Placed(ver, ctx, ps[i])) && Ordered(ps)
  }

  /** Every list accepted was legal as it came. */
  lemma AcceptedIsLegal(ver: Ver, ctx: Scopes, s: seq<u8>)
    requires TakeParams(ver, ctx, s).Got?
    ensures TakeVi(s).Got? && TakeLoop(ver, ctx, s[TakeVi(s).n..], TakeVi(s).v, 0, []).Got?
    ensures Legal(ver, ctx, TakeLoop(ver, ctx, s[TakeVi(s).n..], TakeVi(s).v, 0, []).v)
  {
    hide TakeVi, TakeLoop, FittingAll, Placed;
    var count, n := TakeVi(s).v, TakeVi(s).n;
    var ps := TakeLoop(ver, ctx, s[n..], count, 0, []).v;
    LoopFits(ver, ctx, s[n..], count, 0, []);
    assert ps[0..] == ps;
    FittingIff(ver, ctx, [], 0, ps);
  }

  /** Every legal list is accepted from its bytes, whatever follows, and kept as it
      was but for PAUSED. */
  lemma LegalIsAccepted(ver: Ver, ctx: Scopes, ps: seq<Param>, rest: seq<u8>)
    requires Legal(ver, ctx, ps)
    ensures AllWritable(ps) && PutParams(ps).Some?
    ensures var b := PutParams(ps).value;
            && TakeParams(ver, ctx, b + rest).Got? && TakeParams(ver, ctx, b + rest).n == |b|
            && |TakeParams(ver, ctx, b + rest).v| == |ps|
            && forall i :: 0 <= i < |ps| && ps[i].typ != 0x11 ==> TakeParams(ver, ctx, b + rest).v[i] == ps[i]
  {
    hide FittingAll, Placed, TakeVi, TakeLoop, PutLoop, Encode, Len;
    FittingIff(ver, ctx, [], 0, ps);
    LoopPut(ver, ctx, 0, [], ps, rest);
    var body := PutLoop(ps, 0).value;
    ViThen(|ps|, body, rest);
    assert [] + ps == ps;
  }

  /** A list on the wire: a count, then each type as what it is past the one before
      it, and its value. */
  ghost predicate IsList(ps: seq<Param>, prev: u64, b: seq<u8>)
    decreases |ps|
  {
    if ps == [] then b == []
    else
      prev <= ps[0].typ &&
      exists v, rest :: b == Encode(ps[0].typ - prev) + v + rest && IsBytes(ps[0].value, v) && IsList(ps[1..], ps[0].typ, rest)
  }

  lemma {:induction false} LoopIs(ps: seq<Param>, prev: u64)
    requires AllWritable(ps) && PutLoop(ps, prev).Some?
    ensures IsList(ps, prev, PutLoop(ps, prev).value)
    decreases |ps|
  {
    hide Encode, Len, PutValue, IsBytes;
    if ps != [] {
      assert Writable(ps[0].value);
      ValueIs(ps[0].value);
      LoopIs(ps[1..], ps[0].typ);
      var v, rest := PutValue(ps[0].value).value, PutLoop(ps[1..], ps[0].typ).value;
      assert PutLoop(ps, prev).value == Encode(ps[0].typ - prev) + v + rest;
    }
  }

  lemma ListIs(ps: seq<Param>)
    requires AllWritable(ps) && |ps| <= U64_MAX && PutParams(ps).Some?
    ensures var n := |Encode(|ps|)|;
            && n <= |PutParams(ps).value| && PutParams(ps).value[..n] == Encode(|ps|)
            && IsList(ps, 0, PutParams(ps).value[n..])
  {
    hide Encode, Len, PutLoop, IsList;
    LoopIs(ps, 0);
    var body := PutLoop(ps, 0).value;
    assert (Encode(|ps|) + body)[|Encode(|ps|)|..] == body;
  }
}
