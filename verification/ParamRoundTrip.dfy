/** What was accepted can be sent on, and is accepted again as the same. */
module ParamValues {
  import opened Bytes
  import opened Locations
  import opened Varint
  import opened ParamWire
  import opened Params
  import opened ParamLocal

  // ---- Wire pieces ----

  lemma ViPut(v: u64, rest: seq<u8>)
    ensures TakeVi(Encode(v) + rest) == Got(v, |Encode(v)|)
  {
    var b := Encode(v) + rest;
    assert b[0..0 + |Encode(v)|] == Encode(v);
    RoundTrip(b, 0, v);
  }

  lemma Append(x: seq<u8>, rest: seq<u8>)
    ensures (x + rest)[|x|..] == rest && (x + rest)[..|x|] == x
  {
  }

  /** ViPut with more in front of the rest. */
  lemma ViThen(v: u64, x: seq<u8>, rest: seq<u8>)
    ensures TakeVi(Encode(v) + x + rest) == Got(v, |Encode(v)|)
    ensures (Encode(v) + x + rest)[|Encode(v)|..] == x + rest
  {
    assert Encode(v) + x + rest == Encode(v) + (x + rest);
    ViPut(v, x + rest);
  }

  lemma BlockPut(x: seq<u8>, rest: seq<u8>)
    requires |x| <= U64_MAX
    ensures TakeBlock(PutBlock(x) + rest) == Got(x, |PutBlock(x)|)
  {
    hide TakeVi, Encode, Len;
    ViThen(|x|, x, rest);
    Append(x, rest);
  }

  lemma LocPut(l: Loc, rest: seq<u8>)
    ensures TakeLoc(PutLoc(l) + rest) == Got(l, |PutLoc(l)|)
  {
    hide TakeVi, Encode, Len;
    ViThen(l.group, Encode(l.obj), rest);
    ViPut(l.obj, rest);
  }

  lemma DeltaPut(base: u64, d: u64, rest: seq<u8>)
    requires base + d <= U64_MAX
    ensures TakeDelta(Encode(d) + rest, base) == Got(base + d, |Encode(d)|)
  {
    ViPut(d, rest);
  }

  lemma DeltaThen(base: u64, d: u64, x: seq<u8>, rest: seq<u8>)
    requires base + d <= U64_MAX
    ensures TakeDelta(Encode(d) + x + rest, base) == Got(base + d, |Encode(d)|)
    ensures (Encode(d) + x + rest)[|Encode(d)|..] == x + rest
  {
    ViThen(d, x, rest);
  }

  lemma Regroup(x: seq<u8>, y: seq<u8>, rest: seq<u8>)
    ensures x + y + rest == x + (y + rest) && (x + y + rest)[|x|..] == y + rest
  {
  }

  // ---- Draft-19 filters ----

  /** What TakeFilter can answer. */
  predicate ProperFilter(f: Filter) {
    && FILTER_NEXT_GROUP <= f.typ <= FILTER_ABS_RANGE
    && (f.typ < FILTER_ABS_START ==> f.start == NO_LOC)
    && (if f.typ == FILTER_ABS_RANGE then f.start.group + f.endDelta <= U64_MAX else f.endDelta == 0)
  }

  /** The same filter as every draft understands it. */
  function RangeOf(f: Filter): Range
    requires ProperFilter(f)
  {
    if f.typ == FILTER_NEXT_GROUP then Range(RelGroup, NO_LOC, Unbounded, 0, 0)
    else if f.typ == FILTER_LARGEST then Range(NextObj, NO_LOC, Unbounded, 0, 0)
    else if f.typ == FILTER_ABS_START then Range(Abs, f.start, Unbounded, 0, 0)
    else Range(Abs, f.start, EndGroup, f.start.group + f.endDelta, 0)
  }

  /** Where the first parser succeeds so does the second, on the same bytes and
      with the same meaning. */
  lemma ParsersAgree(s: seq<u8>)
    requires TakeFilter(s).Got?
    ensures ProperFilter(TakeFilter(s).v) && TakeRange19(s) == Got(RangeOf(TakeFilter(s).v), TakeFilter(s).n)
  {
    hide TakeVi, TakeLoc, TakeDelta;
  }

  lemma FilterPut(f: Filter)
    requires ProperFilter(f)
    ensures TakeFilter(PutFilter(f)) == Got(f, |PutFilter(f)|)
  {
    hide TakeVi, Encode, Len, TakeLoc, TakeDelta, PutLoc;
    var t := Encode(f.typ);
    if f.typ < FILTER_ABS_START {
      assert t + [] == t;
      ViPut(f.typ, []);
    } else if f.typ == FILTER_ABS_START {
      ViPut(f.typ, PutLoc(f.start));
      Append(t, PutLoc(f.start));
      assert PutLoc(f.start) + [] == PutLoc(f.start);
      LocPut(f.start, []);
    } else {
      var l, d := PutLoc(f.start), Encode(f.endDelta);
      ViPut(f.typ, l + d);
      Append(t, l + d);
      LocPut(f.start, d);
      assert PutFilter(f)[|t| + |l|..] == d;
      assert d + [] == d;
      DeltaPut(f.start.group, f.endDelta, []);
    }
  }

  lemma FilterFits(f: Filter)
    requires ProperFilter(f)
    ensures |PutFilter(f)| <= 28
  {
    hide Encode;
    assert f.typ / 128 == 0;
  }

  lemma NotQuirk(f: Filter)
    requires ProperFilter(f)
    ensures !IsQuirk(PutFilter(f))
  {
    hide TakeVi, Encode, Len;
    ViPut(f.typ, PutFilter(f)[|Encode(f.typ)|..]);
    assert PutFilter(f) == Encode(f.typ) + PutFilter(f)[|Encode(f.typ)|..];
  }

  /** A filter written out is read back. */
  lemma LocFilterPut(f: Filter)
    requires ProperFilter(f)
    ensures ParseLocFilter(PutFilter(f)) == Got(LocFilter(f, RangeOf(f)), |PutFilter(f)|)
  {
    hide PutFilter, TakeFilter, TakeRange19, IsQuirk;
    NotQuirk(f);
    FilterPut(f);
    ParsersAgree(PutFilter(f));
  }

  /** One client's own type is read as the filter for the largest Object. Written
      out again that is another byte string, which is read as the same. */
  lemma QuirkPut()
    ensures var f := Filter(FILTER_LARGEST, NO_LOC, 0);
            && ParseLocFilter(Encode(250)) == Got(LocFilter(f, RangeOf(f)), |Encode(250)|)
            && PutFilter(f) != Encode(250)
            && ParseLocFilter(PutFilter(f)) == Got(LocFilter(f, RangeOf(f)), |PutFilter(f)|)
  {
    hide TakeVi, TakeFilter, TakeRange19, Encode, Len;
    var f := Filter(FILTER_LARGEST, NO_LOC, 0);
    ViPut(250, []);
    assert Encode(250) + [] == Encode(250);
    LargestIs();
    NotQuirk(f);
    LocFilterPut(f);
  }

  // ---- Draft-22 filters ----

  /** What TakeRange22 can answer: the fields the kinds do not use are zero. */
  predicate ProperRange(has: bool, r: Range) {
    && (!has ==> r == Range(RelGroup, NO_LOC, Unbounded, 0, 0))
    && (r.sk == RelGroup ==> r.start.obj == 0)
    && (r.sk == NextObj ==> r.start == NO_LOC)
    && (r.sk != Abs ==> r.ek == Unbounded)
    && (if r.ek == Unbounded then r.endGroup == 0 else r.start.group <= r.endGroup)
    && (r.ek != EndObj ==> r.endObj == 0)
  }

  lemma Range22Proper(s: seq<u8>)
    requires TakeRange22(s).Got?
    ensures ProperRange(TakeRange22(s).v.0, TakeRange22(s).v.1)
  {
    hide TakeVi, TakeLoc;
  }

  lemma Slide(t: seq<u8>, l: seq<u8>, x: seq<u8>, rest: seq<u8>)
    ensures (t + (l + x) + rest)[|t|..] == l + (x + rest)
    ensures (t + (l + x) + rest)[|t| + |l|..] == x + rest
  {
  }

  lemma EndIs(r: Range)
    requires ProperRange(true, r) && r.sk == Abs
    ensures match r.ek
            case EndGroup =>
              r.start.group <= r.endGroup && PutEnd(r) == Encode(r.endGroup - r.start.group)
              && r == Range(Abs, r.start, EndGroup, r.endGroup, 0)
            case EndObj =>
              r.start.group <= r.endGroup && PutEnd(r) == Encode(r.endGroup - r.start.group) + Encode(r.endObj)
              && r == Range(Abs, r.start, EndObj, r.endGroup, r.endObj)
            case Unbounded => PutEnd(r) == [] && r == Range(Abs, r.start, Unbounded, 0, 0)
  {
    hide Encode, Len;
  }

  lemma EndGroupPut(r: Range, t: seq<u8>, rest: seq<u8>)
    requires ProperRange(true, r) && r.sk == Abs && r.ek == EndGroup
    ensures TakeEnd(t + PutEnd(r) + rest, |t|, r.start, EndGroup) == Got(r, |t| + |PutEnd(r)|)
  {
    hide TakeVi, Encode, Len, TakeDelta, PutEnd, ProperRange;
    EndIs(r);
    assert (t + PutEnd(r) + rest)[|t|..] == PutEnd(r) + rest;
    DeltaPut(r.start.group, r.endGroup - r.start.group, rest);
  }

  lemma EndObjPut(r: Range, t: seq<u8>, rest: seq<u8>)
    requires ProperRange(true, r) && r.sk == Abs && r.ek == EndObj
    ensures TakeEnd(t + PutEnd(r) + rest, |t|, r.start, EndObj) == Got(r, |t| + |PutEnd(r)|)
  {
    hide TakeVi, Encode, Len, TakeDelta, PutEnd, ProperRange;
    EndIs(r);
    var delta := r.endGroup - r.start.group;
    Slide(t, Encode(delta), Encode(r.endObj), rest);
    DeltaPut(r.start.group, delta, Encode(r.endObj) + rest);
    ViPut(r.endObj, rest);
  }

  lemma EndPut(r: Range, t: seq<u8>, rest: seq<u8>)
    requires ProperRange(true, r) && r.sk == Abs
    ensures TakeEnd(t + PutEnd(r) + rest, |t|, r.start, r.ek) == Got(r, |t| + |PutEnd(r)|)
  {
    match r.ek
    case EndGroup => EndGroupPut(r, t, rest);
    case EndObj => EndObjPut(r, t, rest);
    case Unbounded =>
  }

  lemma AbsPut(r: Range, t: seq<u8>, rest: seq<u8>)
    requires ProperRange(true, r) && r.sk == Abs
    ensures TakeAbs(t + PutAbs(r) + rest, |t|, r.ek) == Got(r, |t| + |PutAbs(r)|)
  {
    hide TakeLoc, TakeEnd, PutLoc, PutEnd;
    var l := PutLoc(r.start);
    Slide(t, l, PutEnd(r), rest);
    LocPut(r.start, PutEnd(r) + rest);
    EndPut(r, t + l, rest);
    assert t + l + PutEnd(r) + rest == t + (l + PutEnd(r)) + rest;
  }

  lemma Range22Put(has: bool, r: Range, rest: seq<u8>)
    requires ProperRange(has, r)
    ensures TakeRange22(PutRange22(has, r) + rest) == Got((has, r), |PutRange22(has, r)|)
  {
    hide TakeVi, Encode, Len, TakeAbs, PutAbs;
    if !has {
      ViPut(0, rest);
    } else if r.sk == RelGroup {
      ViThen(1, Encode(r.start.group), rest);
      ViPut(r.start.group, rest);
    } else if r.sk == NextObj {
      ViPut(5, rest);
    } else {
      var t: u64 := if r.ek == Unbounded then 2 else if r.ek == EndGroup then 3 else 4;
      ViThen(t, PutAbs(r), rest);
      AbsPut(r, Encode(t), rest);
    }
  }

  // ---- Switching ----

  lemma ShortVi(v: u64)
    requires v < 128
    ensures |Encode(v)| == 1
  {
    hide Encode;
    assert v / 128 == 0;
  }

  lemma SwitchPut(x: Switch)
    requires x.mode <= SWITCH_SOFT
    ensures ParseSwitch(PutSwitch(x)) == Got(x, |PutSwitch(x)|) && |PutSwitch(x)| <= 19
  {
    hide TakeVi, Encode, Len;
    var v, id, m := PutSwitch(x), Encode(x.requestId), Encode(x.mode);
    var f: seq<u8> := [if x.publishDone then 128 else 0];
    ViThen(x.requestId, m, f);
    ViPut(x.mode, f);
    ShortVi(x.mode);
    assert v[|id| + |m|] == f[0];
  }

  lemma {:induction false} VisPut(xs: seq<u64>, rest: seq<u8>)
    ensures TakeVis(PutVis(xs) + rest, |xs|) == Got(xs, |PutVis(xs)|)
    ensures |PutVis(xs)| <= 9 * |xs|
    decreases |xs|
  {
    hide TakeVi, Encode, Len;
    if xs != [] {
      ViThen(xs[0], PutVis(xs[1..]), rest);
      VisPut(xs[1..], rest);
      assert [xs[0]] + xs[1..] == xs;
    }
  }

  lemma AssignmentPut(x: Assignment)
    requires WeightOk(x.weight)
    ensures ParseAssignment(PutAssignment(x)) == Got(x, |PutAssignment(x)|) && |PutAssignment(x)| <= 46
  {
    hide TakeVis, PutVis;
    var f := [x.setId, x.algorithm, x.threshold, x.weight, x.activate];
    VisPut(f, if x.rank.Some? then [x.rank.value] else []);
  }

  // ---- Values ----

  /** What a decoder of this encoding can answer. */
  predicate Proper(enc: Enc, v: Value) {
    match enc
    case UInt8Enc => v.UInt8?
    case VarIntEnc => v.VarInt?
    case LocationEnc => v.Location?
    case BytesEnc => v.Opaque? && |v.bytes| <= U64_MAX
    case TokenEnc => v.TokenValue? && |v.raw| <= U64_MAX && ParseToken(v.raw).Got? && ParseToken(v.raw).v == v.token
    case LocFilterEnc => v.LocFilter? && ProperFilter(v.filter) && v.range == RangeOf(v.filter)
    case NsEnc => v.Namespace? && TakeNs(v.ns) == Got(v.ns, |v.ns|)
    case RangeLoc22Enc => v.RangeLoc22? && ProperRange(v.has, v.range22)
    case SwitchFromEnc => v.SwitchFrom? && v.switch.mode <= SWITCH_SOFT
    case AssignmentEnc => v.SetAssignment? && WeightOk(v.assignment.weight)
    case Fill23Enc => v.Fill23? && TakeParams(D23, FETCH, v.inner).Got? && TakeParams(D23, FETCH, v.inner).n == |v.inner|
  }

  lemma BlockProper(enc: Enc, x: seq<u8>)
    requires Prefixed(enc) && |x| <= U64_MAX && ParseBlock(enc, x).Got?
    ensures Proper(enc, ParseBlock(enc, x).v)
  {
    hide TakeVi, TakeFilter, TakeRange19, ParseToken, TakeVis, RangeOf;
    if enc == LocFilterEnc {
      if IsQuirk(x) {
        LargestIs();
      } else {
        ParsersAgree(x);
      }
    }
  }

  lemma LargestIs()
    ensures RangeOf(Filter(FILTER_LARGEST, NO_LOC, 0)) == Range(NextObj, NO_LOC, Unbounded, 0, 0)
  {
  }

  lemma ValueProper(ver: Ver, ctx: Scopes, enc: Enc, s: seq<u8>)
    requires enc == Fill23Enc ==> Depth(ver, ctx) == 1
    requires TakeValue(ver, ctx, enc, s).Got?
    ensures Proper(enc, TakeValue(ver, ctx, enc, s).v)
  {
    hide TakeParams, TakeBlock, ParseBlock, TakeNs, TakeRange22, ParseToken, ProperRange, ProperFilter, RangeOf, TakeLoc, TakeVi;
    if enc == Fill23Enc {
      ParamsWhole(s);
    } else if Prefixed(enc) {
      BlockProper(enc, TakeBlock(s).v);
    } else if enc == NsEnc {
      NsWhole(s);
    } else if enc == RangeLoc22Enc {
      Range22Proper(s);
    }
  }

  lemma ParamsWhole(s: seq<u8>)
    requires TakeParams(D23, FETCH, s).Got?
    ensures var x := s[..TakeParams(D23, FETCH, s).n];
            TakeParams(D23, FETCH, x).Got? && TakeParams(D23, FETCH, x).n == |x|
  {
    hide TakeParams;
    ParamsLocal(D23, FETCH, s, s[..TakeParams(D23, FETCH, s).n]);
  }

  lemma NsWhole(s: seq<u8>)
    requires TakeNs(s).Got?
    ensures TakeNs(TakeNs(s).v) == Got(TakeNs(s).v, |TakeNs(s).v|)
  {
    NsPrefix(s);
    hide TakeNs;
    NsLocal(s, s[..TakeNs(s).n]);
  }

  lemma NsPrefix(s: seq<u8>)
    requires TakeNs(s).Got?
    ensures TakeNs(s).v == s[..TakeNs(s).n]
  {
    hide TakeVi, TakeFields;
  }

  lemma InsidePut(enc: Enc, v: Value)
    requires Prefixed(enc) && Proper(enc, v)
    ensures PutInside(v).Some? && |PutInside(v).value| <= U64_MAX
    ensures ParseBlock(enc, PutInside(v).value).Got? && ParseBlock(enc, PutInside(v).value).v == v
  {
    hide ParseToken, ParseLocFilter, ParseSwitch, ParseAssignment, PutFilter, PutSwitch, PutAssignment, RangeOf, ProperFilter;
    match enc
    case TokenEnc =>
    case LocFilterEnc =>
      FilterFits(v.filter);
      LocFilterPut(v.filter);
    case SwitchFromEnc => SwitchPut(v.switch);
    case AssignmentEnc => AssignmentPut(v.assignment);
  }

  lemma PrefixedPut(enc: Enc, v: Value, rest: seq<u8>)
    requires Prefixed(enc) && Proper(enc, v)
    ensures Writable(v) && PutValue(v).Some?
    ensures TakePrefixed(enc, PutValue(v).value + rest) == Got(v, |PutValue(v).value|)
  {
    InsidePut(enc, v);
    hide TakeBlock, ParseBlock, PutBlock, PutInside;
    BlockPut(PutInside(v).value, rest);
  }

  lemma DirectPut(enc: Enc, v: Value, rest: seq<u8>)
    requires enc != Fill23Enc && !Prefixed(enc) && Proper(enc, v)
    ensures Writable(v) && PutValue(v).Some?
    ensures TakeDirect(enc, PutValue(v).value + rest) == Got(v, |PutValue(v).value|)
  {
    hide TakeVi, TakeLoc, TakeBlock, TakeNs, TakeRange22, Encode, Len, PutLoc, PutBlock, PutRange22;
    match enc
    case UInt8Enc =>
    case VarIntEnc => ViPut(v.i, rest);
    case LocationEnc => LocPut(v.loc, rest);
    case BytesEnc => BlockPut(v.bytes, rest);
    case NsEnc => NsAgain(v.ns, rest);
    case RangeLoc22Enc => Range22Put(v.has, v.range22, rest);
  }

  lemma NsAgain(x: seq<u8>, rest: seq<u8>)
    requires TakeNs(x) == Got(x, |x|)
    ensures TakeNs(x + rest) == Got(x, |x|)
  {
    hide TakeNs;
    Append(x, rest);
    assert x[..|x|] == x;
    NsLocal(x, x + rest);
  }

  lemma FillAgain(x: seq<u8>, rest: seq<u8>)
    requires TakeParams(D23, FETCH, x).Got? && TakeParams(D23, FETCH, x).n == |x|
    ensures TakeParams(D23, FETCH, x + rest).Got? && TakeParams(D23, FETCH, x + rest).n == |x|
  {
    hide TakeParams;
    Append(x, rest);
    assert x[..|x|] == x;
    ParamsLocal(D23, FETCH, x, x + rest);
  }

  /** A value that was accepted is accepted again, whatever follows it. */
  lemma ValuePut(ver: Ver, ctx: Scopes, enc: Enc, v: Value, rest: seq<u8>)
    requires (enc == Fill23Enc ==> Depth(ver, ctx) == 1) && Proper(enc, v)
    ensures Writable(v) && PutValue(v).Some?
    ensures TakeValue(ver, ctx, enc, PutValue(v).value + rest) == Got(v, |PutValue(v).value|)
  {
    hide TakeParams, TakeDirect, TakePrefixed;
    if enc == Fill23Enc {
      FillAgain(v.inner, rest);
      Append(v.inner, rest);
    } else if Prefixed(enc) {
      PrefixedPut(enc, v, rest);
      hide PutInside;
    } else {
      DirectPut(enc, v, rest);
    }
  }
}

module ParamLists {
  import opened Options
  import opened Bytes
  import opened Varint
  import opened ParamWire
  import opened Params
  import opened ParamValues

  /** A parameter that may come after those so far. */
  predicate Fitting(ver: Ver, ctx: Scopes, sofar: seq<Param>, prev: u64, p: Param) {
    && prev <= p.typ && |sofar| < MAX_PARAMS && Admitted(ver, ctx, sofar, p.typ)
    && ValueAllowed(p.typ, p.value) && Proper(Selected(ver, ctx, sofar, p.typ), p.value)
  }

  /** A list of them, after those so far. */
  predicate FittingAll(ver: Ver, ctx: Scopes, sofar: seq<Param>, prev: u64, ps: seq<Param>)
    decreases |ps|
  {
    ps == [] || (Fitting(ver, ctx, sofar, prev, ps[0]) && FittingAll(ver, ctx, sofar + [ps[0]], ps[0].typ, ps[1..]))
  }

  lemma OneFits(ver: Ver, ctx: Scopes, s: seq<u8>, prev: u64, sofar: seq<Param>)
    requires TakeOne(ver, ctx, s, prev, sofar).Got? && |sofar| < MAX_PARAMS
    ensures Fitting(ver, ctx, sofar, prev, TakeOne(ver, ctx, s, prev, sofar).v)
  {
    hide TakeValue, Admitted, ValueAllowed, Selected, Proper;
    var typ, n := TakeDelta(s, prev).v, TakeDelta(s, prev).n;
    ValueProper(ver, ctx, Selected(ver, ctx, sofar, typ), s[n..]);
  }

  /** What the loop accepts is what it was given, and more that fits. */
  lemma {:induction false} LoopFits(ver: Ver, ctx: Scopes, s: seq<u8>, count: nat, prev: u64, sofar: seq<Param>)
    requires TakeLoop(ver, ctx, s, count, prev, sofar).Got?
    ensures var ps := TakeLoop(ver, ctx, s, count, prev, sofar).v;
            && |ps| == |sofar| + count && ps[..|sofar|] == sofar
            && FittingAll(ver, ctx, sofar, prev, ps[|sofar|..])
    decreases count
  {
    hide TakeOne, Fitting;
    if count > 0 {
      var one := TakeOne(ver, ctx, s, prev, sofar);
      OneFits(ver, ctx, s, prev, sofar);
      LoopFits(ver, ctx, s[one.n..], count - 1, one.v.typ, sofar + [one.v]);
      var ps := TakeLoop(ver, ctx, s, count, prev, sofar).v;
      assert ps[..|sofar|] == ps[..|sofar| + 1][..|sofar|];
      assert ps[|sofar|] == ps[..|sofar| + 1][|sofar|] == one.v;
      assert ps[|sofar|..][1..] == ps[|sofar| + 1..];
    }
  }

  lemma TypedPut(ver: Ver, ctx: Scopes, prev: u64, sofar: seq<Param>, p: Param, rest: seq<u8>)
    requires Fitting(ver, ctx, sofar, prev, p)
    ensures Writable(p.value) && PutValue(p.value).Some?
    ensures TakeTyped(ver, ctx, PutValue(p.value).value + rest, p.typ, sofar) == Got(p, |PutValue(p.value).value|)
  {
    hide TakeValue, Admitted, ValueAllowed, Selected, Proper, PutValue, Writable;
    ValuePut(ver, ctx, Selected(ver, ctx, sofar, p.typ), p.value, rest);
  }

  lemma OnePut(ver: Ver, ctx: Scopes, prev: u64, sofar: seq<Param>, p: Param, rest: seq<u8>)
    requires Fitting(ver, ctx, sofar, prev, p)
    ensures Writable(p.value) && PutValue(p.value).Some?
    ensures TakeOne(ver, ctx, Encode(p.typ - prev) + PutValue(p.value).value + rest, prev, sofar)
         == Got(p, |Encode(p.typ - prev) + PutValue(p.value).value|)
  {
    hide TakeTyped, Fitting, PutValue, Encode, Len, TakeDelta, Writable, TakeOne;
    TypedPut(ver, ctx, prev, sofar, p, rest);
    FitsAfter(ver, ctx, sofar, prev, p);
    var v := PutValue(p.value).value;
    DeltaThen(prev, p.typ - prev, v, rest);
    TakeOneStep(ver, ctx, Encode(p.typ - prev) + v + rest, prev, sofar, p.typ, |Encode(p.typ - prev)|, p, |v|);
  }

  lemma TakeOneStep(
    ver: Ver, ctx: Scopes, s: seq<u8>, prev: u64, sofar: seq<Param>, typ: u64, n: nat, p: Param, m: nat)
    requires TakeDelta(s, prev) == Got(typ, n) && n <= |s| && TakeTyped(ver, ctx, s[n..], typ, sofar) == Got(p, m)
    ensures TakeOne(ver, ctx, s, prev, sofar) == Got(p, n + m)
  {
    hide TakeDelta, TakeTyped;
  }

  lemma WritableAll(ps: seq<Param>)
    requires ps != [] && Writable(ps[0].value) && AllWritable(ps[1..])
    ensures AllWritable(ps)
  {
    hide Writable;
    assert forall i :: 1 <= i < |ps| ==> ps[i] == ps[1..][i - 1];
  }

  lemma PutLoopStep(ps: seq<Param>, prev: u64)
    requires ps != [] && Writable(ps[0].value) && AllWritable(ps[1..]) && prev <= ps[0].typ
    requires PutValue(ps[0].value).Some? && PutLoop(ps[1..], ps[0].typ).Some?
    ensures AllWritable(ps)
    ensures PutLoop(ps, prev)
         == Some(Encode(ps[0].typ - prev) + PutValue(ps[0].value).value + PutLoop(ps[1..], ps[0].typ).value)
  {
    hide Writable, PutValue, Encode, Len;
    WritableAll(ps);
  }

  lemma TakeLoopStep(ver: Ver, ctx: Scopes, s: seq<u8>, count: nat, prev: u64, sofar: seq<Param>)
    requires count > 0 && |sofar| < MAX_PARAMS && TakeOne(ver, ctx, s, prev, sofar).Got?
    ensures var p, n := TakeOne(ver, ctx, s, prev, sofar).v, TakeOne(ver, ctx, s, prev, sofar).n;
            var more := TakeLoop(ver, ctx, s[n..], count - 1, p.typ, sofar + [p]);
            more.Got? ==> TakeLoop(ver, ctx, s, count, prev, sofar) == Got(more.v, n + more.n)
  {
    hide TakeOne;
  }

  lemma NonePut(ver: Ver, ctx: Scopes, prev: u64, sofar: seq<Param>, rest: seq<u8>)
    ensures PutLoop([], prev) == Some([]) && TakeLoop(ver, ctx, [] + rest, 0, prev, sofar) == Got(sofar + [], 0)
  {
    assert sofar + [] == sofar;
  }

  /** A fitting list is written, and read back behind those so far. */
  lemma {:induction false} LoopPut(ver: Ver, ctx: Scopes, prev: u64, sofar: seq<Param>, ps: seq<Param>, rest: seq<u8>)
    requires FittingAll(ver, ctx, sofar, prev, ps)
    ensures AllWritable(ps) && PutLoop(ps, prev).Some?
    ensures TakeLoop(ver, ctx, PutLoop(ps, prev).value + rest, |ps|, prev, sofar)
         == Got(sofar + ps, |PutLoop(ps, prev).value|)
    decreases |ps|
  {
    hide TakeOne, TakeLoop, Fitting, PutValue, PutLoop, Encode, Len, Writable;
    if ps == [] {
      NonePut(ver, ctx, prev, sofar, rest);
    } else {
      var p, more := ps[0], ps[1..];
      FitsAfter(ver, ctx, sofar, prev, p);
      LoopPut(ver, ctx, p.typ, sofar + [p], more, rest);
      var tail := PutLoop(more, p.typ).value;
      OnePut(ver, ctx, prev, sofar, p, tail + rest);
      PutLoopStep(ps, prev);
      Regroup(Encode(p.typ - prev) + PutValue(p.value).value, tail, rest);
      TakeLoopStep(ver, ctx, PutLoop(ps, prev).value + rest, |ps|, prev, sofar);
      assert sofar + [p] + more == sofar + ps;
    }
  }

  lemma FitsAfter(ver: Ver, ctx: Scopes, sofar: seq<Param>, prev: u64, p: Param)
    requires Fitting(ver, ctx, sofar, prev, p)
    ensures prev <= p.typ && |sofar| < MAX_PARAMS
  {
    hide Admitted, ValueAllowed, Selected, Proper;
  }

  // ---- PAUSED and FORWARD ----

  /** A list read by one draft holds only one of the two, with 0 or 1. */
  predicate OneKind(ver: Ver, p: Param) {
    && p.typ != (if ver == D23 then FORWARD else PAUSED)
    && (p.typ == PAUSED ==> p.value.UInt8? && p.value.b <= 1)
  }

  lemma FittingKind(ver: Ver, ctx: Scopes, sofar: seq<Param>, prev: u64, p: Param)
    requires Fitting(ver, ctx, sofar, prev, p)
    ensures OneKind(ver, p)
  {
    hide ParseToken, TakeNs, TakeParams, ProperRange, ProperFilter, RangeOf;
  }

  lemma {:induction false} FittingKinds(ver: Ver, ctx: Scopes, sofar: seq<Param>, prev: u64, ps: seq<Param>)
    requires FittingAll(ver, ctx, sofar, prev, ps)
    ensures forall i :: 0 <= i < |ps| ==> OneKind(ver, ps[i])
    decreases |ps|
  {
    hide Fitting, OneKind;
    if ps != [] {
      FittingKind(ver, ctx, sofar, prev, ps[0]);
      FittingKinds(ver, ctx, sofar + [ps[0]], ps[0].typ, ps[1..]);
      assert forall i :: 1 <= i < |ps| ==> ps[i] == ps[1..][i - 1];
    }
  }

  /** A parameter as it is kept: type 0x11 with byte b is kept as type 0x10 with
      1 - b, any other as it came. */
  predicate KeptAs(came: Param, kept: Param) {
    if came.typ == 0x11 then
      came.value.UInt8? && came.value.b <= 1 && kept == Param(0x10, UInt8(1 - came.value.b))
    else kept == came
  }

  /** What came, parameter by parameter and in order, is what is kept, PAUSED as
      FORWARD inverted; before draft-23 PAUSED never comes, from then on FORWARD
      never does. */
  lemma ListKept(ver: Ver, ctx: Scopes, s: seq<u8>)
    requires TakeParams(ver, ctx, s).Got?
    ensures TakeVi(s).Got? && TakeLoop(ver, ctx, s[TakeVi(s).n..], TakeVi(s).v, 0, []).Got?
    ensures var came := TakeLoop(ver, ctx, s[TakeVi(s).n..], TakeVi(s).v, 0, []).v;
            var kept := TakeParams(ver, ctx, s).v;
            && |kept| == |came| == TakeVi(s).v
            && (forall i :: 0 <= i < |came| ==> KeptAs(came[i], kept[i]))
            && (forall i :: 0 <= i < |came| ==> came[i].typ != if ver == D23 then 0x10 else 0x11)
  {
    hide TakeVi, TakeLoop, FittingAll;
    var count, n := TakeVi(s).v, TakeVi(s).n;
    var came := TakeLoop(ver, ctx, s[n..], count, 0, []).v;
    LoopFits(ver, ctx, s[n..], count, 0, []);
    assert came[0..] == came;
    FittingKinds(ver, ctx, [], 0, came);
    forall i | 0 <= i < |came|
      ensures KeptAs(came[i], TakeParams(ver, ctx, s).v[i]) && came[i].typ != if ver == D23 then 0x10 else 0x11
    {
      assert OneKind(ver, came[i]);
    }
  }

  /** What is sent from a kept list: to draft-23, type 0x10 with byte b goes out as
      type 0x11 with 1 - b; all else, and all before draft-23, as it is kept. */
  lemma OutSends(ver: Ver, ps: seq<Param>)
    ensures |Out(ver, ps)| == |ps|
    ensures forall i :: 0 <= i < |ps| ==>
              if ver == D23 && ps[i].typ == 0x10 && ps[i].value.UInt8? then
                Out(ver, ps)[i] == Param(0x11, UInt8(if ps[i].value.b == 0 then 1 else 0))
              else Out(ver, ps)[i] == ps[i]
  {
  }

  /** Sending undoes what reading did to PAUSED. */
  lemma OutUndoes(ver: Ver, ps: seq<Param>)
    requires forall i :: 0 <= i < |ps| ==> OneKind(ver, ps[i])
    ensures Out(ver, Flip(ps, PAUSED, FORWARD)) == ps
  {
    forall i | 0 <= i < |ps| ensures Out(ver, Flip(ps, PAUSED, FORWARD))[i] == ps[i] { assert OneKind(ver, ps[i]); }
  }

  /** Any list a draft accepts in a message can be sent on and is accepted there
      again, as the same parameters and whatever follows it. */
  lemma ListSurvives(ver: Ver, ctx: Scopes, s: seq<u8>, rest: seq<u8>)
    requires TakeParams(ver, ctx, s).Got?
    ensures var out := Out(ver, TakeParams(ver, ctx, s).v);
            && AllWritable(out) && |out| <= U64_MAX && PutParams(out).Some?
            && TakeParams(ver, ctx, PutParams(out).value + rest) == Got(TakeParams(ver, ctx, s).v, |PutParams(out).value|)
  {
    hide TakeVi, TakeLoop, PutLoop, Encode, Len, Flip, FittingAll, AllWritable;
    var count, n := TakeVi(s).v, TakeVi(s).n;
    var ps := TakeLoop(ver, ctx, s[n..], count, 0, []).v;
    LoopFits(ver, ctx, s[n..], count, 0, []);
    assert ps[0..] == ps;
    FittingKinds(ver, ctx, [], 0, ps);
    OutUndoes(ver, ps);
    LoopPut(ver, ctx, 0, [], ps, rest);
    var body := PutLoop(ps, 0).value;
    ViThen(count, body, rest);
    assert [] + ps == ps;
  }
}
