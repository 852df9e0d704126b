/** Encoder and decoder of the fetch stream stay in step. */
module FetchProofs {
  import opened Options
  import opened Bytes
  import opened Parsing
  import Vi = Varint
  import opened Varint
  import opened FetchSpec

  // ---- Putting then taking ----

  lemma BytesRoundTrip(b: seq<u8>, at: nat, p: seq<u8>)
    requires |p| <= U64_MAX && HasAt(b, at, PutBytes(p))
    ensures TakeBytes(b, at) == Ok(p, at + |PutBytes(p)|)
  {
    hide Vi.Take, Vi.Encode, Vi.Len;
    HasBoth(b, at, Vi.Encode(|p|), p);
    RoundTrip(b, at, |p|);
  }

  /** o with only the fields of the steps before i filled in. */
  function Partial(o: Item, i: nat): Item {
    Item(o.flags, if i > 1 then o.group else 0, if i > 3 then o.obj else 0,
         if i > 2 then o.hasSubgroup else false, if i > 2 then o.subgroup else 0,
         if i > 4 then o.priority else 0, if i > 5 then o.hasProps else false,
         if i > 5 then o.props else [], if i > 6 then o.payload else [])
  }

  lemma GroupResolves(s: Prior, o: Item)
    requires HasGroup(o.flags) && FieldAgrees(1, s, o)
    ensures ResolveGroup(s, GroupDelta(s, o.group)) == Some(o.group)
  {
    hide HasGroup;
  }

  lemma GroupRoundTrip(b: seq<u8>, at: nat, s: Prior, o: Item)
    requires Sized(o) && FieldAgrees(0, s, o) && FieldAgrees(1, s, o) && HasAt(b, at, PutStep(1, s, o).value)
    ensures TakeStep(1, b, at, s, Partial(o, 1)) == Ok(Partial(o, 2), at + |PutStep(1, s, o).value|)
  {
    hide Vi.Take, Vi.Encode, Vi.Len, HasGroup, GroupDelta, ResolveGroup;
    if HasGroup(o.flags) {
      GroupResolves(s, o);
      RoundTrip(b, at, GroupDelta(s, o.group));
    }
  }

  lemma SubgroupRoundTrip(b: seq<u8>, at: nat, s: Prior, o: Item)
    requires Sized(o) && FieldAgrees(2, s, o) && HasAt(b, at, PutStep(2, s, o).value)
    ensures TakeStep(2, b, at, s, Partial(o, 2)) == Ok(Partial(o, 3), at + |PutStep(2, s, o).value|)
  {
    hide Vi.Take, Vi.Encode, Vi.Len, IsDatagram;
    if !IsDatagram(o.flags) && SubgroupMode(o.flags) == 3 {
      RoundTrip(b, at, o.subgroup);
    }
  }

  lemma ObjectResolves(s: Prior, o: Item)
    requires HasObject(o.flags) && FieldAgrees(3, s, o)
    ensures ObjectDelta(s, o).Some? && ResolveObject(s, o, ObjectDelta(s, o).value) == Some(o.obj)
  {
  }

  lemma ObjectRoundTrip(b: seq<u8>, at: nat, s: Prior, o: Item)
    requires Sized(o) && FieldAgrees(3, s, o)
    requires PutObject(s, o).Some? ==> HasAt(b, at, PutObject(s, o).value)
    ensures PutObject(s, o).Some?
    ensures TakeStep(3, b, at, s, Partial(o, 3)) == Ok(Partial(o, 4), at + |PutObject(s, o).value|)
  {
    hide Vi.Take, Vi.Encode, Vi.Len, HasObject, ObjectDelta, ResolveObject;
    if HasObject(o.flags) {
      ObjectResolves(s, o);
      assert ResolveObject(s, Partial(o, 3), ObjectDelta(s, o).value) == ResolveObject(s, o, ObjectDelta(s, o).value) by {
        ResolveUsesFlags(s, o, Partial(o, 3), ObjectDelta(s, o).value);
      }
      RoundTrip(b, at, ObjectDelta(s, o).value);
    }
  }

  lemma ResolveUsesFlags(s: Prior, o: Item, p: Item, d: u64)
    requires o.flags == p.flags
    ensures ResolveObject(s, o, d) == ResolveObject(s, p, d)
  {
  }

  lemma StepRoundTrip(i: nat, b: seq<u8>, at: nat, s: Prior, o: Item)
    requires i < STEPS && Sized(o) && ObjectAgrees(s, o)
    requires PutStep(i, s, o).Some? ==> HasAt(b, at, PutStep(i, s, o).value)
    ensures PutStep(i, s, o).Some?
    ensures TakeStep(i, b, at, s, Partial(o, i)) == Ok(Partial(o, i + 1), at + |PutStep(i, s, o).value|)
  {
    hide Vi.Take, Vi.Encode, Vi.Len;
    assert FieldAgrees(i, s, o) && FieldAgrees(0, s, o);
    if i == 1 {
      GroupRoundTrip(b, at, s, o);
    } else if i == 2 {
      SubgroupRoundTrip(b, at, s, o);
    } else if i == 3 {
      ObjectRoundTrip(b, at, s, o);
    } else if i == 4 {
      if HasPriority(o.flags) { assert b[at] == b[at..at + 1][0]; }
    } else if i == 5 {
      if HasProps(o.flags) { BytesRoundTrip(b, at, o.props); }
    } else if i == 6 {
      BytesRoundTrip(b, at, o.payload);
    }
  }

  lemma PutStepSome(i: nat, s: Prior, o: Item)
    requires i < STEPS && Sized(o) && FieldAgrees(i, s, o)
    ensures PutStep(i, s, o).Some?
  {
  }

  lemma {:induction false} PutStepsSome(i: nat, s: Prior, o: Item)
    requires i <= STEPS && Sized(o) && ObjectAgrees(s, o)
    ensures PutSteps(i, s, o).Some?
    decreases STEPS - i
  {
    if i < STEPS {
      PutStepSome(i, s, o);
      PutStepsSome(i + 1, s, o);
    }
  }

  lemma PartialAll(o: Item)
    ensures Partial(o, STEPS) == o
  {
  }

  lemma {:induction false} StepsRoundTrip(i: nat, b: seq<u8>, at: nat, s: Prior, o: Item)
    requires i <= STEPS && Sized(o) && ObjectAgrees(s, o)
    requires PutSteps(i, s, o).Some? && HasAt(b, at, PutSteps(i, s, o).value)
    ensures TakeSteps(i, b, at, s, Partial(o, i)) == Ok(o, at + |PutSteps(i, s, o).value|)
    decreases STEPS - i
  {
    hide PutStep, TakeStep, Partial, HasAt, ObjectAgrees, Sized;
    PartialAll(o);
    if i < STEPS {
      var x, y := PutStep(i, s, o).value, PutSteps(i + 1, s, o).value;
      HasBoth(b, at, x, y);
      StepRoundTrip(i, b, at, s, o);
      StepsRoundTrip(i + 1, b, at + |x|, s, o);
    }
  }

  lemma RangeResolves(s: Prior, o: Item)
    requires RangeAgrees(s, o)
    ensures var (gd, od) := RangeDeltas(s, o); ResolveRange(s, gd, od) == Some((o.group, o.obj))
  {
  }

  lemma RangeRoundTrip(b: seq<u8>, at: nat, s: Prior, o: Item)
    requires RangeAgrees(s, o) && HasAt(b, at, PutRange(s, o))
    ensures TakeRange(b, at, s, Blank(o.flags)) == Ok(o, at + |PutRange(s, o)|)
  {
    hide Vi.Take, Vi.Encode, Vi.Len, RangeDeltas, ResolveRange;
    var (gd, od) := RangeDeltas(s, o);
    RangeResolves(s, o);
    HasBoth(b, at, Vi.Encode(gd), Vi.Encode(od));
    RoundTrip(b, at, gd);
    RoundTrip(b, at + Len(gd), od);
  }

  lemma BodySome(s: Prior, o: Item)
    requires Agrees(s, o)
    ensures Sized(o) && PutBody(s, o).Some?
  {
    if KindOf(o.flags, s).ObjectKind? {
      PutStepsSome(0, s, o);
    }
  }

  lemma BodyRoundTrip(b: seq<u8>, at: nat, s: Prior, o: Item)
    requires Agrees(s, o) && PutBody(s, o).Some? && HasAt(b, at, PutBody(s, o).value)
    ensures TakeBody(b, at, s, o.flags) == Ok(o, at + |PutBody(s, o).value|)
  {
    hide Vi.Take, Vi.Encode, Vi.Len, PutSteps, TakeSteps, PutRange, TakeRange, ObjectAgrees, RangeAgrees;
    match KindOf(o.flags, s)
    case ObjectKind => StepsRoundTrip(0, b, at, s, o);
    case RangeKind => RangeRoundTrip(b, at, s, o);
    case EndKind =>
  }

  /** An item whose flags agree with the state is encoded, and decoding it
      where its bytes lie gives it back. */
  lemma ItemRoundTrip(b: seq<u8>, at: nat, s: Prior, o: Item)
    requires Agrees(s, o) && (PutItem(s, o).Some? ==> HasAt(b, at, PutItem(s, o).value))
    ensures PutItem(s, o).Some? && TakeItem(b, at, s) == Ok(o, at + |PutItem(s, o).value|)
  {
    hide Vi.Take, Vi.Encode, Vi.Len, PutBody, TakeBody, Agrees;
    BodySome(s, o);
    var flags, body := Vi.Encode(o.flags), PutBody(s, o).value;
    HasBoth(b, at, flags, body);
    RoundTrip(b, at, o.flags);
    BodyRoundTrip(b, at + |flags|, s, o);
  }

  // ---- Whatever is taken agrees with the state ----

  /** A step fills in its own field, as agreed, and touches no other. */
  lemma StepSound(i: nat, b: seq<u8>, at: nat, s: Prior, o: Item)
    requires i < STEPS && TakeStep(i, b, at, s, o).Ok?
    ensures var p := TakeStep(i, b, at, s, o).value;
            && p.flags == o.flags && FieldAgrees(i, s, p)
            && (i != 1 ==> p.group == o.group) && (i != 3 ==> p.obj == o.obj)
            && (i != 2 ==> p.hasSubgroup == o.hasSubgroup && p.subgroup == o.subgroup)
            && (i != 4 ==> p.priority == o.priority)
            && (i != 5 ==> p.hasProps == o.hasProps && p.props == o.props)
            && (i != 6 ==> p.payload == o.payload)
            && (|o.props| <= U64_MAX ==> |p.props| <= U64_MAX) && (|o.payload| <= U64_MAX ==> |p.payload| <= U64_MAX)
  {
    hide Vi.Take, HasGroup, HasObject, HasPriority, HasProps, IsDatagram;
  }

  lemma FieldKept(i: nat, j: nat, b: seq<u8>, at: nat, s: Prior, o: Item)
    requires j < i < STEPS && TakeStep(i, b, at, s, o).Ok? && FieldAgrees(j, s, o)
    ensures FieldAgrees(j, s, TakeStep(i, b, at, s, o).value)
  {
    hide Vi.Take, HasGroup, HasObject, HasPriority, HasProps, IsDatagram, TakeStep;
    StepSound(i, b, at, s, o);
  }

  lemma {:induction false} StepsSound(i: nat, b: seq<u8>, at: nat, s: Prior, o: Item)
    requires i <= STEPS && TakeSteps(i, b, at, s, o).Ok? && Sized(o)
    requires forall j :: 0 <= j < i ==> FieldAgrees(j, s, o)
    ensures var p := TakeSteps(i, b, at, s, o).value;
            p.flags == o.flags && Sized(p) && ObjectAgrees(s, p)
    decreases STEPS - i
  {
    hide TakeStep, FieldAgrees;
    if i < STEPS {
      var t := TakeStep(i, b, at, s, o);
      StepSound(i, b, at, s, o);
      forall j | 0 <= j <= i ensures FieldAgrees(j, s, t.value) {
        if j < i {
          FieldKept(i, j, b, at, s, o);
        }
      }
      StepsSound(i + 1, b, t.at, s, t.value);
    }
  }

  lemma RangeSound(s: Prior, gd: u64, od: u64, o: Item)
    requires ResolveRange(s, gd, od).Some? && o == Blank(o.flags)
    ensures var (g, v) := ResolveRange(s, gd, od).value; RangeAgrees(s, o.(group := g, obj := v))
  {
  }

  /** Whatever the bytes, an item that decodes agrees with the state: so a
      round trip succeeds exactly for items that do. */
  lemma TakeAgrees(b: seq<u8>, at: nat, s: Prior)
    requires TakeItem(b, at, s).Ok?
    ensures Agrees(s, TakeItem(b, at, s).value)
  {
    hide Vi.Take, TakeSteps, ObjectAgrees, ResolveRange, RangeAgrees;
    var (flags, next) := Vi.Take(b, at).value;
    match KindOf(flags, s)
    case ObjectKind => StepsSound(0, b, next, s, Blank(flags));
    case RangeKind =>
      var (gd, mid) := Vi.Take(b, next).value;
      var (od, _) := Vi.Take(b, mid).value;
      RangeSound(s, gd, od, Blank(flags));
    case EndKind =>
  }

  // ---- More input changes nothing already decided ----

  lemma BytesStable(b: seq<u8>, x: seq<u8>, at: nat)
    requires TakeBytes(b, at).Ok?
    ensures TakeBytes(b + x, at) == TakeBytes(b, at)
  {
    hide Vi.Take;
    TakeStable(b, x, at);
    var (n, next) := Vi.Take(b, at).value;
    assert (b + x)[next..next + n] == b[next..next + n];
  }

  lemma StepStable(i: nat, b: seq<u8>, x: seq<u8>, at: nat, s: Prior, o: Item)
    requires i < STEPS && !TakeStep(i, b, at, s, o).Insufficient?
    ensures TakeStep(i, b + x, at, s, o) == TakeStep(i, b, at, s, o)
  {
    hide Vi.Take, TakeBytes, HasGroup, HasObject, HasPriority, HasProps, IsDatagram, ResolveGroup, ResolveObject;
    if Vi.Take(b, at).Some? {
      TakeStable(b, x, at);
    }
    if TakeBytes(b, at).Ok? {
      BytesStable(b, x, at);
    }
    BytesNoViolation(b, at);
  }

  lemma BytesNoViolation(b: seq<u8>, at: nat)
    ensures !TakeBytes(b, at).Violation?
  {
  }

  lemma {:induction false} StepsStable(i: nat, b: seq<u8>, x: seq<u8>, at: nat, s: Prior, o: Item)
    requires i <= STEPS && !TakeSteps(i, b, at, s, o).Insufficient?
    ensures TakeSteps(i, b + x, at, s, o) == TakeSteps(i, b, at, s, o)
    decreases STEPS - i
  {
    hide TakeStep;
    if i < STEPS {
      StepStable(i, b, x, at, s, o);
      var t := TakeStep(i, b, at, s, o);
      if t.Ok? {
        StepsStable(i + 1, b, x, t.at, s, t.value);
      }
    }
  }

  /** A decoded item or a violation stays what it is whatever follows. */
  lemma ItemStable(b: seq<u8>, x: seq<u8>, at: nat, s: Prior)
    requires !TakeItem(b, at, s).Insufficient?
    ensures TakeItem(b + x, at, s) == TakeItem(b, at, s)
  {
    hide Vi.Take, TakeSteps, ResolveRange;
    TakeStable(b, x, at);
    var (flags, next) := Vi.Take(b, at).value;
    match KindOf(flags, s)
    case ObjectKind => StepsStable(0, b, x, next, s, Blank(flags));
    case RangeKind =>
      TakeStable(b, x, next);
      TakeStable(b, x, Vi.Take(b, next).value.1);
    case EndKind =>
    case NoKind =>
  }
}
