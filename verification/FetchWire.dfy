/** A fetch stream byte by byte: where each field lies, and what it stands for. */
module FetchWire {
  import opened Options
  import opened Bytes
  import opened Parsing
  import Vi = Varint
  import opened Varint
  import opened FetchSpec
  import opened FetchProofs

  predicate Bit(flags: u64, mask: nat)
    requires mask > 0
  {
    flags / mask % 2 == 1
  }

  /** An Object whose flags leave out only what the prior Object already says. */
  predicate Says(s: Prior, o: Item) {
    && o.flags < 0x80 && |o.props| <= U64_MAX && |o.payload| <= U64_MAX
    && (s.haveLoc || (Bit(o.flags, 0x08) && Bit(o.flags, 0x04)))
    && (!Bit(o.flags, 0x08) ==> o.group == s.group)
    && (Bit(o.flags, 0x08) && s.haveLoc ==> if s.descending then o.group < s.group else o.group > s.group)
    && (if Bit(o.flags, 0x40) then !o.hasSubgroup && o.subgroup == 0
        else
          && o.hasSubgroup && (o.flags % 4 == 0 ==> o.subgroup == 0)
          && (o.flags % 4 == 1 ==> s.haveSubgroup && o.subgroup == s.subgroup)
          && (o.flags % 4 == 2 ==> s.haveSubgroup && o.subgroup == s.subgroup + 1))
    && (!Bit(o.flags, 0x04) ==> o.obj == s.obj + 1)
    && (Bit(o.flags, 0x04) && !Bit(o.flags, 0x08) && s.haveLoc ==> o.obj >= s.obj + if s.d23 then 2 else 0)
    && (if Bit(o.flags, 0x10) then o.priority <= 255 else s.havePriority && o.priority == s.priority)
    && o.hasProps == Bit(o.flags, 0x20) && (!o.hasProps ==> o.props == [])
  }

  lemma SaysIff(s: Prior, o: Item)
    requires o.flags < 0x80
    ensures Says(s, o) <==> Agrees(s, o)
  {
    if Agrees(s, o) {
      assert FieldAgrees(0, s, o) && FieldAgrees(1, s, o) && FieldAgrees(2, s, o) && FieldAgrees(3, s, o)
          && FieldAgrees(4, s, o) && FieldAgrees(5, s, o);
    }
    if Says(s, o) {
      forall i | 0 <= i < STEPS ensures FieldAgrees(i, s, o) {}
    }
  }

  /** The Group, counted from the prior one the way the stream runs. */
  function GroupField(s: Prior, o: Item): seq<u8>
    requires Says(s, o)
  {
    if !Bit(o.flags, 0x08) then []
    else if !s.haveLoc then Encode(o.group)
    else if s.descending then Encode(s.group - o.group - 1)
    else Encode(o.group - s.group - 1)
  }

  function SubgroupField(o: Item): seq<u8> {
    if !Bit(o.flags, 0x40) && o.flags % 4 == 3 then Encode(o.subgroup) else []
  }

  /** The Object, on its own beside a Group, else counted from the prior one. */
  function ObjectField(s: Prior, o: Item): seq<u8>
    requires Says(s, o)
  {
    if !Bit(o.flags, 0x04) then []
    else if Bit(o.flags, 0x08) || !s.haveLoc then Encode(o.obj)
    else Encode(o.obj - s.obj - if s.d23 then 2 else 0)
  }

  function PriorityField(s: Prior, o: Item): seq<u8>
    requires Says(s, o)
  {
    if Bit(o.flags, 0x10) then [o.priority] else []
  }

  function PropsField(s: Prior, o: Item): seq<u8>
    requires Says(s, o)
  {
    if Bit(o.flags, 0x20) then Encode(|o.props|) + o.props else []
  }

  function PayloadField(s: Prior, o: Item): seq<u8>
    requires Says(s, o)
  {
    Encode(|o.payload|) + o.payload
  }

  function Fields(s: Prior, o: Item): (f: seq<seq<u8>>)
    requires Says(s, o)
    ensures |f| == 6
  {
    [GroupField(s, o), SubgroupField(o), ObjectField(s, o), PriorityField(s, o), PropsField(s, o), PayloadField(s, o)]
  }

  /** An Object on the wire. */
  function ObjectBytes(s: Prior, o: Item): seq<u8>
    requires Says(s, o)
  {
    var f := Fields(s, o);
    Encode(o.flags) + (f[0] + (f[1] + (f[2] + (f[3] + (f[4] + f[5])))))
  }

  lemma StepField(i: nat, s: Prior, o: Item)
    requires Says(s, o) && 1 <= i < STEPS
    ensures PutStep(i, s, o) == Some(Fields(s, o)[i - 1])
  {
    hide Vi.Encode, Vi.Len;
  }

  lemma PutIsBytes(s: Prior, o: Item)
    requires Says(s, o)
    ensures PutItem(s, o).Some? && PutItem(s, o).value == ObjectBytes(s, o)
  {
    var f := Fields(s, o);
    forall i | 1 <= i < STEPS ensures PutStep(i, s, o) == Some(f[i - 1]) { StepField(i, s, o); }
    assert PutStep(0, s, o) == Some([]);
    hide PutStep, Fields, Vi.Encode, Vi.Len, Says;
    StepsAre(s, o, f);
  }

  lemma StepsAre(s: Prior, o: Item, f: seq<seq<u8>>)
    requires Sized(o) && |f| == 6 && PutStep(0, s, o) == Some([])
    requires forall i :: 1 <= i < STEPS ==> PutStep(i, s, o) == Some(f[i - 1])
    ensures PutSteps(0, s, o) == Some(f[0] + (f[1] + (f[2] + (f[3] + (f[4] + f[5])))))
  {
    hide PutStep;
    assert PutSteps(6, s, o) == Some(f[5]) by { assert f[5] + [] == f[5]; }
    assert PutSteps(5, s, o) == Some(f[4] + f[5]);
    assert PutSteps(4, s, o) == Some(f[3] + (f[4] + f[5]));
    assert PutSteps(3, s, o) == Some(f[2] + (f[3] + (f[4] + f[5])));
    assert PutSteps(2, s, o) == Some(f[1] + (f[2] + (f[3] + (f[4] + f[5]))));
    var all := f[0] + (f[1] + (f[2] + (f[3] + (f[4] + f[5]))));
    assert PutSteps(1, s, o) == Some(all);
    assert [] + all == all;
  }

  /** An Object is read from these bytes, and this is what they stand for. */
  lemma ObjectReads(b: seq<u8>, at: nat, s: Prior, o: Item)
    requires Says(s, o) && HasAt(b, at, ObjectBytes(s, o))
    ensures TakeItem(b, at, s) == Ok(o, at + |ObjectBytes(s, o)|)
  {
    hide Says, ObjectBytes, TakeItem, PutItem, Agrees;
    SaysShort(s, o);
    SaysIff(s, o);
    PutIsBytes(s, o);
    ItemRoundTrip(b, at, s, o);
  }

  lemma SaysShort(s: Prior, o: Item)
    requires Says(s, o)
    ensures o.flags < 0x80 && Sized(o)
  {
  }

  // ---- Markers ----

  /** The draft of the stream has this End of Range. */
  predicate RangeFlags(s: Prior, flags: u64) {
    flags == 0x8C || flags == 0x10C || (flags == 0x20C && s.eorTimedOut) || (flags == 0x40C && s.d23)
  }

  /** The two fields of an End of Range at a Location: the Location itself, or from
      draft-23 on what it is past the prior one. */
  function RangeBytes(s: Prior, flags: u64, group: u64, obj: u64): seq<u8>
    requires s.d23 && s.haveLoc ==>
               && (if s.descending then group <= s.group else group >= s.group) && (group == s.group ==> obj > s.obj)
  {
    if !(s.d23 && s.haveLoc) then Encode(flags) + (Encode(group) + Encode(obj))
    else if group == s.group then Encode(flags) + (Encode(0) + Encode(obj - s.obj - 1))
    else Encode(flags) + (Encode(if s.descending then s.group - group else group - s.group) + Encode(obj))
  }

  /** An End of Range is read from these bytes. */
  lemma RangeReads(b: seq<u8>, at: nat, s: Prior, flags: u64, group: u64, obj: u64)
    requires RangeFlags(s, flags)
    requires s.d23 && s.haveLoc ==>
               && (if s.descending then group <= s.group else group >= s.group) && (group == s.group ==> obj > s.obj)
    requires HasAt(b, at, RangeBytes(s, flags, group, obj))
    ensures var o := Item(flags, group, obj, false, 0, 0, false, [], []);
            TakeItem(b, at, s) == Ok(o, at + |RangeBytes(s, flags, group, obj)|)
  {
    hide Vi.Encode, Vi.Len, TakeItem, HasAt;
    var o := Item(flags, group, obj, false, 0, 0, false, [], []);
    assert PutRange(s, o) == RangeBytes(s, flags, group, obj)[|Encode(flags)|..];
    assert Agrees(s, o) && PutItem(s, o) == Some(RangeBytes(s, flags, group, obj));
    ItemRoundTrip(b, at, s, o);
  }

  /** From draft-23 on a bare 0x80 or 0x81 ends the prior Group; nothing else from
      0x80 on is an item. */
  lemma MarkerReads(b: seq<u8>, at: nat, s: Prior, flags: u64)
    requires flags >= 0x80 && HasAt(b, at, Encode(flags))
    ensures (flags == 0x80 || flags == 0x81) && s.d23 && s.haveLoc ==>
              TakeItem(b, at, s) ==
              Ok(Item(flags, s.group, 0xFFFF_FFFF_FFFF_FFFF, false, 0, 0, false, [], []), at + |Encode(flags)|)
    ensures !RangeFlags(s, flags) && !((flags == 0x80 || flags == 0x81) && s.d23 && s.haveLoc) ==>
              TakeItem(b, at, s) == Violation(BadObject)
  {
    hide Vi.Encode, Vi.Len, Vi.Take, TakeRange;
    RoundTrip(b, at, flags);
  }

  // ---- What is refused ----

  /** The first item must give its Group and its Object. */
  lemma FirstRefused(b: seq<u8>, at: nat, s: Prior, flags: u64)
    requires flags < 0x80 && HasAt(b, at, Encode(flags))
    requires !s.haveLoc && !(Bit(flags, 0x08) && Bit(flags, 0x04))
    ensures TakeItem(b, at, s) == Violation(BadObject)
  {
    hide Vi.Encode, Vi.Len, Vi.Take;
    RoundTrip(b, at, flags);
  }

  /** A Group past 2^64 - 1, or below 0, is refused. */
  lemma GroupRefused(b: seq<u8>, at: nat, s: Prior, flags: u64, d: u64)
    requires flags < 0x80 && Bit(flags, 0x08) && s.haveLoc && HasAt(b, at, Encode(flags) + Encode(d))
    requires if s.descending then s.group - d - 1 < 0 else s.group + d + 1 > 0xFFFF_FFFF_FFFF_FFFF
    ensures TakeItem(b, at, s) == Violation(DeltaOverflow)
  {
    hide Vi.Encode, Vi.Len, Vi.Take, HasAt;
    HasBoth(b, at, Encode(flags), Encode(d));
    RoundTrip(b, at, flags);
    RoundTrip(b, at + |Encode(flags)|, d);
  }

  /** The most one field can take: a varint and the bytes it counts. */
  const FIELD_MAX: nat := 9 + 0xFFFF_FFFF_FFFF_FFFF

  lemma VarintComes(b: seq<u8>, at: nat)
    requires at + 9 <= |b|
    ensures Vi.Take(b, at).Some? && Vi.Take(b, at).value.1 <= at + 9
  {
    HdrLenRange(b[at]);
  }

  lemma StepComes(i: nat, b: seq<u8>, at: nat, s: Prior, o: Item)
    requires i < STEPS && at + FIELD_MAX <= |b|
    ensures !TakeStep(i, b, at, s, o).Insufficient?
    ensures TakeStep(i, b, at, s, o).Ok? ==> TakeStep(i, b, at, s, o).at <= at + FIELD_MAX
  {
    hide Vi.Take;
    VarintComes(b, at);
  }

  lemma {:induction false} StepsCome(i: nat, b: seq<u8>, at: nat, s: Prior, o: Item)
    requires i <= STEPS && at + (STEPS - i) * FIELD_MAX <= |b|
    ensures !TakeSteps(i, b, at, s, o).Insufficient?
    decreases STEPS - i
  {
    hide TakeStep;
    if i < STEPS {
      StepComes(i, b, at, s, o);
      var t := TakeStep(i, b, at, s, o);
      if t.Ok? { StepsCome(i + 1, b, t.at, s, t.value); }
    }
  }

  /** A decoder never waits for ever: whatever the bytes are, once there are enough
      of them the item is read or refused. */
  lemma NeverStuck(b: seq<u8>, at: nat, s: Prior)
    requires at + 8 * FIELD_MAX <= |b|
    ensures !TakeItem(b, at, s).Insufficient?
  {
    hide Vi.Take, TakeSteps;
    VarintComes(b, at);
    var (flags, next) := Vi.Take(b, at).value;
    StepsCome(0, b, next, s, Blank(flags));
    VarintComes(b, next);
    VarintComes(b, Vi.Take(b, next).value.1);
  }

  // ---- The state between items ----

  /** What the next item is counted from: an Object leaves all its fields, an End of
      Range its Location, an end marker the end of its Group. */
  lemma LeavesState(s: Prior, o: Item)
    ensures var n := Noted(s, o);
            && n.descending == s.descending && n.d23 == s.d23 && n.eorTimedOut == s.eorTimedOut
            && (o.flags < 0x80 ==>
                  && n.haveLoc && n.group == o.group && n.obj == o.obj
                  && n.haveSubgroup == o.hasSubgroup && n.subgroup == o.subgroup
                  && n.havePriority && n.priority == o.priority)
            && (RangeFlags(s, o.flags) ==> n == s.(haveLoc := true, group := o.group, obj := o.obj))
            && ((o.flags == 0x80 || o.flags == 0x81) && s.d23 ==> n == s.(obj := 0xFFFF_FFFF_FFFF_FFFF))
  {
  }
}
