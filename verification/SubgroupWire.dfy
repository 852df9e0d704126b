/** A subgroup stream byte by byte: where each field lies, and what it stands for. */
module SubgroupWire {
  import opened Options
  import opened Bytes
  import opened Parsing
  import opened Seqs
  import opened Varint
  import opened SubgroupSpec
  import opened SubgroupStream
  import opened SubgroupHeader

  // ---- Objects ----

  /** An Object a stream can carry: a status stands in for an empty payload, and
      properties only come with a stream that has them and no other status than
      Normal. */
  predicate Legal(c: Chain, o: Obj) {
    && (c.prev.Some? ==> c.prev.value < o.id) && |o.payload| <= U64_MAX && |o.props| <= U64_MAX
    && (o.status == 0 || o.status == 3 || o.status == 4) && (o.payload != [] ==> o.status == 0)
    && (o.props != [] ==> c.hasProps && o.status == 0)
  }

  function IdField(c: Chain, o: Obj): seq<u8>
    requires Legal(c, o)
  {
    if c.prev.None? then Encode(o.id) else Encode(o.id - c.prev.value - 1)
  }

  function PropsField(c: Chain, o: Obj): seq<u8>
    requires Legal(c, o)
  {
    if c.hasProps then Encode(|o.props|) + o.props else []
  }

  function PayloadField(c: Chain, o: Obj): seq<u8>
    requires Legal(c, o)
  {
    Encode(|o.payload|) + if o.payload == [] then Encode(o.status) else o.payload
  }

  /** An Object on the wire. */
  function ObjBytes(c: Chain, o: Obj): seq<u8>
    requires Legal(c, o)
  {
    IdField(c, o) + (PropsField(c, o) + PayloadField(c, o))
  }

  lemma IdReads(b: seq<u8>, at: nat, c: Chain, o: Obj)
    requires Legal(c, o) && HasAt(b, at, IdField(c, o))
    ensures TakeId(b, at, c.prev) == Ok(o.id, at + |IdField(c, o)|)
  {
    hide Take, Encode, Len;
    RoundTrip(b, at, if c.prev.None? then o.id else o.id - c.prev.value - 1);
  }

  lemma PropsReads(b: seq<u8>, at: nat, c: Chain, o: Obj)
    requires Legal(c, o) && HasAt(b, at, PropsField(c, o))
    ensures TakeProps(b, at, c.hasProps) == Ok(o.props, at + |PropsField(c, o)|)
  {
    hide Take, Encode, Len;
    if c.hasProps {
      HasBoth(b, at, Encode(|o.props|), o.props);
      RoundTrip(b, at, |o.props|);
      BytesAt(b, at + |Encode(|o.props|)|, o.props);
    }
  }

  lemma PayloadReads(b: seq<u8>, at: nat, c: Chain, o: Obj)
    requires Legal(c, o) && HasAt(b, at, PayloadField(c, o))
    ensures TakeRest(b, at, o.id, o.props) == Ok(o, at + |PayloadField(c, o)|)
  {
    hide Take, Encode, Len, HasAt;
    var n := Encode(|o.payload|);
    HasBoth(b, at, n, if o.payload == [] then Encode(o.status) else o.payload);
    RoundTrip(b, at, |o.payload|);
    if o.payload == [] {
      RoundTrip(b, at + |n|, o.status);
    } else {
      BytesAt(b, at + |n|, o.payload);
    }
  }

  /** An Object is read from these bytes, properties and all. */
  lemma ObjReads(b: seq<u8>, at: nat, c: Chain, o: Obj)
    requires Legal(c, o) && HasAt(b, at, ObjBytes(c, o))
    ensures TakeObj(b, at, c) == Ok(o, at + |ObjBytes(c, o)|)
  {
    hide Legal, IdField, PropsField, PayloadField, TakeId, TakeProps, TakeRest, HasAt;
    var i, p := IdField(c, o), PropsField(c, o);
    HasBoth(b, at, i, p + PayloadField(c, o));
    HasBoth(b, at + |i|, p, PayloadField(c, o));
    IdReads(b, at, c, o);
    PropsReads(b, at + |i|, c, o);
    PayloadReads(b, at + |i| + |p|, c, o);
  }

  /** An ID past 2^64 - 1 is refused, and so is a status other than 0, 3 and 4, or
      one beside properties. */
  lemma ObjRefused(b: seq<u8>, at: nat, c: Chain, delta: u64, props: seq<u8>, status: u64)
    requires |props| <= U64_MAX && (props != [] ==> c.hasProps)
    requires HasAt(b, at, Encode(delta) + ((if c.hasProps then Encode(|props|) + props else []) + (Encode(0) + Encode(status))))
    ensures c.prev.Some? && c.prev.value + delta + 1 > 0xFFFF_FFFF_FFFF_FFFF ==> TakeObj(b, at, c) == Violation(DeltaOverflow)
    ensures !(c.prev.Some? && c.prev.value + delta + 1 > 0xFFFF_FFFF_FFFF_FFFF)
            && ((status != 0 && status != 3 && status != 4) || (props != [] && status != 0)) ==>
              TakeObj(b, at, c) == Violation(BadStatus)
  {
    hide Take, Encode, Len, HasAt, TakeBytes;
    var d, p := Encode(delta), if c.hasProps then Encode(|props|) + props else [];
    HasBoth(b, at, d, p + (Encode(0) + Encode(status)));
    HasBoth(b, at + |d|, p, Encode(0) + Encode(status));
    HasBoth(b, at + |d| + |p|, Encode(0), Encode(status));
    RoundTrip(b, at, delta);
    RoundTrip(b, at + |d| + |p|, 0);
    RoundTrip(b, at + |d| + |p| + |Encode(0)|, status);
    if c.hasProps {
      HasBoth(b, at + |d|, Encode(|props|), props);
      RoundTrip(b, at + |d|, |props|);
      BytesAt(b, at + |d| + |Encode(|props|)|, props);
    }
  }

  // ---- Headers ----

  /** The types a header may have: bit 0x10 set, 0x80 not, and not both bits of the
      Subgroup ID mode. */
  predicate LegalType(t: u64) {
    t / 0x80 % 2 == 0 && t / 0x10 % 2 == 1 && t / 2 % 4 != 3
  }

  /** A header on the wire: the Subgroup ID where the mode is 2, the priority where
      bit 0x20 does not leave it out. */
  function HeaderBytes(typ: u64, alias: u64, group: u64, subgroup: u64, priority: u8): seq<u8> {
    var sg := if typ / 2 % 4 == 2 then Encode(subgroup) else [];
    var pr := if typ / 0x20 % 2 == 1 then [] else [priority];
    Encode(typ) + (Encode(alias) + (Encode(group) + (sg + pr)))
  }

  /** A header is read from these bytes; what its type leaves out is 0. */
  lemma HeaderReads(b: seq<u8>, at: nat, typ: u64, alias: u64, group: u64, subgroup: u64, priority: u8)
    requires LegalType(typ) && HasAt(b, at, HeaderBytes(typ, alias, group, subgroup, priority))
    ensures var h := Header(typ, alias, group, if typ / 2 % 4 == 2 then subgroup else 0, typ / 2 % 4 == 1,
                            if typ / 0x20 % 2 == 1 then 0 else priority);
            TakeHeader(b, at) == Ok(h, at + |HeaderBytes(typ, alias, group, subgroup, priority)|)
  {
    hide Take, Encode, Len, HasAt, TakeHeader;
    var h := Header(typ, alias, group, if typ / 2 % 4 == 2 then subgroup else 0, typ / 2 % 4 == 1,
                    if typ / 0x20 % 2 == 1 then 0 else priority);
    assert Fitting(h) && PutHeader(h) == HeaderBytes(typ, alias, group, subgroup, priority);
    HeaderRoundTrip(b, at, h);
  }

  /** Any other type is refused. */
  lemma TypeRefused(b: seq<u8>, at: nat, typ: u64)
    requires !LegalType(typ) && HasAt(b, at, Encode(typ))
    ensures TakeHeader(b, at) == Violation(BadHeader)
  {
    hide Take, Encode, Len, HasAt;
    RoundTrip(b, at, typ);
  }

  // ---- Enough bytes ----

  lemma VarintComes(b: seq<u8>, at: nat)
    requires at + 9 <= |b|
    ensures Take(b, at).Some? && Take(b, at).value.1 <= at + 9
  {
    HdrLenRange(b[at]);
  }

  /** Whatever the bytes are, once there are enough of them an Object is read or
      refused. */
  lemma ObjComes(b: seq<u8>, at: nat, c: Chain)
    requires at + 36 + 2 * 0xFFFF_FFFF_FFFF_FFFF <= |b|
    ensures !TakeObj(b, at, c).Insufficient?
  {
    hide Take;
    VarintComes(b, at);
    var at1 := Take(b, at).value.1;
    VarintComes(b, at1);
    var (n, at2) := Take(b, at1).value;
    var rest := if c.hasProps then at2 + n else at1;
    VarintComes(b, rest);
    VarintComes(b, Take(b, rest).value.1);
  }

  /** A header is at most 37 bytes. */
  lemma HeaderComes(b: seq<u8>, at: nat)
    requires at + 37 <= |b|
    ensures !TakeHeader(b, at).Insufficient?
  {
    hide Take;
    VarintComes(b, at);
    var at1 := Take(b, at).value.1;
    VarintComes(b, at1);
    var at2 := Take(b, at1).value.1;
    VarintComes(b, at2);
    VarintComes(b, Take(b, at2).value.1);
  }
}
