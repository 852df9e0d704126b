/** A decoder looks only at the bytes it takes. */
module ParamLocal {
  import opened Bytes
  import opened Locations
  import opened Varint
  import opened ParamWire
  import opened Params

  /** s and r begin with the same n bytes. */
  predicate Starts(s: seq<u8>, r: seq<u8>, n: nat) {
    n <= |s| && n <= |r| && s[..n] == r[..n]
  }

  lemma StartsSplit(s: seq<u8>, r: seq<u8>, n: nat, i: nat)
    requires Starts(s, r, n) && i <= n
    ensures Starts(s, r, i) && Starts(s[i..], r[i..], n - i)
  {
    assert s[..i] == s[..n][..i] && r[..i] == r[..n][..i];
    assert s[i..][..n - i] == s[..n][i..] && r[i..][..n - i] == r[..n][i..];
  }

  lemma ViLocal(s: seq<u8>, r: seq<u8>)
    requires TakeVi(s).Got? && Starts(s, r, TakeVi(s).n)
    ensures TakeVi(r) == TakeVi(s)
  {
    var n := TakeVi(s).n;
    HdrLenRange(s[0]);
    assert s[0] == s[..n][0] == r[0];
    assert s[0..n] == s[..n] && r[0..n] == r[..n];
  }

  lemma DeltaLocal(s: seq<u8>, r: seq<u8>, base: u64)
    requires TakeDelta(s, base).Got? && Starts(s, r, TakeDelta(s, base).n)
    ensures TakeDelta(r, base) == TakeDelta(s, base)
  {
    ViLocal(s, r);
  }

  lemma BlockLocal(s: seq<u8>, r: seq<u8>)
    requires TakeBlock(s).Got? && Starts(s, r, TakeBlock(s).n)
    ensures TakeBlock(r) == TakeBlock(s)
  {
    var n, all := TakeVi(s).n, TakeBlock(s).n;
    StartsSplit(s, r, all, n);
    ViLocal(s, r);
  }

  lemma LocLocal(s: seq<u8>, r: seq<u8>)
    requires TakeLoc(s).Got? && Starts(s, r, TakeLoc(s).n)
    ensures TakeLoc(r) == TakeLoc(s)
  {
    hide TakeVi;
    var n, all := TakeVi(s).n, TakeLoc(s).n;
    StartsSplit(s, r, all, n);
    ViLocal(s, r);
    ViLocal(s[n..], r[n..]);
  }

  lemma EndLocal(s: seq<u8>, r: seq<u8>, at: nat, l: Loc, ek: EndKind)
    requires at <= |s| && TakeEnd(s, at, l, ek).Got? && Starts(s, r, TakeEnd(s, at, l, ek).n)
    ensures TakeEnd(r, at, l, ek) == TakeEnd(s, at, l, ek)
  {
    hide TakeVi, TakeDelta;
    if ek != Unbounded {
      var all, n := TakeEnd(s, at, l, ek).n, TakeDelta(s[at..], l.group).n;
      StartsSplit(s, r, all, at);
      StartsSplit(s[at..], r[at..], all - at, n);
      DeltaLocal(s[at..], r[at..], l.group);
      if ek == EndObj {
        StartsSplit(s, r, all, at + n);
        ViLocal(s[at + n..], r[at + n..]);
      }
    }
  }

  lemma AbsLocal(s: seq<u8>, r: seq<u8>, at: nat, ek: EndKind)
    requires at <= |s| && TakeAbs(s, at, ek).Got? && Starts(s, r, TakeAbs(s, at, ek).n)
    ensures TakeAbs(r, at, ek) == TakeAbs(s, at, ek)
  {
    hide TakeLoc, TakeEnd;
    var all, l := TakeAbs(s, at, ek).n, TakeLoc(s[at..]);
    StartsSplit(s, r, all, at);
    StartsSplit(s[at..], r[at..], all - at, l.n);
    LocLocal(s[at..], r[at..]);
    EndLocal(s, r, at + l.n, l.v, ek);
  }

  lemma Range22Local(s: seq<u8>, r: seq<u8>)
    requires TakeRange22(s).Got? && Starts(s, r, TakeRange22(s).n)
    ensures TakeRange22(r) == TakeRange22(s)
  {
    hide TakeVi, TakeAbs;
    var n, all := TakeVi(s).n, TakeRange22(s).n;
    var t := TakeVi(s).v;
    StartsSplit(s, r, all, n);
    ViLocal(s, r);
    if t == 1 { ViLocal(s[n..], r[n..]); }
    if t == 2 { AbsLocal(s, r, n, Unbounded); }
    if t == 3 { AbsLocal(s, r, n, EndGroup); }
    if t == 4 { AbsLocal(s, r, n, EndObj); }
  }

  lemma NoFields(s: seq<u8>, total: nat)
    ensures TakeFields(s, 0, total) == if total > MAX_FTN_LEN then Bad(FieldTooLong) else Got(total, 0)
  {
  }

  lemma FirstField(s: seq<u8>, count: nat, total: nat)
    requires count > 0 && TakeFields(s, count, total).Got?
    ensures TakeVi(s).Got? && TakeVi(s).v != 0 && TakeVi(s).n + TakeVi(s).v <= |s|
    ensures var len, n := TakeVi(s).v, TakeVi(s).n;
            var rest := TakeFields(s[n + len..], count - 1, total + len);
            rest.Got? && TakeFields(s, count, total) == Got(rest.v, n + len + rest.n)
  {
    hide TakeVi;
  }

  lemma FieldThen(s: seq<u8>, count: nat, total: nat, len: u64, n: nat)
    requires count > 0 && TakeVi(s) == Got(len, n) && len != 0 && n + len <= |s|
    requires TakeFields(s[n + len..], count - 1, total + len).Got?
    ensures var rest := TakeFields(s[n + len..], count - 1, total + len);
            TakeFields(s, count, total) == Got(rest.v, n + len + rest.n)
  {
    hide TakeVi;
  }

  lemma {:induction false} FieldsLocal(s: seq<u8>, r: seq<u8>, count: nat, total: nat)
    requires TakeFields(s, count, total).Got? && Starts(s, r, TakeFields(s, count, total).n)
    ensures TakeFields(r, count, total) == TakeFields(s, count, total)
    decreases count
  {
    hide TakeVi, Starts, TakeFields;
    if count == 0 {
      NoFields(s, total);
      NoFields(r, total);
    } else {
      FirstField(s, count, total);
      var all := TakeFields(s, count, total).n;
      var len, n := TakeVi(s).v, TakeVi(s).n;
      StartsSplit(s, r, all, n);
      ViLocal(s, r);
      StartsSplit(s, r, all, n + len);
      FieldsLocal(s[n + len..], r[n + len..], count - 1, total + len);
      FieldThen(r, count, total, len, n);
    }
  }

  lemma NsLocal(s: seq<u8>, r: seq<u8>)
    requires TakeNs(s).Got? && Starts(s, r, TakeNs(s).n)
    ensures TakeNs(r) == TakeNs(s)
  {
    hide TakeVi, TakeFields;
    var n, all := TakeVi(s).n, TakeNs(s).n;
    StartsSplit(s, r, all, n);
    ViLocal(s, r);
    FieldsLocal(s[n..], r[n..], TakeVi(s).v, 0);
  }

  lemma DirectLocal(enc: Enc, s: seq<u8>, r: seq<u8>)
    requires enc != Fill23Enc && !Prefixed(enc) && TakeDirect(enc, s).Got? && Starts(s, r, TakeDirect(enc, s).n)
    ensures TakeDirect(enc, r) == TakeDirect(enc, s)
  {
    hide TakeVi, TakeLoc, TakeBlock, TakeNs, TakeRange22;
    match enc
    case UInt8Enc => assert s[0] == s[..1][0] == r[..1][0];
    case VarIntEnc => ViLocal(s, r);
    case LocationEnc => LocLocal(s, r);
    case BytesEnc => BlockLocal(s, r);
    case NsEnc => NsLocal(s, r);
    case RangeLoc22Enc => Range22Local(s, r);
  }

  lemma PrefixedLocal(enc: Enc, s: seq<u8>, r: seq<u8>)
    requires Prefixed(enc) && TakePrefixed(enc, s).Got? && Starts(s, r, TakePrefixed(enc, s).n)
    ensures TakePrefixed(enc, r) == TakePrefixed(enc, s)
  {
    hide TakeBlock, ParseBlock;
    BlockLocal(s, r);
  }

  lemma {:induction false} ValueLocal(ver: Ver, ctx: Scopes, enc: Enc, s: seq<u8>, r: seq<u8>)
    requires enc == Fill23Enc ==> Depth(ver, ctx) == 1
    requires TakeValue(ver, ctx, enc, s).Got? && Starts(s, r, TakeValue(ver, ctx, enc, s).n)
    ensures TakeValue(ver, ctx, enc, r) == TakeValue(ver, ctx, enc, s)
    decreases Depth(ver, ctx), 0, 0
  {
    hide TakeDirect, TakePrefixed, TakeParams;
    if enc == Fill23Enc {
      FetchIsFlat();
      ParamsLocal(D23, FETCH, s, r);
    } else if Prefixed(enc) {
      PrefixedLocal(enc, s, r);
    } else {
      DirectLocal(enc, s, r);
    }
  }

  /** FETCH lists hold no lists, so decoding ends. */
  lemma FetchIsFlat()
    ensures Depth(D23, FETCH) == 0
  {
  }

  lemma {:induction false} OneLocal(ver: Ver, ctx: Scopes, s: seq<u8>, r: seq<u8>, prev: u64, sofar: seq<Param>)
    requires TakeOne(ver, ctx, s, prev, sofar).Got? && Starts(s, r, TakeOne(ver, ctx, s, prev, sofar).n)
    ensures TakeOne(ver, ctx, r, prev, sofar) == TakeOne(ver, ctx, s, prev, sofar)
    decreases Depth(ver, ctx), 1, 0
  {
    hide TakeDelta, TakeValue, Admitted, ValueAllowed, Selected;
    var all := TakeOne(ver, ctx, s, prev, sofar).n;
    var typ, n := TakeDelta(s, prev).v, TakeDelta(s, prev).n;
    StartsSplit(s, r, all, n);
    DeltaLocal(s, r, prev);
    ValueLocal(ver, ctx, Selected(ver, ctx, sofar, typ), s[n..], r[n..]);
  }

  lemma {:induction false} LoopLocal(
    ver: Ver, ctx: Scopes, s: seq<u8>, r: seq<u8>, count: nat, prev: u64, sofar: seq<Param>)
    requires TakeLoop(ver, ctx, s, count, prev, sofar).Got?
    requires Starts(s, r, TakeLoop(ver, ctx, s, count, prev, sofar).n)
    ensures TakeLoop(ver, ctx, r, count, prev, sofar) == TakeLoop(ver, ctx, s, count, prev, sofar)
    decreases Depth(ver, ctx), 2, count
  {
    hide TakeOne;
    if count > 0 {
      var all := TakeLoop(ver, ctx, s, count, prev, sofar).n;
      var one := TakeOne(ver, ctx, s, prev, sofar);
      StartsSplit(s, r, all, one.n);
      OneLocal(ver, ctx, s, r, prev, sofar);
      LoopLocal(ver, ctx, s[one.n..], r[one.n..], count - 1, one.v.typ, sofar + [one.v]);
    }
  }

  lemma {:induction false} ParamsLocal(ver: Ver, ctx: Scopes, s: seq<u8>, r: seq<u8>)
    requires TakeParams(ver, ctx, s).Got? && Starts(s, r, TakeParams(ver, ctx, s).n)
    ensures TakeParams(ver, ctx, r) == TakeParams(ver, ctx, s)
    decreases Depth(ver, ctx), 3, 0
  {
    hide TakeVi, TakeLoop, Flip;
    var all := TakeParams(ver, ctx, s).n;
    var count, n := TakeVi(s).v, TakeVi(s).n;
    StartsSplit(s, r, all, n);
    ViLocal(s, r);
    LoopLocal(ver, ctx, s[n..], r[n..], count, 0, []);
  }
}
