/** The loops that read, turn round and write a parameter list in place. */
module ParamBuffer {
  import opened Options
  import opened Bytes
  import opened ByteBuffer
  import opened Seqs
  import opened Varint
  import opened ParamWire
  import opened Params

  /** Turns one type of parameter into another with the other value. */
  method FlipIn(items: array<Param>, n: nat, from: u64, to: u64)
    requires n <= items.Length
    modifies items
    ensures items[..n] == Flip(old(items[..n]), from, to)
  {
    ghost var was := items[..n];
    for i := 0 to n
      invariant forall k :: 0 <= k < i ==> items[k] == Flipped(was[k], from, to)
      invariant forall k :: i <= k < n ==> items[k] == was[k]
    {
      items[i] := Flipped(items[i], from, to);
    }
  }

  /** The same answer, counted from n bytes earlier. */
  function Shift<T>(g: Got<T>, n: nat): Got<T> {
    match g
    case Got(v, m) => Got(v, n + m)
    case Short => Short
    case Bad(c) => Bad(c)
  }

  lemma LoopStep(ver: Ver, ctx: Scopes, s: seq<u8>, at: nat, count: nat, prev: u64, sofar: seq<Param>)
    requires at <= |s|
    ensures var t := TakeLoop(ver, ctx, s[at..], count, prev, sofar);
      if count == 0 then t == Got(sofar, 0)
      else if |sofar| >= MAX_PARAMS then t == Bad(Malformed)
      else
        match TakeOne(ver, ctx, s[at..], prev, sofar)
        case Short => t == Short
        case Bad(c) => t == Bad(c)
        case Got(p, n) =>
          at + n <= |s| && t == Shift(TakeLoop(ver, ctx, s[at + n..], count - 1, p.typ, sofar + [p]), n)
  {
    hide TakeOne;
    var one := TakeOne(ver, ctx, s[at..], prev, sofar);
    if one.Got? { assert s[at..][one.n..] == s[at + one.n..]; }
  }

  /** Reads count parameters into items, one after the other. */
  method ReadLoop(ver: Ver, ctx: Scopes, s: seq<u8>, count: nat, items: array<Param>) returns (r: Got<nat>)
    requires items.Length == MAX_PARAMS
    modifies items
    ensures var t := TakeLoop(ver, ctx, s, count, 0, []);
      match r
      case Got(n, taken) => n <= MAX_PARAMS && t == Got(items[..n], taken)
      case Short => t == Short
      case Bad(c) => t == Bad(c)
  {
    hide TakeOne, TakeLoop;
    var n, at, prev := 0, 0, 0;
    ghost var all := TakeLoop(ver, ctx, s, count, 0, []);
    assert s[0..] == s && items[..0] == [];
    for i := 0 to count
      invariant n == i <= MAX_PARAMS && 0 <= at <= |s| && 0 <= prev <= U64_MAX
      invariant all == Shift(TakeLoop(ver, ctx, s[at..], count - i, prev, items[..n]), at)
    {
      LoopStep(ver, ctx, s, at, count - i, prev, items[..n]);
      if n >= MAX_PARAMS {
        return Bad(Malformed);
      }
      match TakeOne(ver, ctx, s[at..], prev, items[..n])
      case Short => return Short;
      case Bad(c) => return Bad(c);
      case Got(p, m) =>
        ghost var before := items[..n];
        items[n] := p;
        assert items[..n + 1] == before + [p];
        n, at, prev := n + 1, at + m, p.typ;
    }
    LoopStep(ver, ctx, s, at, 0, prev, items[..n]);
    return Got(n, at);
  }

  /** A whole list, PAUSED read as FORWARD. */
  method ReadList(ver: Ver, ctx: Scopes, s: seq<u8>, items: array<Param>) returns (r: Got<nat>)
    requires items.Length == MAX_PARAMS
    modifies items
    ensures match r
      case Got(n, taken) => n <= MAX_PARAMS && TakeParams(ver, ctx, s) == Got(items[..n], taken)
      case Short => TakeParams(ver, ctx, s) == Short
      case Bad(c) => TakeParams(ver, ctx, s) == Bad(c)
  {
    hide TakeLoop, TakeVi;
    match TakeVi(s)
    case Short => return Short;
    case Bad(c) => return Bad(c);
    case Got(count, n) =>
      var t := ReadLoop(ver, ctx, s[n..], count, items);
      match t
      case Short => return Short;
      case Bad(c) => return Bad(c);
      case Got(k, m) =>
        FlipIn(items, k, PAUSED, FORWARD);
        return Got(k, n + m);
  }

  /** One parameter: nothing when its type falls, it is never sent, or the
      buffer runs out. */
  method WriteOne(buf: array<u8>, off: nat, prev: u64, p: Param) returns (end: Option<nat>)
    requires off <= buf.Length && Writable(p.value)
    modifies buf
    ensures buf[..off] == old(buf[..off])
    ensures end.Some? <==> p.typ >= prev && PutValue(p.value).Some?
                           && off + |Encode(p.typ - prev)| + |PutValue(p.value).value| <= buf.Length
    ensures end.Some? ==> off <= end.value <= buf.Length
                          && buf[off..end.value] == Encode(p.typ - prev) + PutValue(p.value).value
  {
    hide Encode, Len, PutValue, Writable;
    if p.typ < prev {
      return None;
    }
    var v := PutValue(p.value);
    end := WriteTwo(buf, off, Encode(p.typ - prev), v);
  }

  method WriteTwo(buf: array<u8>, off: nat, d: seq<u8>, v: Option<seq<u8>>) returns (end: Option<nat>)
    requires off <= buf.Length
    modifies buf
    ensures buf[..off] == old(buf[..off])
    ensures end.Some? <==> v.Some? && off + |d| + |v.value| <= buf.Length
    ensures end.Some? ==> end.value == off + |d| + |v.value| && buf[off..end.value] == d + v.value
  {
    var ok := PutAt(buf, off, d);
    if !ok || v.None? {
      return None;
    }
    ghost var was := buf[..];
    ok := PutAt(buf, off + |d|, v.value);
    Grown(was, buf[..], off, off + |d|, if ok then off + |d| + |v.value| else off + |d|);
    return if ok then Some(off + |d| + |v.value|) else None;
  }

  lemma PutStep(ps: seq<Param>, i: nat, prev: u64)
    requires i < |ps| && AllWritable(ps)
    ensures Writable(ps[i].value) && AllWritable(ps[i..]) && AllWritable(ps[i + 1..])
    ensures var p, all := ps[i], PutLoop(ps[i..], prev);
      if p.typ >= prev && PutValue(p.value).Some? && PutLoop(ps[i + 1..], p.typ).Some? then
        all == Some(Encode(p.typ - prev) + PutValue(p.value).value + PutLoop(ps[i + 1..], p.typ).value)
      else all.None?
  {
    hide Encode, Len, PutValue, Writable, AllWritable, PutLoop;
    WritableFrom(ps, i);
    assert ps[i..][1..] == ps[i + 1..];
    PutHead(ps[i..], prev);
  }

  lemma PutHead(ps: seq<Param>, prev: u64)
    requires ps != [] && AllWritable(ps) && Writable(ps[0].value) && AllWritable(ps[1..])
    ensures var p, rest := ps[0], PutLoop(ps[1..], ps[0].typ);
      if p.typ >= prev && PutValue(p.value).Some? && rest.Some? then
        PutLoop(ps, prev) == Some(Encode(p.typ - prev) + PutValue(p.value).value + rest.value)
      else PutLoop(ps, prev).None?
  {
    hide Encode, Len, PutValue, Writable, AllWritable;
  }

  lemma WritableFrom(ps: seq<Param>, i: nat)
    requires i < |ps| && AllWritable(ps)
    ensures Writable(ps[i].value) && AllWritable(ps[i..]) && AllWritable(ps[i + 1..])
  {
    hide Writable;
  }

  /** b[off..at] and what is still to be written make up all. */
  predicate Written(b: seq<u8>, off: nat, at: nat, prev: u64, ps: seq<Param>, i: nat, all: Option<seq<u8>>) {
    && off <= at <= |b| && i <= |ps| && AllWritable(ps[i..])
    && (all.Some? <==> PutLoop(ps[i..], prev).Some?)
    && (all.Some? ==> all.value == b[off..at] + PutLoop(ps[i..], prev).value)
  }

  lemma WrittenNext(
    was: seq<u8>, now: seq<u8>, off: nat, at: nat, end: nat, prev: u64, ps: seq<Param>, i: nat, all: Option<seq<u8>>)
    requires AllWritable(ps) && i < |ps| && Written(was, off, at, prev, ps, i, all)
    requires at <= end <= |now| && now[..at] == was[..at]
    requires Writable(ps[i].value) && prev <= ps[i].typ && PutValue(ps[i].value).Some?
    requires now[at..end] == Encode(ps[i].typ - prev) + PutValue(ps[i].value).value
    ensures Written(now, off, end, ps[i].typ, ps, i + 1, all)
  {
    hide Encode, Len, PutValue, Writable, PutLoop, AllWritable;
    PutStep(ps, i, prev);
    Grown(was, now, off, at, end);
    if all.Some? { Assoc(was[off..at], now[at..end], PutLoop(ps[i + 1..], ps[i].typ).value); }
  }

  lemma TooLong(b: seq<u8>, off: nat, at: nat, prev: u64, ps: seq<Param>, i: nat, all: Option<seq<u8>>)
    requires AllWritable(ps) && i < |ps| && Written(b, off, at, prev, ps, i, all) && all.Some?
    ensures Writable(ps[i].value) && prev <= ps[i].typ && PutValue(ps[i].value).Some?
    ensures off + |all.value| >= at + |Encode(ps[i].typ - prev)| + |PutValue(ps[i].value).value|
  {
    hide Encode, Len, PutValue, Writable, PutLoop, AllWritable;
    PutStep(ps, i, prev);
  }

  method WriteLoop(buf: array<u8>, off: nat, ps: seq<Param>) returns (end: Option<nat>)
    requires off <= buf.Length && AllWritable(ps)
    modifies buf
    ensures buf[..off] == old(buf[..off])
    ensures end.Some? <==> PutLoop(ps, 0).Some? && off + |PutLoop(ps, 0).value| <= buf.Length
    ensures end.Some? ==> off <= end.value <= buf.Length && buf[off..end.value] == PutLoop(ps, 0).value
  {
    hide Encode, Len, PutValue, Writable, PutLoop, AllWritable, Written;
    var at, prev := off, 0;
    ghost var all := PutLoop(ps, 0);
    WrittenNone(buf[..], off, ps);
    for i := 0 to |ps|
      invariant off <= at <= buf.Length && buf[..off] == old(buf[..off]) && 0 <= prev <= U64_MAX
      invariant Written(buf[..], off, at, prev, ps, i, all)
    {
      ghost var was := buf[..];
      if all.Some? { TooLong(was, off, at, prev, ps, i, all); }
      WritableFrom(ps, i);
      var e := WriteOne(buf, at, prev, ps[i]);
      if e.None? {
        Grown(was, buf[..], off, at, at);
        return None;
      }
      Grown(was, buf[..], off, at, e.value);
      WrittenNext(was, buf[..], off, at, e.value, prev, ps, i, all);
      at, prev := e.value, ps[i].typ;
    }
    WrittenAll(buf[..], off, at, prev, ps, all);
    return Some(at);
  }

  lemma WrittenNone(b: seq<u8>, off: nat, ps: seq<Param>)
    requires off <= |b| && AllWritable(ps)
    ensures Written(b, off, off, 0, ps, 0, PutLoop(ps, 0))
  {
    hide AllWritable, PutLoop;
    assert ps[0..] == ps && b[off..off] == [];
  }

  lemma WrittenAll(b: seq<u8>, off: nat, at: nat, prev: u64, ps: seq<Param>, all: Option<seq<u8>>)
    requires Written(b, off, at, prev, ps, |ps|, all)
    ensures off <= at <= |b| && all == Some(b[off..at])
  {
    assert ps[|ps|..] == [];
    assert b[off..at] + [] == b[off..at];
  }

  /** A list written to buf[off..], or nothing that counts. */
  method WriteList(buf: array<u8>, off: nat, ps: seq<Param>) returns (end: Option<nat>)
    requires off <= buf.Length && AllWritable(ps) && |ps| <= U64_MAX
    modifies buf
    ensures buf[..off] == old(buf[..off])
    ensures end.Some? <==> PutParams(ps).Some? && off + |PutParams(ps).value| <= buf.Length
    ensures end.Some? ==> off <= end.value <= buf.Length && buf[off..end.value] == PutParams(ps).value
  {
    hide Encode, Len, PutLoop, AllWritable;
    var n := Encode(|ps|);
    var ok := PutAt(buf, off, n);
    if !ok {
      return None;
    }
    ghost var first := buf[..off + |n|];
    var e := WriteLoop(buf, off + |n|, ps);
    if e.None? {
      return None;
    }
    Grown(first, buf[..], off, off + |n|, e.value);
    return e;
  }
}
