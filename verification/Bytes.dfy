module Options {
  datatype Option<+T> = None | Some(value: T)
}

/** The source's fixed-width integers, over Dafny's unbounded ones, and the
    little-endian layout its structs have in memory. */
module Bytes {
  const U64_MAX: int := 0xFFFF_FFFF_FFFF_FFFF

  type u8 = x: int | 0 <= x < 0x100
  type u64 = x: int | 0 <= x <= 0xFFFF_FFFF_FFFF_FFFF

  /** Unsigned 64-bit arithmetic wraps around. */
  function Wrap(x: int): u64 {
    x % 0x1_0000_0000_0000_0000
  }

  function Min(a: int, b: int): int {
    if a < b then a else b
  }

  /** Byte i of v, counted from the least significant. */
  function ByteOf(v: nat, i: nat): u8 {
    if i == 0 then v % 256 else ByteOf(v / 256, i - 1)
  }

  /** 256 to the n. */
  function Pow256(n: nat): nat {
    if n == 0 then 1 else 256 * Pow256(n - 1)
  }

  /** The value of the little-endian bytes b[at..end]. */
  function FromLe(b: seq<u8>, at: nat, end: nat): (v: nat)
    requires at <= end <= |b|
    ensures v < Pow256(end - at)
    decreases end - at
  {
    if at == end then 0 else b[at] + 256 * FromLe(b, at + 1, end)
  }

  lemma {:induction false} FromLeOfBytes(b: seq<u8>, at: nat, end: nat, v: nat)
    requires at <= end <= |b| && v < Pow256(end - at)
    requires forall i :: 0 <= i < end - at ==> b[at + i] == ByteOf(v, i)
    ensures FromLe(b, at, end) == v
    decreases end - at
  {
    if at < end {
      assert b[at + 0] == ByteOf(v, 0);
      forall i | 0 <= i < end - at - 1 ensures b[at + 1 + i] == ByteOf(v / 256, i) {
        assert b[at + (i + 1)] == ByteOf(v, i + 1);
      }
      FromLeOfBytes(b, at + 1, end, v / 256);
    }
  }

  lemma Pow256OfField()
    ensures Pow256(8) == 0x1_0000_0000_0000_0000
  {
    assert Pow256(4) == 0x1_0000_0000;
  }
}

/** What taking a field off a byte string comes to. */
module Parsing {
  datatype Code = BadObject | BadStatus | BadHeader | DeltaOverflow

  datatype Taken<+T> = Ok(value: T, at: nat) | Insufficient | Violation(code: Code)
}

/** Writing into a caller's buffer. */
module ByteBuffer {
  import opened Bytes

  /** Copies bytes in at off, if they fit. */
  method PutAt(buf: array<u8>, off: nat, x: seq<u8>) returns (ok: bool)
    requires off <= buf.Length
    modifies buf
    ensures ok <==> off + |x| <= buf.Length
    ensures buf[..off] == old(buf[..off])
    ensures ok ==> buf[off..off + |x|] == x && buf[off + |x|..] == old(buf[off + |x|..])
  {
    if off + |x| > buf.Length {
      return false;
    }
    for k := 0 to |x|
      invariant buf[..off] == old(buf[..off])
      invariant buf[off..off + k] == x[..k] && buf[off + k..] == old(buf[off + k..])
    {
      buf[off + k] := x[k];
      assert buf[off + k + 1..] == old(buf[off + k..])[1..];
    }
    return true;
  }

  /** Slides n bytes from src down to dst, lowest first: the two may overlap. */
  method MoveDown(buf: array<u8>, dst: nat, src: nat, n: nat)
    requires dst <= src && src + n <= buf.Length
    modifies buf
    ensures buf[..dst] == old(buf[..dst])
    ensures buf[dst..dst + n] == old(buf[src..src + n])
    ensures buf[src + n..] == old(buf[src + n..])
  {
    for k := 0 to n
      invariant buf[..dst] == old(buf[..dst])
      invariant forall j :: dst <= j < dst + k ==> buf[j] == old(buf[j - dst + src])
      invariant forall j :: dst + k <= j < buf.Length ==> buf[j] == old(buf[j])
    {
      buf[dst + k] := buf[src + k];
    }
  }

  /** Bytes already in the buffer stay put while more are written behind them. */
  lemma Grown(was: seq<u8>, now: seq<u8>, off: nat, at: nat, end: nat)
    requires off <= at <= end <= |now| && at <= |was| && now[..at] == was[..at]
    ensures now[..off] == was[..off] && now[off..end] == was[off..at] + now[at..end]
  {
    assert now[..off] == now[..at][..off] && was[..off] == was[..at][..off];
    assert now[off..at] == now[..at][off..] && was[off..at] == was[..at][off..];
  }
}
