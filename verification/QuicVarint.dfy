/** The QUIC variable-length integer (section 16 of RFC 9000): the two high
    bits of the first byte give the length, 1, 2, 4 or 8 bytes. */
module QuicVarint {
  import opened Options
  import opened Bytes
  import Varint

  const VARINT_MAX: nat := 0x3FFF_FFFF_FFFF_FFFF

  /** Bytes of length class c. */
  function Width(c: nat): nat
    requires c < 4
  {
    if c == 0 then 1 else if c == 1 then 2 else if c == 2 then 4 else 8
  }

  /** The largest value of length class c. */
  function Cap(c: nat): nat
    requires c < 4
  {
    if c == 0 then 0x3F else if c == 1 then 0x3FFF else if c == 2 then 0x3FFF_FFFF else VARINT_MAX
  }

  /** The least class that holds v; 4 when none does. */
  function Class(v: nat): (c: nat)
    ensures c <= 4 && (c < 4 <==> v <= VARINT_MAX)
    ensures forall d :: 0 <= d < 4 ==> (v <= Cap(d) <==> c <= d)
  {
    if v <= Cap(0) then 0 else if v <= Cap(1) then 1 else if v <= Cap(2) then 2 else if v <= Cap(3) then 3 else 4
  }

  /** Bytes v takes; 0 when it is too large to be sent. */
  function Len(v: nat): nat {
    if Class(v) == 4 then 0 else Width(Class(v))
  }

  lemma CapIs(c: nat)
    requires c < 4
    ensures Cap(c) + 1 == Varint.Pow2(8 * (Width(c) - 1) + 6)
  {
    assert Varint.Pow2(6) == 64 && Varint.Pow2(8) == 256;
    Varint.PowSplit(8, 6);
    Varint.PowSplit(16, 14);
    assert Varint.Pow2(16) == 65536;
    Varint.PowSplit(32, 30);
    Varint.PowSplit(16, 16);
  }

  lemma TopBitsFree(v: nat)
    requires v <= VARINT_MAX
    ensures Len(v) >= 1 && Varint.Be(v, Len(v))[0] < 64 && v < Pow256(Len(v))
  {
    var n := Len(v);
    CapIs(Class(v));
    hide Varint.Pow2, Varint.Be, Cap;
    assert v <= Cap(Class(v));
    Varint.TopByte(v, n, 6);
    assert Varint.Pow2(6) == 64 by { SixBits(); }
    Varint.Pow256Is(n);
    Varint.Pow2Grows(8 * (n - 1) + 6, 8 * n);
  }

  lemma SixBits()
    ensures Varint.Pow2(6) == 64
  {
  }

  function Encode(v: nat): (b: seq<u8>)
    requires v <= VARINT_MAX
    ensures |b| == Len(v) >= 1
  {
    TopBitsFree(v);
    var b := Varint.Be(v, Len(v));
    b[0 := b[0] + 64 * Class(v)]
  }

  /** The value at b[at..], and where it ends; None when b is too short. */
  function Take(b: seq<u8>, at: nat): Option<(nat, nat)> {
    if at >= |b| then None
    else
      var n := Width(b[at] / 64);
      if |b| - at < n then None
      else Some((Varint.FromBe(b[at..at + n][0 := b[at] % 64]), at + n))
  }

  lemma RoundTrip(b: seq<u8>, at: nat, v: nat)
    requires v <= VARINT_MAX && Varint.HasAt(b, at, Encode(v))
    ensures Take(b, at) == Some((v, at + Len(v)))
  {
    hide Varint.Be, Varint.FromBe;
    TopBitsFree(v);
    var n, e := Len(v), Encode(v);
    assert b[at] == b[at..at + n][0] == e[0];
    assert e[0] / 64 == Class(v) && e[0] % 64 == Varint.Be(v, n)[0];
    assert e[0 := e[0] % 64] == Varint.Be(v, n);
    Varint.BeRoundTrip(v, n);
  }

  /** 1, 2, 4 or 8 bytes, the least that hold v; the two high bits say which, and
      the others are v, most significant byte first. */
  lemma EncodeIs(v: nat)
    requires v <= VARINT_MAX
    ensures v <= 63 ==> Encode(v) == [v]
    ensures 63 < v <= 16383 ==> Encode(v) == [64 + v / 256, v % 256]
    ensures 16383 < v <= 1073741823 ==> |Encode(v)| == 4 && Encode(v)[0] / 64 == 2
    ensures 1073741823 < v ==> |Encode(v)| == 8 && Encode(v)[0] / 64 == 3
    ensures Varint.FromBe(Encode(v)[0 := Encode(v)[0] % 64]) == v
  {
    var n, e := Len(v), Encode(v);
    TopBitsFree(v);
    assert e[0 := e[0] % 64] == Varint.Be(v, n);
    Varint.BeRoundTrip(v, n);
    hide Varint.Be, Varint.FromBe;
    if v <= 63 { Varint.BeOne(v); }
    if v <= 16383 { Varint.BeTwo(v); }
  }

  // ---- In a buffer ----

  /** v most significant byte first, filled in from the last byte back. */
  method PutBe(buf: array<u8>, off: nat, v: nat, n: nat, prefix: u8)
    requires n >= 1 && off + n <= buf.Length && Varint.Be(v, n)[0] + prefix < 256
    modifies buf
    ensures buf[off..off + n] == Varint.Be(v, n)[0 := Varint.Be(v, n)[0] + prefix]
    ensures buf[..off] == old(buf[..off])
  {
    ghost var all := Varint.Be(v, n);
    var i, rest := n, v;
    while i > 0
      invariant 0 <= i <= n && Varint.Be(rest, i) == all[..i] && rest >= 0
      invariant forall k :: i <= k < n ==> buf[off + k] == all[k]
      invariant buf[..off] == old(buf[..off])
    {
      i := i - 1;
      assert all[i] == all[..i + 1][i] == rest % 256;
      assert all[..i] == all[..i + 1][..i];
      buf[off + i] := rest % 256;
      rest := rest / 256;
    }
    buf[off] := buf[off] + prefix;
  }

  /** Puts v at buf[off..], or nothing when it does not fit. */
  method Put(buf: array<u8>, off: nat, v: nat) returns (end: Option<nat>)
    requires off <= buf.Length
    modifies buf
    ensures end.Some? <==> v <= VARINT_MAX && off + Len(v) <= buf.Length
    ensures end.Some? ==> end.value == off + Len(v) && buf[off..end.value] == Encode(v)
    ensures buf[..off] == old(buf[..off])
  {
    var n := Len(v);
    if n == 0 || off + n > buf.Length {
      return None;
    }
    TopBitsFree(v);
    PutBe(buf, off, v, n, 64 * Class(v));
    return Some(off + n);
  }
}
