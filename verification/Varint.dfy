/** The MOQT variable-length integer (draft-ietf-moq-transport-19 section
    1.4.1): the leading 1 bits of the first byte count the bytes that follow. */
module Varint {
  import opened Options
  import opened Bytes
  import opened Seqs

  function Pow2(n: nat): (p: nat)
    ensures p >= 1
  {
    if n == 0 then 1 else 2 * Pow2(n - 1)
  }

  /** Bytes v takes when k - 1 are known to be too few: k bytes hold 7k bits up
      to 8, and 9 hold all 64. v is what is left above the lower bits. */
  function LenFrom(v: nat, k: nat): (n: nat)
    requires 1 <= k <= 9
    ensures k <= n <= 9
    ensures n < 9 ==> v < Pow2(7 * (n - k + 1))
    decreases 9 - k
  {
    assert Pow2(7) == 128;
    if k < 9 && v / 128 != 0 then
      var n := LenFrom(v / 128, k + 1);
      PowSplit(7, 7 * (n - k));
      n
    else k
  }

  function Len(v: u64): (n: nat)
    ensures 1 <= n <= 9
  {
    LenFrom(v, 1)
  }

  /** The low n bytes of v, most significant first. */
  function Be(v: nat, n: nat): (b: seq<u8>)
    ensures |b| == n
    decreases n
  {
    if n == 0 then [] else Be(v / 256, n - 1) + [v % 256]
  }

  function FromBe(b: seq<u8>): nat {
    if b == [] then 0 else 256 * FromBe(b[..|b| - 1]) + b[|b| - 1]
  }

  /** n - 1 leading 1 bits. */
  function Prefix(n: nat): (p: nat)
    requires 1 <= n <= 9
    ensures p <= 255
  {
    if n == 1 then 0x00 else if n == 2 then 0x80 else if n == 3 then 0xC0
    else if n == 4 then 0xE0 else if n == 5 then 0xF0 else if n == 6 then 0xF8
    else if n == 7 then 0xFC else if n == 8 then 0xFE else 0xFF
  }

  /** Values the first byte of n has room for besides its prefix. */
  function Room(n: nat): (r: nat)
    requires 1 <= n <= 9
    ensures r > 0
  {
    if n == 1 then 128 else if n == 2 then 64 else if n == 3 then 32
    else if n == 4 then 16 else if n == 5 then 8 else if n == 6 then 4
    else if n == 7 then 2 else 1
  }

  function Encode(v: u64): (b: seq<u8>)
    ensures |b| == Len(v)
  {
    var n := Len(v);
    var b := Be(v, n);
    FirstByteFits(v);
    b[0 := b[0] + Prefix(n)]
  }

  /** Leading 1 bits of a byte, plus one. */
  function HdrLen(b: u8): (n: nat)
    decreases b
  {
    if b >= 128 then 1 + HdrLen(2 * b - 256) else 1
  }

  /** The value at b[at..], and where it ends; None when b is too short. */
  function Take(b: seq<u8>, at: nat): Option<(u64, nat)> {
    if at >= |b| then None
    else
      var n := HdrLen(b[at]);
      HdrLenRange(b[at]);
      if |b| - at < n then None
      else
        var bytes := b[at..at + n];
        ValueInRange(bytes);
        Some((FromBe(bytes[0 := bytes[0] % Room(n)]), at + n))
  }

  // ---- Proofs ----

  lemma {:induction false} PowSplit(a: nat, b: nat)
    ensures Pow2(a + b) == Pow2(a) * Pow2(b)
  {
    if a != 0 {
      PowSplit(a - 1, b);
      var x, y, z := Pow2(a - 1), Pow2(b), Pow2(a - 1 + b);
      assert Pow2(a + b) == 2 * z;
      hide Pow2;
      Doubles(x, y);
    }
  }

  lemma Doubles(x: nat, y: nat)
    ensures 2 * (x * y) == 2 * x * y
  {
  }

  lemma {:induction false} TopByte(v: nat, n: nat, m: nat)
    requires n >= 1 && m <= 8 && v < Pow2(8 * (n - 1) + m)
    ensures Be(v, n)[0] < Pow2(m)
    decreases n
  {
    if n == 1 {
      assert Be(v / 256, 0) == [];
      PowUpTo8(m);
    } else {
      assert Pow2(8) == 256;
      PowSplit(8, 8 * (n - 2) + m);
      TopByte(v / 256, n - 1, m);
    }
  }

  lemma PowUpTo8(m: nat)
    requires m <= 8
    ensures Pow2(m) <= 256
  {
    PowSplit(m, 8 - m);
    assert Pow2(8) == 256;
  }

  lemma {:induction false} Pow2Grows(a: nat, b: nat)
    requires a <= b
    ensures Pow2(a) <= Pow2(b)
    decreases b
  {
    if a < b {
      Pow2Grows(a, b - 1);
    }
  }

  lemma Pow2Of64()
    ensures Pow2(64) == 0x1_0000_0000_0000_0000
  {
    Pow256Is(8);
    Pow256OfField();
  }

  lemma RoomIs(n: nat)
    requires 1 <= n <= 8
    ensures Pow2(8 - n) == Room(n)
  {
    if n == 1 { assert Pow2(7) == 128; }
    if n == 2 { assert Pow2(6) == 64; }
    if n == 3 { assert Pow2(5) == 32; }
    if n == 4 { assert Pow2(4) == 16; }
  }

  lemma FirstByteFits(v: u64)
    ensures Be(v, Len(v))[0] < Room(Len(v)) && Room(Len(v)) + Prefix(Len(v)) <= 256
  {
    hide Be;
    var n := Len(v);
    if n == 9 {
      Pow2Of64();
      TopByte(v, 9, 0);
    } else {
      TopByte(v, n, 8 - n);
      RoomIs(n);
    }
  }

  /** The first byte's leading 1 bits say which range it lies in. */
  lemma {:induction false} HdrLenRange(b: u8)
    ensures var n := HdrLen(b);
            1 <= n <= 9 && Prefix(n) <= b < Prefix(n) + Room(n)
    decreases b
  {
    if b >= 128 {
      HdrLenRange(2 * b - 256);
      var m := HdrLen(2 * b - 256);
      assert m != 9;
    }
  }

  lemma HdrLenOf(n: nat, x: nat)
    requires 1 <= n <= 9 && x < Room(n) && Prefix(n) + x < 256
    ensures HdrLen(Prefix(n) + x) == n && (Prefix(n) + x) % Room(n) == x
  {
    HdrLenRange(Prefix(n) + x);
  }

  lemma {:induction false} FromBeBound(b: seq<u8>)
    requires b != []
    ensures FromBe(b) < (b[0] + 1) * Pow256(|b| - 1)
  {
    var n := |b| - 1;
    if n != 0 {
      FromBeBound(b[..n]);
      assert FromBe(b[..n]) + 1 <= (b[0] + 1) * Pow256(n - 1);
      assert 256 * ((b[0] + 1) * Pow256(n - 1)) == (b[0] + 1) * Pow256(n);
    } else {
      assert b[..0] == [];
    }
  }

  lemma {:induction false} PowMonotone(a: nat, b: nat)
    requires a <= b
    ensures Pow256(a) <= Pow256(b)
    decreases b
  {
    if a < b {
      PowMonotone(a, b - 1);
    }
  }

  lemma ValueInRange(b: seq<u8>)
    requires 1 <= |b| <= 9
    ensures FromBe(b[0 := b[0] % Room(|b|)]) <= U64_MAX
  {
    var n := |b|;
    var c := b[0 := b[0] % Room(n)];
    FromBeBound(c);
    Pow256OfField();
    if n == 9 {
      assert c[0] == 0;
    } else {
      assert (c[0] + 1) * Pow256(n - 1) <= 256 * Pow256(n - 1) == Pow256(n);
      PowMonotone(n, 8);
    }
  }

  lemma {:induction false} BeRoundTrip(v: nat, n: nat)
    requires v < Pow256(n)
    ensures FromBe(Be(v, n)) == v
    decreases n
  {
    if n != 0 {
      BeRoundTrip(v / 256, n - 1);
      assert Be(v, n)[..n - 1] == Be(v / 256, n - 1);
    }
  }

  /** A value is below 256 to its length. */
  lemma ValueFits(v: u64)
    ensures v < Pow256(Len(v))
  {
    var n := Len(v);
    Pow256OfField();
    if n == 9 {
      PowMonotone(8, 9);
    } else {
      Pow256Is(n);
      Pow2Grows(7 * n, 8 * n);
    }
  }

  lemma {:induction false} Pow256Is(n: nat)
    ensures Pow256(n) == Pow2(8 * n)
  {
    if n != 0 {
      Pow256Is(n - 1);
      PowSplit(8, 8 * (n - 1));
      assert Pow2(8) == 256;
    }
  }

  /** bytes lie in b from at on. */
  predicate HasAt(b: seq<u8>, at: nat, bytes: seq<u8>) {
    at + |bytes| <= |b| && b[at..at + |bytes|] == bytes
  }

  lemma HasBoth(b: seq<u8>, at: nat, x: seq<u8>, y: seq<u8>)
    requires HasAt(b, at, x + y)
    ensures HasAt(b, at, x) && HasAt(b, at + |x|, y)
  {
    var n := |x| + |y|;
    CutSlice(b, at, at + n, |x|);
  }

  /** The first byte tells the length, and hides nothing of the value. */
  lemma FirstByteTells(v: u64)
    ensures var n, enc := Len(v), Encode(v);
            HdrLen(enc[0]) == n && enc[0 := enc[0] % Room(n)] == Be(v, n)
  {
    FirstByteFits(v);
    HdrLenOf(Len(v), Be(v, Len(v))[0]);
  }

  /** Taking where a value was put gives the value and the end of its bytes. */
  lemma RoundTrip(b: seq<u8>, at: nat, v: u64)
    requires HasAt(b, at, Encode(v))
    ensures Take(b, at) == Some((v, at + Len(v)))
  {
    hide Len, Encode, Be, FromBe, HdrLen, Room;
    var n := Len(v);
    FirstByteTells(v);
    assert b[at] == b[at..at + n][0];
    ValueFits(v);
    BeRoundTrip(v, n);
  }

  /** More input does not change a value already complete. */
  lemma TakeStable(b: seq<u8>, x: seq<u8>, at: nat)
    requires Take(b, at).Some?
    ensures Take(b + x, at) == Take(b, at) && at < Take(b, at).value.1 <= |b|
  {
    HdrLenRange(b[at]);
    var n := HdrLen(b[at]);
    assert (b + x)[at] == b[at];
    assert (b + x)[at..at + n] == b[at..at + n];
  }

  // ---- The bytes themselves ----

  lemma {:induction false} LenLeast(v: nat, k: nat, n: nat)
    requires 1 <= k <= n <= 9 && (n < 9 ==> v < Pow2(7 * (n - k + 1)))
    ensures LenFrom(v, k) <= n
    decreases 9 - k
  {
    assert Pow2(7) == 128;
    if k < n && v / 128 != 0 {
      PowSplit(7, 7 * (n - k));
      DivBelow(v, Pow2(7 * (n - k)));
      LenLeast(v / 128, k + 1, n);
    }
  }

  lemma DivBelow(v: nat, p: nat)
    ensures v < 128 * p ==> v / 128 < p
  {
  }

  /** A value takes the fewest bytes that hold it: k bytes hold 7k bits, and 9
      hold them all. */
  lemma LenIff(v: u64, k: nat)
    requires 1 <= k <= 8
    ensures |Encode(v)| <= k <==> v < Pow2(7 * k)
  {
    hide Encode;
    if v < Pow2(7 * k) { LenLeast(v, 1, k); }
    if Len(v) <= k { Pow2Grows(7 * Len(v), 7 * k); }
  }

  lemma BeOne(v: nat)
    requires v < 256
    ensures Be(v, 1) == [v]
  {
    assert Be(v / 256, 0) == [];
  }

  lemma BeTwo(v: nat)
    requires v < 65536
    ensures Be(v, 2) == [v / 256, v % 256]
  {
    BeOne(v / 256);
    hide Be;
    BeStep(v, 2);
  }

  lemma BeThree(v: nat)
    requires v < 16777216
    ensures Be(v, 3) == [v / 256 / 256, v / 256 % 256, v % 256]
  {
    hide Be;
    BeTwo(v / 256);
    BeStep(v, 3);
  }

  lemma BeStep(v: nat, n: nat)
    requires n > 0
    ensures Be(v, n) == Be(v / 256, n - 1) + [v % 256]
  {
  }

  lemma Sevens()
    ensures Pow2(7) == 128 && Pow2(14) == 16384 && Pow2(21) == 2097152 && Pow2(56) == 0x100_0000_0000_0000
  {
    assert Pow2(7) == 128;
    PowSplit(7, 7);
    PowSplit(7, 14);
    PowSplit(14, 14);
    PowSplit(28, 28);
  }

  /** One byte is the value; of more, the first starts with a 1 bit for each of the
      others and then a 0, and the value lies high byte first. */
  lemma EncodeIs(v: u64)
    ensures v < 128 ==> Encode(v) == [v]
    ensures 128 <= v < 16384 ==> Encode(v) == [128 + v / 256, v % 256]
    ensures 16384 <= v < 2097152 ==> Encode(v) == [192 + v / 256 / 256, v / 256 % 256, v % 256]
    ensures v >= 0x100_0000_0000_0000 ==> |Encode(v)| == 9 && Encode(v)[0] == 255
  {
    hide Pow2, LenFrom, Len, Be;
    Sevens();
    LenIff(v, 1);
    LenIff(v, 2);
    LenIff(v, 3);
    LenIff(v, 8);
    if v < 128 {
      BeOne(v);
    } else if v < 16384 {
      BeTwo(v);
    } else if v < 2097152 {
      BeThree(v);
    } else if Len(v) == 9 {
      NineBe(v);
    }
  }

  lemma NineBe(v: u64)
    ensures Be(v, 9)[0] == 0
  {
    Pow2Of64();
    TopByte(v, 9, 0);
    assert Pow2(0) == 1;
  }
}
