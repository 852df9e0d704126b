/** Printing a binary64 with %f: exact digits, rounded half to even. */
module Decimal {
  import opened Bytes
  import opened Varint

  function Pow10(n: nat): (p: nat)
    ensures p >= 1
  {
    if n == 0 then 1 else 10 * Pow10(n - 1)
  }

  // ---- Splitting a binary64 ----

  /** A value ip + f / 2^s. */
  datatype Parts = Parts(ip: nat, f: nat, s: nat)

  const BITS52: nat := 0x10_0000_0000_0000

  function Exponent(bits: nat): nat {
    bits / BITS52
  }

  /** The significand, with the implicit bit of a normal number. */
  function Mantissa(bits: nat): nat {
    bits % BITS52 + if Exponent(bits) != 0 then BITS52 else 0
  }

  /** The value is Mantissa * 2^Scale. */
  function Scale(bits: nat): int {
    (if Exponent(bits) == 0 then 1 else Exponent(bits)) - 1075
  }

  /** Low bits of the significand given up to keep 60 fraction bits. */
  function Dropped(bits: nat): nat {
    var s := -Scale(bits);
    if s > 60 then s - 60 else 0
  }

  function Quotient(m: nat, d: nat): nat
    requires d > 0
  {
    m / d
  }

  function Remainder(m: nat, d: nat): nat
    requires d > 0
  {
    m % d
  }

  function SplitFrac(mant: nat, s: nat, drop: nat): Parts
    requires drop <= s
  {
    var m := if drop >= 64 then 0 else Quotient(mant, Pow2(drop));
    Parts(Quotient(m, Pow2(s - drop)), Remainder(m, Pow2(s - drop)), s - drop)
  }

  function Split(bits: nat): Parts {
    var ex := Scale(bits);
    if ex < 0 then SplitFrac(Mantissa(bits), -ex, Dropped(bits))
    else if ex > 11 then Parts(U64_MAX, 0, 0)
    else Parts(Mantissa(bits) * Pow2(ex), 0, 0)
  }

  /** The parts are exactly the number. */
  predicate IsExact(bits: nat) {
    var p, ex, m := Split(bits), Scale(bits), Mantissa(bits);
    if ex < 0 then (p.ip * Pow2(p.s) + p.f) * Pow2(-ex) == m * Pow2(p.s)
    else p.ip == m * Pow2(ex) && p.f == 0
  }

  lemma MantissaBound(bits: nat)
    ensures Mantissa(bits) < 2 * BITS52 && (Exponent(bits) != 0 ==> Mantissa(bits) >= BITS52)
  {
  }

  lemma FracExactIff(m: nat, s: nat, drop: nat)
    requires m < 2 * BITS52 && drop <= s
    ensures var p := SplitFrac(m, s, drop);
            (p.ip * Pow2(p.s) + p.f) * Pow2(s) == m * Pow2(p.s) <==> m % Pow2(drop) == 0
  {
    hide Pow2;
    PowSplit(drop, s - drop);
    if drop >= 64 {
      Pow2Of64();
      Pow2Grows(64, drop);
    }
    var d, q, p := Pow2(drop), Pow2(s - drop), SplitFrac(m, s, drop);
    SplitIff(m, d, q, if drop >= 64 then 0 else m / d, p.ip, p.f);
  }

  /** k = ip * q + f is m / d exactly when d divides m. */
  lemma SplitIff(m: nat, d: nat, q: nat, k: nat, ip: nat, f: nat)
    requires d > 0 && q > 0 && (k == m / d || (k == 0 && m < d)) && ip == k / q && f == k % q
    ensures (ip * q + f) * (d * q) == m * q <==> m % d == 0
  {
    DivMod(m, d);
    DivMod(k, q);
    if m < d { SmallMod(m, d); }
    CancelIff(k, d, q, m % d);
  }

  lemma CancelIff(k: nat, d: nat, q: nat, rest: nat)
    requires q > 0
    ensures k * (d * q) == (k * d + rest) * q <==> rest == 0
  {
    assert k * (d * q) == (k * d) * q;
    assert (k * d + rest) * q == (k * d) * q + rest * q;
    assert rest > 0 ==> rest * q > 0;
  }

  lemma DivMod(m: nat, d: nat)
    requires d > 0
    ensures m == (m / d) * d + m % d && m % d < d
  {
  }

  lemma SmallMod(m: nat, d: nat)
    requires m < d
    ensures m % d == m && m / d == 0
  {
  }

  /** Below 2^64 and without bits below 2^-60. */
  predicate Exact(bits: nat) {
    Scale(bits) <= 11 && Mantissa(bits) % Pow2(Dropped(bits)) == 0
  }

  /** The parts are the number exactly when it is below 2^64 and has no bits
      below 2^-60. */
  lemma ExactIff(bits: nat)
    ensures IsExact(bits) <==> Exact(bits)
  {
    MantissaBound(bits);
    var ex, m := Scale(bits), Mantissa(bits);
    if ex < 0 {
      FracExactIff(m, -ex, Dropped(bits));
    } else {
      assert Pow2(0) == 1;
      if ex > 11 {
        Pow2Grows(12, ex);
        assert Pow2(12) == 4096;
        assert m * Pow2(ex) >= BITS52 * 4096;
      }
    }
  }

  // ---- Digits ----

  predicate IsDigit(c: char) {
    '0' <= c <= '9'
  }

  function Digit(c: char): int {
    c as int - '0' as int
  }

  function Char(d: nat): (c: char)
    requires d < 10
    ensures IsDigit(c) && Digit(c) == d
  {
    ('0' as int + d) as char
  }

  /** Digits, with at most some points among them. */
  predicate Numeral(s: seq<char>) {
    forall i :: 0 <= i < |s| ==> IsDigit(s[i]) || s[i] == '.'
  }

  /** The number the digits spell, points left out. */
  function Val(s: seq<char>): int {
    if s == [] then 0
    else if s[|s| - 1] == '.' then Val(s[..|s| - 1])
    else 10 * Val(s[..|s| - 1]) + Digit(s[|s| - 1])
  }

  lemma ValAppend(s: seq<char>, c: char)
    ensures Val(s + [c]) == if c == '.' then Val(s) else 10 * Val(s) + Digit(c)
  {
    assert (s + [c])[..|s|] == s;
  }

  /** A leading zero does not change the number. */
  lemma {:induction false} ValLeadingZero(s: seq<char>)
    requires s != [] && s[0] == '0'
    ensures Val(s) == Val(s[1..])
  {
    if |s| > 1 {
      var n := |s| - 1;
      ValLeadingZero(s[..n]);
      assert s[..n][1..] == s[1..][..n - 1];
    }
  }

  /** An integer in decimal. */
  function Decimal(v: nat): (s: seq<char>)
    ensures s != [] && forall i :: 0 <= i < |s| ==> IsDigit(s[i])
    ensures s[0] == '0' ==> v == 0 && |s| == 1
  {
    if v < 10 then [Char(v)] else Decimal(v / 10) + [Char(v % 10)]
  }

  lemma {:induction false} DecimalReads(v: nat)
    ensures Val(Decimal(v)) == v
  {
    if v < 10 {
      ValAppend([], Char(v));
      assert [] + [Char(v)] == [Char(v)];
    } else {
      DecimalReads(v / 10);
      ValAppend(Decimal(v / 10), Char(v % 10));
    }
  }

  lemma {:induction false} DecimalLength(v: nat, k: nat)
    requires 0 < k && v < Pow10(k)
    ensures |Decimal(v)| <= k
  {
    if v >= 10 { DecimalLength(v / 10, k - 1); }
  }

  lemma TwentyDigits(v: nat)
    requires v <= U64_MAX
    ensures |Decimal(v)| <= 20
  {
    hide Pow10, Decimal;
    U64Below10To20();
    DecimalLength(v, 20);
  }

  lemma U64Below10To20()
    ensures U64_MAX < Pow10(20)
  {
    assert Pow10(5) == 100_000;
    assert Pow10(10) == 10_000_000_000;
    assert Pow10(15) == 1_000_000_000_000_000;
  }

  // ---- Carry ----

  /** One more in the last place, carried as far as it goes. */
  function Carry(s: seq<char>): (t: seq<char>)
    requires s != [] && s[0] == '0' && Numeral(s)
    ensures |t| == |s| && Numeral(t)
    ensures forall i :: 0 <= i < |s| ==> (t[i] == '.' <==> s[i] == '.')
  {
    var init, c := s[..|s| - 1], s[|s| - 1];
    if c == '9' then Carry(init) + ['0']
    else if c == '.' then Carry(init) + ['.']
    else init + [Char(Digit(c) + 1)]
  }

  lemma {:induction false} CarryAddsOne(s: seq<char>)
    requires s != [] && s[0] == '0' && Numeral(s)
    ensures Val(Carry(s)) == Val(s) + 1
  {
    var init, c := s[..|s| - 1], s[|s| - 1];
    if c == '9' || c == '.' {
      CarryAddsOne(init);
      ValAppend(Carry(init), if c == '9' then '0' else '.');
    } else {
      ValAppend(init, Char(Digit(c) + 1));
    }
  }

  // ---- Rounding ----

  /** n is num / den rounded to the nearest, ties to even. */
  predicate RoundsHalfEven(n: int, num: int, den: int) {
    var e := 2 * (n * den - num);
    -den <= e <= den && ((e == den || e == -den) ==> n % 2 == 0)
  }

  /** The test before the carry: what is left is more than half, or half and
      the last digit is odd. */
  predicate RoundUp(f: nat, s: nat, last: char) {
    2 * f > Pow2(s) || (2 * f == Pow2(s) && Digit(last) % 2 == 1)
  }

  lemma TenTimesIsEven(a: int, b: int)
    ensures (10 * a + b) % 2 == b % 2
  {
    assert 10 * a + b == 2 * (5 * a) + b;
  }

  lemma ValLast(s: seq<char>)
    requires s != [] && s[|s| - 1] != '.'
    ensures Val(s) == 10 * Val(s[..|s| - 1]) + Digit(s[|s| - 1])
  {
  }

  lemma ValParity(s: seq<char>)
    requires s != [] && IsDigit(s[|s| - 1])
    ensures Val(s) % 2 == Digit(s[|s| - 1]) % 2
  {
    hide Val, Digit;
    ValLast(s);
    TenTimesIsEven(Val(s[..|s| - 1]), Digit(s[|s| - 1]));
  }

  // ---- In the digit buffer ----

  function CarryFix(c: char): char {
    if c == '.' then c else '0'
  }

  predicate Carries(c: char) {
    c == '9' || c == '.'
  }

  /** Carry, place by place: s[i] is where it stops. */
  lemma {:induction false} CarryAt(s: seq<char>, i: nat, j: nat)
    requires i < |s| && j < |s| && s[0] == '0' && Numeral(s)
    requires !Carries(s[i]) && forall m :: i < m < |s| ==> Carries(s[m])
    ensures Carry(s)[j] == if j < i then s[j] else if j == i then Char(Digit(s[i]) + 1) else CarryFix(s[j])
  {
    if i < |s| - 1 && j < |s| - 1 { CarryAt(s[..|s| - 1], i, j); }
  }

  method CarryIn(b: array<char>, end: nat)
    requires end < b.Length && b[0] == '0' && Numeral(b[..end + 1])
    modifies b
    ensures b[..end + 1] == Carry(old(b[..end + 1]))
  {
    hide Carry;
    ghost var s := b[..end + 1];
    var i: nat := end;
    while Carries(b[i])
      invariant i <= end && b[0] == '0'
      invariant forall m :: 0 <= m <= i ==> b[m] == s[m]
      invariant forall m :: i < m <= end ==> Carries(s[m]) && b[m] == CarryFix(s[m])
      decreases i
    {
      b[i] := CarryFix(b[i]);
      i := i - 1;
    }
    assert IsDigit(s[i]);
    b[i] := Char(Digit(b[i]) + 1);
    forall j | 0 <= j <= end ensures b[j] == Carry(s)[j] { CarryAt(s, i, j); }
    assert b[..end + 1] == Carry(s);
  }

  /** What is left of the digits once the last one is taken. */
  function Front(n: nat): seq<char> {
    if n == 0 then [] else Decimal(n)
  }

  lemma FirstOut(v: nat)
    ensures Decimal(v)[|Decimal(v)| - 1] == Char(v % 10)
    ensures Decimal(v)[..|Decimal(v)| - 1] == Front(v / 10) && Front(0) == []
  {
  }

  lemma TakeLast(d: seq<char>, k: nat, n: nat)
    requires n > 0 && k <= |d| && d[..|d| - k] == Front(n)
    ensures k < |d| && d[|d| - k - 1] == Char(n % 10) && d[..|d| - k - 1] == Front(n / 10)
  {
    var w := d[..|d| - k];
    assert w[|w| - 1] == Char(n % 10);
    assert d[..|d| - k - 1] == w[..|w| - 1];
  }

  /** The digits of v, last first. */
  method DigitsBackwards(v: nat) returns (tmp: array<char>, k: nat)
    requires v <= U64_MAX
    ensures fresh(tmp) && tmp.Length == 20 && k == |Decimal(v)| <= 20
    ensures forall i :: 0 <= i < k ==> tmp[k - 1 - i] == Decimal(v)[i]
  {
    hide Decimal, Front, Char;
    TwentyDigits(v);
    FirstOut(v);
    tmp := new char[20];
    ghost var d := Decimal(v);
    tmp[0] := Char(v % 10);
    k := 1;
    var n: nat := v / 10;
    while n != 0
      invariant 1 <= k <= |d| <= 20 && d[..|d| - k] == Front(n)
      invariant forall i :: 0 <= i < k ==> tmp[i] == d[|d| - 1 - i]
      decreases n
    {
      TakeLast(d, k, n);
      tmp[k] := Char(n % 10);
      k, n := k + 1, n / 10;
    }
  }

  method IpDigits(b: array<char>, v: nat) returns (e: nat)
    requires v <= U64_MAX && b.Length > 20
    modifies b
    ensures 1 < e <= 21 && b[0] == old(b[0])
    ensures b[1..e] == Decimal(v)
  {
    var tmp, k := DigitsBackwards(v);
    ghost var n := k;
    e := 1;
    while k != 0
      invariant 0 <= k <= n && e == 1 + n - k && b[0] == old(b[0])
      invariant forall i :: 0 <= i < n ==> tmp[n - 1 - i] == Decimal(v)[i]
      invariant forall i :: 1 <= i < e ==> b[i] == Decimal(v)[i - 1]
    {
      hide Decimal;
      k := k - 1;
      b[e] := tmp[k];
      e := e + 1;
    }
  }

  // ---- The printed body ----

  /** Digits throughout, but for a point at place n when there is one. */
  predicate Shape(t: seq<char>, n: nat, point: bool) {
    forall i :: 0 <= i < |t| ==> if point && i == n then t[i] == '.' else IsDigit(t[i])
  }

  /** What %f promises of the text: p digits after the point, a point when p or
      '#' asks for one, an integer part of at least one digit and no leading
      zero but its own. */
  predicate WellPrinted(t: seq<char>, p: nat, point: bool) {
    var n := |t| - p - (if point then 1 else 0);
    n >= 1 && Shape(t, n, point) && (t[0] == '0' ==> n == 1)
  }

  lemma DigitStep(v: int, f: nat, p: nat, total: int, q: nat)
    requires p > 0 && f < p && v * p + f == total * q
    ensures 10 * f / p < 10 && (10 * v + 10 * f / p) * p + 10 * f % p == total * (10 * q)
  {
    DivMod(10 * f, p);
    var d := 10 * f / p;
    assert d >= 10 ==> d * p >= 10 * p;
    assert (10 * v + d) * p == 10 * (v * p) + d * p;
    assert total * (10 * q) == 10 * (total * q);
  }

  method FractionDigits(b: array<char>, start: nat, r: Parts, prec: nat) returns (e: nat, f: nat)
    requires start + prec <= b.Length && r.f < Pow2(r.s)
    modifies b
    ensures e == start + prec && f < Pow2(r.s)
    ensures b[..start] == old(b[..start])
    ensures forall i :: start <= i < e ==> IsDigit(b[i])
    ensures Val(b[..e]) * Pow2(r.s) + f == (old(Val(b[..start])) * Pow2(r.s) + r.f) * Pow10(prec)
  {
    hide Val, Pow2;
    e, f := start, r.f;
    ghost var total := Val(b[..start]) * Pow2(r.s) + r.f;
    for i := 0 to prec
      invariant e == start + i && f < Pow2(r.s)
      invariant b[..start] == old(b[..start])
      invariant forall i :: start <= i < e ==> IsDigit(b[i])
      invariant Val(b[..e]) * Pow2(r.s) + f == total * Pow10(i)
    {
      ghost var was := b[..e];
      DigitStep(Val(was), f, Pow2(r.s), total, Pow10(i));
      var c := Char(10 * f / Pow2(r.s));
      ValAppend(was, c);
      b[e] := c;
      assert b[..e + 1] == was + [c];
      e, f := e + 1, 10 * f % Pow2(r.s);
    }
  }

  /** The number the parts hold, in units of 2^-s. */
  function Total(r: Parts): nat {
    r.ip * Pow2(r.s) + r.f
  }

  /** b[0] is a reserved '0'; then the integer part, and the point if asked. */
  method WholeDigits(b: array<char>, ip: nat, point: bool) returns (e: nat)
    requires b.Length == 80 && b[0] == '0' && ip <= U64_MAX
    modifies b
    ensures 2 <= e <= 22 && b[0] == '0'
    ensures WellPrinted(b[1..e], 0, point) && Val(b[..e]) == ip
  {
    e := IpDigits(b, ip);
    DecimalReads(ip);
    ValLeadingZero(b[..e]);
    hide Decimal, Val;
    assert b[..e][1..] == Decimal(ip);
    ghost var whole := b[..e];
    b[e] := '.';
    assert b[..e] == whole;
    ValAppend(whole, '.');
    assert b[..e + 1] == whole + ['.'];
    assert b[1..e] == Decimal(ip);
    e := if point then e + 1 else e;
  }

  lemma MoreDigits(s: seq<char>, t: seq<char>, point: bool)
    requires WellPrinted(s, 0, point) && s <= t && forall i :: |s| <= i < |t| ==> IsDigit(t[i])
    requires |t| > |s| ==> point
    ensures WellPrinted(t, |t| - |s|, point)
  {
    assert forall i :: 0 <= i < |s| ==> t[i] == s[i];
  }

  /** The digits of the body in b[1..end], what is left over in f. */
  method DecBody(b: array<char>, r: Parts, prec: nat, dot: bool) returns (end: nat, f: nat)
    requires b.Length == 80 && b[0] == '0' && prec <= 40
    requires r.ip <= U64_MAX && r.f < Pow2(r.s)
    modifies b
    ensures 0 < end < 80 && f < Pow2(r.s) && b[0] == '0'
    ensures WellPrinted(b[1..end + 1], prec, prec > 0 || dot)
    ensures Val(b[..end + 1]) * Pow2(r.s) + f == Total(r) * Pow10(prec)
  {
    hide Val, Pow2, WellPrinted, Pow10;
    var e := WholeDigits(b, r.ip, prec > 0 || dot);
    ghost var was, start := b[..e], e;
    e, f := FractionDigits(b, e, r, prec);
    end := e - 1;
    assert forall i :: 0 <= i < start ==> b[i] == b[..start][i] == was[i];
    MoreDigits(was[1..], b[1..e], prec > 0 || dot);
  }

  // ---- The whole conversion ----

  /** A missing precision means six digits; forty is the most. */
  function Precision(prec: int): nat {
    if prec < 0 then 6 else if prec > 40 then 40 else prec
  }

  /** The magnitude is Numerator / Denominator. */
  function Numerator(bits: nat): nat {
    if Scale(bits) < 0 then Mantissa(bits) else Mantissa(bits) * Pow2(Scale(bits))
  }

  function Denominator(bits: nat): (d: nat)
    ensures d > 0
  {
    if Scale(bits) < 0 then Pow2(-Scale(bits)) else 1
  }

  /** Half way between an odd integer and the even one above it. */
  predicate OddTie(num: nat, den: nat)
    requires den > 0
  {
    2 * (num % den) == den && (num / den) % 2 == 1
  }

  lemma {:induction false} CarryHead(s: seq<char>)
    requires |s| >= 2 && s[0] == '0' && Numeral(s) && IsDigit(s[1])
    ensures Carry(s)[0] == '0' && Carry(s)[1] == '0' ==> s[1] == '0'
  {
    if |s| > 2 {
      CarryHead(s[..|s| - 1]);
    } else if s[1] == '9' {
      assert s[..1] == ['0'];
      assert Carry(s[..1])[0] == '1';
    }
  }

  /** The reserved digit is printed only when a carry reached it. */
  function Trim(t: seq<char>): seq<char>
    requires t != []
  {
    if t[0] == '0' then t[1..] else t
  }

  lemma TrimShape(t: seq<char>, u: seq<char>, p: nat, point: bool)
    requires |t| >= 2 && |u| == |t| && t[0] == '0' && WellPrinted(t[1..], p, point) && Numeral(u)
    requires forall i :: 0 <= i < |t| ==> (u[i] == '.' <==> t[i] == '.')
    requires u[0] == '0' && u[1] == '0' ==> t[1] == '0'
    ensures WellPrinted(Trim(u), p, point)
  {
    assert forall i :: 1 <= i < |t| ==> t[i] == t[1..][i - 1];
    assert forall i :: 1 <= i < |u| ==> u[i] == u[1..][i - 1];
  }

  lemma TrimCarry(t: seq<char>, p: nat, point: bool)
    requires |t| >= 2 && t[0] == '0' && WellPrinted(t[1..], p, point)
    ensures Numeral(t)
    ensures WellPrinted(Trim(Carry(t)), p, point) && Val(Trim(Carry(t))) == Val(t) + 1
  {
    assert forall i :: 1 <= i < |t| ==> t[i] == t[1..][i - 1];
    var u := Carry(t);
    hide Carry, Val;
    CarryAddsOne(t);
    CarryHead(t);
    if u[0] == '0' { ValLeadingZero(u); }
    TrimShape(t, u, p, point);
  }

  /** With a digit last the test rounds half to even; with the point last, as
      '#' and no digits leave it, a tie on an odd number is rounded down. */
  lemma RoundsIff(n: nat, f: nat, s: nat, num: nat, last: char)
    requires n * Pow2(s) + f == num && f < Pow2(s)
    requires IsDigit(last) ==> n % 2 == Digit(last) % 2
    requires IsDigit(last) || last == '.'
    ensures RoundsHalfEven(if RoundUp(f, s, last) then n + 1 else n, num, Pow2(s))
       <==> IsDigit(last) || !OddTie(num, Pow2(s))
    ensures last == '.' && OddTie(num, Pow2(s)) ==> !RoundUp(f, s, last) && n == num / Pow2(s)
  {
    var d := Pow2(s);
    hide Pow2;
    DivUnique(num, d, n, f);
    assert (n + 1) * d == n * d + d;
  }

  lemma DivUnique(num: nat, d: nat, n: nat, f: nat)
    requires n * d + f == num && f < d
    ensures num / d == n && num % d == f
  {
    DivMod(num, d);
    QuotientUnique(num / d, num % d, n, f, d);
  }

  lemma QuotientUnique(q: int, r: nat, n: int, f: nat, d: nat)
    requires q * d + r == n * d + f && r < d && f < d
    ensures q == n && r == f
  {
    assert (q - n) * d == f - r;
    assert q - n >= 1 ==> (q - n) * d >= d;
    assert n - q >= 1 ==> (n - q) * d >= d;
  }

  method EmitParts(r: Parts, p: nat, dot: bool) returns (body: seq<char>)
    requires r.ip <= U64_MAX && r.f < Pow2(r.s) && p <= 40
    ensures WellPrinted(body, p, p > 0 || dot)
    ensures RoundsHalfEven(Val(body), Total(r) * Pow10(p), Pow2(r.s))
       <==> !(dot && p == 0 && OddTie(Total(r), Pow2(r.s)))
    ensures dot && p == 0 && OddTie(Total(r), Pow2(r.s)) ==> Val(body) == Total(r) / Pow2(r.s)
    ensures Pow2(r.s) == 1 ==> Val(body) == r.ip * Pow10(p)
  {
    hide Val, Pow2, OddTie, RoundsHalfEven;
    var b := new char[80];
    b[0] := '0';
    var end, f := DecBody(b, r, p, dot);
    ghost var t := b[..end + 1];
    assert t[1..] == b[1..end + 1];
    assert t[end] == t[1..][end - 1] == b[end];
    LastDigit(t, f, r, p, dot);
    TrimCarry(t, p, p > 0 || dot);
    ValLeadingZero(t);
    hide WellPrinted, Carry;
    if RoundUp(f, r.s, b[end]) { CarryIn(b, end); }
    body := if b[0] == '0' then b[1..end + 1] else b[..end + 1];
    assert b[..end + 1][1..] == b[1..end + 1];
  }

  lemma LastDigit(t: seq<char>, f: nat, r: Parts, p: nat, dot: bool)
    requires |t| >= 2 && t[0] == '0' && WellPrinted(t[1..], p, p > 0 || dot) && f < Pow2(r.s)
    requires Val(t) * Pow2(r.s) + f == Total(r) * Pow10(p)
    requires r.f < Pow2(r.s)
    ensures RoundsHalfEven(if RoundUp(f, r.s, t[|t| - 1]) then Val(t) + 1 else Val(t),
                           Total(r) * Pow10(p), Pow2(r.s))
       <==> !(dot && p == 0 && OddTie(Total(r), Pow2(r.s)))
    ensures dot && p == 0 && OddTie(Total(r), Pow2(r.s)) ==>
              !RoundUp(f, r.s, t[|t| - 1]) && Val(t) == Total(r) / Pow2(r.s)
    ensures Pow2(r.s) == 1 ==> !RoundUp(f, r.s, t[|t| - 1]) && Val(t) == r.ip * Pow10(p)
  {
    var last := t[|t| - 1];
    assert last == t[1..][|t| - 2];
    assert IsDigit(last) <==> !(dot && p == 0);
    if IsDigit(last) { ValParity(t); }
    ValNat(t);
    var n := Val(t);
    hide Val, OddTie, WellPrinted, Shape, Numeral, RoundsHalfEven, Total, Pow10;
    UnitRemainder(n, f, r, p);
    RoundsIff(n, f, r.s, Total(r) * Pow10(p), last);
  }

  lemma UnitRemainder(n: nat, f: nat, r: Parts, p: nat)
    requires n * Pow2(r.s) + f == Total(r) * Pow10(p) && f < Pow2(r.s) && r.f < Pow2(r.s)
    ensures Pow2(r.s) == 1 ==> f == 0 && n == r.ip * Pow10(p)
  {
    hide Pow10;
  }

  lemma ValNat(t: seq<char>)
    requires t != [] && t[0] == '0' && Numeral(t)
    ensures Val(t) >= 0
  {
  }

  // ---- From the parts to the number ----

  lemma SignKept(a: int, k: nat)
    requires k > 0
    ensures (a * k > 0 <==> a > 0) && (a * k == 0 <==> a == 0)
  {
  }

  lemma ScaleDifference(a: int, b: int, k: nat)
    requires k > 0
    ensures (a * k > b * k <==> a > b) && (a * k == b * k <==> a == b)
  {
    SignKept(a - b, k);
    assert (a - b) * k == a * k - b * k;
  }

  lemma ScaleRounds(n: int, num: int, den: int, k: nat)
    requires k > 0
    ensures RoundsHalfEven(n, num * k, den * k) <==> RoundsHalfEven(n, num, den)
  {
    var e := 2 * (n * den - num);
    ErrorScales(n, num, den, k);
    ScaleDifference(e, den, k);
    ScaleDifference(-e, den, k);
    assert (-e) * k == -(e * k);
  }

  lemma ErrorScales(n: int, num: int, den: int, k: nat)
    ensures 2 * (n * (den * k) - num * k) == 2 * (n * den - num) * k
  {
    assert n * (den * k) == n * den * k;
    assert (n * den - num) * k == n * den * k - num * k;
  }

  lemma ScaleTie(num: nat, den: nat, k: nat)
    requires k > 0 && den > 0
    ensures den * k > 0 && (OddTie(num * k, den * k) <==> OddTie(num, den))
  {
    SignKept(den, k);
    ScaleDivision(num, den, k);
    ScaleDifference(2 * (num % den), den, k);
    TwiceTimes(num % den, k);
  }

  lemma TwiceTimes(r: nat, k: nat)
    ensures 2 * r * k == 2 * (r * k)
  {
  }

  lemma ScaleDivision(num: nat, den: nat, k: nat)
    requires k > 0 && den > 0 && den * k > 0
    ensures num * k / (den * k) == num / den && num * k % (den * k) == (num % den) * k
  {
    DivMod(num, den);
    var q, r := num / den, num % den;
    TimesSum(q, den, r, k);
    ScaleDifference(den, r, k);
    DivUnique(num * k, den * k, q, r * k);
  }

  lemma TimesSum(q: nat, den: nat, r: nat, k: nat)
    ensures (q * den + r) * k == q * (den * k) + r * k
  {
    assert q * (den * k) == q * den * k;
  }

  lemma QuotientRemainder(k: nat, q: nat)
    requires q > 0
    ensures Quotient(k, q) * q + Remainder(k, q) == k
  {
    DivMod(k, q);
  }

  /** The parts of a fraction hold m without its low bits. */
  lemma FracTotal(m: nat, s: nat, drop: nat)
    requires m < 2 * BITS52 && drop <= s
    ensures var t, k := Total(SplitFrac(m, s, drop)), Pow2(drop);
            t * k + m % k == m && m % k < k
  {
    var k := Pow2(drop);
    hide Pow2;
    if drop >= 64 {
      Pow2Of64();
      Pow2Grows(64, drop);
      SmallMod(m, k);
    }
    DivMod(m, k);
    QuotientRemainder(if drop >= 64 then 0 else Quotient(m, k), Pow2(s - drop));
  }

  /** An exact number is its parts, both sides of the fraction scaled alike. */
  lemma ExactParts(bits: nat) returns (k: nat)
    requires Exact(bits)
    ensures k > 0 && Numerator(bits) == Total(Split(bits)) * k && Denominator(bits) == Pow2(Split(bits).s) * k
  {
    hide Pow2, Mantissa, Scale, Dropped, Total;
    var ex, d := Scale(bits), Dropped(bits);
    k := if ex < 0 then Pow2(d) else 1;
    if ex >= 0 {
      WholeParts(bits);
    } else {
      MantissaBound(bits);
      DroppedFits(bits);
      FracTotal(Mantissa(bits), -ex, d);
      PowSplit(-ex - d, d);
    }
  }

  lemma DroppedFits(bits: nat)
    requires Scale(bits) < 0
    ensures Dropped(bits) <= -Scale(bits) && -Scale(bits) - Dropped(bits) <= 60
    ensures Dropped(bits) > 0 ==> -Scale(bits) - Dropped(bits) == 60
  {
  }

  lemma TimesBetween(t: nat, k: nat, rest: nat, q: nat)
    requires rest < k && q > 0
    ensures t * (q * k) <= (t * k + rest) * q < (t + 1) * (q * k)
  {
    assert (t * k + rest) * q == t * (q * k) + rest * q;
    assert (t + 1) * (q * k) == t * (q * k) + k * q;
    assert (k - rest) * q > 0;
    assert k * q == rest * q + (k - rest) * q;
  }

  /** The parts are the number cut off below 2^-s; where that loses anything, s
      is 60. */
  lemma PartsTruncate(bits: nat)
    requires Scale(bits) <= 11
    ensures var r := Split(bits);
            && Total(r) * Denominator(bits) <= Numerator(bits) * Pow2(r.s) < (Total(r) + 1) * Denominator(bits)
            && (!Exact(bits) ==> r.s == 60)
  {
    hide Pow2, Mantissa, Scale, Dropped, Total;
    var ex, d := Scale(bits), Dropped(bits);
    if ex < 0 {
      MantissaBound(bits);
      DroppedFits(bits);
      FracTotal(Mantissa(bits), -ex, d);
      PowSplit(-ex - d, d);
      NothingDropped(bits);
      TimesBetween(Total(Split(bits)), Pow2(d), Mantissa(bits) % Pow2(d), Pow2(-ex - d));
    } else {
      WholeParts(bits);
    }
  }

  lemma NothingDropped(bits: nat)
    ensures Dropped(bits) == 0 ==> Mantissa(bits) % Pow2(Dropped(bits)) == 0
  {
    hide Mantissa, Dropped;
    assert Pow2(0) == 1;
  }

  lemma WholeParts(bits: nat)
    requires 0 <= Scale(bits) <= 11
    ensures Total(Split(bits)) == Numerator(bits) && Pow2(Split(bits).s) == Denominator(bits) == 1 && Exact(bits)
  {
    hide Mantissa;
    assert Pow2(0) == 1;
  }

  lemma DivideShrinks(m: nat, d: nat)
    requires d > 0
    ensures m / d <= m && m % d < d
  {
    DivMod(m, d);
    TimesGrows(m / d, d);
  }

  lemma TimesGrows(q: nat, d: nat)
    requires d > 0
    ensures q <= q * d
  {
    assert q * (d - 1) >= 0;
  }

  lemma FracFits(m: nat, s: nat, drop: nat)
    requires drop <= s && s - drop <= 60 && m <= U64_MAX
    ensures SplitFrac(m, s, drop).ip <= U64_MAX && SplitFrac(m, s, drop).f < Pow2(s - drop)
    ensures 10 * Pow2(s - drop) <= U64_MAX
  {
    hide Pow2;
    TenTimes2To60(s - drop);
    DivideShrinks(m, Pow2(drop));
    DivideShrinks(if drop >= 64 then 0 else m / Pow2(drop), Pow2(s - drop));
  }

  lemma TenTimes2To60(s: nat)
    requires s <= 60
    ensures 10 * Pow2(s) <= U64_MAX
  {
    Pow2Of64();
    PowSplit(60, 4);
    assert Pow2(4) == 16;
    hide Pow2;
    Pow2Grows(s, 60);
  }

  /** What the split yields fits its u64 fields, and so does ten times f. */
  lemma PartsFit(bits: nat)
    ensures Split(bits).ip <= U64_MAX && Split(bits).f < Pow2(Split(bits).s) && Split(bits).s <= 60
    ensures 10 * Pow2(Split(bits).s) <= U64_MAX
    ensures Scale(bits) > 11 ==> Split(bits) == Parts(U64_MAX, 0, 0)
  {
    MantissaBound(bits);
    var ex, m := Scale(bits), Mantissa(bits);
    assert Pow2(0) == 1;
    if ex < 0 {
      FracFits(m, -ex, Dropped(bits));
    } else if ex <= 11 {
      Pow2Grows(ex, 11);
      assert Pow2(11) == 2048;
      hide Pow2, Mantissa;
      assert m * Pow2(ex) <= m * 2048;
    }
  }

  /** The number a binary64 stands for: 11 bits of exponent over 52 of fraction, an
      implicit bit unless the exponent is 0. */
  lemma BinaryValue(bits: nat)
    ensures var e, m := bits / 0x10_0000_0000_0000, bits % 0x10_0000_0000_0000;
            && (e == 0 ==> Numerator(bits) * Pow2(1074) == m * Denominator(bits))
            && (e > 0 ==> Numerator(bits) * Pow2(1075) == (0x10_0000_0000_0000 + m) * Pow2(e) * Denominator(bits))
  {
    hide Pow2;
    var e := bits / 0x10_0000_0000_0000;
    if e > 1075 {
      PowSplit(e - 1075, 1075);
      TimesThree(Mantissa(bits), Pow2(e - 1075), Pow2(1075));
    } else if e > 0 {
      PowSplit(e, 1075 - e);
      TimesThree(Mantissa(bits), Pow2(e), Pow2(1075 - e));
      WholeUnit();
    }
  }

  lemma TimesThree(a: nat, b: nat, c: nat)
    ensures a * b * c == a * (b * c)
  {
  }

  lemma WholeUnit()
    ensures Pow2(0) == 1
  {
  }

  lemma LargeIff(bits: nat)
    ensures Scale(bits) > 11 <==> Numerator(bits) >= 0x1_0000_0000_0000_0000 * Denominator(bits)
  {
    MantissaBound(bits);
    var ex, m := Scale(bits), Mantissa(bits);
    assert Pow2(12) == 4096 && Pow2(11) == 2048;
    hide Pow2, Mantissa;
    if ex > 11 {
      Pow2Grows(12, ex);
      TimesBoth(0x10_0000_0000_0000, m, 4096, Pow2(ex));
    } else if ex >= 0 {
      Pow2Grows(ex, 11);
      TimesBoth(m, 0x20_0000_0000_0000 - 1, Pow2(ex), 2048);
    }
  }

  lemma TimesBoth(a: nat, b: nat, c: nat, d: nat)
    requires a <= b && c <= d
    ensures a * c <= b * d
  {
    assert a * c <= b * c;
    assert b * c <= b * d;
  }

  /** %f of a finite binary64 whose sign is off. What is printed is the number
      cut off below 2^-60, rounded half to even, unless '#' asks for a bare point
      and that is half way above an odd integer: then the odd integer is. For a
      number below 2^64 with no bits below 2^-60 it is the number itself that is
      rounded; from 2^64 on, 2^64 - 1. */
  method EmitDec(bits: nat, prec: int, hash: bool) returns (body: seq<char>)
    requires Exponent(bits) < 0x7ff
    ensures var p := if prec < 0 then 6 else if prec > 40 then 40 else prec;
            WellPrinted(body, p, p > 0 || hash)
    ensures var r := Split(bits);
            && r.s <= 60
            && (RoundsHalfEven(Val(body), Total(r) * Pow10(Precision(prec)), Pow2(r.s))
            <==> !(hash && Precision(prec) == 0 && OddTie(Total(r), Pow2(r.s))))
    ensures Exact(bits) ==>
              (RoundsHalfEven(Val(body), Numerator(bits) * Pow10(Precision(prec)), Denominator(bits))
          <==> !(hash && Precision(prec) == 0 && OddTie(Numerator(bits), Denominator(bits))))
    ensures Exact(bits) && hash && Precision(prec) == 0 && OddTie(Numerator(bits), Denominator(bits)) ==>
              Val(body) == Numerator(bits) / Denominator(bits)
    ensures Numerator(bits) >= 0x1_0000_0000_0000_0000 * Denominator(bits) ==>
              Val(body) == 0xFFFF_FFFF_FFFF_FFFF * Pow10(Precision(prec))
  {
    var p, r := Precision(prec), Split(bits);
    PartsFit(bits);
    LargeIff(bits);
    assert Pow2(0) == 1;
    hide Split, Pow2, Val, RoundsHalfEven, OddTie, WellPrinted, Exact, Numerator, Denominator, Pow10, Total, Scale;
    body := EmitParts(r, p, hash);
    if Exact(bits) { RoundsNumber(bits, p, Val(body)); }
  }

  /** For an exact number the parts and the number round and tie alike. */
  lemma RoundsNumber(bits: nat, p: nat, n: int)
    requires Exact(bits)
    ensures RoundsHalfEven(n, Numerator(bits) * Pow10(p), Denominator(bits))
       <==> RoundsHalfEven(n, Total(Split(bits)) * Pow10(p), Pow2(Split(bits).s))
    ensures OddTie(Numerator(bits), Denominator(bits)) <==> OddTie(Total(Split(bits)), Pow2(Split(bits).s))
    ensures Numerator(bits) / Denominator(bits) == Total(Split(bits)) / Pow2(Split(bits).s)
  {
    var k := ExactParts(bits);
    var t, d := Total(Split(bits)), Pow2(Split(bits).s);
    hide Total, Split, Pow2, RoundsHalfEven, OddTie, Numerator, Denominator, Exact;
    ScaleRounds(n, t * Pow10(p), d, k);
    ScaleTie(t, d, k);
    ScaleDivision(t, d, k);
    TimesSwap(t, k, Pow10(p));
  }

  lemma TimesSwap(t: nat, k: nat, q: nat)
    ensures t * k * q == t * q * k
  {
  }

  /** 2251799813685249.5 is half way above an odd integer: "%#.0f" prints it
      with the odd one. */
  lemma HashRoundsDown(bits: nat)
    requires bits == 1074 * BITS52 + 3
    ensures Exact(bits) && OddTie(Numerator(bits), Denominator(bits))
    ensures Numerator(bits) / Denominator(bits) == 2251799813685249
  {
    assert Exponent(bits) == 1074 && Mantissa(bits) == BITS52 + 3;
    assert Pow2(1) == 2 && Pow2(0) == 1;
  }
}
