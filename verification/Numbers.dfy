/** Decimal numerals: what `%lu` prints and what `cq_parse_ll` reads (src/cq_codec.c). */
module Numbers {
  import opened Bytes

  const ZERO: byte := 48

  predicate IsDigit(b: byte) { ZERO <= b <= 57 }
  predicate IsBlank(b: byte) { b == 32 || 9 <= b <= 13 }

  function Decimal(n: nat): (r: seq<byte>)
    ensures |r| >= 1 && forall b :: b in r ==> IsDigit(b)
  {
    if n < 10 then [ZERO + n] else Decimal(n / 10) + [ZERO + n % 10]
  }

  /** The value of a run of digits. */
  function Number(digits: seq<byte>): nat
    requires forall b :: b in digits ==> IsDigit(b)
  {
    if digits == [] then 0
    else
      assert IsDigit(digits[|digits| - 1]);
      var head: nat := Number(digits[..|digits| - 1]);
      10 * head + (digits[|digits| - 1] - ZERO)
  }

  lemma {:induction false} NumberOfDecimal(n: nat)
    ensures Number(Decimal(n)) == n
  {
    var d := Decimal(n);
    if n >= 10 {
      NumberOfDecimal(n / 10);
      assert d[..|d| - 1] == Decimal(n / 10);
    } else {
      assert d[..0] == [];
    }
  }

  lemma DecimalInjective(m: nat, n: nat)
    requires Decimal(m) == Decimal(n)
    ensures m == n
  {
    NumberOfDecimal(m);
    NumberOfDecimal(n);
  }

  function Pow10(n: nat): (r: nat)
    ensures r >= 1
  {
    if n == 0 then 1 else 10 * Pow10(n - 1)
  }

  /** A numeral has at most `k` digits exactly below 10^k. */
  lemma {:induction false} DecimalLength(n: nat, k: nat)
    requires k >= 1
    ensures |Decimal(n)| <= k <==> n < Pow10(k)
  {
    if k == 1 {
      assert Pow10(1) == 10 * Pow10(0);
    } else if n >= 10 {
      DecimalLength(n / 10, k - 1);
      assert n / 10 < Pow10(k - 1) <==> n < 10 * Pow10(k - 1);
    } else {
      assert Pow10(k) == 10 * Pow10(k - 1);
    }
  }

  // ---- cq_parse_ll ----------------------------------------------------------------------------

  /** How many leading bytes satisfy the test. */
  function Blanks(s: seq<byte>): (n: nat)
    ensures n <= |s|
  {
    if s != [] && IsBlank(s[0]) then 1 + Blanks(s[1..]) else 0
  }

  function Digits(s: seq<byte>): (n: nat)
    ensures n <= |s| && forall b :: b in s[..n] ==> IsDigit(b)
  {
    if s != [] && IsDigit(s[0]) then
      assert s[..1 + Digits(s[1..])] == [s[0]] + s[1..][..Digits(s[1..])];
      1 + Digits(s[1..])
    else 0
  }

  predicate IsSign(b: byte) { b == 43 || b == 45 }

  /** Blanks, at most one sign, then digits; whatever follows is ignored. */
  function LongLong(s: Option<seq<byte>>): int {
    if s.None? then 0
    else
      var t := s.value[Blanks(s.value)..];
      var u := if t != [] && IsSign(t[0]) then t[1..] else t;
      var v := Number(u[..Digits(u)]);
      if t != [] && t[0] == 45 then 0 - v else v
  }

  method ParseLongLong(s: Option<seq<byte>>) returns (v: int)
    ensures v == LongLong(s)
  {
    hide Number, Blanks, Digits;
    if s.None? { return 0; }
    var p := s.value;
    var i := SkipBlanks(p);
    ghost var t := p[i..];
    var neg := false;
    if i < |p| && IsSign(p[i]) {
      neg := p[i] == 45;
      i := i + 1;
      assert p[i..] == t[1..];
    }
    v := ReadDigits(p, i);
    if neg { v := 0 - v; }
  }

  method SkipBlanks(p: seq<byte>) returns (i: nat)
    ensures i == Blanks(p)
  {
    i := 0;
    assert p[0..] == p;
    while i < |p| && IsBlank(p[i])
      invariant i <= |p| && Blanks(p) == i + Blanks(p[i..])
    {
      assert p[i..][1..] == p[i + 1..];
      i := i + 1;
    }
  }

  method ReadDigits(p: seq<byte>, at: nat) returns (v: nat)
    requires at <= |p|
    ensures v == Number(p[at..][..Digits(p[at..])])
  {
    hide Number;
    ghost var u := p[at..];
    var i := at;
    v := 0;
    NumberStart(u);
    while i < |p| && IsDigit(p[i])
      invariant at <= i <= |p| && Digits(u) == (i - at) + Digits(p[i..])
      invariant v == Number(u[..i - at])
    {
      assert p[i..][1..] == p[i + 1..];
      NumberStep(u, i - at);
      v := v * 10 + (p[i] - ZERO);
      i := i + 1;
    }
  }

  lemma NumberStart(u: seq<byte>)
    ensures Number(u[..0]) == 0
  {
  }

  lemma NumberStep(u: seq<byte>, k: nat)
    requires k < |u| && k < Digits(u)
    ensures forall b :: b in u[..k] ==> IsDigit(b)
    ensures forall b :: b in u[..k + 1] ==> IsDigit(b)
    ensures Number(u[..k + 1]) == 10 * Number(u[..k]) + (u[k] - ZERO)
  {
    assert forall j :: 0 <= j < Digits(u) ==> u[j] in u[..Digits(u)];
    assert u[..k + 1][..k] == u[..k];
  }

  function Signed(v: int): seq<byte> {
    if v < 0 then [45] + Decimal(-v) else Decimal(v)
  }

  /** A printed number reads back, after any blanks and before anything but a digit. */
  lemma LongLongReadsBack(blanks: seq<byte>, v: int, rest: seq<byte>)
    requires forall b :: b in blanks ==> IsBlank(b)
    requires rest == [] || !IsDigit(rest[0])
    ensures LongLong(Some(blanks + Signed(v) + rest)) == v
  {
    hide Number, Blanks, Digits, Decimal;
    var n: nat := if v < 0 then 0 - v else v;
    var d, t := Decimal(n), Signed(v) + rest;
    assert d[0] in d;
    BlanksOf(blanks, t);
    assert blanks + Signed(v) + rest == blanks + t;
    assert (blanks + t)[|blanks|..] == t;
    var u := if t != [] && IsSign(t[0]) then t[1..] else t;
    assert u == d + rest;
    DigitsOf(d, rest);
    NumberOfDecimal(n);
    assert u[..|d|] == d;
  }

  lemma {:induction false} BlanksOf(blanks: seq<byte>, rest: seq<byte>)
    requires forall b :: b in blanks ==> IsBlank(b)
    requires rest != [] && !IsBlank(rest[0])
    ensures Blanks(blanks + rest) == |blanks|
  {
    if blanks == [] {
      assert blanks + rest == rest;
    } else {
      BlanksOf(blanks[1..], rest);
      assert (blanks + rest)[1..] == blanks[1..] + rest;
    }
  }

  lemma {:induction false} DigitsOf(digits: seq<byte>, rest: seq<byte>)
    requires forall b :: b in digits ==> IsDigit(b)
    requires rest == [] || !IsDigit(rest[0])
    ensures Digits(digits + rest) == |digits|
  {
    if digits == [] {
      assert digits + rest == rest;
    } else {
      DigitsOf(digits[1..], rest);
      assert (digits + rest)[1..] == digits[1..] + rest;
    }
  }
}
