/** The bit reader of the Layer III decoder (src/minimp3.h, `bs_t` and `get_bits`). */
module Bits {
  import opened Arithmetic
  import opened Bytes

  /** Bit `k` of the buffer, most significant bit of each byte first. */
  function Bit(buf: seq<byte>, k: nat): (b: nat)
    requires k < 8 * |buf|
    ensures b <= 1
  {
    buf[k / 8] / Pow2(7 - k % 8) % 2
  }

  /** The number the `n` bits from `pos` on spell. */
  function Value(buf: seq<byte>, pos: nat, n: nat): (v: nat)
    requires pos + n <= 8 * |buf|
  {
    if n == 0 then 0 else 2 * Value(buf, pos, n - 1) + Bit(buf, pos + n - 1)
  }

  /** What a read returns: nothing is left once it would pass the end. */
  function Got(buf: seq<byte>, pos: nat, n: nat): nat {
    if pos + n > 8 * |buf| then 0 else Value(buf, pos, n)
  }

  lemma {:induction false} ValueBound(buf: seq<byte>, pos: nat, n: nat)
    requires pos + n <= 8 * |buf|
    ensures Value(buf, pos, n) < Pow2(n)
  {
    if n > 0 { ValueBound(buf, pos, n - 1); }
  }

  /** Adjacent fields concatenate. */
  lemma {:induction false} ValueConcat(buf: seq<byte>, pos: nat, a: nat, b: nat)
    requires pos + a + b <= 8 * |buf|
    ensures Value(buf, pos, a + b) == Value(buf, pos, a) * Pow2(b) + Value(buf, pos + a, b)
  {
    hide Bit;
    if b > 0 {
      ValueConcat(buf, pos, a, b - 1);
      Doubled(Value(buf, pos, a), Pow2(b - 1));
    }
  }

  /** A field is the head of a longer one shifted right, and its tail masked. */
  lemma ValueShift(buf: seq<byte>, pos: nat, a: nat, b: nat)
    requires pos + a + b <= 8 * |buf|
    ensures Value(buf, pos, a + b) / Pow2(b) == Value(buf, pos, a)
    ensures Value(buf, pos, a + b) % Pow2(b) == Value(buf, pos + a, b)
  {
    hide Value, Pow2;
    ValueConcat(buf, pos, a, b);
    ValueBound(buf, pos + a, b);
    DivSplit(Value(buf, pos, a), Pow2(b), Value(buf, pos + a, b));
  }

  lemma LastBit(buf: seq<byte>, pos: nat, i: nat)
    requires pos + i < 8 * |buf|
    ensures Value(buf, pos, i + 1) % 2 == Bit(buf, pos + i)
  {
    hide Bit;
  }

  /** The value of a field determines every bit of it. */
  lemma BitOfValue(buf: seq<byte>, pos: nat, n: nat, i: nat)
    requires pos + n <= 8 * |buf| && i < n
    ensures Value(buf, pos, n) / Pow2(n - 1 - i) % 2 == Bit(buf, pos + i)
  {
    hide Bit, Pow2;
    ValueShift(buf, pos, i + 1, n - 1 - i);
    LastBit(buf, pos, i);
  }

  lemma {:induction false} HeadOfByte(buf: seq<byte>, j: nat, k: nat)
    requires j < |buf| && k <= 8
    ensures Value(buf, 8 * j, k) == buf[j] / Pow2(8 - k)
  {
    if k == 0 {
      EightBits(buf[j]);
    } else {
      HeadOfByte(buf, j, k - 1);
      assert (8 * j + k - 1) / 8 == j && (8 * j + k - 1) % 8 == k - 1;
      HalfDiv(buf[j], Pow2(8 - k));
    }
  }

  lemma EightBits(x: byte)
    ensures x < Pow2(8) && x / Pow2(8) == 0 && x % Pow2(8) == x
  {
    assert Pow2(4) == 16 && Pow2(6) == 64;
  }

  lemma ByteIsValue(buf: seq<byte>, j: nat)
    requires j < |buf|
    ensures Value(buf, 8 * j, 8) == buf[j]
  {
    HeadOfByte(buf, j, 8);
  }

  /** The rest of a byte from bit `s` on is the byte under the mask `255 >> s`. */
  lemma RestOfByte(buf: seq<byte>, j: nat, s: nat)
    requires j < |buf| && s < 8
    ensures Value(buf, 8 * j + s, 8 - s) == buf[j] % Pow2(8 - s)
  {
    ByteIsValue(buf, j);
    ValueShift(buf, 8 * j, s, 8 - s);
  }

  /** One turn of the reader's loop: `cache` takes in the `m` bits held in `next`. */
  lemma TakeIn(buf: seq<byte>, pos: nat, k: nat, m: nat, n: nat)
    requires k + m <= n && pos + n <= 8 * |buf|
    ensures Value(buf, pos, k) * Pow2(n - k) + Value(buf, pos + k, m) * Pow2(n - k - m)
            == Value(buf, pos, k + m) * Pow2(n - k - m)
  {
    hide Value, Pow2;
    ValueConcat(buf, pos, k, m);
    PowAdd(m, n - k - m);
    Product(Value(buf, pos, k), Pow2(m), Value(buf, pos + k, m), Pow2(n - k - m));
  }

  class BitReader {
    const buf: seq<byte>
    var pos: nat

    constructor (data: seq<byte>)
      ensures buf == data && pos == 0
    {
      buf, pos := data, 0;
    }

    function Limit(): nat {
      8 * |buf|
    }

    /**
     * Reads `n` bits. The two operands of each `|` have no bit in common, `cache` being a
     * multiple of 256 << shl and `next` at most 255, so `|` is written `+`.
     */
    method GetBits(n: nat) returns (v: nat)
      requires 1 <= n <= 32
      modifies this
      ensures pos == old(pos) + n
      ensures v == Got(buf, old(pos), n)
    {
      hide Value, Pow2;
      ghost var at: nat := pos;
      var s, p := pos % 8, pos / 8;
      var shl: int := n + s;
      pos := pos + n;
      if pos > Limit() { return 0; }
      ghost var k: nat, m: nat := 0, 8 - s;
      RestOfByte(buf, p, s);
      var cache: nat, next: nat := 0, buf[p] % Pow2(8 - s);
      p := p + 1;
      shl := shl - 8;
      EmptyValue(buf, at, n);
      while shl > 0
        invariant shl == n - (k + m) && 1 <= m <= 8 && 8 * p == at + k + m && k <= n
        invariant at + k + m <= 8 * |buf| && pos == at + n <= 8 * |buf|
        invariant next == Value(buf, at + k, m) && cache == Value(buf, at, k) * Pow2(n - k)
      {
        TakeIn(buf, at, k, m, n);
        cache := cache + next * Pow2(shl);
        RestOfByte(buf, p, 0);
        EightBits(buf[p]);
        next := buf[p];
        p := p + 1;
        k, m := k + m, 8;
        shl := shl - 8;
      }
      LastBits(buf, at, k, m, n);
      v := cache + next / Pow2(-shl);
    }
  }

  lemma EmptyValue(buf: seq<byte>, pos: nat, n: nat)
    requires pos <= 8 * |buf|
    ensures Value(buf, pos, 0) * Pow2(n) == 0
  {
  }

  lemma LastBits(buf: seq<byte>, pos: nat, k: nat, m: nat, n: nat)
    requires k <= n <= k + m && pos + k + m <= 8 * |buf|
    ensures Value(buf, pos, k) * Pow2(n - k) + Value(buf, pos + k, m) / Pow2(k + m - n) == Value(buf, pos, n)
  {
    hide Value, Pow2;
    ValueShift(buf, pos + k, n - k, k + m - n);
    ValueConcat(buf, pos, k, n - k);
  }

  // ---- consecutive reads ---------------------------------------------------------------------

  function Sum(ns: seq<nat>): nat {
    if ns == [] then 0 else ns[0] + Sum(ns[1..])
  }

  /** The results of reading fields of the given widths one after the other. */
  function Reads(buf: seq<byte>, pos: nat, ns: seq<nat>): (vs: seq<nat>)
    ensures |vs| == |ns|
    decreases |ns|
  {
    if ns == [] then [] else [Got(buf, pos, ns[0])] + Reads(buf, pos + ns[0], ns[1..])
  }

  /** The fields written one after the other. */
  function Joined(vs: seq<nat>, ns: seq<nat>): nat
    requires |vs| == |ns|
  {
    if ns == [] then 0 else vs[0] * Pow2(Sum(ns[1..])) + Joined(vs[1..], ns[1..])
  }

  /** However a stretch of bits is cut into fields, the fields spell that stretch. */
  lemma {:induction false} ReadsConcatenate(buf: seq<byte>, pos: nat, ns: seq<nat>)
    requires pos + Sum(ns) <= 8 * |buf|
    ensures Joined(Reads(buf, pos, ns), ns) == Value(buf, pos, Sum(ns))
    decreases |ns|
  {
    hide Bit, Pow2;
    if ns != [] {
      hide Value;
      ReadsConcatenate(buf, pos + ns[0], ns[1..]);
      ValueConcat(buf, pos, ns[0], Sum(ns[1..]));
    }
  }

  /** Once a read has passed the end, every later one returns 0. */
  lemma {:induction false} ReadsPastEnd(buf: seq<byte>, pos: nat, ns: seq<nat>)
    requires pos > 8 * |buf|
    ensures forall v :: v in Reads(buf, pos, ns) ==> v == 0
    decreases |ns|
  {
    if ns != [] {
      ReadsPastEnd(buf, pos + ns[0], ns[1..]);
    }
  }
}
