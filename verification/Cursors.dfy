/**
 * The cursor discipline both rings share (src/cq_decring.h, lines 13-38): byte
 * counters kept in 32-bit unsigned words, an array slot at counter modulo size.
 */
module Cursors {
  import opened Arithmetic
  import opened Bytes

  const WRAP: nat := 0x1_0000_0000

  type cursor = c: nat | c < WRAP

  /** Unsigned 32-bit difference and sum. */
  function Sub(a: cursor, b: cursor): cursor { (a - b) % WRAP }
  function Plus(a: cursor, n: nat): cursor { (a + n) % WRAP }

  predicate RingSize(size: nat) {
    0 < size < WRAP && WRAP % size == 0
  }

  /** An offset from a wrapped counter names the same slot when the size divides the wrap. */
  lemma WrapKeepsSlot(x: nat, i: nat, size: nat)
    requires RingSize(size)
    ensures (x % WRAP + i) % size == (x + i) % size
  {
    var k, q := WRAP / size, x / WRAP;
    assert WRAP == k * size;
    assert x == x % WRAP + q * WRAP;
    assert q * WRAP == (q * k) * size by { assert q * (k * size) == (q * k) * size; }
    ModAdd(x % WRAP + i, q * k, size);
  }

  /** Wrapped offsets are right for every counter exactly when the size divides 2^32. */
  lemma WrapExact(size: nat)
    requires 0 < size < WRAP
    ensures (forall x: nat :: (x % WRAP) % size == x % size) <==> WRAP % size == 0
  {
    if WRAP % size == 0 {
      forall x: nat ensures (x % WRAP) % size == x % size {
        WrapKeepsSlot(x, 0, size);
      }
    } else {
      assert (WRAP % WRAP) % size == 0;
    }
  }

  /** Counters less than a size apart never share a slot. */
  lemma SlotsDistinct(i: nat, j: nat, size: nat)
    requires size > 0 && i < j < i + size
    ensures i % size != j % size
  {
    var d := j / size - i / size;
    assert size * (j / size - i / size) == size * (j / size) - size * (i / size);
    if i % size == j % size {
      assert j - i == size * d;
      SmallMultiple(d, size);
    }
  }

  /** `(x + k) % size` without wrapping past the end, or after it. */
  lemma SlotOffset(x: nat, k: nat, size: nat)
    requires size > 0 && k < size
    ensures (x + k) % size == if x % size + k < size then x % size + k else x % size + k - size
  {
    var q, s := x / size, x % size + k;
    assert x + k == size * q + s;
    if s < size {
      QuotientUnique(x + k, size, q, s);
    } else {
      assert size * (q + 1) == size * q + size;
      QuotientUnique(x + k, size, q + 1, s - size);
    }
  }

  lemma SumOfSub(wr: cursor, rd: cursor, n: nat)
    requires Sub(wr, rd) + n < WRAP
    ensures Sub(Plus(wr, n), rd) == Sub(wr, rd) + n
  {
    var q := (wr + n) / WRAP;
    assert Plus(wr, n) == wr + n - q * WRAP;
    assert Sub(wr, rd) == if wr >= rd then wr - rd else wr - rd + WRAP;
    assert q == if wr + n < WRAP then 0 else 1;
  }

  lemma SubOfSum(wr: cursor, rd: cursor, n: nat)
    requires n <= Sub(wr, rd)
    ensures Sub(wr, Plus(rd, n)) == Sub(wr, rd) - n
  {
    assert Sub(wr, rd) == if wr >= rd then wr - rd else wr - rd + WRAP;
  }

  /** The slot `i` past a counter, counted back from that counter. */
  lemma SlotBack(w: nat, i: nat, size: nat)
    requires i < size
    ensures ((w + i) % size - w) % size == i
  {
    var q := (w + i) / size;
    assert (w + i) % size - w == i + (0 - q) * size;
    ModAdd(i, 0 - q, size);
    QuotientUnique(i, size, 0, i);
  }

  // ---- a ring of counters ------------------------------------------------------

  datatype Move = Put(n: nat) | Take(n: nat)

  /** What both sides of a ring can see of it. */
  datatype Sight = Sight(fill: nat, wrSlot: nat, rdSlot: nat)

  datatype Wide = Wide(wr: nat, rd: nat)
  datatype Narrow = Narrow(wr: cursor, rd: cursor)

  function WideSight(w: Wide, size: nat): Sight
    requires size > 0 && w.rd <= w.wr
  {
    Sight(w.wr - w.rd, w.wr % size, w.rd % size)
  }

  function NarrowSight(c: Narrow, size: nat): Sight
    requires size > 0
  {
    Sight(Sub(c.wr, c.rd), c.wr % size, c.rd % size)
  }

  /** Moves beyond the visible space or fill are refused. */
  function WideStep(w: Wide, m: Move, size: nat): Wide
    requires w.rd <= w.wr
  {
    match m
    case Put(n) => if w.wr - w.rd + n <= size then w.(wr := w.wr + n) else w
    case Take(n) => if n <= w.wr - w.rd then w.(rd := w.rd + n) else w
  }

  function NarrowStep(c: Narrow, m: Move, size: nat): Narrow {
    match m
    case Put(n) => if Sub(c.wr, c.rd) + n <= size then c.(wr := Plus(c.wr, n)) else c
    case Take(n) => if n <= Sub(c.wr, c.rd) then c.(rd := Plus(c.rd, n)) else c
  }

  ghost predicate Tracks(c: Narrow, w: Wide, size: nat) {
    w.rd <= w.wr <= w.rd + size && c.wr == w.wr % WRAP && c.rd == w.rd % WRAP
  }

  lemma FillTracks(c: Narrow, w: Wide, size: nat)
    requires RingSize(size) && Tracks(c, w, size)
    ensures Sub(c.wr, c.rd) == w.wr - w.rd
  {
    var d := w.wr - w.rd;
    assert c.wr - c.rd == d + (w.rd / WRAP - w.wr / WRAP) * WRAP;
    ModAdd(d, w.rd / WRAP - w.wr / WRAP, WRAP);
  }

  lemma PlusTracks(x: nat, n: nat)
    ensures Plus(x % WRAP, n) == (x + n) % WRAP
  {
    assert x + n == (x % WRAP + n) + x / WRAP * WRAP;
    ModAdd(x % WRAP + n, x / WRAP, WRAP);
  }

  function WideRun(w: Wide, ms: seq<Move>, size: nat): Wide
    requires w.rd <= w.wr
    decreases |ms|
  {
    if ms == [] then w else WideRun(WideStep(w, ms[0], size), ms[1..], size)
  }

  function NarrowRun(c: Narrow, ms: seq<Move>, size: nat): Narrow
    decreases |ms|
  {
    if ms == [] then c else NarrowRun(NarrowStep(c, ms[0], size), ms[1..], size)
  }

  /**
   * On every run, however far past 2^32 bytes, the wrapped ring shows the same fill and
   * the same two slots as one with unbounded counters, and the fill stays within its size.
   */
  lemma {:induction false} NarrowRefinesWide(c: Narrow, w: Wide, ms: seq<Move>, size: nat)
    requires RingSize(size) && Tracks(c, w, size)
    ensures var c', w' := NarrowRun(c, ms, size), WideRun(w, ms, size);
            && Tracks(c', w', size)
            && w'.rd <= w'.wr
            && NarrowSight(c', size) == WideSight(w', size)
            && NarrowSight(c', size).fill <= size
    decreases |ms|
  {
    FillTracks(c, w, size);
    if ms == [] {
      WrapKeepsSlot(w.wr, 0, size);
      WrapKeepsSlot(w.rd, 0, size);
    } else {
      match ms[0] {
        case Put(n) => PlusTracks(w.wr, n);
        case Take(n) => PlusTracks(w.rd, n);
      }
      NarrowRefinesWide(NarrowStep(c, ms[0], size), WideStep(w, ms[0], size), ms[1..], size);
    }
  }
}
