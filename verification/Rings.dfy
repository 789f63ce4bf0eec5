/** The bytes of a ring between its two cursors, and the two wrap-aware copies. */
module Rings {
  import opened Arithmetic
  import opened Bytes
  import opened Cursors

  /** `n` bytes of the ring `buf` from counter `at` on. */
  function Unread(buf: seq<byte>, at: nat, n: nat): (r: seq<byte>)
    requires |buf| > 0
    ensures |r| == n
  {
    seq(n, i requires 0 <= i < n => buf[(at + i) % |buf|])
  }

  lemma UnreadDrop(buf: seq<byte>, at: nat, k: nat, n: nat)
    requires RingSize(|buf|) && k <= n
    ensures Unread(buf, (at + k) % WRAP, n - k) == Unread(buf, at, n)[k..]
    ensures Unread(buf, at, k) == Unread(buf, at, n)[..k]
  {
    var dropped, whole := Unread(buf, (at + k) % WRAP, n - k), Unread(buf, at, n);
    forall i | 0 <= i < n - k ensures dropped[i] == whole[k..][i] {
      WrapKeepsSlot(at + k, i, |buf|);
      assert whole[k..][i] == whole[k + i];
    }
  }

  lemma UnreadWrapped(buf: seq<byte>, at: nat, n: nat)
    requires RingSize(|buf|)
    ensures Unread(buf, at % WRAP, n) == Unread(buf, at, n)
  {
    UnreadDrop(buf, at, 0, n);
  }

  /** `after` is `before` with `data` written from counter `w` on. */
  ghost predicate Stored(before: seq<byte>, after: seq<byte>, w: nat, data: seq<byte>) {
    && |after| == |before| > 0
    && Unread(after, w, |data|) == data
    && (forall x | w + |data| <= x < w + |before| :: after[x % |before|] == before[x % |before|])
  }

  /** Writing past the unread bytes keeps them and appends. */
  lemma StoreAppends(before: seq<byte>, after: seq<byte>, at: nat, n: nat, data: seq<byte>)
    requires Stored(before, after, at + n, data) && n + |data| <= |before|
    ensures Unread(after, at, n + |data|) == Unread(before, at, n) + data
  {
    var size, u := |before|, Unread(after, at, n + |data|);
    forall i | 0 <= i < n ensures u[i] == before[(at + i) % size] {
      ModStep(at + i, size);
      assert at + n + |data| <= at + i + size < at + n + size;
    }
    forall i | n <= i < n + |data| ensures u[i] == data[i - n] {
      assert Unread(after, at + n, |data|)[i - n] == after[(at + n + (i - n)) % size];
    }
  }

  /** Two `memcpy` calls out of a ring into a flat buffer. */
  method CopyOut(ring: array<byte>, rd: nat, n: nat, dst: array<byte>, at: nat)
    requires 0 < ring.Length && n <= ring.Length && at + n <= dst.Length && ring != dst
    modifies dst
    ensures dst[at..at + n] == Unread(ring[..], rd, n)
    ensures dst[..at] == old(dst[..at]) && dst[at + n..] == old(dst[at + n..])
  {
    var s := rd % ring.Length;
    var first := Min(ring.Length - s, n);
    forall i | 0 <= i < first { dst[at + i] := ring[s + i]; }
    forall i | first <= i < n { dst[at + i] := ring[i - first]; }
    forall i | 0 <= i < n ensures dst[at..at + n][i] == Unread(ring[..], rd, n)[i] {
      SlotOffset(rd, i, ring.Length);
    }
  }

  /** Two `memcpy` calls from a flat buffer into a ring. */
  method CopyIn(data: seq<byte>, ring: array<byte>, wr: nat)
    requires 0 < ring.Length && |data| <= ring.Length
    modifies ring
    ensures Stored(old(ring[..]), ring[..], wr, data)
  {
    var s := wr % ring.Length;
    var first := Min(ring.Length - s, |data|);
    forall i | 0 <= i < first { ring[s + i] := data[i]; }
    forall i | first <= i < |data| { ring[i - first] := data[i]; }
    ghost var size := ring.Length;
    forall i | 0 <= i < |data| ensures Unread(ring[..], wr, |data|)[i] == data[i] {
      SlotOffset(wr, i, size);
    }
    forall x | wr + |data| <= x < wr + size ensures ring[..][x % size] == old(ring[..])[x % size] {
      SlotOffset(wr, x - wr, size);
    }
  }
}
