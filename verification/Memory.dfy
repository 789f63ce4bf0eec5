/** The C library's copies, on arrays. */
module Memory {
  import opened Bytes

  /** `memcpy` between two buffers. */
  method CopyBytes(src: array<byte>, from: nat, n: nat, dst: array<byte>, at: nat)
    requires from + n <= src.Length && at + n <= dst.Length && src != dst
    modifies dst
    ensures dst[at..at + n] == src[from..from + n]
    ensures dst[..at] == old(dst[..at]) && dst[at + n..] == old(dst[at + n..])
  {
    forall i | 0 <= i < n { dst[at + i] := src[from + i]; }
  }

  /** `memcpy` of given bytes. */
  method PutBytes(data: seq<byte>, dst: array<byte>, at: nat)
    requires at + |data| <= dst.Length
    modifies dst
    ensures dst[at..at + |data|] == data
    ensures dst[..at] == old(dst[..at]) && dst[at + |data|..] == old(dst[at + |data|..])
  {
    forall i | 0 <= i < |data| { dst[at + i] := data[i]; }
  }

  /** `memmove` to the front of the same buffer. */
  method MoveToFront(a: array<byte>, from: nat, n: nat)
    requires from + n <= a.Length
    modifies a
    ensures a[..n] == old(a[from..from + n])
  {
    forall i | 0 <= i < n { a[i] := a[from + i]; }
  }
}
