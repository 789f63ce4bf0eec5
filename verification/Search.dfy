/** What the decoder's search comes to, without its loops (src/minimp3.h, lines 1671-1706). */
module Search {
  import opened Bytes
  import opened Mp3
  import opened Minimp3
  import opened FrameSelect

  /** The search may take the header at `i`, with the length its bits or its successors give. */
  predicate TakenAt(buf: seq<byte>, i: nat) {
    i + 4 < |buf| && HdrValid(At(buf, i)) && Takes(buf, i, ScanAt(buf, i, 0))
  }

  /** It takes the first one it may, and otherwise passes over everything. */
  lemma {:induction false} FirstTaken(buf: seq<byte>, i: nat)
    ensures var r := FindFrom(buf, i, 0);
            || ((forall j: nat :: i <= j ==> !TakenAt(buf, j)) && r == Found(|buf|, 0, 0))
            || (i <= r.off && TakenAt(buf, r.off) && (forall j: nat :: i <= j < r.off ==> !TakenAt(buf, j))
                && r == Found(r.off, ScanAt(buf, r.off, 0).framePadded, ScanAt(buf, r.off, 0).freeFormat))
    decreases |buf| - i
  {
    hide ParseHeader, HdrValid, ScanAt, Takes;
    if i < |buf| - HDR_SIZE && !TakenAt(buf, i) { FirstTaken(buf, i + 1); }
  }

  /** A header that says its length is matched by that length. */
  lemma KnownLength(buf: seq<byte>, i: nat)
    requires i + 4 <= |buf| && HdrValid(At(buf, i)) && FrameBytes(At(buf, i), 0) != 0
    ensures var n := FrameBytes(At(buf, i), 0);
            ScanAt(buf, i, 0) == Scan(n, n + Padding(At(buf, i)), 0)
  {
    hide ParseHeader, HdrValid, FrameBytes, HdrCompare;
  }

  /** Three headers of a kind: `k` bytes apart, and the same without and with the paddings. */
  predicate ThreeOfAKind(buf: seq<byte>, i: nat, k: nat)
    requires i + 4 <= |buf| && HdrValid(At(buf, i)) && k >= 4
  {
    && k < 2304 && i + 2 * k + 4 < |buf| && HdrCompare(At(buf, i), At(buf, i + k))
    && var next := i + 2 * k - Padding(At(buf, i)) + Padding(At(buf, i + k));
       next + 4 <= |buf| && HdrCompare(At(buf, i), At(buf, next))
  }

  lemma PaddingRange(h: Hdr)
    ensures Padding(h) <= 4
  {
  }

  lemma {:induction false} FreeLengthFrom(buf: seq<byte>, i: nat, k: nat, s: Scan)
    requires i + 4 <= |buf| && HdrValid(At(buf, i)) && k >= 4 && k > Padding(At(buf, i)) && s.frameBytes == 0
    ensures var r := FreeScan(buf, i, k, s);
            || ((forall j: nat :: k <= j ==> !ThreeOfAKind(buf, i, j)) && r == s)
            || (exists n: nat :: k <= n && ThreeOfAKind(buf, i, n)
                  && (forall j: nat :: k <= j < n ==> !ThreeOfAKind(buf, i, j))
                  && r == Scan(n - Padding(At(buf, i)), n, n - Padding(At(buf, i))))
    decreases MAX_FREE_FORMAT_FRAME_SIZE - k
  {
    hide ParseHeader, HdrValid, HdrCompare, Padding;
    PaddingRange(At(buf, i));
    if k < 2304 && i + 2 * k < |buf| - 4 {
      if ThreeOfAKind(buf, i, k) {
        var fb := k - Padding(At(buf, i));
        assert FreeScan(buf, i, k, s) == FreeScan(buf, i, k + 1, Scan(fb, k, fb)) == Scan(fb, k, fb);
      } else {
        assert FreeScan(buf, i, k, s) == FreeScan(buf, i, k + 1, s);
        FreeLengthFrom(buf, i, k + 1, s);
      }
    }
  }

  /**
   * A free-format header is matched by the least distance, past its own padding, of three
   * headers of a kind, and by none if there is no such distance.
   */
  lemma FreeLength(buf: seq<byte>, i: nat)
    requires i + 4 <= |buf| && HdrValid(At(buf, i)) && FrameBytes(At(buf, i), 0) == 0
    ensures var r, p := ScanAt(buf, i, 0), Padding(At(buf, i));
            || ((forall j: nat :: j >= 4 && j > p ==> !ThreeOfAKind(buf, i, j)) && r.frameBytes == 0)
            || (exists n: nat :: n >= 4 && n > p && ThreeOfAKind(buf, i, n)
                  && (forall j: nat :: j >= 4 && p < j < n ==> !ThreeOfAKind(buf, i, j))
                  && r == Scan(n - p, n, n - p))
  {
    hide ParseHeader, HdrValid, HdrCompare, Padding, ThreeOfAKind, FrameBytes;
    var p := Padding(At(buf, i));
    PaddingRange(At(buf, i));
    var s := Scan(0, p, 0);
    if p < 4 {
      FreeLengthFrom(buf, i, 4, s);
    } else {
      var s' := FourApart(buf, i);
      FreeLengthFrom(buf, i, 5, s');
    }
  }

  /** Another header right behind a padded one of Layer I settles nothing. */
  lemma FourApart(buf: seq<byte>, i: nat) returns (s: Scan)
    requires i + 4 <= |buf| && HdrValid(At(buf, i)) && Padding(At(buf, i)) == 4
    ensures s.frameBytes == 0 && FreeScan(buf, i, 4, Scan(0, 4, 0)) == FreeScan(buf, i, 5, s)
  {
    hide ParseHeader, HdrValid, HdrCompare;
    s := Scan(0, 4, 0);
  }
}
