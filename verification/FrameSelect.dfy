/** Which bytes the decoder takes for a frame: src/minimp3.h, lines 1657-1746. */
module FrameSelect {
  import opened Bytes
  import opened Mp3
  import opened Minimp3

  /** Length of the frame a valid header announces. */
  function HdrLength(h: Hdr, freeFormat: nat): nat
    requires HdrValid(h)
  {
    FrameBytes(h, freeFormat) + Padding(h)
  }

  // ---- mp3d_match_frame ----------------------------------------------------

  /** The loop from `nmatch` on, at offset `i` from the candidate at `base`. */
  function MatchFrom(buf: seq<byte>, base: nat, i: nat, nmatch: nat, freeFormat: nat): bool
    requires base + i + 4 <= |buf| && nmatch <= MAX_FRAME_SYNC_MATCHES
    requires HdrValid(At(buf, base)) && HdrValid(At(buf, base + i))
    decreases MAX_FRAME_SYNC_MATCHES - nmatch
  {
    if nmatch == MAX_FRAME_SYNC_MATCHES then true
    else
      var j := i + HdrLength(At(buf, base + i), freeFormat);
      if base + j + HDR_SIZE > |buf| then nmatch > 0
      else if !HdrCompare(At(buf, base), At(buf, base + j)) then false
      else MatchFrom(buf, base, j, nmatch + 1, freeFormat)
  }

  method MatchFrame(buf: seq<byte>, base: nat, freeFormat: nat) returns (ok: bool)
    requires base + 4 <= |buf| && HdrValid(At(buf, base))
    ensures ok == MatchFrom(buf, base, 0, 0, freeFormat)
  {
    hide ParseHeader, HdrValid, FrameBytes, Padding;
    var i: nat, nmatch: nat := 0, 0;
    while nmatch < MAX_FRAME_SYNC_MATCHES
      invariant base + i + 4 <= |buf| && nmatch <= MAX_FRAME_SYNC_MATCHES
      invariant HdrValid(At(buf, base + i))
      invariant MatchFrom(buf, base, 0, 0, freeFormat) == MatchFrom(buf, base, i, nmatch, freeFormat)
    {
      i := i + FrameBytes(At(buf, base + i), freeFormat) + Padding(At(buf, base + i));
      if base + i + HDR_SIZE > |buf| { return nmatch > 0; }
      if !HdrCompare(At(buf, base), At(buf, base + i)) { return false; }
      nmatch := nmatch + 1;
    }
    return true;
  }

  // ---- mp3d_find_frame -----------------------------------------------------

  datatype Scan = Scan(frameBytes: nat, framePadded: nat, freeFormat: nat)

  /** The search for a free-format frame length at offset `i`, from distance `k` on. */
  function FreeScan(buf: seq<byte>, i: nat, k: nat, s: Scan): Scan
    requires i + 4 <= |buf| && HdrValid(At(buf, i)) && k >= HDR_SIZE
    decreases MAX_FREE_FORMAT_FRAME_SIZE - k
  {
    if s.frameBytes != 0 || k >= MAX_FREE_FORMAT_FRAME_SIZE || i + 2 * k >= |buf| - HDR_SIZE then s
    else if !HdrCompare(At(buf, i), At(buf, i + k)) then FreeScan(buf, i, k + 1, s)
    else
      var fb := k - Padding(At(buf, i));
      var nextfb := fb + Padding(At(buf, i + k));
      if i + k + nextfb + HDR_SIZE > |buf| || !HdrCompare(At(buf, i), At(buf, i + k + nextfb))
      then FreeScan(buf, i, k + 1, s)
      else FreeScan(buf, i, k + 1, Scan(fb, k, fb))
  }

  /** A frame of `size` bytes at `off`, or nothing (`size == 0`, `off` at the end). */
  datatype Found = Found(off: nat, size: nat, freeFormat: nat)

  function ScanAt(buf: seq<byte>, i: nat, freeFormat: nat): Scan
    requires i + 4 <= |buf| && HdrValid(At(buf, i))
  {
    var fb := FrameBytes(At(buf, i), freeFormat);
    FreeScan(buf, i, HDR_SIZE, Scan(fb, fb + Padding(At(buf, i)), freeFormat))
  }

  predicate Takes(buf: seq<byte>, i: nat, s: Scan)
    requires i + 4 <= |buf| && HdrValid(At(buf, i))
  {
    || (s.frameBytes != 0 && i + s.framePadded <= |buf| && MatchFrom(buf, i, 0, 0, s.frameBytes))
    || (i == 0 && s.framePadded == |buf|)
  }

  function FindFrom(buf: seq<byte>, i: nat, freeFormat: nat): Found
    decreases |buf| - i
  {
    if i >= |buf| - HDR_SIZE then Found(|buf|, 0, freeFormat)
    else if !HdrValid(At(buf, i)) then FindFrom(buf, i + 1, freeFormat)
    else
      var s := ScanAt(buf, i, freeFormat);
      if Takes(buf, i, s) then Found(i, s.framePadded, s.freeFormat)
      else FindFrom(buf, i + 1, 0)
  }

  /** The inner loop of the scan. */
  method FindFreeFormat(buf: seq<byte>, i: nat, start: Scan) returns (s: Scan)
    requires i + 4 <= |buf| && HdrValid(At(buf, i))
    ensures s == FreeScan(buf, i, HDR_SIZE, start)
  {
    hide ParseHeader, HdrValid, FrameBytes, HdrCompare;
    s := start;
    var k: nat := HDR_SIZE;
    while s.frameBytes == 0 && k < MAX_FREE_FORMAT_FRAME_SIZE && i + 2 * k < |buf| - HDR_SIZE
      invariant k >= HDR_SIZE
      invariant FreeScan(buf, i, HDR_SIZE, start) == FreeScan(buf, i, k, s)
    {
      if HdrCompare(At(buf, i), At(buf, i + k)) {
        var fb := k - Padding(At(buf, i));
        var nextfb := fb + Padding(At(buf, i + k));
        if i + k + nextfb + HDR_SIZE <= |buf| && HdrCompare(At(buf, i), At(buf, i + k + nextfb)) {
          s := Scan(fb, k, fb);
        }
      }
      k := k + 1;
    }
  }

  method FindFrame(buf: seq<byte>, freeFormat: nat) returns (r: Found)
    ensures r == FindFrom(buf, 0, freeFormat)
  {
    hide ParseHeader, HdrValid, FrameBytes, HdrCompare, MatchFrom, FreeScan;
    var i: nat, ff: nat := 0, freeFormat;
    while i < |buf| - HDR_SIZE
      invariant FindFrom(buf, 0, freeFormat) == FindFrom(buf, i, ff)
    {
      if HdrValid(At(buf, i)) {
        var fb := FrameBytes(At(buf, i), ff);
        var s := FindFreeFormat(buf, i, Scan(fb, fb + Padding(At(buf, i)), ff));
        var matched := false;
        if s.frameBytes != 0 && i + s.framePadded <= |buf| {
          matched := MatchFrame(buf, i, s.frameBytes);
        }
        if matched || (i == 0 && s.framePadded == |buf|) {
          return Found(i, s.framePadded, s.freeFormat);
        }
        ff := 0;
      }
      i := i + 1;
    }
    return Found(|buf|, 0, ff);
  }

  lemma {:induction false} FreeScanPads(buf: seq<byte>, i: nat, k: nat, s: Scan)
    requires i + 4 <= |buf| && HdrValid(At(buf, i)) && k >= HDR_SIZE
    requires s.framePadded == s.frameBytes + Padding(At(buf, i))
    ensures var t := FreeScan(buf, i, k, s);
            t.framePadded == t.frameBytes + Padding(At(buf, i)) && (s.frameBytes != 0 ==> t == s)
    decreases MAX_FREE_FORMAT_FRAME_SIZE - k
  {
    hide ParseHeader, HdrValid, FrameBytes, HdrCompare, MatchFrom;
    if s.frameBytes == 0 && k < MAX_FREE_FORMAT_FRAME_SIZE && i + 2 * k < |buf| - HDR_SIZE {
      if HdrCompare(At(buf, i), At(buf, i + k)) {
        FreeScanPads(buf, i, k + 1, Scan(k - Padding(At(buf, i)), k, k - Padding(At(buf, i))));
      }
      FreeScanPads(buf, i, k + 1, s);
    }
  }

  lemma {:induction false} FoundInside(buf: seq<byte>, i: nat, freeFormat: nat)
    ensures var r := FindFrom(buf, i, freeFormat);
            if r.size == 0 then r.off == |buf| else r.off + r.size <= |buf| && i <= r.off
    decreases |buf| - i
  {
    hide ParseHeader, HdrValid, FrameBytes, HdrCompare, MatchFrom, FreeScan;
    if i < |buf| - HDR_SIZE {
      if HdrValid(At(buf, i)) {
        var fb := FrameBytes(At(buf, i), freeFormat);
        FreeScanPads(buf, i, HDR_SIZE, Scan(fb, fb + Padding(At(buf, i)), freeFormat));
        FoundInside(buf, i + 1, 0);
      } else {
        FoundInside(buf, i + 1, freeFormat);
      }
    }
  }

  /** The length a scan settles on is the one the match then hops by. */
  lemma ScanLength(buf: seq<byte>, i: nat, freeFormat: nat)
    requires i + 4 <= |buf| && HdrValid(At(buf, i))
    ensures var s := ScanAt(buf, i, freeFormat);
            HdrLength(At(buf, i), s.frameBytes) == s.framePadded
  {
    hide ParseHeader, HdrValid, HdrCompare, MatchFrom, FrameSamples, BitrateKbps, SampleRateHz, FreeScan;
    var fb := FrameBytes(At(buf, i), freeFormat);
    FreeScanPads(buf, i, HDR_SIZE, Scan(fb, fb + Padding(At(buf, i)), freeFormat));
  }

  /** A frame found by search is the whole buffer, or leaves the next header in reach behind it. */
  lemma {:induction false} FoundConfirmed(buf: seq<byte>, i: nat, freeFormat: nat)
    ensures var r := FindFrom(buf, i, freeFormat);
            r.size != 0 ==> r.off + r.size + HDR_SIZE <= |buf| || (r.off == 0 && r.size == |buf|)
    decreases |buf| - i
  {
    hide ParseHeader, HdrValid, FrameBytes, HdrCompare, FreeScan, ScanAt, HdrLength;
    if i < |buf| - HDR_SIZE {
      if HdrValid(At(buf, i)) {
        ScanLength(buf, i, freeFormat);
        FoundConfirmed(buf, i + 1, 0);
      } else {
        FoundConfirmed(buf, i + 1, freeFormat);
      }
    }
  }

  // ---- the head of mp3dec_decode_frame --------------------------------------

  /**
   * The decoder between calls: the saved header (its first byte 0 after an init),
   * the free-format size, and the frames decoded since the state was cleared.
   */
  datatype Dec = Dec(header: Hdr, freeFormat: nat, past: seq<seq<byte>>)

  const CLEARED: Dec := Dec(Hdr(0, 0, 0, 0), 0, [])

  predicate Live(d: Dec, buf: seq<byte>) {
    |buf| > 4 && d.header.b0 == 0xFF && HdrCompare(d.header, At(buf, 0))
  }

  /** Frame size at the head by the saved header, 0 when it cannot be trusted. */
  function ResumeSize(d: Dec, buf: seq<byte>): nat {
    if !Live(d, buf) then 0
    else
      var size := HdrLength(At(buf, 0), d.freeFormat);
      if size != |buf| && (size + HDR_SIZE > |buf| || !HdrCompare(At(buf, 0), At(buf, size))) then 0
      else size
  }

  /** The frame chosen and the state it is decoded from. */
  datatype Pick = Pick(off: nat, size: nat, dec: Dec)

  function Select(d: Dec, buf: seq<byte>): Pick {
    var size := ResumeSize(d, buf);
    if size != 0 then Pick(0, size, d)
    else
      var r := FindFrom(buf, 0, 0);
      Pick(r.off, r.size, CLEARED.(freeFormat := r.freeFormat))
  }

  /** Whatever the bytes, a nonempty buffer loses between one byte and all of them. */
  lemma SelectTakesSome(d: Dec, buf: seq<byte>)
    requires buf != []
    ensures var p := Select(d, buf);
            1 <= p.off + p.size <= |buf| && (p.size == 0 ==> p.off == |buf|)
  {
    hide ParseHeader, HdrValid, FrameBytes, HdrCompare, FindFrom;
    FoundInside(buf, 0, 0);
  }
}
