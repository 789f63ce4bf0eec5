/**
 * The Layer III frame-header reader of src/cq_mp3.c: one header parser and the
 * two scans over it. A header is its four bytes; the masks and shifts of the
 * source are written as quotients and remainders.
 */
module Mp3 {
  import opened Bytes

  datatype Hdr = Hdr(b0: byte, b1: byte, b2: byte, b3: byte)

  datatype Frame = Frame(
    version: int, bitrateKbps: int, samplerate: int,
    channels: int, samples: int, frameBytes: nat)

  const BITRATE_V1: seq<int> := [0, 32, 40, 48, 56, 64, 80, 96, 112, 128, 160, 192, 224, 256, 320, 0]
  const BITRATE_V2: seq<int> := [0, 8, 16, 24, 32, 40, 48, 56, 64, 80, 96, 112, 128, 144, 160, 0]
  const RATE: seq<int> := [44100, 48000, 32000, 0]

  /** The four bytes at offset `i`. */
  function At(buf: seq<byte>, i: nat): Hdr
    requires i + 4 <= |buf|
  {
    Hdr(buf[i], buf[i + 1], buf[i + 2], buf[i + 3])
  }

  /** Unpadded frame length: samples / 8 * bitrate / rate, rounded down. */
  function FrameLength(samples: nat, bitrate: nat, rate: nat): nat
    requires rate > 0
  {
    samples / 8 * (bitrate * 1000) / rate
  }

  function ParseHeader(h: Hdr): Option<Frame> {
    var vbits := h.b1 / 8 % 4;
    var lbits := h.b1 / 2 % 4;
    if h.b0 != 0xFF || h.b1 / 32 != 7 then None
    else if vbits == 1 || lbits != 1 then None
    else
      var version := if vbits == 3 then 1 else if vbits == 2 then 2 else 25;
      var bitrate := if version == 1 then BITRATE_V1[h.b2 / 16] else BITRATE_V2[h.b2 / 16];
      var base := RATE[h.b2 / 4 % 4];
      if bitrate == 0 || base == 0 then None
      else
        var rate := if version == 2 then base / 2 else if version == 25 then base / 4 else base;
        var samples := if version == 1 then 1152 else 576;
        var bytes := FrameLength(samples, bitrate, rate) + h.b2 / 2 % 2;
        if bytes < 4 then None
        else Some(Frame(version, bitrate, rate, if h.b3 / 64 == 3 then 1 else 2, samples, bytes))
  }

  /** `cq_mp3_parse(buf + i, n - i, &f)`. */
  function ParseAt(buf: seq<byte>, i: nat): Option<Frame> {
    if i + 4 <= |buf| then ParseHeader(At(buf, i)) else None
  }

  /** Two frames the scans let follow one another. */
  predicate Agree(a: Frame, b: Frame) {
    a.version == b.version && a.samplerate == b.samplerate
  }

  lemma TableRange(i: nat)
    requires i < 16
    ensures BITRATE_V1[i] == 0 || 32 <= BITRATE_V1[i] <= 320
    ensures BITRATE_V2[i] == 0 || 8 <= BITRATE_V2[i] <= 160
  {
  }

  lemma CancelFactor(x: int, y: int, b: nat)
    requires x * b < y * b
    ensures x < y
  {
  }

  lemma DivRange(a: nat, b: nat, lo: nat, hi: nat)
    requires b > 0 && lo * b <= a < (hi + 1) * b
    ensures lo <= a / b <= hi
  {
    var q := a / b;
    assert a == q * b + a % b;
    CancelFactor(lo, q + 1, b);
    CancelFactor(q, hi + 1, b);
  }

  lemma FrameLengthRange(version: int, bitrate: nat, rate: nat)
    requires version == 1 ==> 32 <= bitrate <= 320 && rate in {44100, 48000, 32000}
    requires version == 2 ==> 8 <= bitrate <= 160 && rate in {22050, 24000, 16000}
    requires version == 25 ==> 8 <= bitrate <= 160 && rate in {11025, 12000, 8000}
    requires version in {1, 2, 25}
    ensures 24 <= FrameLength(if version == 1 then 1152 else 576, bitrate, rate) <= 1440
  {
    DivRange(if version == 1 then 144 * (bitrate * 1000) else 72 * (bitrate * 1000), rate, 24, 1440);
  }

  /** Every parsed frame is between 24 and 1441 bytes long. */
  lemma FrameBytesRange(h: Hdr)
    requires ParseHeader(h).Some?
    ensures 24 <= ParseHeader(h).value.frameBytes <= 1441
  {
    var f := ParseHeader(h).value;
    TableRange(h.b2 / 16);
    FrameLengthRange(f.version, f.bitrateKbps, f.samplerate);
  }

  // ---- cq_mp3_walk -------------------------------------------------------

  /** A whole frame that agrees with `f0` starts at `off`. */
  predicate WholeAt(buf: seq<byte>, off: nat, f0: Frame) {
    var p := ParseAt(buf, off);
    p.Some? && Agree(p.value, f0) && off + p.value.frameBytes <= |buf|
  }

  /** End offset and number of whole agreeing frames from `off`, at most `left`. */
  function WalkFrom(buf: seq<byte>, off: nat, f0: Frame, left: nat): (nat, nat)
    decreases left
  {
    if left == 0 || !WholeAt(buf, off, f0) then (off, 0)
    else
      var r := WalkFrom(buf, off + ParseAt(buf, off).value.frameBytes, f0, left - 1);
      (r.0, r.1 + 1)
  }

  function WalkSpec(buf: seq<byte>, maxFrames: nat): (nat, nat) {
    var p := ParseAt(buf, 0);
    if p.None? then (0, 0) else WalkFrom(buf, 0, p.value, maxFrames)
  }

  method Walk(buf: seq<byte>, maxFrames: int) returns (off: nat, frames: nat)
    ensures (off, frames) == WalkSpec(buf, Max(maxFrames, 0))
  {
    hide ParseHeader;
    off, frames := 0, 0;
    var first := Frame(0, 0, 0, 0, 0, 0);
    while frames < maxFrames
      invariant frames <= Max(maxFrames, 0) && (frames == 0 ==> off == 0)
      invariant frames > 0 ==> ParseAt(buf, 0) == Some(first)
      invariant ParseAt(buf, 0).Some? ==>
                  var r := WalkFrom(buf, off, ParseAt(buf, 0).value, Max(maxFrames, 0) - frames);
                  WalkSpec(buf, Max(maxFrames, 0)) == (r.0, r.1 + frames)
      decreases maxFrames - frames
    {
      var p := ParseAt(buf, off);
      if p.None? { break; }
      if off + p.value.frameBytes > |buf| { break; }
      if frames == 0 {
        first := p.value;
      } else if !Agree(p.value, first) {
        break;
      }
      off, frames := off + p.value.frameBytes, frames + 1;
    }
  }

  /** One whole frame: its header predicts exactly its length. */
  predicate IsFrame(f: seq<byte>) {
    ParseAt(f, 0).Some? && ParseAt(f, 0).value.frameBytes == |f|
  }

  function FrameOf(f: seq<byte>): Frame
    requires IsFrame(f)
  {
    ParseAt(f, 0).value
  }

  /** Whole frames, all of one version and sample rate. */
  ghost predicate Coherent(fs: seq<seq<byte>>, f0: Frame) {
    forall i {:trigger fs[i]} | 0 <= i < |fs| :: IsFrame(fs[i]) && Agree(FrameOf(fs[i]), f0)
  }

  lemma ParseAtPrefix(pre: seq<byte>, f: seq<byte>, post: seq<byte>)
    requires |f| >= 4
    ensures ParseAt(pre + f + post, |pre|) == ParseAt(f, 0)
  {
    hide ParseHeader;
    assert At(pre + f + post, |pre|) == At(f, 0);
  }

  lemma {:induction false} WalkOverFrames(pre: seq<byte>, fs: seq<seq<byte>>, tail: seq<byte>, f0: Frame, left: nat)
    requires Coherent(fs, f0) && !WholeAt(tail, 0, f0)
    ensures var m := Min(|fs|, left);
            WalkFrom(pre + Flat(fs) + tail, |pre|, f0, left) == (|pre| + |Flat(fs[..m])|, m)
    decreases left
  {
    hide ParseHeader;
    var buf := pre + Flat(fs) + tail;
    if left == 0 {
      assert fs[..0] == [];
    } else if fs == [] {
      assert buf == pre + tail;
      assert ParseAt(buf, |pre|) == ParseAt(tail, 0);
      assert fs[..0] == [];
    } else {
      var f, m := fs[0], Min(|fs|, left);
      assert buf == pre + f + (Flat(fs[1..]) + tail);
      ParseAtPrefix(pre, f, Flat(fs[1..]) + tail);
      assert buf == (pre + f) + Flat(fs[1..]) + tail;
      WalkOverFrames(pre + f, fs[1..], tail, f0, left - 1);
      assert fs[..m][1..] == fs[1..][..m - 1] && fs[..m][0] == f;
    }
  }

  lemma HeadOfFrames(fs: seq<seq<byte>>, tail: seq<byte>)
    requires fs != [] && |fs[0]| >= 4
    ensures ParseAt(Flat(fs) + tail, 0) == ParseAt(fs[0], 0)
  {
    hide ParseHeader;
    assert Flat(fs) + tail == [] + fs[0] + (Flat(fs[1..]) + tail);
    ParseAtPrefix([], fs[0], Flat(fs[1..]) + tail);
  }

  /** On coherent frames followed by anything but another whole one, the walk counts exactly the frames. */
  lemma WalkCountsFrames(fs: seq<seq<byte>>, tail: seq<byte>, f0: Frame, maxFrames: nat)
    requires fs != [] && Coherent(fs, f0) && !WholeAt(tail, 0, f0)
    ensures var m := Min(|fs|, maxFrames);
            WalkSpec(Flat(fs) + tail, maxFrames) == (|Flat(fs[..m])|, m)
  {
    hide ParseHeader, Flat;
    var buf := Flat(fs) + tail;
    assert IsFrame(fs[0]);
    HeadOfFrames(fs, tail);
    assert buf == [] + Flat(fs) + tail;
    WalkOverFrames([], fs, tail, f0, maxFrames);
    WalkDependsOnAgreement(buf, 0, f0, FrameOf(fs[0]), maxFrames);
  }

  lemma {:induction false} WalkDependsOnAgreement(buf: seq<byte>, off: nat, f0: Frame, f1: Frame, left: nat)
    requires Agree(f0, f1)
    ensures WalkFrom(buf, off, f0, left) == WalkFrom(buf, off, f1, left)
    decreases left
  {
    hide ParseHeader;
    if left > 0 && WholeAt(buf, off, f0) {
      WalkDependsOnAgreement(buf, off + ParseAt(buf, off).value.frameBytes, f0, f1, left - 1);
    }
  }

  // ---- cq_mp3_sync -------------------------------------------------------

  /** The header a candidate predicts lies inside the buffer. */
  predicate InReach(buf: seq<byte>, i: nat) {
    ParseAt(buf, i).Some? && i + ParseAt(buf, i).value.frameBytes + 4 <= |buf|
  }

  /** The header a candidate predicts parses and agrees. */
  predicate Confirmed(buf: seq<byte>, i: nat) {
    && InReach(buf, i)
    && var a := ParseAt(buf, i).value;
       var b := ParseAt(buf, i + a.frameBytes);
       b.Some? && Agree(b.value, a)
  }

  /** Not a frame start, and known not to be one. */
  predicate Refuted(buf: seq<byte>, i: nat) {
    ParseAt(buf, i).Some? ==> InReach(buf, i) && !Confirmed(buf, i)
  }

  function SyncFrom(buf: seq<byte>, i: nat): int
    decreases |buf| - i
  {
    if i + 4 > |buf| then -1
    else if Confirmed(buf, i) then i
    else if Refuted(buf, i) then SyncFrom(buf, i + 1)
    else -1
  }

  lemma ParseNeedsSyncByte(buf: seq<byte>, i: nat)
    ensures ParseAt(buf, i).Some? ==> buf[i] == 0xFF
  {
  }

  method Sync(buf: seq<byte>) returns (off: int, f: Option<Frame>)
    ensures off == SyncFrom(buf, 0)
    ensures off >= 0 ==> f == ParseAt(buf, off)
    ensures off < 0 ==> f == None
  {
    hide ParseHeader;
    off, f := -1, None;
    var i := 0;
    while i + 4 <= |buf|
      invariant i <= |buf| && SyncFrom(buf, 0) == SyncFrom(buf, i)
    {
      ParseNeedsSyncByte(buf, i);
      if buf[i] == 0xFF {
        var a := ParseAt(buf, i);
        if a.Some? {
          if i + a.value.frameBytes + 4 > |buf| { return; }
          var b := ParseAt(buf, i + a.value.frameBytes);
          if b.Some? && Agree(b.value, a.value) { return i, a; }
        }
      }
      i := i + 1;
    }
  }

  lemma {:induction false} SyncFromMeaning(buf: seq<byte>, i: nat)
    ensures var r := SyncFrom(buf, i);
            if r >= 0
            then i <= r && Confirmed(buf, r) && forall j | i <= j < r :: Refuted(buf, j)
            else
              || (forall j | i <= j && j + 4 <= |buf| :: Refuted(buf, j))
              || (exists u ::
                    && i <= u && u + 4 <= |buf| && ParseAt(buf, u).Some? && !InReach(buf, u)
                    && forall j | i <= j < u :: Refuted(buf, j))
    decreases |buf| - i
  {
    hide ParseHeader;
    if i + 4 <= |buf| && !Confirmed(buf, i) && Refuted(buf, i) {
      SyncFromMeaning(buf, i + 1);
    }
  }

  /**
   * The result is the least confirmed offset with every earlier one refuted; there is
   * none exactly when nothing is confirmed before the first candidate out of reach.
   */
  lemma SyncIsLeast(buf: seq<byte>, r: nat)
    ensures SyncFrom(buf, 0) == r <==>
              Confirmed(buf, r) && forall j: nat | j < r :: Refuted(buf, j)
  {
    hide ParseHeader;
    SyncFromMeaning(buf, 0);
    if Confirmed(buf, r) && (forall j: nat | j < r :: Refuted(buf, j)) {
      LeastIsFound(buf, 0, r);
    }
  }

  lemma {:induction false} LeastIsFound(buf: seq<byte>, i: nat, r: nat)
    requires i <= r && Confirmed(buf, r)
    requires forall j | i <= j < r :: Refuted(buf, j)
    ensures SyncFrom(buf, i) == r
    decreases r - i
  {
    hide ParseHeader;
    if i < r {
      assert Refuted(buf, i);
      LeastIsFound(buf, i + 1, r);
    }
  }

  lemma VerdictsStable(buf: seq<byte>, more: seq<byte>, i: nat)
    ensures Confirmed(buf, i) ==> Confirmed(buf + more, i)
    ensures i + 4 <= |buf| && Refuted(buf, i) ==> Refuted(buf + more, i)
    ensures i + 4 <= |buf| ==> ParseAt(buf + more, i) == ParseAt(buf, i)
  {
    hide ParseHeader;
    if i + 4 <= |buf| {
      assert At(buf + more, i) == At(buf, i);
      if InReach(buf, i) {
        var j := i + ParseAt(buf, i).value.frameBytes;
        assert At(buf + more, j) == At(buf, j);
      }
    }
  }

  /** More bytes never move a sync point that was found. */
  lemma SyncStable(buf: seq<byte>, more: seq<byte>)
    requires SyncFrom(buf, 0) >= 0
    ensures SyncFrom(buf + more, 0) == SyncFrom(buf, 0)
  {
    hide ParseHeader;
    var r := SyncFrom(buf, 0);
    SyncIsLeast(buf, r);
    VerdictsStable(buf, more, r);
    forall j: nat | j < r ensures Refuted(buf + more, j) {
      VerdictsStable(buf, more, j);
    }
    SyncIsLeast(buf + more, r);
  }

  /** A stream of two or more coherent frames is already in sync. */
  lemma SyncOnFrames(f: seq<byte>, g: seq<byte>, rest: seq<byte>)
    requires IsFrame(f) && IsFrame(g) && Agree(FrameOf(f), FrameOf(g))
    ensures SyncFrom(f + g + rest, 0) == 0
  {
    hide ParseHeader;
    var buf := f + g + rest;
    assert buf == [] + f + (g + rest);
    ParseAtPrefix([], f, g + rest);
    ParseAtPrefix(f, g, rest);
  }
}
