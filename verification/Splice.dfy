/**
 * A stream spliced onto junk: the pass resyncs to its first frame and feeds the decoder
 * exactly its frames (src/cq_decring.c, lines 106-173).
 */
module Splice {
  import opened Bytes
  import opened Mp3
  import opened Minimp3
  import opened FrameSelect
  import opened TailGate
  import opened Decoder
  import opened Pump
  import opened Schedule

  // ---- the decoder a splice is met with ---------------------------------------------------------

  /** A saved header that can be trusted is a valid one: every decoder call leaves it so. */
  predicate SavedValid(d: Dec) {
    d.header.b0 == 0xFF ==> HdrValid(d.header)
  }

  lemma {:induction false} FoundIsValid(buf: seq<byte>, i: nat, freeFormat: nat)
    ensures var r := FindFrom(buf, i, freeFormat); r.size != 0 ==> r.off + 4 <= |buf| && HdrValid(At(buf, r.off))
    decreases |buf| - i
  {
    hide ParseHeader, HdrValid, FrameBytes, HdrCompare, MatchFrom, FreeScan;
    if i < |buf| - HDR_SIZE {
      if HdrValid(At(buf, i)) { FoundIsValid(buf, i + 1, 0); } else { FoundIsValid(buf, i + 1, freeFormat); }
    }
  }

  lemma DecodeKeepsValid(dsp: Dsp, d: Dec, buf: seq<byte>)
    requires SavedValid(d)
    ensures SavedValid(Decode(dsp, d, buf).dec)
  {
    hide ParseHeader, FrameBytes, FindFrom, FrameSamples, BitrateKbps;
    FoundIsValid(buf, 0, 0);
    if buf != [] {
      SelectTakesSome(d, buf);
      SelectHasHeader(d, buf);
      var p := Select(d, buf);
      if p.size != 0 { assert At(Chosen(buf, p), 0) == At(buf, p.off); }
    }
  }

  /** The state a stream's first frame is decoded from: the saved one if it is of that stream. */
  function Meeting(d: Dec, f0: Frame): Dec {
    if DecFits(d, f0) then d else CLEARED
  }

  lemma Unfit(d: Dec, h: Hdr)
    requires SavedValid(d) && d.header.b0 == 0xFF && ParseHeader(h).Some? && HdrCompare(d.header, h)
    ensures ParseHeader(d.header).Some? && Agree(ParseHeader(h).value, ParseHeader(d.header).value)
  {
    hide ParseHeader, HdrValid;
    assert HdrCompare(h, d.header);
    CompareIffAgree(h, d.header);
  }

  /** A saved header of another stream is as good as none. */
  lemma MeetsAsCleared(dsp: Dsp, d: Dec, buf: seq<byte>, f0: Frame)
    requires SavedValid(d) && !DecFits(d, f0)
    requires ParseAt(buf, 0).Some? && Agree(f0, ParseAt(buf, 0).value)
    ensures Decode(dsp, d, buf) == Decode(dsp, CLEARED, buf)
  {
    hide ParseHeader, HdrCompare, FindFrom, HdrValid, RunFrame;
    if Live(d, buf) { Unfit(d, At(buf, 0)); }
  }

  // ---- frames, one after the other ----------------------------------------------------------------

  /** A pass that has fed the first `j` frames of the stream staged behind the junk. */
  ghost predicate Feeding(dsp: Dsp, d: Dec, fs: seq<seq<byte>>, tail: seq<byte>, f0: Frame, frames: nat,
                          p: Pass, j: nat)
  {
    && Within(p) && IsStream(fs, tail, f0) && DecFits(d, f0) && j <= |fs|
    && p.stage[p.used..] == Flat(fs[j..]) + tail
    && var t := Through(dsp, d, fs, j);
    && p.dec == t.dec && p.made == t.pcm && p.frames == frames + t.frames
  }

  lemma SilentStep(dsp: Dsp, d: Dec, f: seq<byte>)
    requires |f| >= 4
    ensures StepFrame(dsp, d, f).samples == 0 ==> StepFrame(dsp, d, f).pcm == []
  {
    hide FitTo, PcmBytes;
  }

  lemma FeedsOne(dsp: Dsp, d: Dec, fs: seq<seq<byte>>, tail: seq<byte>, f0: Frame, frames: nat, room: int,
                 p: Pass, j: nat)
    requires Feeding(dsp, d, fs, tail, f0, frames, p, j)
    ensures var v := Turn(dsp, false, room, p);
            if room < FRAME_ROOM || j + 1 >= |fs| then v == Stop(p)
            else
              && v.Again? && Feeding(dsp, d, fs, tail, f0, frames, v.pass, j + 1)
              && v.pass.resyncs == p.resyncs && v.pass.resyncBytes == p.resyncBytes && v.pass.flushes == p.flushes
              && v.pass.stage == p.stage && v.pass.progress
  {
    hide ParseHeader, Flat, Turn, Feed, StepFrame, PartialTail, Cuts, IsFrame;
    var gs := fs[j..];
    ThroughFits(dsp, d, fs, j, f0);
    CutsIff(gs, tail, f0);
    TurnByFrames(dsp, false, room, p, gs, tail, f0);
    if room >= FRAME_ROOM && |gs| >= 2 {
      FeedsNext(dsp, p, gs, tail, f0);
      SilentStep(dsp, p.dec, gs[0]);
      assert p.made + [] == p.made;
      FlatCons(gs);
      assert gs[1..] == fs[j + 1..] && gs[0] == fs[j];
      assert p.stage[p.used + |gs[0]|..] == p.stage[p.used..][|gs[0]|..] == Flat(gs[1..]) + tail by {
        assert Flat(gs) + tail == gs[0] + (Flat(gs[1..]) + tail);
      }
    }
  }

  /** The rest of a pass over a stream: frame after frame, up to the one it holds or as long as there is room. */
  lemma {:induction false} FeedsAll(
    dsp: Dsp, d: Dec, fs: seq<seq<byte>>, tail: seq<byte>, f0: Frame, frames: nat, room: nat, p: Pass, j: nat)
    returns (k: nat)
    requires Feeding(dsp, d, fs, tail, f0, frames, p, j) && j < |fs|
    ensures var q := Loop(dsp, false, room, p);
            && j <= k < |fs| && Feeding(dsp, d, fs, tail, f0, frames, q, k)
            && q.resyncs == p.resyncs && q.resyncBytes == p.resyncBytes && q.flushes == p.flushes
            && q.stage == p.stage
            && (k == |fs| - 1 || room - |q.made| < FRAME_ROOM)
            && (room - |p.made| >= FRAME_ROOM && j + 1 < |fs| ==> k > j)
    decreases |fs| - j
  {
    hide ParseHeader, Flat, Turn, Feeding;
    assert Within(p) by { FeedingIsWithin(dsp, d, fs, tail, f0, frames, p, j); }
    FeedsOne(dsp, d, fs, tail, f0, frames, room - |p.made|, p, j);
    TurnAdvances(dsp, false, room - |p.made|, p);
    var v := Turn(dsp, false, room - |p.made|, p);
    if v.Again? {
      k := FeedsAll(dsp, d, fs, tail, f0, frames, room, v.pass, j + 1);
    } else {
      k := j;
    }
  }

  lemma FeedingIsWithin(
    dsp: Dsp, d: Dec, fs: seq<seq<byte>>, tail: seq<byte>, f0: Frame, frames: nat, p: Pass, j: nat)
    requires Feeding(dsp, d, fs, tail, f0, frames, p, j)
    ensures Within(p)
  {
  }

  // ---- the splice -----------------------------------------------------------------------------------

  /** Two frames at least, behind junk that holds no frame start. */
  ghost predicate Spliced(stage: seq<byte>, junk: seq<byte>, fs: seq<seq<byte>>, tail: seq<byte>, f0: Frame) {
    && IsStream(fs, tail, f0) && |fs| >= 2 && junk != []
    && stage == junk + Flat(fs) + tail
    && forall j: nat :: j < |junk| ==> Refuted(stage, j)
  }

  lemma SplicePoint(stage: seq<byte>, junk: seq<byte>, fs: seq<seq<byte>>, tail: seq<byte>, f0: Frame)
    requires Spliced(stage, junk, fs, tail, f0)
    ensures SyncPoint(stage, |junk|) && SyncFrom(stage, 0) == |junk|
    ensures stage[|junk|..] == Flat(fs) + tail && IsFrame(fs[0]) && ParseAt(stage[|junk|..], 0) == ParseAt(fs[0], 0)
  {
    hide ParseHeader, SyncFrom, Flat, Refuted;
    assert IsFrame(fs[0]) && IsFrame(fs[1]);
    FlatCons(fs);
    FlatCons(fs[1..]);
    var f, g, rest := fs[0], fs[1], Flat(fs[1..][1..]) + tail;
    assert Flat(fs) + tail == f + (g + rest);
    assert stage == junk + f + (g + rest) == (junk + f) + g + rest;
    ParseAtPrefix(junk, f, g + rest);
    ParseAtPrefix(junk + f, g, rest);
    ParseAtPrefix([], f, g + rest);
    assert [] + f + (g + rest) == stage[|junk|..];
    SyncIsLeast(stage, |junk|);
  }

  lemma WalkedIsConfirmed(buf: seq<byte>)
    ensures WalkSpec(buf, 2).1 <= 2 && (WalkSpec(buf, 2).1 == 2 ==> Confirmed(buf, 0))
  {
    hide ParseHeader;
    var p := ParseAt(buf, 0);
    if p.Some? && WalkSpec(buf, 2).1 == 2 {
      assert WalkFrom(buf, 0, p.value, 2).1 == 2;
      assert WalkFrom(buf, p.value.frameBytes, p.value, 1).1 == 1;
      assert WholeAt(buf, p.value.frameBytes, p.value);
    }
  }

  /** Over refuted bytes the gate is closed. */
  lemma RefutedIsClosed(buf: seq<byte>)
    requires Refuted(buf, 0)
    ensures WalkSpec(buf, 2).1 < 2
  {
    hide ParseHeader, WalkSpec;
    WalkedIsConfirmed(buf);
  }

  lemma FirstTurnResyncs(
    dsp: Dsp, room: int, p: Pass, junk: seq<byte>, fs: seq<seq<byte>>, tail: seq<byte>, f0: Frame)
    requires p.used == 0 && |p.stage| > 8192 && room >= FRAME_ROOM && Spliced(p.stage, junk, fs, tail, f0)
    ensures Turn(dsp, false, room, p)
            == Again(p.(used := |junk|, resyncs := p.resyncs + 1, resyncBytes := p.resyncBytes + |junk|))
  {
    hide ParseHeader, WalkSpec, SyncFrom, Flat, Decode;
    SplicePoint(p.stage, junk, fs, tail, f0);
    assert p.stage[0..] == p.stage && Refuted(p.stage, 0);
    RefutedIsClosed(p.stage);
  }

  lemma TurnMeets(dsp: Dsp, room: int, p: Pass, gs: seq<seq<byte>>, tail: seq<byte>, f0: Frame)
    requires Within(p) && IsStream(gs, tail, f0) && |gs| >= 2 && p.stage[p.used..] == Flat(gs) + tail
    requires SavedValid(p.dec) && room >= FRAME_ROOM
    ensures Turn(dsp, false, room, p) == Turn(dsp, false, room, p.(dec := Meeting(p.dec, f0)))
  {
    hide ParseHeader, WalkSpec, Flat, Decode, HdrValid;
    TurnByFrames(dsp, false, room, p, gs, tail, f0);
    assert IsFrame(gs[0]);
    HeadOfFrames(gs, tail);
    if !DecFits(p.dec, f0) {
      MeetsAsCleared(dsp, p.dec, p.stage[p.used..], f0);
      DecodeConsumes(dsp, p.dec, p.stage[p.used..]);
    }
  }

  /**
   * One pass over a splice, whatever decoder it is met with: it lands exactly on the first
   * frame, counts exactly the junk, and feeds the decoder the frames in order, each from the
   * state the one before left: all but the last, which it holds, if the PCM ring has room
   * for them, and at least one.
   */
  lemma SplicedPass(
    dsp: Dsp, room: nat, p: Pass, junk: seq<byte>, fs: seq<seq<byte>>, tail: seq<byte>, f0: Frame)
    returns (k: nat)
    requires p.used == 0 && p.made == [] && |p.stage| > 8192 && room >= FRAME_ROOM && SavedValid(p.dec)
    requires Spliced(p.stage, junk, fs, tail, f0)
    ensures 1 <= k < |fs| && (forall i | 0 <= i < |fs| :: |fs[i]| >= 4)
    ensures var q, t := Loop(dsp, false, room, p), Through(dsp, Meeting(p.dec, f0), fs, k);
            && q.used == |junk| + |Flat(fs[..k])| && q.stage == p.stage
            && t.eaten == fs[..k] && q.dec == t.dec && q.made == t.pcm && q.frames == p.frames + t.frames
            && q.resyncs == p.resyncs + 1 && q.resyncBytes == p.resyncBytes + |junk| && q.flushes == p.flushes
            && (k == |fs| - 1 || room - |q.made| < FRAME_ROOM)
  {
    hide ParseHeader, Flat, Turn, Loop, Feeding, StepFrame, HdrValid, Refuted, Through;
    FirstTurnResyncs(dsp, room, p, junk, fs, tail, f0);
    SplicePoint(p.stage, junk, fs, tail, f0);
    var d := Meeting(p.dec, f0);
    var p1 := Turn(dsp, false, room, p).pass;
    TurnMeets(dsp, room, p1, fs, tail, f0);
    var p2 := p1.(dec := d);
    MeetingFits(p.dec, f0);
    assert Feeding(dsp, d, fs, tail, f0, p.frames, p2, 0) by { StartsFeeding(dsp, d, fs, tail, f0, p2); }
    FeedsOne(dsp, d, fs, tail, f0, p.frames, room, p2, 0);
    var p3 := Turn(dsp, false, room, p2).pass;
    FeedingIsWithin(dsp, d, fs, tail, f0, p.frames, p3, 1);
    k := FeedsAll(dsp, d, fs, tail, f0, p.frames, room, p3, 1);
    TwoTurns(dsp, room, p, p1, p3);
    FedSoFar(dsp, d, fs, tail, f0, p.frames, Loop(dsp, false, room, p), k, junk);
  }

  lemma MeetingFits(d: Dec, f0: Frame)
    ensures DecFits(Meeting(d, f0), f0)
  {
    hide ParseHeader;
  }

  lemma StartsFeeding(dsp: Dsp, d: Dec, fs: seq<seq<byte>>, tail: seq<byte>, f0: Frame, p: Pass)
    requires Within(p) && IsStream(fs, tail, f0) && DecFits(d, f0) && p.dec == d && p.made == []
    requires p.stage[p.used..] == Flat(fs) + tail
    ensures Feeding(dsp, d, fs, tail, f0, p.frames, p, 0)
  {
    hide ParseHeader, Flat;
    assert fs[0..] == fs;
  }

  lemma TwoTurns(dsp: Dsp, room: nat, p: Pass, p1: Pass, p3: Pass)
    requires Within(p) && Within(p1) && Within(p3) && p.made == p1.made == []
    requires Turn(dsp, false, room, p) == Again(p1) && Turn(dsp, false, room, p1) == Again(p3)
    ensures Loop(dsp, false, room, p) == Loop(dsp, false, room, p3)
  {
    hide ParseHeader, Turn;
    TurnAdvances(dsp, false, room, p);
    TurnAdvances(dsp, false, room, p1);
  }

  lemma FedSoFar(
    dsp: Dsp, d: Dec, fs: seq<seq<byte>>, tail: seq<byte>, f0: Frame, frames: nat, q: Pass, k: nat, junk: seq<byte>)
    requires Feeding(dsp, d, fs, tail, f0, frames, q, k) && q.stage == junk + Flat(fs) + tail
    ensures k <= |fs| && (forall i | 0 <= i < |fs| :: |fs[i]| >= 4)
    ensures var t := Through(dsp, d, fs, k);
            && q.used == |junk| + |Flat(fs[..k])| && t.eaten == fs[..k]
            && q.dec == t.dec && q.made == t.pcm && q.frames == frames + t.frames
  {
    hide ParseHeader, Flat, StepFrame;
    ThroughFits(dsp, d, fs, k, f0);
    FlatSplit(fs, k);
    assert |q.stage| - q.used == |Flat(fs[k..])| + |tail|;
  }

  /** The same of a call of `cq_decring_pump`, as its users see it. */
  lemma SplicedPump(
    dsp: Dsp, size: nat, v: View, junk: seq<byte>, fs: seq<seq<byte>>, tail: seq<byte>, f0: Frame) returns (k: nat)
    requires |v.stage| <= STAGE && |v.out| + FRAME_ROOM <= size && !v.eof && SavedValid(v.dec)
    requires |Topped(v).stage| > 8192 && Spliced(Topped(v).stage, junk, fs, tail, f0)
    ensures 1 <= k < |fs| && (forall i | 0 <= i < |fs| :: |fs[i]| >= 4)
    ensures var w, t := PumpSpec(dsp, size, v).0, Through(dsp, Meeting(v.dec, f0), fs, k);
            && t.eaten == fs[..k] && w.stage == Flat(fs[k..]) + tail
            && w.dec == t.dec && w.out == v.out + t.pcm && w.frames == v.frames + t.frames
            && w.resyncs == v.resyncs + 1 && w.resyncBytes == v.resyncBytes + |junk| && w.flushes == v.flushes
            && (k == |fs| - 1 || size - |w.out| < FRAME_ROOM)
  {
    hide ParseHeader, Flat, Loop, Through, HdrValid, Refuted;
    var p := Topped(v);
    k := SplicedPass(dsp, size - |v.out|, p, junk, fs, tail, f0);
    FlatSplit(fs, k);
    LoopBounds(dsp, false, size - |v.out|, p);
    assert p.stage == (junk + Flat(fs[..k])) + (Flat(fs[k..]) + tail);
  }

  /** Junk is without a frame start if no offset in it is confirmed and the longest frame fits behind it. */
  lemma JunkIsRefuted(stage: seq<byte>, junk: nat)
    requires |stage| >= junk + 1445 && forall j: nat :: j < junk ==> !Confirmed(stage, j)
    ensures forall j: nat :: j < junk ==> Refuted(stage, j)
  {
    hide ParseHeader;
    forall j: nat | j < junk ensures Refuted(stage, j) {
      assert !Confirmed(stage, j);
      if ParseAt(stage, j).Some? { FrameBytesRange(At(stage, j)); }
    }
  }

  // ---- a concrete splice ------------------------------------------------------------------------------

  /** 128 kbps at 44.1 kHz: 417 bytes. */
  function Plain(): seq<byte> {
    [0xFF, 0xFB, 0x90, 0x00] + seq(413, _ => 0)
  }

  function Plains(n: nat): seq<seq<byte>> {
    seq(n, _ => Plain())
  }

  lemma PlainIsFrame()
    ensures IsFrame(Plain()) && |Plain()| == 417
  {
    assert FrameLength(1152, 128, 44100) == 417;
    assert At(Plain(), 0) == Hdr(0xFF, 0xFB, 0x90, 0x00);
  }

  lemma {:induction false} FlatPlains(n: nat)
    ensures |Flat(Plains(n))| == 417 * n
  {
    hide Plain;
    if n > 0 {
      PlainIsFrame();
      FlatCons(Plains(n));
      assert Plains(n)[1..] == Plains(n - 1);
      FlatPlains(n - 1);
    }
  }

  /** A hundred zero bytes, then 22 frames: 100 bytes are passed over and 21 frames are fed. */
  lemma SplicedTwentyOne(dsp: Dsp, room: nat, p: Pass, fs: seq<seq<byte>>)
    requires p.used == 0 && p.made == [] && p.dec == CLEARED && room >= 22 * 4608
    requires fs == Plains(22) && p.stage == seq(100, _ => 0) + Flat(fs)
    ensures forall i | 0 <= i < |fs| :: |fs[i]| >= 4
    ensures var q, t := Loop(dsp, false, room, p), Through(dsp, CLEARED, fs, 21);
            && q.used == 100 + 21 * 417 && t.eaten == fs[..21]
            && q.dec == t.dec && q.made == t.pcm && q.frames == p.frames + t.frames
            && q.resyncs == p.resyncs + 1 && q.resyncBytes == p.resyncBytes + 100 && q.flushes == p.flushes
  {
    hide ParseHeader, Flat, Plain, Through, Loop, Refuted;
    PlainIsFrame();
    FlatPlains(22);
    FlatPlains(21);
    var junk: seq<byte>, f0 := seq(100, _ => 0), FrameOf(Plain());
    assert p.stage == junk + Flat(fs) + [];
    PlainsAreStream(22);
    forall j: nat | j < 100 ensures Refuted(p.stage, j) { ZeroIsRefuted(p.stage, j); }
    var k := SplicedPass(dsp, room, p, junk, fs, [], f0);
    assert fs[..k] == Plains(k);
    if k < 21 { ThroughBounded(dsp, CLEARED, fs, k); }
    assert fs[..21] == Plains(21);
  }

  lemma PlainsAreStream(n: nat)
    ensures IsFrame(Plain()) && IsStream(Plains(n), [], FrameOf(Plain()))
  {
    hide ParseHeader, Plain;
    PlainIsFrame();
  }

  lemma ZeroIsRefuted(stage: seq<byte>, j: nat)
    requires j < |stage| && stage[j] == 0
    ensures Refuted(stage, j)
  {
    hide ParseHeader;
    ParseNeedsSyncByte(stage, j);
  }

  lemma {:induction false} ThroughBounded(dsp: Dsp, d: Dec, fs: seq<seq<byte>>, j: nat)
    requires j <= |fs| && forall i | 0 <= i < |fs| :: |fs[i]| >= 4
    ensures |Through(dsp, d, fs, j).pcm| <= j * 4608
  {
    hide StepFrame;
    if j > 0 {
      ThroughBounded(dsp, d, fs, j - 1);
      StepBounded(dsp, Through(dsp, d, fs, j - 1).dec, fs[j - 1]);
    }
  }

  lemma StepBounded(dsp: Dsp, d: Dec, f: seq<byte>)
    requires |f| >= 4
    ensures |StepFrame(dsp, d, f).pcm| <= 4608
  {
    hide FrameSamples;
  }
}
