/**
 * What one decoder call leaves, and which frames are heard after tuning in to the middle of
 * a stream (src/minimp3.h, lines 1739-1806).
 */
module TuneIn {
  import opened Bytes
  import opened Bits
  import opened Mp3
  import opened Minimp3
  import opened FrameSelect
  import opened TailGate
  import opened SideInfo
  import opened SideLayout
  import opened Decoder
  import opened Reservoir

  // ---- one call -----------------------------------------------------------------------------------

  /**
   * Heard or not, a frame whose side information holds leaves its own four bytes as the saved
   * header and joins the frames the state depends on; one whose does not voids the header.
   */
  lemma CallLeaves(dsp: Dsp, d: Dec, frame: seq<byte>, consumed: nat)
    requires |frame| >= 4
    ensures var r, outcome := RunFrame(dsp, d, frame, consumed), dsp(d.past, frame);
            && r.consumed == consumed
            && (if outcome == BadSideInfo then r.dec.header.b0 == 0 && r.samples == 0
                else r.dec == Dec(Hdr(frame[0], frame[1], frame[2], frame[3]), d.freeFormat, d.past + [frame]))
            && (outcome == ShortReservoir ==> r.samples == 0 && r.pcm == [])
            && (outcome.Pcm? ==> r.samples == FrameSamples(At(frame, 0)))
  {
    hide FrameSamples, FitTo, PcmBytes;
  }

  /** The PCM of a frame the stream reader accepts: two bytes a sample and channel, and the arithmetic's own. */
  lemma PcmOfFrame(dsp: Dsp, d: Dec, frame: seq<byte>, consumed: nat)
    requires |frame| >= 4 && ParseAt(frame, 0).Some?
    ensures var f, r := ParseAt(frame, 0).value, RunFrame(dsp, d, frame, consumed);
            && f.samples == (if f.version == 1 then 1152 else 576) && f.channels in {1, 2}
            && (dsp(d.past, frame).Pcm? ==>
                  && r.samples == f.samples && |r.pcm| == 2 * f.samples * f.channels
                  && (|dsp(d.past, frame).raw| == 2 * f.samples * f.channels ==> r.pcm == dsp(d.past, frame).raw))
  {
    hide FrameLength, HdrValid, BitrateKbps, SampleRateHz, FrameBytes;
    ParsersAgree(At(frame, 0), 0);
  }

  lemma GoodIsNotBad(synth: Synth, others: Dsp, past: seq<seq<byte>>, frame: seq<byte>)
    requires |frame| >= 4 && Layer(At(frame, 0)) == 1 && SideOf(frame).Some? && Framed(past)
    ensures var outcome := Layer3(synth, others)(past, frame);
            && (outcome.Pcm? <==> Reaches(StreamAfter(past), frame))
            && (outcome.Pcm? || outcome == ShortReservoir)
  {
    hide SideOf, StreamAfter;
    Layer3Makes(synth, others, past, frame);
  }

  // ---- a run from a void decoder ------------------------------------------------------------------

  /** Coherent frames of which none is to be given up. */
  ghost predicate Sound(fs: seq<seq<byte>>, f0: Frame) {
    Coherent(fs, f0) && forall i {:trigger fs[i]} | 0 <= i < |fs| :: |fs[i]| >= 4 && SideOf(fs[i]).Some?
  }

  /** The bytes of payload before frame `j` that no frame before it has used. */
  function Unused(fs: seq<seq<byte>>, j: nat): nat
    requires j <= |fs| && Framed(fs)
  {
    var s := StreamAfter(fs[..j]);
    |s.all| - s.free
  }

  lemma SoundFrame(fs: seq<seq<byte>>, f0: Frame, j: nat)
    requires Sound(fs, f0) && j < |fs|
    ensures IsFrame(fs[j]) && Layer(At(fs[j], 0)) == 1 && Sided(fs[j]) == SideOf(fs[j]) && SideOf(fs[j]).Some?
    ensures At(fs[j], 0).b0 == 0xFF && FrameSamples(At(fs[j], 0)) == FrameOf(fs[j]).samples > 0 && Framed(fs[..j])
  {
    hide SideOf, HdrValid, BitrateKbps, SampleRateHz, FrameBytes, FrameLength;
    assert IsFrame(fs[j]);
    ParsersAgree(At(fs[j], 0), 0);
  }

  /**
   * A decoder whose saved header is void tunes in to a stream: after any number of frames the
   * state is that of exactly those frames, whether they were heard or not; and a frame is
   * heard, with all its samples, if and only if its main data reaches back no further than
   * the payload before it that is still unused.
   */
  lemma {:induction false} TunedIn(synth: Synth, others: Dsp, d: Dec, fs: seq<seq<byte>>, f0: Frame, j: nat)
    requires d.header.b0 != 0xFF && Sound(fs, f0) && j <= |fs|
    ensures Framed(fs) && forall i | 0 <= i < |fs| :: |fs[i]| >= 4
    ensures var t := Through(Layer3(synth, others), d, fs, j);
            && (j > 0 ==> t.dec == Dec(At(fs[j - 1], 0), 0, fs[..j]))
            && (j < |fs| ==>
                  var r := StepFrame(Layer3(synth, others), t.dec, fs[j]);
                  && (r.samples > 0 <==> SideOf(fs[j]).value.main <= Unused(fs, j))
                  && r.samples in {0, FrameOf(fs[j]).samples})
    decreases j
  {
    hide ParseHeader, SideOf, StreamAfter, FrameSamples, FitTo, PcmBytes, Layer3;
    var dsp := Layer3(synth, others);
    if j > 0 {
      TunedIn(synth, others, d, fs, f0, j - 1);
      SoundFrame(fs, f0, j - 1);
      if j > 1 { SoundFrame(fs, f0, j - 2); }
      assert fs[..j] == fs[..j - 1] + [fs[j - 1]] && fs[..0] == [];
      GoodIsNotBad(synth, others, fs[..j - 1], fs[j - 1]);
      CallLeaves(dsp, Dec(At(fs[j - 1], 0), 0, fs[..j - 1]), fs[j - 1], |fs[j - 1]|);
    }
    if j < |fs| {
      SoundFrame(fs, f0, j);
      if j > 0 { SoundFrame(fs, f0, j - 1); }
      assert fs[..0] == [];
      GoodIsNotBad(synth, others, fs[..j], fs[j]);
    }
  }

  /**
   * What is left unused: after a frame that was heard, the rest of its window; after one that
   * was not, all there was and its whole payload.
   */
  lemma LeftUnused(fs: seq<seq<byte>>, f0: Frame, j: nat)
    requires Sound(fs, f0) && j < |fs|
    ensures Framed(fs) && Unused(fs, 0) == 0
    ensures var side := SideOf(fs[j]).value;
            Unused(fs, j + 1)
            == if side.main <= Unused(fs, j) then side.main + |side.payload| - (Sum(side.lengths) + 7) / 8
               else Unused(fs, j) + |side.payload|
  {
    hide ParseHeader, SideOf, Sum;
    SoundFrame(fs, f0, j);
    SidedFits(fs[j]);
    assert fs[..j + 1][..j] == fs[..j] && fs[..j + 1][j] == fs[j] && fs[..0] == [];
  }

  /** The second frame after tuning in is heard by what the first, itself not heard, has left. */
  lemma HeardFromTheSecond(synth: Synth, others: Dsp, d: Dec, fs: seq<seq<byte>>, f0: Frame)
    requires d.header.b0 != 0xFF && Sound(fs, f0) && |fs| >= 2
    requires 0 < SideOf(fs[0]).value.main && SideOf(fs[1]).value.main <= |SideOf(fs[0]).value.payload|
    ensures forall i | 0 <= i < |fs| :: |fs[i]| >= 4
    ensures var dsp := Layer3(synth, others);
            var r0 := StepFrame(dsp, d, fs[0]);
            r0.samples == 0 && StepFrame(dsp, r0.dec, fs[1]).samples == FrameOf(fs[1]).samples
  {
    hide ParseHeader, SideOf, Layer3, StepFrame, Unused;
    TunedIn(synth, others, d, fs, f0, 0);
    TunedIn(synth, others, d, fs, f0, 1);
    LeftUnused(fs, f0, 0);
    SoundFrame(fs, f0, 1);
    assert Through(Layer3(synth, others), d, fs, 1)
        == Add(Through(Layer3(synth, others), d, fs, 0), StepFrame(Layer3(synth, others), d, fs[0]), fs[0]);
  }

  /** A frame whose main data begins 257 bytes back, and that brings 381. */
  function Reaching(): seq<byte> {
    [0xFF, 0xFB, 0x90, 0x00, 0x80, 0x80] + seq(411, _ => 0)
  }

  lemma ReachingIs()
    ensures IsFrame(Reaching()) && FrameOf(Reaching()).samples == 1152 && |Reaching()| == 417
    ensures SideOf(Reaching()).Some? && SideOf(Reaching()).value.main == 257
    ensures |SideOf(Reaching()).value.payload| == 381
  {
    hide SideOf;
    PlainFrame(Reaching());
    assert FrameLength(1152, 128, 44100) == 417;
    assert At(Reaching(), 0) == Hdr(0xFF, 0xFB, 0x90, 0x00);
  }

  /** Two of them, from a void decoder: the first is silent, the second is heard. */
  lemma SecondIsHeard(synth: Synth, others: Dsp)
    ensures |Reaching()| >= 4
    ensures var dsp, f := Layer3(synth, others), Reaching();
            var first := StepFrame(dsp, CLEARED, f);
            first.samples == 0 && StepFrame(dsp, first.dec, f).samples == 1152
  {
    hide ParseHeader, SideOf, Layer3, StepFrame, Reaching;
    ReachingIs();
    var fs, f0 := [Reaching(), Reaching()], FrameOf(Reaching());
    HeardFromTheSecond(synth, others, CLEARED, fs, f0);
  }

  // ---- which state a frame is decoded from --------------------------------------------------------

  /**
   * By the saved header if it compares equal to the first four bytes and the frame they
   * announce ends the buffer or has another header of the kind behind it; else from a state
   * cleared of everything but the free-format size just found.
   */
  lemma ResumesIff(d: Dec, buf: seq<byte>)
    ensures var p := Select(d, buf);
            if |buf| > 4 && d.header.b0 == 0xFF && HdrCompare(d.header, At(buf, 0))
               && (var n := FrameBytes(At(buf, 0), d.freeFormat) + Padding(At(buf, 0));
                   n > 0 && (n == |buf| || (n + 4 <= |buf| && HdrCompare(At(buf, 0), At(buf, n)))))
            then p == Pick(0, FrameBytes(At(buf, 0), d.freeFormat) + Padding(At(buf, 0)), d)
            else p.dec.header == Hdr(0, 0, 0, 0) && p.dec.past == []
  {
    hide ParseHeader, FrameBytes, FindFrom, HdrValid;
  }
}
