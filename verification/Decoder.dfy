/** One decoder call (src/minimp3.h `mp3dec_decode_frame`, src/cq_mp3dec.c) and a flat decode. */
module Decoder {
  import opened Bytes
  import opened Mp3
  import opened Minimp3
  import opened FrameSelect
  import opened TailGate

  /** What the arithmetic inside a selected frame can come to. */
  datatype Outcome = BadSideInfo | ShortReservoir | Pcm(raw: seq<byte>)

  /** Any function of the frames decoded since the state was cleared and of the new one. */
  type Dsp = (seq<seq<byte>>, seq<byte>) -> Outcome

  datatype Decoded = Decoded(dec: Dec, consumed: nat, samples: nat, pcm: seq<byte>)

  /** Exactly `n` bytes. */
  function FitTo(raw: seq<byte>, n: nat): (r: seq<byte>)
    ensures |r| == n
  {
    seq(n, i requires 0 <= i < n => if i < |raw| then raw[i] else 0)
  }

  /** Bytes of interleaved 16-bit PCM one frame yields. */
  function PcmBytes(h: Hdr): (n: nat)
    ensures n <= 4608
  {
    FrameSamples(h) * Channels(h) * 2
  }

  /** Decoding the frame `frame` (header included) from state `d`. */
  function RunFrame(dsp: Dsp, d: Dec, frame: seq<byte>, consumed: nat): Decoded
    requires |frame| >= 4
  {
    var h := At(frame, 0);
    var past := d.past + [frame];
    match dsp(d.past, frame)
    case BadSideInfo => Decoded(Dec(h.(b0 := 0), d.freeFormat, past), consumed, 0, [])
    case ShortReservoir => Decoded(Dec(h, d.freeFormat, past), consumed, 0, [])
    case Pcm(raw) => Decoded(Dec(h, d.freeFormat, past), consumed, FrameSamples(h), FitTo(raw, PcmBytes(h)))
  }

  lemma {:induction false} FoundHasHeader(buf: seq<byte>, i: nat, freeFormat: nat)
    ensures var r := FindFrom(buf, i, freeFormat); r.size != 0 ==> r.off + 4 <= |buf|
    decreases |buf| - i
  {
    hide ParseHeader, HdrValid, FrameBytes, HdrCompare, MatchFrom, FreeScan;
    if i < |buf| - HDR_SIZE {
      if HdrValid(At(buf, i)) { FoundHasHeader(buf, i + 1, 0); } else { FoundHasHeader(buf, i + 1, freeFormat); }
    }
  }

  lemma SelectHasHeader(d: Dec, buf: seq<byte>)
    ensures var p := Select(d, buf); p.size != 0 ==> p.off + 4 <= |buf|
  {
    hide ParseHeader, HdrValid, FrameBytes, HdrCompare, FindFrom;
    FoundHasHeader(buf, 0, 0);
  }

  /** The bytes the arithmetic sees: the frame, and its header even if it claims to be shorter. */
  function Chosen(buf: seq<byte>, p: Pick): seq<byte>
    requires p.off + p.size <= |buf| && p.off + 4 <= |buf|
  {
    buf[p.off..p.off + Max(p.size, 4)]
  }

  function Decode(dsp: Dsp, d: Dec, buf: seq<byte>): Decoded {
    if buf == [] then Decoded(d, 0, 0, [])
    else
      SelectTakesSome(d, buf);
      SelectHasHeader(d, buf);
      var p := Select(d, buf);
      if p.size == 0 then Decoded(p.dec, p.off, 0, [])
      else RunFrame(dsp, p.dec, Chosen(buf, p), p.off + p.size)
  }

  /** Any bytes, any state: a call on a nonempty buffer consumes some of it, and not more. */
  lemma DecodeConsumes(dsp: Dsp, d: Dec, buf: seq<byte>)
    ensures var r := Decode(dsp, d, buf);
            && r.consumed <= |buf| && (buf != [] ==> r.consumed >= 1)
            && |r.pcm| <= 4608 && (r.samples == 0 ==> r.pcm == [])
  {
    hide ParseHeader, HdrValid, FrameBytes, HdrCompare, FindFrom, FrameSamples;
    if buf != [] { SelectTakesSome(d, buf); }
  }

  class Mp3Dec {
    const dsp: Dsp
    var header: Hdr
    var freeFormat: nat
    var past: seq<seq<byte>>

    function State(): Dec
      reads this
    {
      Dec(header, freeFormat, past)
    }

    constructor (dsp: Dsp)
      ensures this.dsp == dsp && State() == CLEARED
    {
      this.dsp := dsp;
      header, freeFormat, past := Hdr(0, 0, 0, 0), 0, [];
    }

    /** `cq_mp3dec_init`: only the saved header's first byte is cleared. */
    method Init()
      modifies this
      ensures State() == old(State()).(header := old(header).(b0 := 0))
    {
      header := header.(b0 := 0);
    }

    /** `cq_mp3dec_frame`. */
    method Frame(buf: seq<byte>) returns (samples: nat, pcm: seq<byte>, consumed: nat)
      modifies this
      ensures Decoded(State(), consumed, samples, pcm) == Decode(dsp, old(State()), buf)
    {
      hide ParseHeader, Select, FrameSamples, FitTo;
      if buf == [] { return 0, [], 0; }
      SelectTakesSome(State(), buf);
      SelectHasHeader(State(), buf);
      var i, size := ChooseFrame(buf);
      if size == 0 { return 0, [], i; }
      var frame := buf[i..i + Max(size, 4)];
      assert At(frame, 0) == At(buf, i);
      header, consumed := At(buf, i), i + size;
      var outcome := dsp(past, frame);
      past := past + [frame];
      match outcome {
        case BadSideInfo =>
          header, samples, pcm := header.(b0 := 0), 0, [];
        case ShortReservoir =>
          samples, pcm := 0, [];
        case Pcm(raw) =>
          samples, pcm := FrameSamples(header), FitTo(raw, PcmBytes(header));
      }
    }

    /** By the saved header if it can be trusted, by a search from a cleared state if not. */
    method ChooseFrame(buf: seq<byte>) returns (i: nat, size: nat)
      modifies this
      ensures Pick(i, size, State()) == Select(old(State()), buf)
    {
      hide ParseHeader, HdrValid, FrameBytes, Padding, FindFrom;
      i, size := 0, 0;
      if |buf| > 4 && header.b0 == 0xFF && HdrCompare(header, At(buf, 0)) {
        size := FrameBytes(At(buf, 0), freeFormat) + Padding(At(buf, 0));
        if size != |buf| && (size + HDR_SIZE > |buf| || !HdrCompare(At(buf, 0), At(buf, size))) {
          size := 0;
        }
      }
      if size == 0 {
        header, freeFormat, past := Hdr(0, 0, 0, 0), 0, [];
        var r := FindFrame(buf, 0);
        i, size, freeFormat := r.off, r.size, r.freeFormat;
      }
    }
  }

  // ---- whole streams ---------------------------------------------------------

  /** Totals after some decoder calls: state, counted frames, PCM, and the bytes each call took. */
  datatype Total = Total(dec: Dec, frames: nat, pcm: seq<byte>, eaten: seq<seq<byte>>)

  function Add(t: Total, r: Decoded, taken: seq<byte>): Total {
    Total(r.dec, t.frames + (if r.samples > 0 then 1 else 0), t.pcm + r.pcm, t.eaten + [taken])
  }

  /** Decode the rest of a flat buffer, call after call. */
  function FlatFrom(dsp: Dsp, t: Total, rest: seq<byte>): Total
    decreases |rest|
  {
    if rest == [] then t
    else
      DecodeConsumes(dsp, t.dec, rest);
      var r := Decode(dsp, t.dec, rest);
      FlatFrom(dsp, Add(t, r, rest[..r.consumed]), rest[r.consumed..])
  }

  /** One stream frame, from the kept state or from a cleared one. */
  function StepFrame(dsp: Dsp, d: Dec, f: seq<byte>): Decoded
    requires |f| >= 4
  {
    RunFrame(dsp, if d.header.b0 == 0xFF then d else CLEARED, f, |f|)
  }

  /** Totals after the first `j` frames of a stream. */
  function Through(dsp: Dsp, d: Dec, fs: seq<seq<byte>>, j: nat): Total
    requires j <= |fs| && forall i | 0 <= i < |fs| :: |fs[i]| >= 4
    decreases j
  {
    if j == 0 then Total(d, 0, [], [])
    else
      var t := Through(dsp, d, fs, j - 1);
      Add(t, StepFrame(dsp, t.dec, fs[j - 1]), fs[j - 1])
  }

  /** Given a stream cut where the gate allows, one call is one frame step and nothing else. */
  lemma DecodeNext(dsp: Dsp, d: Dec, fs: seq<seq<byte>>, tail: seq<byte>, f0: Frame)
    requires fs != [] && Coherent(fs, f0) && PartialTail(tail, f0) && DecFits(d, f0)
    requires |fs| >= 2 || |tail| == 0 || |tail| >= 4
    ensures |fs[0]| >= 4
    ensures var r := Decode(dsp, d, Flat(fs) + tail);
            r == StepFrame(dsp, d, fs[0]) && r.consumed == |fs[0]| && DecFits(r.dec, f0)
  {
    hide ParseHeader, HdrValid, FrameBytes, HdrCompare, Select, Flat, FrameSamples, FitTo;
    var buf := Flat(fs) + tail;
    assert IsFrame(fs[0]);
    FlatCons(fs);
    SelectOnStream(d, fs, tail, f0);
    assert buf[0..|fs[0]|] == fs[0];
    FrameBytesRange(At(fs[0], 0));
  }

  lemma {:induction false} ThroughFits(dsp: Dsp, d: Dec, fs: seq<seq<byte>>, j: nat, f0: Frame)
    requires j <= |fs| && Coherent(fs, f0) && DecFits(d, f0)
    requires forall i | 0 <= i < |fs| :: |fs[i]| >= 4
    ensures DecFits(Through(dsp, d, fs, j).dec, f0) && Through(dsp, d, fs, j).eaten == fs[..j]
  {
    hide ParseHeader, FrameSamples, FitTo;
    if j > 0 {
      ThroughFits(dsp, d, fs, j - 1, f0);
      assert IsFrame(fs[j - 1]);
      assert fs[..j] == fs[..j - 1] + [fs[j - 1]];
    }
  }

  lemma FramesAreLong(fs: seq<seq<byte>>, f0: Frame)
    requires Coherent(fs, f0)
    ensures forall i | 0 <= i < |fs| :: |fs[i]| >= 4
  {
    hide ParseHeader;
    forall i | 0 <= i < |fs| ensures |fs[i]| >= 4 {
      assert IsFrame(fs[i]);
    }
  }

  /** A flat decode of whole coherent frames is exactly one step per frame. */
  lemma {:induction false} FlatDecodeIsPerFrame(dsp: Dsp, d: Dec, fs: seq<seq<byte>>, j: nat, f0: Frame)
    requires j <= |fs| && Coherent(fs, f0) && DecFits(d, f0)
    ensures forall i | 0 <= i < |fs| :: |fs[i]| >= 4
    ensures FlatFrom(dsp, Through(dsp, d, fs, j), Flat(fs[j..])) == Through(dsp, d, fs, |fs|)
    decreases |fs| - j
  {
    hide ParseHeader, Decode, StepFrame, Flat;
    FramesAreLong(fs, f0);
    var t, gs := Through(dsp, d, fs, j), fs[j..];
    if j == |fs| {
      FlatNone(gs);
    } else {
      ThroughFits(dsp, d, fs, j, f0);
      assert Coherent(gs, f0);
      assert Flat(gs) + [] == Flat(gs);
      DecodeNext(dsp, t.dec, gs, [], f0);
      FlatCons(gs);
      assert gs[1..] == fs[j + 1..];
      FlatDecodeIsPerFrame(dsp, d, fs, j + 1, f0);
    }
  }
}
