/**
 * The frame header as src/minimp3.h reads it (lines 61-78 and 264-314), and why it agrees
 * with the stream reader's own parser.
 */
module Minimp3 {
  import opened Bytes
  import opened Mp3

  const HDR_SIZE := 4
  const MAX_FRAME_SYNC_MATCHES := 10
  const MAX_FREE_FORMAT_FRAME_SIZE := 2304

  // Twice these are kbps: [MPEG1][layer - 1][index].
  const HALFRATE: seq<seq<seq<nat>>> := [
    [[0, 4, 8, 12, 16, 20, 24, 28, 32, 40, 48, 56, 64, 72, 80],
     [0, 4, 8, 12, 16, 20, 24, 28, 32, 40, 48, 56, 64, 72, 80],
     [0, 16, 24, 28, 32, 40, 48, 56, 64, 72, 80, 88, 96, 112, 128]],
    [[0, 16, 20, 24, 28, 32, 40, 48, 56, 64, 80, 96, 112, 128, 160],
     [0, 16, 24, 28, 32, 40, 48, 56, 64, 80, 96, 112, 128, 160, 192],
     [0, 16, 32, 48, 64, 80, 96, 112, 128, 144, 160, 176, 192, 208, 224]]]
  const HZ: seq<nat> := [44100, 48000, 32000]

  function Layer(h: Hdr): nat { h.b1 / 2 % 4 }
  predicate IsMpeg1(h: Hdr) { h.b1 / 8 % 2 == 1 }
  predicate IsNotMpeg25(h: Hdr) { h.b1 / 16 % 2 == 1 }
  predicate IsFreeFormat(h: Hdr) { h.b2 / 16 == 0 }
  predicate IsLayer1(h: Hdr) { Layer(h) == 3 }
  function Channels(h: Hdr): nat { if h.b3 / 64 == 3 then 1 else 2 }

  predicate HdrValid(h: Hdr) {
    && h.b0 == 0xFF
    && (h.b1 / 16 == 15 || h.b1 / 2 == 0x71)
    && Layer(h) != 0
    && h.b2 / 16 != 15
    && h.b2 / 4 % 4 != 3
  }

  predicate HdrCompare(h1: Hdr, h2: Hdr) {
    && HdrValid(h2)
    && h1.b1 / 2 == h2.b1 / 2
    && h1.b2 / 4 % 4 == h2.b2 / 4 % 4
    && IsFreeFormat(h1) == IsFreeFormat(h2)
  }

  function BitrateKbps(h: Hdr): nat
    requires HdrValid(h)
  {
    2 * HALFRATE[if IsMpeg1(h) then 1 else 0][Layer(h) - 1][h.b2 / 16]
  }

  function SampleRateHz(h: Hdr): (hz: nat)
    requires HdrValid(h)
    ensures hz > 0
  {
    HZ[h.b2 / 4 % 4] / (if IsMpeg1(h) then 1 else 2) / (if IsNotMpeg25(h) then 1 else 2)
  }

  function FrameSamples(h: Hdr): (s: nat)
    ensures s <= 1152
  {
    if IsLayer1(h) then 384 else if h.b1 / 2 % 8 == 1 then 576 else 1152
  }

  function FrameBytes(h: Hdr, freeFormat: nat): nat
    requires HdrValid(h)
  {
    var raw := FrameSamples(h) * BitrateKbps(h) * 125 / SampleRateHz(h);
    var bytes := if IsLayer1(h) then raw - raw % 4 else raw;
    if bytes != 0 then bytes else freeFormat
  }

  function Padding(h: Hdr): nat {
    if h.b2 / 2 % 2 == 1 then (if IsLayer1(h) then 4 else 1) else 0
  }

  // ---- the two parsers agree ---------------------------------------------

  lemma TablesAgree(i: nat)
    requires i < 15
    ensures BITRATE_V1[i] == 2 * HALFRATE[1][0][i] && BITRATE_V2[i] == 2 * HALFRATE[0][0][i]
    ensures BITRATE_V1[i] == 0 <==> i == 0
    ensures BITRATE_V2[i] == 0 <==> i == 0
  {
  }

  lemma SameQuotient(samples: nat, kbps: nat, hz: nat)
    requires hz > 0 && samples % 8 == 0
    ensures samples * kbps * 125 / hz == FrameLength(samples, kbps, hz)
  {
    assert samples / 8 * 8 == samples;
    assert samples / 8 * (kbps * 1000) == samples * kbps * 125;
  }

  lemma RatesAgree(h: Hdr)
    requires HdrValid(h) && Layer(h) == 1 && ParseHeader(h).Some?
    ensures var f := ParseHeader(h).value;
            && f.samplerate == SampleRateHz(h) && f.samples == FrameSamples(h)
            && f.channels == Channels(h) && f.bitrateKbps == BitrateKbps(h)
  {
    TablesAgree(h.b2 / 16);
  }

  lemma ParsedIsValid(h: Hdr)
    requires ParseHeader(h).Some?
    ensures HdrValid(h) && Layer(h) == 1 && !IsFreeFormat(h)
  {
    hide FrameLength;
    if h.b2 / 16 < 15 { TablesAgree(h.b2 / 16); }
    assert BITRATE_V1[15] == 0 && BITRATE_V2[15] == 0 && RATE[3] == 0;
  }

  lemma ValidParses(h: Hdr)
    requires HdrValid(h) && Layer(h) == 1 && !IsFreeFormat(h)
    ensures ParseHeader(h).Some?
  {
    TablesAgree(h.b2 / 16);
    TableRange(h.b2 / 16);
    var v := h.b1 / 8 % 4;
    var version := if v == 3 then 1 else if v == 2 then 2 else 25;
    var kbps := if version == 1 then BITRATE_V1[h.b2 / 16] else BITRATE_V2[h.b2 / 16];
    var base := RATE[h.b2 / 4 % 4];
    FrameLengthRange(version, kbps,
                     if version == 1 then base else if version == 2 then base / 2 else base / 4);
  }

  lemma ParseIffValid(h: Hdr)
    ensures ParseHeader(h).Some? <==> HdrValid(h) && Layer(h) == 1 && !IsFreeFormat(h)
  {
    hide ParseHeader, HdrValid;
    if ParseHeader(h).Some? { ParsedIsValid(h); }
    if HdrValid(h) && Layer(h) == 1 && !IsFreeFormat(h) { ValidParses(h); }
  }

  /**
   * The stream reader accepts exactly the headers the decoder calls valid Layer III
   * of a known bitrate, and both compute the same length, samples, rate and channels.
   */
  lemma ParsersAgree(h: Hdr, freeFormat: nat)
    ensures ParseHeader(h).Some? <==> HdrValid(h) && Layer(h) == 1 && !IsFreeFormat(h)
    ensures ParseHeader(h).Some? ==>
              var f := ParseHeader(h).value;
              && f.frameBytes == FrameBytes(h, freeFormat) + Padding(h)
              && f.samples == FrameSamples(h) && f.samplerate == SampleRateHz(h)
              && f.channels == Channels(h) && f.bitrateKbps == BitrateKbps(h)
  {
    ParseIffValid(h);
    if ParseHeader(h).Some? {
      RatesAgree(h);
      FrameBytesRange(h);
      SameQuotient(FrameSamples(h), BitrateKbps(h), SampleRateHz(h));
    }
  }

  lemma ParsedKey(h: Hdr)
    requires ParseHeader(h).Some?
    ensures var f, r := ParseHeader(h).value, h.b2 / 4 % 4;
            && f.version == (if h.b1 / 2 == 0x7D then 1 else if h.b1 / 2 == 0x79 then 2 else 25)
            && h.b1 / 2 in {0x71, 0x79, 0x7D} && r < 3
            && f.samplerate == RATE[r] / (if f.version == 1 then 1 else if f.version == 2 then 2 else 4)
  {
    hide FrameLength;
    assert h.b1 / 2 == 16 * (h.b1 / 32) + 4 * (h.b1 / 8 % 4) + h.b1 / 2 % 4;
    assert RATE[3] == 0;
  }

  /** After a parsed header, "same stream" means the same to both. */
  lemma CompareIffAgree(h1: Hdr, h2: Hdr)
    requires ParseHeader(h1).Some?
    ensures HdrCompare(h1, h2) <==>
              ParseHeader(h2).Some? && Agree(ParseHeader(h1).value, ParseHeader(h2).value)
  {
    hide ParseHeader, HdrValid;
    ParseIffValid(h1);
    ParseIffValid(h2);
    ParsedKey(h1);
    if ParseHeader(h2).Some? { ParsedKey(h2); }
    assert HdrCompare(h1, h2) ==> Layer(h2) == Layer(h1);
  }
}
