/**
 * Why the tail-gate of src/cq_decring.c is right: what `cq_mp3_walk` admits at the
 * head of a buffer is what the decoder will take from it.
 */
module TailGate {
  import opened Bytes
  import opened Mp3
  import opened Minimp3
  import opened FrameSelect

  /** Following predicted lengths from `off`, the next `hops` headers in reach agree with `f0`. */
  predicate HeadersCohere(buf: seq<byte>, off: nat, f0: Frame, hops: nat)
    requires ParseAt(buf, off).Some?
    decreases hops
  {
    hops == 0 ||
    var next := off + ParseAt(buf, off).value.frameBytes;
    next + 4 <= |buf| ==>
      && ParseAt(buf, next).Some?
      && Agree(f0, ParseAt(buf, next).value)
      && HeadersCohere(buf, next, f0, hops - 1)
  }

  lemma {:induction false} MatchIffCohere(buf: seq<byte>, i: nat, nmatch: nat, freeFormat: nat)
    requires ParseAt(buf, 0).Some? && ParseAt(buf, i).Some? && nmatch <= MAX_FRAME_SYNC_MATCHES
    requires HdrValid(At(buf, 0)) && HdrValid(At(buf, i))
    ensures MatchFrom(buf, 0, i, nmatch, freeFormat) <==>
              && (nmatch > 0 || InReach(buf, i))
              && HeadersCohere(buf, i, ParseAt(buf, 0).value, MAX_FRAME_SYNC_MATCHES - nmatch)
    decreases MAX_FRAME_SYNC_MATCHES - nmatch
  {
    hide ParseHeader, HdrValid, FrameBytes, Padding, HdrCompare;
    if nmatch < MAX_FRAME_SYNC_MATCHES {
      ParsersAgree(At(buf, i), freeFormat);
      var j := i + ParseAt(buf, i).value.frameBytes;
      assert At(buf, 0 + i) == At(buf, i);
      if j + 4 <= |buf| {
        CompareIffAgree(At(buf, 0), At(buf, j));
        if HdrCompare(At(buf, 0), At(buf, j)) {
          ParsersAgree(At(buf, j), freeFormat);
          MatchIffCohere(buf, j, nmatch + 1, freeFormat);
        }
      }
    }
  }

  /** A buffer that starts with a parsed header, seen by a decoder that must search. */
  lemma SearchAtHead(buf: seq<byte>)
    requires ParseAt(buf, 0).Some? && |buf| > 4
    ensures var len, r := ParseAt(buf, 0).value.frameBytes, FindFrom(buf, 0, 0);
            && ((r.off == 0 && r.size == len) <==>
                  || (InReach(buf, 0) && HeadersCohere(buf, 0, ParseAt(buf, 0).value, MAX_FRAME_SYNC_MATCHES))
                  || len == |buf|)
            && (r.off == 0 && r.size == len ==> r.freeFormat == 0)
  {
    hide ParseHeader, HdrValid, FrameBytes, HdrCompare, MatchFrom;
    var h := At(buf, 0);
    ParsersAgree(h, 0);
    FrameBytesRange(h);
    assert Padding(h) <= 4;
    MatchIffCohere(buf, 0, 0, FrameBytes(h, 0));
    FoundInside(buf, 1, 0);
  }

  /**
   * Two whole coherent frames at the head of any buffer: a decoder whose saved header
   * compares equal takes exactly the first one and keeps its state; any other decoder
   * takes exactly the first one if and only if the headers it checks (at most ten, by
   * the stream reader's own lengths) all agree, and then starts from a cleared state.
   */
  lemma GateIsSound(d: Dec, buf: seq<byte>)
    requires WalkSpec(buf, 2).1 == 2
    ensures ParseAt(buf, 0).Some?
    ensures var f, p := ParseAt(buf, 0).value, Select(d, buf);
            var head := p.off == 0 && p.size == f.frameBytes;
            if Live(d, buf) then head && p.dec == d
            else
              && (head <==> HeadersCohere(buf, 0, f, MAX_FRAME_SYNC_MATCHES))
              && (head ==> p.dec == CLEARED)
  {
    hide ParseHeader, HdrValid, FrameBytes, HdrCompare, FindFrom;
    var f := ParseAt(buf, 0).value;
    FrameBytesRange(At(buf, 0));
    var next := f.frameBytes;
    assert WalkFrom(buf, 0, f, 2).1 == 2;
    assert WalkFrom(buf, next, f, 1).1 == 1;
    assert WholeAt(buf, next, f);
    FrameBytesRange(At(buf, next));
    ParsersAgree(At(buf, 0), d.freeFormat);
    CompareIffAgree(At(buf, 0), At(buf, next));
    SearchAtHead(buf);
  }

  // ---- on a stream -----------------------------------------------------------

  /** Less than one further whole frame: a proper prefix of one that agrees with `f0`. */
  predicate PartialTail(tail: seq<byte>, f0: Frame) {
    |tail| < 4 ||
    (ParseAt(tail, 0).Some? && Agree(f0, ParseAt(tail, 0).value)
     && |tail| < ParseAt(tail, 0).value.frameBytes)
  }

  /** The saved header is void or belongs to the stream. */
  predicate DecFits(d: Dec, f0: Frame) {
    d.header.b0 == 0xFF ==> ParseHeader(d.header).Some? && Agree(f0, ParseHeader(d.header).value)
  }

  lemma {:induction false} StreamCoheres(pre: seq<byte>, fs: seq<seq<byte>>, tail: seq<byte>, f0: Frame, hops: nat)
    requires fs != [] && Coherent(fs, f0) && PartialTail(tail, f0)
    ensures var buf := pre + Flat(fs) + tail;
            && ParseAt(buf, |pre|) == ParseAt(fs[0], 0)
            && HeadersCohere(buf, |pre|, f0, hops)
    decreases hops
  {
    hide ParseHeader, Flat;
    var buf, f := pre + Flat(fs) + tail, fs[0];
    assert IsFrame(f);
    assert Flat(fs) == f + Flat(fs[1..]) by { FlatCons(fs); }
    assert buf == pre + f + (Flat(fs[1..]) + tail);
    ParseAtPrefix(pre, f, Flat(fs[1..]) + tail);
    if hops > 0 {
      var next := |pre + f|;
      assert buf == (pre + f) + Flat(fs[1..]) + tail;
      if |fs| > 1 {
        assert IsFrame(fs[1]);
        StreamCoheres(pre + f, fs[1..], tail, f0, hops - 1);
      } else if next + 4 <= |buf| {
        FlatNone(fs[1..]);
        assert buf == (pre + f) + tail + [];
        ParseAtPrefix(pre + f, tail, []);
      }
    }
  }

  lemma FlatCons(fs: seq<seq<byte>>)
    requires fs != []
    ensures Flat(fs) == fs[0] + Flat(fs[1..])
  {
  }

  lemma FlatNone(fs: seq<seq<byte>>)
    requires fs == []
    ensures Flat(fs) == []
  {
  }

  /**
   * On a coherent stream cut anywhere, the decoder takes exactly the next frame if and
   * only if a second whole frame is there or the cut leaves none, or at least four, bytes
   * of it. One to three bytes of a next frame make it lose the frame it was given.
   */
  lemma SelectOnStream(d: Dec, fs: seq<seq<byte>>, tail: seq<byte>, f0: Frame)
    requires fs != [] && Coherent(fs, f0) && PartialTail(tail, f0) && DecFits(d, f0)
    ensures var p := Select(d, Flat(fs) + tail);
            && (p.off == 0 && p.size == |fs[0]| <==> |fs| >= 2 || |tail| == 0 || |tail| >= 4)
            && (p.off == 0 && p.size == |fs[0]| ==>
                  p.dec == if d.header.b0 == 0xFF then d else CLEARED)
  {
    hide ParseHeader, HdrValid, FrameBytes, HdrCompare, FindFrom, Flat, MatchFrom;
    var buf, f := Flat(fs) + tail, fs[0];
    assert IsFrame(f);
    FlatCons(fs);
    assert [] + Flat(fs) + tail == buf;
    StreamCoheres([], fs, tail, f0, MAX_FRAME_SYNC_MATCHES);
    CohereByAgreement(buf, 0, f0, FrameOf(f), MAX_FRAME_SYNC_MATCHES);
    FrameBytesRange(At(buf, 0));
    SearchAtHead(buf);
    ParsersAgree(At(buf, 0), d.freeFormat);
    if d.header.b0 == 0xFF { CompareIffAgree(d.header, At(buf, 0)); }
    if |fs| >= 2 {
      assert IsFrame(fs[1]);
      FlatCons(fs[1..]);
      assert |buf| >= |f| + |fs[1]|;
    } else {
      FlatNone(fs[1..]);
    }
    if |f| + 4 <= |buf| { CompareIffAgree(At(buf, 0), At(buf, |f|)); }
  }

  /** One to three bytes of a next frame: whatever the decoder takes, it is not the frame. */
  lemma CutTakesAnother(d: Dec, f: seq<byte>, tail: seq<byte>)
    requires IsFrame(f) && 1 <= |tail| <= 3
    ensures var p := Select(d, f + tail); p.off + p.size != |f|
  {
    hide ParseHeader, HdrValid, FrameBytes, HdrCompare, FindFrom;
    var buf := f + tail;
    assert At(buf, 0) == At(f, 0);
    ParsersAgree(At(buf, 0), d.freeFormat);
    FoundConfirmed(buf, 0, 0);
    FoundInside(buf, 0, 0);
  }

  lemma {:induction false} CohereByAgreement(buf: seq<byte>, off: nat, f0: Frame, f1: Frame, hops: nat)
    requires ParseAt(buf, off).Some? && Agree(f0, f1)
    ensures HeadersCohere(buf, off, f0, hops) <==> HeadersCohere(buf, off, f1, hops)
    decreases hops
  {
    hide ParseHeader;
    if hops > 0 {
      var next := off + ParseAt(buf, off).value.frameBytes;
      if next + 4 <= |buf| && ParseAt(buf, next).Some? {
        CohereByAgreement(buf, next, f0, f1, hops - 1);
      }
    }
  }
}
