/**
 * What the decode pipeline is for: any chunking and any interleaving decode a coherent
 * stream exactly as one flat decode of it would. A stream is whole coherent frames and
 * whatever was left of one more when the wire ended.
 */
module Schedule {
  import opened Bytes
  import opened Rings
  import opened Mp3
  import opened Minimp3
  import opened FrameSelect
  import opened TailGate
  import opened Decoder
  import opened Pump
  import opened Pipeline
  import Sound

  // ---- one turn of the decode loop on a stream ----------------------------------------

  lemma PartOfTail(tail: seq<byte>, rest: seq<byte>, f0: Frame)
    requires PartialTail(tail, f0) && rest <= tail
    ensures PartialTail(rest, f0)
  {
    hide ParseHeader;
    if |rest| >= 4 { assert At(rest, 0) == At(tail, 0); }
  }

  /** A prefix of a stream is whole frames and less than one more. */
  lemma {:induction false} CutPoint(gs: seq<seq<byte>>, end: seq<byte>, rest: seq<byte>, f0: Frame)
    returns (m: nat, tail: seq<byte>)
    requires Coherent(gs, f0) && PartialTail(end, f0) && rest <= Flat(gs) + end
    ensures m <= |gs| && rest == Flat(gs[..m]) + tail && PartialTail(tail, f0)
    ensures rest == Flat(gs) + end ==> m == |gs| && tail == end
    decreases |gs|
  {
    hide ParseHeader, Flat, PartialTail;
    if gs == [] {
      FlatNone(gs);
      m, tail := 0, rest;
      assert gs[..0] == [] && [] + end == end && [] + rest == rest;
      PartOfTail(end, rest, f0);
    } else {
      assert IsFrame(gs[0]);
      FlatCons(gs);
      if |rest| < |gs[0]| {
        m, tail := 0, rest;
        FlatNone(gs[..0]);
        assert rest == gs[0][..|rest|] && [] + rest == rest;
        FramePart(gs[0], rest, f0);
      } else {
        var n := |gs[0]|;
        assert Flat(gs) + end == gs[0] + (Flat(gs[1..]) + end);
        assert rest == gs[0] + rest[n..];
        m, tail := CutPoint(gs[1..], end, rest[n..], f0);
        m := m + 1;
        FlatCons(gs[..m]);
        assert gs[..m][1..] == gs[1..][..m - 1];
        assert gs[0] + (Flat(gs[1..][..m - 1]) + tail) == gs[0] + Flat(gs[1..][..m - 1]) + tail;
      }
    }
  }

  lemma FramePart(f: seq<byte>, part: seq<byte>, f0: Frame)
    requires IsFrame(f) && Agree(FrameOf(f), f0) && |part| < |f| && part == f[..|part|]
    ensures PartialTail(part, f0)
  {
    hide ParseHeader;
    if |part| >= 4 { assert At(part, 0) == At(f, 0); }
  }

  lemma NoneWhole(tail: seq<byte>, f0: Frame)
    requires PartialTail(tail, f0)
    ensures WalkSpec(tail, 2) == (0, 0) && !WholeAt(tail, 0, f0)
  {
    hide ParseHeader;
    var p := ParseAt(tail, 0);
    if p.Some? { assert WalkFrom(tail, 0, p.value, 2) == (0, 0); }
  }

  /** How many whole frames the gate sees, and their length. */
  lemma GateCounts(gs: seq<seq<byte>>, tail: seq<byte>, f0: Frame)
    requires Coherent(gs, f0) && PartialTail(tail, f0)
    ensures WalkSpec(Flat(gs) + tail, 2) == (|Flat(gs[..Min(|gs|, 2)])|, Min(|gs|, 2))
  {
    hide ParseHeader, Flat, WalkSpec;
    NoneWhole(tail, f0);
    if gs == [] {
      FlatNone(gs);
      FlatNone(gs[..0]);
      assert [] + tail == tail;
    } else {
      WalkCountsFrames(gs, tail, f0, 2);
    }
  }

  /** Exactly one whole frame, and then one to three bytes. */
  predicate Cuts(rest: seq<byte>) {
    WalkSpec(rest, 2).1 == 1 && 1 <= |rest| - WalkSpec(rest, 2).0 <= 3
  }

  lemma CutsIff(gs: seq<seq<byte>>, tail: seq<byte>, f0: Frame)
    requires Coherent(gs, f0) && PartialTail(tail, f0)
    ensures Cuts(Flat(gs) + tail) <==> |gs| == 1 && |tail| in {1, 2, 3}
  {
    hide ParseHeader, Flat, WalkSpec;
    GateCounts(gs, tail, f0);
    if |gs| == 1 { assert gs[..1] == gs; }
  }

  lemma ShortRest(gs: seq<seq<byte>>, tail: seq<byte>, f0: Frame)
    requires Coherent(gs, f0) && PartialTail(tail, f0) && |gs| < 2
    ensures |Flat(gs) + tail| <= DEEP_STAGE
  {
    hide ParseHeader, Flat;
    if |tail| >= 4 { FrameBytesRange(At(tail, 0)); }
    if gs == [] {
      FlatNone(gs);
    } else {
      assert IsFrame(gs[0]);
      FrameBytesRange(At(gs[0], 0));
      FlatCons(gs);
      FlatNone(gs[1..]);
    }
  }

  function Stepped(p: Pass, r: Decoded): Pass {
    var q := p.(dec := r.dec, used := p.used + r.consumed, progress := true);
    if r.samples == 0 then q else q.(frames := p.frames + 1, made := p.made + r.pcm)
  }

  /** What is staged, as whole frames of the stream to come and less than one more. */
  ghost predicate Staged(
    rest: seq<byte>, gs: seq<seq<byte>>, end: seq<byte>, hs: seq<seq<byte>>, tail: seq<byte>, f0: Frame)
  {
    && Coherent(gs, f0) && PartialTail(tail, f0)
    && |hs| <= |gs| && hs == gs[..|hs|] && rest == Flat(hs) + tail
    && (rest == Flat(gs) + end ==> |hs| == |gs| && tail == end)
  }

  lemma Cut(gs: seq<seq<byte>>, end: seq<byte>, rest: seq<byte>, f0: Frame)
    returns (hs: seq<seq<byte>>, tail: seq<byte>)
    requires Coherent(gs, f0) && PartialTail(end, f0) && rest <= Flat(gs) + end
    ensures Staged(rest, gs, end, hs, tail, f0) && Coherent(hs, f0)
  {
    hide ParseHeader, Flat, PartialTail, IsFrame;
    var m;
    m, tail := CutPoint(gs, end, rest, f0);
    hs := gs[..m];
  }

  /** The gate lets a turn through exactly when enough whole frames are staged. */
  lemma TurnByFrames(dsp: Dsp, eof: bool, room: int, p: Pass, hs: seq<seq<byte>>, tail: seq<byte>, f0: Frame)
    requires Within(p) && Coherent(hs, f0) && PartialTail(tail, f0) && p.stage[p.used..] == Flat(hs) + tail
    ensures Turn(dsp, eof, room, p) == if room < FRAME_ROOM || |hs| < Gate(eof) then Stop(p) else Feed(dsp, p)
    ensures |hs| < 2 ==> |p.stage[p.used..]| <= DEEP_STAGE
  {
    hide ParseHeader, Flat, WalkSpec, SyncFrom, Decode, Feed, PartialTail;
    GateCounts(hs, tail, f0);
    if |hs| < 2 { ShortRest(hs, tail, f0); }
    if hs != [] { NotEmpty(hs, tail, f0); }
  }

  lemma NotEmpty(hs: seq<seq<byte>>, tail: seq<byte>, f0: Frame)
    requires hs != [] && Coherent(hs, f0)
    ensures |hs[0]| >= 4 && Flat(hs) + tail != [] && hs[0] <= Flat(hs) + tail
  {
    hide ParseHeader, Flat;
    assert IsFrame(hs[0]);
    FlatCons(hs);
  }

  lemma FeedsNext(dsp: Dsp, p: Pass, hs: seq<seq<byte>>, tail: seq<byte>, f0: Frame)
    requires Within(p) && hs != [] && Coherent(hs, f0) && PartialTail(tail, f0) && DecFits(p.dec, f0)
    requires p.stage[p.used..] == Flat(hs) + tail && !Cuts(p.stage[p.used..])
    ensures |hs[0]| >= 4
    ensures var v := Feed(dsp, p);
            && v == Again(Stepped(p, StepFrame(dsp, p.dec, hs[0]))) && DecFits(v.pass.dec, f0)
            && v.pass.used == p.used + |hs[0]| && hs[0] == p.stage[p.used..][..|hs[0]|]
  {
    hide ParseHeader, Flat, WalkSpec, Decode, RunFrame, PartialTail, Cuts;
    CutsIff(hs, tail, f0);
    NotEmpty(hs, tail, f0);
    DecodeNext(dsp, p.dec, hs, tail, f0);
    DecodeConsumes(dsp, p.dec, p.stage[p.used..]);
  }

  /**
   * With the stage a prefix of the stream to come, a turn either waits and changes nothing,
   * or decodes exactly the next frame, provided it is not asked, after the end of the wire,
   * to decode one whole frame that one to three bytes follow. It waits only for room in the
   * PCM ring, for a second whole frame, or because no whole frame is left.
   */
  lemma TurnOnStream(dsp: Dsp, eof: bool, room: int, p: Pass, gs: seq<seq<byte>>, end: seq<byte>, f0: Frame)
    requires Within(p) && Coherent(gs, f0) && PartialTail(end, f0) && DecFits(p.dec, f0)
    requires p.stage[p.used..] <= Flat(gs) + end
    requires eof && room >= FRAME_ROOM ==> !Cuts(p.stage[p.used..])
    ensures var v := Turn(dsp, eof, room, p);
            if v.Stop? then
              && v == Stop(p)
              && (room >= FRAME_ROOM ==>
                    && (p.stage[p.used..] == Flat(gs) + end ==> |gs| < Gate(eof))
                    && |p.stage[p.used..]| <= DEEP_STAGE)
            else
              && gs != [] && |gs[0]| >= 4 && (!eof ==> |gs| >= 2)
              && (p.stage[p.used..] == Flat(gs) + end ==> !(|gs| == 1 && |end| in {1, 2, 3}))
              && v == Again(Stepped(p, StepFrame(dsp, p.dec, gs[0])))
              && DecFits(v.pass.dec, f0) && v.pass.used == p.used + |gs[0]|
              && gs[0] == p.stage[p.used..][..|gs[0]|]
  {
    hide ParseHeader, Flat, WalkSpec, Turn, Feed, StepFrame, PartialTail, Cuts;
    var hs, tail := Cut(gs, end, p.stage[p.used..], f0);
    CutsIff(hs, tail, f0);
    TurnByFrames(dsp, eof, room, p, hs, tail, f0);
    if room >= FRAME_ROOM && |hs| >= Gate(eof) { FeedsNext(dsp, p, hs, tail, f0); }
  }

  /** Asked all the same, it takes something else than the next frame. */
  lemma TurnOnCut(dsp: Dsp, room: int, p: Pass, gs: seq<seq<byte>>, end: seq<byte>, f0: Frame)
    requires Within(p) && Coherent(gs, f0) && PartialTail(end, f0) && room >= FRAME_ROOM
    requires p.stage[p.used..] <= Flat(gs) + end && Cuts(p.stage[p.used..])
    ensures gs != []
    ensures var v := Turn(dsp, true, room, p);
            && v.Again? && v.pass.resyncs == p.resyncs && v.pass.flushes == p.flushes
            && p.used < v.pass.used <= |p.stage| && v.pass.used - p.used != |gs[0]|
  {
    hide ParseHeader, Flat, WalkSpec, Decode, Turn, PartialTail, Cuts;
    var rest := p.stage[p.used..];
    var hs, tail := Cut(gs, end, rest, f0);
    CutsIff(hs, tail, f0);
    TurnByFrames(dsp, true, room, p, hs, tail, f0);
    DecodeConsumes(dsp, p.dec, rest);
    FlatCons(hs);
    FlatNone(hs[1..]);
    assert hs[0] + [] == hs[0];
    CutLoses(dsp, p.dec, hs[0], tail);
  }

  lemma CutLoses(dsp: Dsp, d: Dec, f: seq<byte>, tail: seq<byte>)
    requires IsFrame(f) && 1 <= |tail| <= 3
    ensures Decode(dsp, d, f + tail).consumed != |f|
  {
    hide ParseHeader, Select, FrameSamples, FitTo;
    CutTakesAnother(d, f, tail);
    SelectTakesSome(d, f + tail);
    SelectHasHeader(d, f + tail);
  }

  // ---- runs ------------------------------------------------------------------------------

  ghost predicate AllFed(trail: seq<Piece>, fs: seq<seq<byte>>) {
    |trail| <= |fs| && forall i | 0 <= i < |trail| :: trail[i] == Fed(fs[i])
  }

  /** Whole frames, agreeing with `f0`, and the beginning of one more. */
  ghost predicate IsStream(fs: seq<seq<byte>>, end: seq<byte>, f0: Frame) {
    Coherent(fs, f0) && PartialTail(end, f0) && forall i | 0 <= i < |fs| :: |fs[i]| >= 4
  }

  /** The state of a run on a stream: so far, everything as in a flat decode. */
  ghost predicate OnStream(dsp: Dsp, d: Dec, fs: seq<seq<byte>>, end: seq<byte>, f0: Frame, s: Sys) {
    && Safe(s) && IsStream(fs, end, f0) && DecFits(d, f0)
    && s.comp.sent + s.pend <= Flat(fs) + end
    && AllFed(s.trail, fs)
    && s.pass.resyncs == 0 && s.pass.resyncBytes == 0 && s.pass.flushes == 0
    && var t := Through(dsp, d, fs, |s.trail|);
    && s.pass.dec == t.dec && s.pass.frames == t.frames && s.decoded == t.pcm
    && (if s.eof then s.comp.sent == Flat(fs) + end else fs == [] || |s.trail| < |fs|)
  }

  /** The producer writes the stream, and ends it when it has written it all. */
  ghost predicate Plays(all: seq<byte>, s: Sys, a: Step) {
    && (a.Write? ==> s.comp.sent + s.pend + a.data <= all)
    && (a.Eof? ==> s.comp.sent == all)
  }

  /** A decision, after the end of the wire, on one whole frame that one to three bytes follow. */
  predicate CutsFrame(s: Sys, a: Step) {
    && a.Decide? && s.at.Room? && s.eof && s.at.space >= FRAME_ROOM
    && Within(s.pass) && Cuts(s.pass.stage[s.pass.used..])
  }

  lemma {:induction false} FedIsFlat(trail: seq<Piece>, fs: seq<seq<byte>>)
    requires AllFed(trail, fs)
    ensures BytesOf(trail) == Flat(fs[..|trail|])
    decreases |trail|
  {
    if trail != [] {
      var n := |trail| - 1;
      FedIsFlat(trail[..n], fs);
      FlatSnoc(fs[..n], fs[n]);
      assert fs[..n + 1] == fs[..n] + [fs[n]];
    }
  }

  lemma OnStreamIsSafe(dsp: Dsp, d: Dec, fs: seq<seq<byte>>, end: seq<byte>, f0: Frame, s: Sys)
    requires OnStream(dsp, d, fs, end, f0, s)
    ensures Safe(s) && AllFed(s.trail, fs) && Coherent(fs, f0) && PartialTail(end, f0)
    ensures s.comp.sent <= Flat(fs) + end && (s.eof ==> s.comp.sent == Flat(fs) + end)
  {
    hide ParseHeader, Flat, Safe, Through, PartialTail, IsFrame, DecFits, AllFed;
    PartOf(s.comp.sent, s.pend, Flat(fs) + end);
  }

  lemma PartOf(a: seq<byte>, b: seq<byte>, all: seq<byte>)
    requires a + b <= all
    ensures a <= all
  {
    assert (a + b)[..|a|] == a;
  }

  /** The bytes copied so far are what the decoder took and what is staged. */
  lemma Accounted(s: Sys)
    requires Safe(s)
    ensures Within(s.pass) && Shaped(s) && s.pass.made == [] && Copied(s) <= |s.comp.sent| == s.comp.wr
    ensures BytesOf(s.trail) + s.pass.stage[s.pass.used..] == s.comp.sent[..Copied(s)]
    ensures s.at.Rest? ==> s.pass.used == 0 && Copied(s) == s.comp.rd
  {
    hide BytesOf, Gone, Unread;
  }

  /** What is staged is the head of what is still to come. */
  lemma StagedIsNext(dsp: Dsp, d: Dec, fs: seq<seq<byte>>, end: seq<byte>, f0: Frame, s: Sys)
    requires OnStream(dsp, d, fs, end, f0, s)
    ensures Within(s.pass) && |s.trail| <= |fs| && Copied(s) <= |s.comp.sent|
    ensures var gs, rest := fs[|s.trail|..], s.pass.stage[s.pass.used..];
            && rest <= Flat(gs) + end && Coherent(gs, f0)
            && (s.comp.sent[..Copied(s)] == Flat(fs) + end <==> rest == Flat(gs) + end)
  {
    hide ParseHeader, Flat, BytesOf, Safe, PartialTail, IsFrame, Copied, OnStream;
    OnStreamIsSafe(dsp, d, fs, end, f0, s);
    Accounted(s);
    var j := |s.trail|;
    FedIsFlat(s.trail, fs);
    FlatSplit(fs, j);
    StillToCome(Flat(fs[..j]), s.pass.stage[s.pass.used..], Flat(fs[j..]), end, s.comp.sent, Copied(s));
  }

  lemma StillToCome(
    done: seq<byte>, rest: seq<byte>, more: seq<byte>, end: seq<byte>, sent: seq<byte>, copied: nat)
    requires copied <= |sent| && sent <= done + more + end && done + rest == sent[..copied]
    ensures rest <= more + end && (sent[..copied] == done + more + end <==> rest == more + end)
  {
    assert done + more + end == done + (more + end);
    assert sent[..copied] <= done + (more + end);
    assert (done + (more + end))[|done|..] == more + end && (done + rest)[|done|..] == rest;
  }

  /** A turn of the running task that does not cut: nothing, or the next frame of the flat decode. */
  lemma TurnInRun(dsp: Dsp, d: Dec, fs: seq<seq<byte>>, end: seq<byte>, f0: Frame, s: Sys)
    requires OnStream(dsp, d, fs, end, f0, s) && s.at.Room? && !CutsFrame(s, Decide)
    ensures Within(s.pass) && Copied(s) <= |s.comp.sent|
    ensures var v := Turn(dsp, s.eof, s.at.space, s.pass);
            if v.Stop? then v == Stop(s.pass)
            else
              && |s.trail| < |fs| && (!s.eof ==> |s.trail| + 1 < |fs|)
              && (s.comp.sent[..Copied(s)] == Flat(fs) + end ==> |s.trail| + 1 < |fs| || |end| !in {1, 2, 3})
              && |fs[|s.trail|]| >= 4 && s.pass.used + |fs[|s.trail|]| <= |s.pass.stage|
              && v == Again(Stepped(s.pass, StepFrame(dsp, s.pass.dec, fs[|s.trail|])))
              && fs[|s.trail|] == s.pass.stage[s.pass.used..s.pass.used + |fs[|s.trail|]|]
  {
    hide ParseHeader, Flat, Turn, StepFrame, Through, Cuts, PartialTail, IsFrame, DecFits;
    StagedIsNext(dsp, d, fs, end, f0, s);
    StateFits(dsp, d, fs, end, f0, s);
    var p := s.pass;
    TurnOnStream(dsp, s.eof, s.at.space, p, fs[|s.trail|..], end, f0);
    TurnAdvances(dsp, s.eof, s.at.space, p);
    if Turn(dsp, s.eof, s.at.space, p).Again? {
      var n := |fs[|s.trail|]|;
      assert p.stage[p.used..][..n] == p.stage[p.used..p.used + n];
    }
  }

  lemma StateFits(dsp: Dsp, d: Dec, fs: seq<seq<byte>>, end: seq<byte>, f0: Frame, s: Sys)
    requires OnStream(dsp, d, fs, end, f0, s)
    ensures DecFits(s.pass.dec, f0) && PartialTail(end, f0)
  {
    hide ParseHeader, Flat, Safe, Through, PartialTail;
    ThroughFits(dsp, d, fs, |s.trail|, f0);
  }

  lemma StepPcm(dsp: Dsp, d: Dec, f: seq<byte>)
    requires |f| >= 4
    ensures var r := StepFrame(dsp, d, f);
            r.consumed == |f| && (r.samples == 0 ==> r.pcm == [])
  {
    hide FrameSamples;
  }

  /** One more frame of the flat decode. */
  lemma OneMore(dsp: Dsp, d: Dec, fs: seq<seq<byte>>, j: nat, p: Pass, decoded: seq<byte>)
    requires j < |fs| && forall i | 0 <= i < |fs| :: |fs[i]| >= 4
    requires var t := Through(dsp, d, fs, j); p.dec == t.dec && p.frames == t.frames && decoded == t.pcm
    requires p.made == []
    ensures var q, t := Stepped(p, StepFrame(dsp, p.dec, fs[j])), Through(dsp, d, fs, j + 1);
            && q.dec == t.dec && q.frames == t.frames && decoded + q.made == t.pcm
            && q.used == p.used + |fs[j]|
            && q.resyncs == p.resyncs && q.resyncBytes == p.resyncBytes && q.flushes == p.flushes
  {
    hide StepFrame;
    StepPcm(dsp, p.dec, fs[j]);
    assert [] + StepFrame(dsp, p.dec, fs[j]).pcm == StepFrame(dsp, p.dec, fs[j]).pcm;
  }

  /** What a decision leaves, from the turn it comes to. */
  lemma Decides(dsp: Dsp, s: Sys)
    requires Safe(s) && s.at.Room?
    ensures Within(s.pass) && Shaped(s) && s.pass.made == []
    ensures var v, t := Turn(dsp, s.eof, s.at.space, s.pass), Next(dsp, s, Decide);
            && Within(v.pass) && v.pass.used >= s.pass.used && v.pass.stage == s.pass.stage
            && t.trail == s.trail + Piecewise(s.pass, v.pass) && t.decoded == s.decoded + v.pass.made
            && t.comp == s.comp && t.pend == s.pend && t.eof == s.eof
            && t.pass.dec == v.pass.dec && t.pass.frames == v.pass.frames && t.pass.resyncs == v.pass.resyncs
            && t.pass.resyncBytes == v.pass.resyncBytes && t.pass.flushes == v.pass.flushes
  {
    hide Turn, Store, Unread, BytesOf, Gone, Safe;
    Accounted(s);
    TurnAdvances(dsp, s.eof, s.at.space, s.pass);
  }

  lemma DecideKeepsStream(dsp: Dsp, d: Dec, fs: seq<seq<byte>>, end: seq<byte>, f0: Frame, s: Sys)
    requires OnStream(dsp, d, fs, end, f0, s) && s.at.Room? && !CutsFrame(s, Decide)
    ensures OnStream(dsp, d, fs, end, f0, Next(dsp, s, Decide))
  {
    hide ParseHeader, Flat, Turn, Through, Safe, Next, StepFrame, Cuts, IsFrame, PartialTail;
    OnStreamIsSafe(dsp, d, fs, end, f0, s);
    Decides(dsp, s);
    TurnInRun(dsp, d, fs, end, f0, s);
    StepKeeps(dsp, s, Decide);
    var j := |s.trail|;
    if j < |fs| { OneMore(dsp, d, fs, j, s.pass, s.decoded); }
    assert s.trail + [] == s.trail && s.decoded + [] == s.decoded;
  }

  lemma StepKeepsStream(dsp: Dsp, d: Dec, fs: seq<seq<byte>>, end: seq<byte>, f0: Frame, s: Sys, a: Step)
    requires OnStream(dsp, d, fs, end, f0, s) && Plays(Flat(fs) + end, s, a) && !CutsFrame(s, a)
    ensures Shaped(s) && OnStream(dsp, d, fs, end, f0, Next(dsp, s, a))
  {
    hide ParseHeader, Flat, Turn, Through, Safe, Next, Cuts, IsFrame, PartialTail, DecFits;
    StepKeeps(dsp, s, a);
    SafeIsShaped(s);
    if a.Decide? && s.at.Room? {
      DecideKeepsStream(dsp, d, fs, end, f0, s);
    } else {
      OtherSteps(dsp, s, a);
      if s.eof { NothingPending(s.comp.sent, s.pend, Flat(fs) + end); }
      if a.Write? { assert s.comp.sent + (s.pend + a.data) == s.comp.sent + s.pend + a.data; }
    }
  }

  lemma NothingPending(sent: seq<byte>, pend: seq<byte>, all: seq<byte>)
    requires sent + pend <= all && sent == all
    ensures pend == [] && sent + pend == sent
  {
  }

  /** Every step but a decision leaves the decoder's side alone. */
  lemma OtherSteps(dsp: Dsp, s: Sys, a: Step)
    requires Safe(s) && Shaped(s) && !(a.Decide? && s.at.Room?)
    ensures var t := Next(dsp, s, a);
            && t.trail == s.trail && t.decoded == s.decoded && t.pass.dec == s.pass.dec
            && t.pass.frames == s.pass.frames && t.pass.resyncs == s.pass.resyncs
            && t.pass.resyncBytes == s.pass.resyncBytes && t.pass.flushes == s.pass.flushes
            && t.eof == (s.eof || a.Eof?)
            && (if a.Commit? then t.comp.sent == s.comp.sent + s.pend && t.pend == []
                else t.comp.sent == s.comp.sent && (t.pend == s.pend || (a.Write? && t.pend == s.pend + a.data)))
            && (a.Commit? ==> t.comp.sent + t.pend == s.comp.sent + s.pend)
  {
    hide Turn, Store, Unread, BytesOf, Gone, Safe;
    assert s.comp.sent + s.pend + [] == s.comp.sent + s.pend;
  }

  /** A schedule whose producer plays the bytes `all`. */
  ghost predicate PlaysAll(dsp: Dsp, all: seq<byte>, s: Sys, steps: seq<Step>)
    requires Safe(s)
    decreases |steps|
  {
    steps == [] || (
      StepKeeps(dsp, s, steps[0]);
      Plays(all, s, steps[0]) && PlaysAll(dsp, all, Next(dsp, s, steps[0]), steps[1..]))
  }

  /** No decision of the schedule cuts a frame. */
  predicate Clean(dsp: Dsp, s: Sys, steps: seq<Step>)
    requires Safe(s)
    decreases |steps|
  {
    steps == [] || (
      StepKeeps(dsp, s, steps[0]);
      !CutsFrame(s, steps[0]) && Clean(dsp, Next(dsp, s, steps[0]), steps[1..]))
  }

  /** What the decoder was given, and what it made, is never taken back. */
  lemma TrailGrows(dsp: Dsp, s: Sys, a: Step)
    requires Safe(s) && Shaped(s)
    ensures s.trail <= Next(dsp, s, a).trail && s.decoded <= Next(dsp, s, a).decoded
  {
    hide Turn, Store, Unread, BytesOf, Gone, Safe;
  }

  lemma {:induction false} TrailKept(dsp: Dsp, s: Sys, steps: seq<Step>)
    requires Safe(s)
    ensures s.trail <= Run(dsp, s, steps).trail && s.decoded <= Run(dsp, s, steps).decoded
    decreases |steps|
  {
    hide Next, Safe;
    SafeIsShaped(s);
    if steps != [] {
      StepKeeps(dsp, s, steps[0]);
      TrailGrows(dsp, s, steps[0]);
      TrailKept(dsp, Next(dsp, s, steps[0]), steps[1..]);
    }
  }

  /** A decision that cuts gives the decoder something else than the next frame. */
  lemma CutSpoils(dsp: Dsp, d: Dec, fs: seq<seq<byte>>, end: seq<byte>, f0: Frame, s: Sys)
    requires OnStream(dsp, d, fs, end, f0, s) && CutsFrame(s, Decide)
    ensures Shaped(s) && |s.trail| < |fs|
    ensures var t := Next(dsp, s, Decide);
            |t.trail| == |s.trail| + 1 && t.trail[..|s.trail|] == s.trail && t.trail[|s.trail|] != Fed(fs[|s.trail|])
  {
    hide ParseHeader, Flat, Turn, Through, Safe, Next, Cuts, IsFrame, PartialTail, DecFits;
    StagedIsNext(dsp, d, fs, end, f0, s);
    OnStreamIsSafe(dsp, d, fs, end, f0, s);
    Decides(dsp, s);
    TurnOnCut(dsp, s.at.space, s.pass, fs[|s.trail|..], end, f0);
  }

  /**
   * Over every run on a stream, in which the end may be declared at any moment after the
   * last byte was committed: the decoder is given exactly the frames of the stream, in
   * order, if and only if no decision cuts a frame; and then all is as in a flat decode.
   */
  lemma {:induction false} FedIffClean(
    dsp: Dsp, d: Dec, fs: seq<seq<byte>>, end: seq<byte>, f0: Frame, s: Sys, steps: seq<Step>)
    requires OnStream(dsp, d, fs, end, f0, s) && PlaysAll(dsp, Flat(fs) + end, s, steps)
    ensures AllFed(Run(dsp, s, steps).trail, fs) <==> Clean(dsp, s, steps)
    ensures Clean(dsp, s, steps) ==> OnStream(dsp, d, fs, end, f0, Run(dsp, s, steps))
    decreases |steps|
  {
    hide Next, OnStream, Plays, CutsFrame, Flat;
    OnStreamIsSafe(dsp, d, fs, end, f0, s);
    if steps != [] {
      StepKeeps(dsp, s, steps[0]);
      if CutsFrame(s, steps[0]) {
        assert steps[0] == Decide by { CutsIsDecide(s, steps[0]); }
        CutSpoils(dsp, d, fs, end, f0, s);
        TrailKept(dsp, Next(dsp, s, steps[0]), steps[1..]);
      } else {
        StepKeepsStream(dsp, d, fs, end, f0, s, steps[0]);
        FedIffClean(dsp, d, fs, end, f0, Next(dsp, s, steps[0]), steps[1..]);
      }
    }
  }

  lemma CutsIsDecide(s: Sys, a: Step)
    requires CutsFrame(s, a)
    ensures a == Decide
  {
  }

  lemma {:induction false} Concat(dsp: Dsp, all: seq<byte>, s: Sys, a: seq<Step>, b: seq<Step>)
    requires Safe(s)
    ensures Run(dsp, s, a + b) == Run(dsp, Run(dsp, s, a), b)
    ensures PlaysAll(dsp, all, s, a + b) <==> PlaysAll(dsp, all, s, a) && PlaysAll(dsp, all, Run(dsp, s, a), b)
    ensures Clean(dsp, s, a + b) <==> Clean(dsp, s, a) && Clean(dsp, Run(dsp, s, a), b)
    decreases |a|
  {
    hide Next, Safe, Plays, CutsFrame;
    SafeIsShaped(s);
    if a == [] {
      assert a + b == b;
    } else {
      StepKeeps(dsp, s, a[0]);
      Concat(dsp, all, Next(dsp, s, a[0]), a[1..], b);
      assert (a + b)[0] == a[0] && (a + b)[1..] == a[1..] + b;
    }
  }

  // ---- at rest --------------------------------------------------------------------------------

  /** The task is between passes and the next pass, given PCM room, would do nothing. */
  ghost predicate Settled(dsp: Dsp, s: Sys) {
    && Safe(s) && s.at.Rest?
    && (s.comp.rd == s.comp.wr || |s.pass.stage| == STAGE)
    && var space := |s.pcm.buf| - (s.pcm.wr - s.pcm.rd);
       space >= FRAME_ROOM && Turn(dsp, s.eof, space, s.pass) == Stop(s.pass)
  }

  /** Settled on a stream: all is drained, and what is staged is what the gate may hold back. */
  lemma SettledOnStream(dsp: Dsp, d: Dec, fs: seq<seq<byte>>, end: seq<byte>, f0: Frame, s: Sys)
    requires OnStream(dsp, d, fs, end, f0, s) && Settled(dsp, s)
    ensures s.comp.rd == s.comp.wr && |s.trail| <= |fs|
    ensures s.comp.sent == Flat(fs) + end ==>
              |s.trail| + Gate(s.eof) > |fs| && s.pass.stage == Flat(fs[|s.trail|..]) + end
  {
    hide ParseHeader, Flat, Turn, Through, Safe, OnStream, Cuts, IsFrame, PartialTail, DecFits;
    OnStreamIsSafe(dsp, d, fs, end, f0, s);
    var gs, room := fs[|s.trail|..], |s.pcm.buf| - (s.pcm.wr - s.pcm.rd);
    Accounted(s);
    StagedIsNext(dsp, d, fs, end, f0, s);
    StateFits(dsp, d, fs, end, f0, s);
    assert s.pass.stage[0..] == s.pass.stage;
    assert s.comp.sent[..s.comp.wr] == s.comp.sent;
    SettledCutsNothing(dsp, s, room, gs, end, f0);
    TurnOnStream(dsp, s.eof, room, s.pass, gs, end, f0);
  }

  lemma SettledCutsNothing(dsp: Dsp, s: Sys, room: int, gs: seq<seq<byte>>, end: seq<byte>, f0: Frame)
    requires Within(s.pass) && Coherent(gs, f0) && PartialTail(end, f0)
    requires s.pass.stage[s.pass.used..] <= Flat(gs) + end
    requires room >= FRAME_ROOM && Turn(dsp, s.eof, room, s.pass).Stop?
    ensures s.eof ==> !Cuts(s.pass.stage[s.pass.used..])
  {
    hide ParseHeader, Flat, Turn, Cuts, IsFrame, PartialTail;
    if s.eof && Cuts(s.pass.stage[s.pass.used..]) { TurnOnCut(dsp, room, s.pass, gs, end, f0); }
  }

  /**
   * Schedule independence. However the wire is chunked, whenever after its last byte the end
   * is declared, and however the three contexts interleave: the decoder is given exactly the
   * frames of the stream, in order, if and only if no decision cuts a frame. Then, once ended
   * and settled, its PCM and frame count are those of one flat decode of the frames; what the
   * interrupts took out of the PCM ring (served or trimmed) and what is left in it are that
   * PCM; nothing was resynced; and all that is staged is what was left of a frame at the end.
   */
  lemma ScheduleIndependence(
    dsp: Dsp, d: Dec, fs: seq<seq<byte>>, end: seq<byte>, f0: Frame, comp: seq<byte>, pcm: seq<byte>,
    steps: seq<Step>)
    requires comp != [] && pcm != [] && IsStream(fs, end, f0) && d.header.b0 != 0xFF
    requires Safe(Start(comp, pcm, d)) && PlaysAll(dsp, Flat(fs) + end, Start(comp, pcm, d), steps)
    ensures var s := Run(dsp, Start(comp, pcm, d), steps);
            var flat := FlatFrom(dsp, Total(d, 0, [], []), Flat(fs));
            && (AllFed(s.trail, fs) <==> Clean(dsp, Start(comp, pcm, d), steps))
            && (Clean(dsp, Start(comp, pcm, d), steps) && s.eof && Settled(dsp, s) ==>
                  && s.trail == seq(|fs|, i requires 0 <= i < |fs| => Fed(fs[i]))
                  && flat.eaten == fs
                  && s.decoded == flat.pcm && s.pass.frames == flat.frames && s.pass.dec == flat.dec
                  && s.pcm.rd <= |s.pcm.sent| && Gone(s.shots) + s.pcm.sent[s.pcm.rd..] == flat.pcm
                  && s.pass.resyncs == 0 && s.pass.flushes == 0
                  && s.comp.rd == s.comp.wr && s.pass.stage == end)
  {
    hide ParseHeader, Flat, Turn, Through, FlatFrom, BytesOf, Store, Gone, Next, RingOk, PartialTail, IsFrame;
    StartOnStream(dsp, d, fs, end, f0, comp, pcm);
    FedIffClean(dsp, d, fs, end, f0, Start(comp, pcm, d), steps);
    var s := Run(dsp, Start(comp, pcm, d), steps);
    FlatIsThrough(dsp, d, fs, f0);
    if Clean(dsp, Start(comp, pcm, d), steps) && s.eof && Settled(dsp, s) {
      SettledOnStream(dsp, d, fs, end, f0, s);
      PcmWentOut(dsp, s);
      FlatNone(fs[|fs|..]);
      assert [] + end == end;
    }
  }

  lemma PcmWentOut(dsp: Dsp, s: Sys)
    requires Settled(dsp, s)
    ensures s.pcm.rd <= |s.pcm.sent| && Gone(s.shots) + s.pcm.sent[s.pcm.rd..] == s.decoded
  {
    hide Turn, BytesOf, Gone, RingOk;
    assert s.pcm.sent + [] == s.pcm.sent;
  }

  /** Before the end of the stream is known, a settled task holds back exactly the last frame. */
  lemma LastFrameHeld(
    dsp: Dsp, d: Dec, fs: seq<seq<byte>>, end: seq<byte>, f0: Frame, comp: seq<byte>, pcm: seq<byte>,
    steps: seq<Step>)
    requires comp != [] && pcm != [] && fs != [] && IsStream(fs, end, f0) && d.header.b0 != 0xFF
    requires Safe(Start(comp, pcm, d)) && PlaysAll(dsp, Flat(fs) + end, Start(comp, pcm, d), steps)
    ensures var s := Run(dsp, Start(comp, pcm, d), steps);
            !s.eof && s.comp.sent == Flat(fs) + end && Settled(dsp, s) ==>
              && AllFed(s.trail, fs) && |s.trail| == |fs| - 1 && s.pass.stage == fs[|fs| - 1] + end
              && s.comp.rd == s.comp.wr
  {
    hide ParseHeader, Flat, Turn, Through, Next, Settled, PartialTail, IsFrame, Cuts;
    var s0 := Start(comp, pcm, d);
    StartOnStream(dsp, d, fs, end, f0, comp, pcm);
    FedIffClean(dsp, d, fs, end, f0, s0, steps);
    OpenIsClean(dsp, s0, steps);
    var s := Run(dsp, s0, steps);
    if !s.eof && s.comp.sent == Flat(fs) + end && Settled(dsp, s) {
      SettledOnStream(dsp, d, fs, end, f0, s);
      OpenHoldsOne(dsp, d, fs, end, f0, s);
      var gs := fs[|fs| - 1..];
      FlatCons(gs);
      FlatNone(gs[1..]);
      assert gs[0] + [] == gs[0];
    }
  }

  lemma OpenHoldsOne(dsp: Dsp, d: Dec, fs: seq<seq<byte>>, end: seq<byte>, f0: Frame, s: Sys)
    requires OnStream(dsp, d, fs, end, f0, s) && !s.eof && fs != []
    ensures |s.trail| < |fs| && AllFed(s.trail, fs)
  {
    hide Safe, Through, Flat, IsStream;
  }

  /** The end, once declared, stays declared; until then no decision cuts. */
  lemma {:induction false} OpenIsClean(dsp: Dsp, s: Sys, steps: seq<Step>)
    requires Safe(s)
    ensures !Run(dsp, s, steps).eof ==> !s.eof && Clean(dsp, s, steps)
    decreases |steps|
  {
    hide Next, Safe, Cuts;
    SafeIsShaped(s);
    if steps != [] {
      StepKeeps(dsp, s, steps[0]);
      EndStays(dsp, s, steps[0]);
      OpenIsClean(dsp, Next(dsp, s, steps[0]), steps[1..]);
    }
  }

  lemma EndStays(dsp: Dsp, s: Sys, a: Step)
    requires Safe(s) && Shaped(s)
    ensures s.eof ==> Next(dsp, s, a).eof
  {
    hide Turn, Store, Unread, BytesOf, Gone, Safe;
  }

  lemma StartOnStream(
    dsp: Dsp, d: Dec, fs: seq<seq<byte>>, end: seq<byte>, f0: Frame, comp: seq<byte>, pcm: seq<byte>)
    requires comp != [] && pcm != [] && IsStream(fs, end, f0) && d.header.b0 != 0xFF
    ensures OnStream(dsp, d, fs, end, f0, Start(comp, pcm, d))
  {
    hide ParseHeader, Flat, IsStream;
    StartIsSafe(comp, pcm, d);
    assert [] <= Flat(fs) + end;
  }

  lemma FlatIsThrough(dsp: Dsp, d: Dec, fs: seq<seq<byte>>, f0: Frame)
    requires Coherent(fs, f0) && DecFits(d, f0)
    ensures forall i | 0 <= i < |fs| :: |fs[i]| >= 4
    ensures FlatFrom(dsp, Total(d, 0, [], []), Flat(fs)) == Through(dsp, d, fs, |fs|)
    ensures Through(dsp, d, fs, |fs|).eaten == fs
  {
    hide ParseHeader, Flat, FlatFrom;
    FramesAreLong(fs, f0);
    FlatDecodeIsPerFrame(dsp, d, fs, 0, f0);
    ThroughFits(dsp, d, fs, |fs|, f0);
    assert fs[0..] == fs && fs[..|fs|] == fs;
  }
}
