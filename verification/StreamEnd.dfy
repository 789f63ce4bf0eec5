/**
 * How a stream ends: what happens when the end is declared before everything is staged, and
 * what becomes of a stream that stops inside a frame.
 */
module StreamEnd {
  import opened Bytes
  import opened Rings
  import opened Mp3
  import opened Minimp3
  import opened FrameSelect
  import opened TailGate
  import opened Decoder
  import opened Pump
  import opened Pipeline
  import opened Schedule
  import Sound

  // ---- one decoder call ------------------------------------------------------------------------

  /** The call decoded exactly `f`, from its first byte. */
  predicate TookFrame(r: Decoded, f: seq<byte>) {
    r.consumed == |f| && r.dec.past != [] && r.dec.past[|r.dec.past| - 1] == f
  }

  /**
   * After `eof` the gate admits one whole frame, so a stage boundary may fall inside the
   * next one. The frame is decoded exactly if and only if another whole frame is staged or
   * the boundary leaves none, or at least four, of the next frame's bytes.
   */
  lemma EofCutExact(dsp: Dsp, d: Dec, fs: seq<seq<byte>>, tail: seq<byte>, f0: Frame)
    requires fs != [] && Coherent(fs, f0) && PartialTail(tail, f0) && DecFits(d, f0)
    ensures TookFrame(Decode(dsp, d, Flat(fs) + tail), fs[0]) <==>
              |fs| >= 2 || |tail| !in {1, 2, 3}
  {
    hide ParseHeader, Flat, Decode, RunFrame, Select;
    var buf := Flat(fs) + tail;
    assert IsFrame(fs[0]);
    FrameBytesRange(At(fs[0], 0));
    FlatCons(fs);
    SelectOnStream(d, fs, tail, f0);
    TookMeansHead(dsp, d, buf, fs[0]);
    if |fs| >= 2 || |tail| !in {1, 2, 3} {
      DecodeNext(dsp, d, fs, tail, f0);
      StepTakes(dsp, d, fs[0]);
    }
  }

  lemma StepTakes(dsp: Dsp, d: Dec, f: seq<byte>)
    requires |f| >= 4
    ensures TookFrame(StepFrame(dsp, d, f), f)
  {
    hide FrameSamples;
  }

  lemma TookMeansHead(dsp: Dsp, d: Dec, buf: seq<byte>, f: seq<byte>)
    requires buf != [] && |f| > 4
    ensures var p := Select(d, buf);
            TookFrame(Decode(dsp, d, buf), f) ==> p.off == 0 && p.size == |f|
  {
    hide ParseHeader, Select, FrameSamples;
    SelectTakesSome(d, buf);
    SelectHasHeader(d, buf);
    NothingIsCleared(d, buf);
  }

  lemma NothingIsCleared(d: Dec, buf: seq<byte>)
    ensures var p := Select(d, buf); p.size == 0 ==> p.dec.past == []
  {
    hide ParseHeader, HdrValid, FrameBytes, HdrCompare, FindFrom;
  }

  lemma {:induction false} NoSyncByte(buf: seq<byte>, i: nat)
    requires forall k | i <= k < |buf| - 4 :: buf[k] != 0xFF
    ensures FindFrom(buf, i, 0) == Found(|buf|, 0, 0)
    decreases |buf| - i
  {
    if i < |buf| - 4 { NoSyncByte(buf, i + 1); }
  }

  /** A 24-byte frame, then one byte of the next: with `eof` set the frame is swallowed whole. */
  lemma EofCutLosesFrame(dsp: Dsp)
    ensures var f: seq<byte> := [0xFF, 0xF3, 0x14, 0x00] + Sound.Zeros(20);
            && IsFrame(f)
            && Decode(dsp, CLEARED, f) == StepFrame(dsp, CLEARED, f)
            && Decode(dsp, CLEARED, f + [0xFF]) == Decoded(CLEARED, 25, 0, [])
  {
    hide RunFrame, FrameLength;
    var f: seq<byte> := [0xFF, 0xF3, 0x14, 0x00] + Sound.Zeros(20);
    assert FrameLength(576, 8, 24000) == 24 by { ShortestFrame(); }
    assert ParseHeader(At(f, 0)).value == Frame(2, 8, 24000, 2, 576, 24);
    WitnessCalls(dsp, f);
  }

  lemma ShortestFrame()
    ensures FrameLength(576, 8, 24000) == 24
  {
  }

  lemma WitnessCalls(dsp: Dsp, f: seq<byte>)
    requires IsFrame(f) && |f| == 24 && forall k | 1 <= k < 24 :: f[k] != 0xFF
    ensures Decode(dsp, CLEARED, f) == StepFrame(dsp, CLEARED, f)
    ensures Decode(dsp, CLEARED, f + [0xFF]) == Decoded(CLEARED, 25, 0, [])
  {
    hide ParseHeader, HdrValid, FrameBytes, RunFrame, MatchFrom, HdrCompare, FreeScan;
    var f0, buf := FrameOf(f), f + [0xFF];
    var fs := [f];
    FlatNone(fs[1..]);
    assert Flat(fs) == f && f + [] == f;
    DecodeNext(dsp, CLEARED, fs, [], f0);
    SelectOnStream(CLEARED, fs, [0xFF], f0);
    assert At(buf, 0) == At(f, 0);
    ParsersAgree(At(buf, 0), 0);
    NoSyncByte(buf, 1);
    FoundInside(buf, 0, 0);
    SearchAtHead(buf);
    var s := ScanAt(buf, 0, 0);
    FreeScanPads(buf, 0, 4, Scan(FrameBytes(At(buf, 0), 0), 24, 0));
    assert s.framePadded == 24;
    assert FindFrom(buf, 0, 0) == FindFrom(buf, 1, 0);
  }

  // ---- the end declared once the ring is drained ------------------------------------------------

  /** Every `eof` of the schedule comes when the compressed ring is empty. */
  predicate EndsDrained(dsp: Dsp, s: Sys, steps: seq<Step>)
    requires Safe(s)
    decreases |steps|
  {
    steps == [] || (
      StepKeeps(dsp, s, steps[0]);
      (steps[0].Eof? ==> s.comp.rd == s.comp.wr) && EndsDrained(dsp, Next(dsp, s, steps[0]), steps[1..]))
  }

  lemma {:induction false} EndsDrainedConcat(dsp: Dsp, s: Sys, a: seq<Step>, b: seq<Step>)
    requires Safe(s)
    ensures EndsDrained(dsp, s, a + b) <==> EndsDrained(dsp, s, a) && EndsDrained(dsp, Run(dsp, s, a), b)
    decreases |a|
  {
    hide Next, Safe;
    SafeIsShaped(s);
    if a == [] {
      assert a + b == b;
    } else {
      StepKeeps(dsp, s, a[0]);
      EndsDrainedConcat(dsp, Next(dsp, s, a[0]), a[1..], b);
      assert (a + b)[0] == a[0] && (a + b)[1..] == a[1..] + b;
    }
  }

  /** On a stream whose end was declared on a drained ring, before its last frame if one to three bytes follow it. */
  ghost predicate Drained(dsp: Dsp, d: Dec, fs: seq<seq<byte>>, end: seq<byte>, f0: Frame, s: Sys) {
    && OnStream(dsp, d, fs, end, f0, s)
    && (s.eof ==> s.comp.rd == s.comp.wr)
    && (|end| in {1, 2, 3} && fs != [] ==> |s.trail| < |fs|)
  }

  /** On such a run a decision cuts exactly when only the last frame is left and one to three bytes follow it. */
  lemma CutsAtLast(dsp: Dsp, d: Dec, fs: seq<seq<byte>>, end: seq<byte>, f0: Frame, s: Sys)
    requires Drained(dsp, d, fs, end, f0, s)
    ensures CutsFrame(s, Decide) ==> |s.trail| + 1 == |fs| && |end| in {1, 2, 3}
  {
    hide ParseHeader, Flat, Through, Safe, Cuts, IsFrame, PartialTail, OnStream, DecFits;
    if CutsFrame(s, Decide) {
      OnStreamIsSafe(dsp, d, fs, end, f0, s);
      Accounted(s);
      AllCopied(s);
      StagedIsNext(dsp, d, fs, end, f0, s);
      CutsIff(fs[|s.trail|..], end, f0);
    }
  }

  lemma AllCopied(s: Sys)
    requires Safe(s) && s.at.Room? && s.comp.rd == s.comp.wr
    ensures Copied(s) == |s.comp.sent| && s.comp.sent[..Copied(s)] == s.comp.sent
  {
    hide BytesOf, Gone, Unread;
  }

  lemma StepKeepsDrained(dsp: Dsp, d: Dec, fs: seq<seq<byte>>, end: seq<byte>, f0: Frame, s: Sys, a: Step)
    requires Drained(dsp, d, fs, end, f0, s) && Plays(Flat(fs) + end, s, a) && !CutsFrame(s, a)
    requires a.Eof? ==> s.comp.rd == s.comp.wr
    ensures Shaped(s) && Drained(dsp, d, fs, end, f0, Next(dsp, s, a))
  {
    hide ParseHeader, Flat, Through, Safe, Cuts, IsFrame, PartialTail, OnStream, DecFits, Next, Plays, CutsFrame;
    OnStreamIsSafe(dsp, d, fs, end, f0, s);
    StepKeepsStream(dsp, d, fs, end, f0, s, a);
    OnStreamIsSafe(dsp, d, fs, end, f0, Next(dsp, s, a));
    if s.eof { SentAndEnd(dsp, d, fs, end, f0, s); }
    if s.eof || a.Eof? { StaysDrained(dsp, s, a); }
    if a.Decide? && s.at.Room? {
      Decides(dsp, s);
      LastNotTaken(dsp, d, fs, end, f0, s);
    } else {
      OtherSteps(dsp, s, a);
    }
  }

  lemma SentAndEnd(dsp: Dsp, d: Dec, fs: seq<seq<byte>>, end: seq<byte>, f0: Frame, s: Sys)
    requires OnStream(dsp, d, fs, end, f0, s) && s.eof
    ensures s.pend == []
  {
    hide ParseHeader, Flat, Through, Safe, IsStream;
    NothingPending(s.comp.sent, s.pend, Flat(fs) + end);
  }

  lemma StaysDrained(dsp: Dsp, s: Sys, a: Step)
    requires Safe(s) && Shaped(s) && s.comp.rd == s.comp.wr && (a.Eof? || s.pend == [])
    ensures Next(dsp, s, a).comp.rd == Next(dsp, s, a).comp.wr
  {
    hide Turn, Store, Unread, BytesOf, Gone;
  }

  lemma LastNotTaken(dsp: Dsp, d: Dec, fs: seq<seq<byte>>, end: seq<byte>, f0: Frame, s: Sys)
    requires Drained(dsp, d, fs, end, f0, s) && s.at.Room? && !CutsFrame(s, Decide)
    ensures Shaped(s)
    ensures |end| in {1, 2, 3} && fs != [] ==> |Next(dsp, s, Decide).trail| < |fs|
  {
    hide ParseHeader, Flat, Through, Safe, Cuts, IsFrame, PartialTail, OnStream, DecFits, Next, Turn, StepFrame;
    OnStreamIsSafe(dsp, d, fs, end, f0, s);
    Decides(dsp, s);
    TurnInRun(dsp, d, fs, end, f0, s);
    if s.eof { AllCopied(s); }
    assert s.trail + [] == s.trail;
  }

  /** The last frame, and only it, was taken for something else. */
  ghost predicate LostLast(trail: seq<Piece>, fs: seq<seq<byte>>) {
    && fs != [] && |trail| >= |fs| && AllFed(trail[..|fs| - 1], fs)
    && trail[|fs| - 1] != Fed(fs[|fs| - 1])
  }

  /** The PCM begins with that of all frames but the last. */
  ghost predicate AllButLast(dsp: Dsp, d: Dec, fs: seq<seq<byte>>, decoded: seq<byte>) {
    && fs != [] && (forall i | 0 <= i < |fs| :: |fs[i]| >= 4)
    && Through(dsp, d, fs, |fs| - 1).pcm <= decoded
  }

  lemma UpToTheCut(dsp: Dsp, d: Dec, fs: seq<seq<byte>>, end: seq<byte>, f0: Frame, s: Sys)
    requires OnStream(dsp, d, fs, end, f0, s) && |s.trail| + 1 == |fs|
    ensures AllButLast(dsp, d, fs, s.decoded)
  {
    hide ParseHeader, Flat, Through, Safe, IsFrame, PartialTail, DecFits;
  }

  lemma {:induction false} ThroughHead(dsp: Dsp, d: Dec, fs: seq<seq<byte>>, n: nat, j: nat)
    requires j <= n <= |fs| && forall i | 0 <= i < |fs| :: |fs[i]| >= 4
    ensures Through(dsp, d, fs[..n], j) == Through(dsp, d, fs, j)
    decreases j
  {
    hide StepFrame, Add;
    if j > 0 { ThroughHead(dsp, d, fs, n, j - 1); }
  }

  /** In terms of a flat decode. */
  lemma FlatButLast(dsp: Dsp, d: Dec, fs: seq<seq<byte>>, f0: Frame, decoded: seq<byte>)
    requires AllButLast(dsp, d, fs, decoded) && Coherent(fs, f0) && DecFits(d, f0)
    ensures FlatFrom(dsp, Total(d, 0, [], []), Flat(fs[..|fs| - 1])).pcm <= decoded
  {
    hide ParseHeader, Flat, Through, FlatFrom, IsFrame;
    var n := |fs| - 1;
    assert forall i | 0 <= i < n :: fs[..n][i] == fs[i];
    FlatIsThrough(dsp, d, fs[..n], f0);
    ThroughHead(dsp, d, fs, n, n);
  }

  lemma {:induction false} DrainedRun(
    dsp: Dsp, d: Dec, fs: seq<seq<byte>>, end: seq<byte>, f0: Frame, s: Sys, steps: seq<Step>)
    requires Drained(dsp, d, fs, end, f0, s) && PlaysAll(dsp, Flat(fs) + end, s, steps)
    requires Safe(s) && EndsDrained(dsp, s, steps)
    ensures Clean(dsp, s, steps) ==> Drained(dsp, d, fs, end, f0, Run(dsp, s, steps))
    ensures !Clean(dsp, s, steps) ==> |end| in {1, 2, 3} && LostLast(Run(dsp, s, steps).trail, fs)
    ensures !Clean(dsp, s, steps) ==> AllButLast(dsp, d, fs, Run(dsp, s, steps).decoded)
    decreases |steps|
  {
    hide Next, OnStream, Plays, CutsFrame, Flat, Safe, Through;
    if steps != [] {
      StepKeeps(dsp, s, steps[0]);
      if CutsFrame(s, steps[0]) {
        CutsIsDecide(s, steps[0]);
        OnStreamIsSafe(dsp, d, fs, end, f0, s);
        CutsAtLast(dsp, d, fs, end, f0, s);
        CutSpoils(dsp, d, fs, end, f0, s);
        UpToTheCut(dsp, d, fs, end, f0, s);
        TrailGrows(dsp, s, steps[0]);
        TrailKept(dsp, Next(dsp, s, steps[0]), steps[1..]);
      } else {
        StepKeepsDrained(dsp, d, fs, end, f0, s, steps[0]);
        DrainedRun(dsp, d, fs, end, f0, Next(dsp, s, steps[0]), steps[1..]);
      }
    }
  }

  /** `cq_decring_idle`: no compressed byte is left in ring or stage. */
  predicate Idle(s: Sys) {
    s.comp.rd == s.comp.wr && s.pass.stage == []
  }

  /**
   * How a stream ends, however it was cut, when the end is declared on a drained ring and
   * the task has settled: with one to three bytes after the last frame that frame is lost,
   * and the PCM begins with that of all frames before it; with none, or at least four, every
   * frame is decoded as in a flat decode;
   * and the pipeline is idle, so that the output can be played out, exactly with none.
   */
  lemma EndOfStream(
    dsp: Dsp, d: Dec, fs: seq<seq<byte>>, end: seq<byte>, f0: Frame, comp: seq<byte>, pcm: seq<byte>,
    steps: seq<Step>)
    requires comp != [] && pcm != [] && fs != [] && IsStream(fs, end, f0) && d.header.b0 != 0xFF
    requires Safe(Start(comp, pcm, d)) && PlaysAll(dsp, Flat(fs) + end, Start(comp, pcm, d), steps)
    requires EndsDrained(dsp, Start(comp, pcm, d), steps)
    ensures var s := Run(dsp, Start(comp, pcm, d), steps);
            s.eof && Settled(dsp, s) ==>
              if |end| in {1, 2, 3} then
                && LostLast(s.trail, fs)
                && FlatFrom(dsp, Total(d, 0, [], []), Flat(fs[..|fs| - 1])).pcm <= s.decoded
              else
                && |s.trail| == |fs| && AllFed(s.trail, fs) && s.pass.stage == end
                && s.decoded == FlatFrom(dsp, Total(d, 0, [], []), Flat(fs)).pcm
                && (Idle(s) <==> end == [])
  {
    hide ParseHeader, Flat, Through, FlatFrom, BytesOf, Gone, Next, PartialTail, IsFrame, OnStream, Safe, Turn;
    var s0 := Start(comp, pcm, d);
    StartOnStream(dsp, d, fs, end, f0, comp, pcm);
    DrainedRun(dsp, d, fs, end, f0, s0, steps);
    ScheduleIndependence(dsp, d, fs, end, f0, comp, pcm, steps);
    var s := Run(dsp, s0, steps);
    if !Clean(dsp, s0, steps) { FlatButLast(dsp, d, fs, f0, s.decoded); }
    if s.eof && Settled(dsp, s) && Clean(dsp, s0, steps) {
      OnStreamIsSafe(dsp, d, fs, end, f0, s);
      SettledOnStream(dsp, d, fs, end, f0, s);
    }
  }

  /** With any byte of a further frame left, a run that cuts no frame never becomes idle. */
  lemma NeverPlaysOut(
    dsp: Dsp, d: Dec, fs: seq<seq<byte>>, end: seq<byte>, f0: Frame, comp: seq<byte>, pcm: seq<byte>,
    steps: seq<Step>)
    requires comp != [] && pcm != [] && IsStream(fs, end, f0) && d.header.b0 != 0xFF && end != []
    requires Safe(Start(comp, pcm, d)) && PlaysAll(dsp, Flat(fs) + end, Start(comp, pcm, d), steps)
    requires Clean(dsp, Start(comp, pcm, d), steps)
    ensures var s := Run(dsp, Start(comp, pcm, d), steps); s.eof ==> !Idle(s)
  {
    hide ParseHeader, Flat, Through, Next, PartialTail, IsFrame, OnStream, Safe;
    StartOnStream(dsp, d, fs, end, f0, comp, pcm);
    FedIffClean(dsp, d, fs, end, f0, Start(comp, pcm, d), steps);
    var s := Run(dsp, Start(comp, pcm, d), steps);
    OnStreamIsSafe(dsp, d, fs, end, f0, s);
    Accounted(s);
    StagedIsNext(dsp, d, fs, end, f0, s);
    assert s.comp.sent[..s.comp.wr] == s.comp.sent;
    assert s.pass.stage[0..] == s.pass.stage;
  }

  /** A pass over what was left of a frame changes nothing and reports no progress. */
  lemma TailStays(dsp: Dsp, size: nat, v: View, f0: Frame)
    requires v.eof && v.queue == [] && PartialTail(v.stage, f0) && |v.stage| <= STAGE && |v.out| <= size
    ensures PumpSpec(dsp, size, v) == (v, false)
  {
    hide ParseHeader, WalkSpec, PumpSpec;
    NoneWhole(v.stage, f0);
    if |v.stage| >= 4 { FrameBytesRange(At(v.stage, 0)); }
    IdlePassIff(dsp, size, v);
  }

  // ---- the end declared on a ring not yet drained -----------------------------------------------

  /** Four steps, each from the state the one before leaves. */
  lemma FourSteps(dsp: Dsp, all: seq<byte>, s: Sys, a: Step, b: Step, c: Step, e: Step)
    returns (s1: Sys, s2: Sys, s3: Sys, s4: Sys)
    requires Safe(s)
    ensures Safe(s1) && Safe(s2) && Safe(s3) && Safe(s4) && Shaped(s) && Shaped(s1) && Shaped(s2) && Shaped(s3)
    ensures s1 == Next(dsp, s, a) && s2 == Next(dsp, s1, b) && s3 == Next(dsp, s2, c) && s4 == Next(dsp, s3, e)
    ensures Run(dsp, s, [a, b, c, e]) == s4
    ensures Plays(all, s, a) && Plays(all, s1, b) && Plays(all, s2, c) && Plays(all, s3, e)
            ==> PlaysAll(dsp, all, s, [a, b, c, e])
    ensures (a.Eof? ==> s.comp.rd == s.comp.wr) && (b.Eof? ==> s1.comp.rd == s1.comp.wr)
            && (c.Eof? ==> s2.comp.rd == s2.comp.wr) && (e.Eof? ==> s3.comp.rd == s3.comp.wr)
            ==> EndsDrained(dsp, s, [a, b, c, e])
    ensures CutsFrame(s3, e) ==> !Clean(dsp, s, [a, b, c, e])
  {
    hide Next, Safe, Plays, CutsFrame;
    StepKeeps(dsp, s, a);
    SafeIsShaped(s);
    s1 := Next(dsp, s, a);
    StepKeeps(dsp, s1, b);
    SafeIsShaped(s1);
    s2 := Next(dsp, s1, b);
    StepKeeps(dsp, s2, c);
    SafeIsShaped(s2);
    s3 := Next(dsp, s2, c);
    StepKeeps(dsp, s3, e);
    SafeIsShaped(s3);
    s4 := Next(dsp, s3, e);
    var q1, q2, q3 := [b, c, e], [c, e], [e];
    assert [a, b, c, e][1..] == q1 && q1[1..] == q2 && q2[1..] == q3 && q3[1..] == [];
    assert Run(dsp, s3, q3) == Run(dsp, s4, []) == s4;
    assert Run(dsp, s2, q2) == Run(dsp, s3, q3);
    assert Run(dsp, s1, q1) == Run(dsp, s2, q2);
    assert PlaysAll(dsp, all, s3, q3) <==> Plays(all, s3, e);
    assert PlaysAll(dsp, all, s2, q2) <==> Plays(all, s2, c) && PlaysAll(dsp, all, s3, q3);
    assert PlaysAll(dsp, all, s1, q1) <==> Plays(all, s1, b) && PlaysAll(dsp, all, s2, q2);
    assert EndsDrained(dsp, s3, q3) <==> (e.Eof? ==> s3.comp.rd == s3.comp.wr);
    assert EndsDrained(dsp, s2, q2) <==> (c.Eof? ==> s2.comp.rd == s2.comp.wr) && EndsDrained(dsp, s3, q3);
    assert EndsDrained(dsp, s1, q1) <==> (b.Eof? ==> s1.comp.rd == s1.comp.wr) && EndsDrained(dsp, s2, q2);
    assert Clean(dsp, s3, q3) ==> !CutsFrame(s3, e);
    assert Clean(dsp, s2, q2) ==> Clean(dsp, s3, q3);
    assert Clean(dsp, s1, q1) ==> Clean(dsp, s2, q2);
  }

  /** A frame of 24 bytes, the shortest there is. */
  const TINY: seq<byte> := [0xFF, 0xF3, 0x14, 0x00] + Sound.Zeros(20)

  // The order of the program: the task looks, the wire's last bytes come, then `eof`, then the task goes on.

  function EarlyWrite(): seq<Step> { [Claim, Write(TINY + TINY[..1]), Commit, See] }
  function LateWrite(): seq<Step> { [Claim, Write(TINY[1..]), Commit, Eof] }
  function LastPass(): seq<Step> { [Load, Ack, Look, Decide] }

  /** The first two segments: 25 of the 48 bytes are visible to the task, and all of them are sent. */
  lemma WireAhead(dsp: Dsp, comp: seq<byte>, pcm: seq<byte>) returns (s: Sys)
    requires |comp| >= 48 && pcm != []
    ensures Safe(Start(comp, pcm, CLEARED)) && Safe(s)
    ensures PlaysAll(dsp, TINY + TINY, Start(comp, pcm, CLEARED), EarlyWrite() + LateWrite())
    ensures s == Run(dsp, Start(comp, pcm, CLEARED), EarlyWrite() + LateWrite())
    ensures s.at == Seen(25) && s.comp.sent == TINY + TINY && s.comp.rd == 0 && s.comp.wr == 48 && s.eof
    ensures s.pass == Pass([], 0, CLEARED, 0, 0, 0, 0, [], false) && s.trail == [] && s.decoded == []
    ensures s.pcm == Ring(pcm, 0, 0, []) && |s.comp.buf| == |comp| && s.pend == []
  {
    hide Store, Unread, BytesOf, Gone, Turn, TINY, Safe, Run, PlaysAll, Clean, Next, Plays;
    StartIsSafe(comp, pcm, CLEARED);
    var t0, all := Start(comp, pcm, CLEARED), TINY + TINY;
    TinySize();
    var first, rest := TINY + TINY[..1], TINY[1..];
    assert first + rest == all by { assert TINY == TINY[..1] + rest; assert TINY + (TINY[..1] + rest) == first + rest; }
    assert [] + first == first;
    var t1, t2, t3, t4 := FourSteps(dsp, all, t0, Claim, Write(first), Commit, See);
    Sends(dsp, all, t0, first);
    Sees(dsp, all, t3);
    var u1, u2, u3, u4 := FourSteps(dsp, all, t4, Claim, Write(rest), Commit, Eof);
    Sends(dsp, all, t4, rest);
    Ends(dsp, all, u3);
    s := u4;
    Concat(dsp, all, t0, EarlyWrite(), LateWrite());
  }

  /** Claim, write and commit of bytes that fit before the wrap. */
  lemma Sends(dsp: Dsp, all: seq<byte>, s: Sys, data: seq<byte>)
    requires Safe(s) && Shaped(s) && s.pend == [] && s.comp.rd <= s.comp.wr
    requires s.comp.rd == 0 && s.comp.wr < |s.comp.buf| && s.comp.wr + |data| <= |s.comp.buf|
    requires s.comp.sent + data <= all
    ensures var t1 := Next(dsp, s, Claim);
            && Shaped(t1)
            && var t2 := Next(dsp, t1, Write(data));
            && Shaped(t2)
            && var t3 := Next(dsp, t2, Commit);
            && Plays(all, s, Claim) && Plays(all, t1, Write(data)) && Plays(all, t2, Commit)
            && t3 == s.(comp := t3.comp, pend := [], claimed := 0)
            && t3.comp == Ring(t3.comp.buf, s.comp.wr + |data|, 0, s.comp.sent + data)
            && |t3.comp.buf| == |s.comp.buf|
  {
    hide Store, Unread, BytesOf, Gone, Turn, Safe;
    assert s.comp.wr % |s.comp.buf| == s.comp.wr;
    assert [] + data == data && s.comp.sent + [] + data == s.comp.sent + data;
  }

  lemma Sees(dsp: Dsp, all: seq<byte>, s: Sys)
    requires Safe(s) && Shaped(s) && s.at.Rest? && s.comp.rd <= s.comp.wr
    ensures Next(dsp, s, See) == s.(at := Seen(s.comp.wr - s.comp.rd)) && Plays(all, s, See)
  {
    hide Store, Unread, BytesOf, Gone, Turn, Safe;
  }

  lemma Ends(dsp: Dsp, all: seq<byte>, s: Sys)
    requires Safe(s) && Shaped(s) && s.comp.sent == all
    ensures Next(dsp, s, Eof) == s.(eof := true) && Plays(all, s, Eof)
  {
    hide Store, Unread, BytesOf, Gone, Turn, Safe;
  }

  lemma TinySize()
    ensures |TINY| == 24
  {
  }

  /** The task's last pass: 25 bytes staged, one whole frame and one byte, and the end declared. */
  lemma LastPassLoses(dsp: Dsp, s: Sys) returns (t: Sys)
    requires Safe(s) && |s.pcm.buf| >= FRAME_ROOM && s.pcm == Ring(s.pcm.buf, 0, 0, [])
    requires s.at == Seen(25) && s.comp.sent == TINY + TINY && s.comp.rd == 0 && s.comp.wr == 48 && s.eof
    requires s.pass == Pass([], 0, CLEARED, 0, 0, 0, 0, [], false) && s.trail == [] && s.decoded == []
    ensures PlaysAll(dsp, TINY + TINY, s, LastPass()) && !Clean(dsp, s, LastPass())
    ensures t == Run(dsp, s, LastPass())
    ensures t.trail == [Fed(TINY + TINY[..1])] && t.decoded == [] && t.pass.frames == 0 && t.eof
    ensures t.comp.sent == TINY + TINY
  {
    hide Store, Unread, BytesOf, Gone, Turn, TINY, Safe, Run, PlaysAll, Clean, Next, Cuts;
    TinySize();
    var buf := TINY + TINY[..1];
    var s1, s2, s3, s4 := FourSteps(dsp, TINY + TINY, s, Load, Ack, Look, Decide);
    assert (TINY + TINY)[..25] == buf;
    LoadedHead(dsp, s, 25);
    LookedFull(dsp, s1);
    TinyTurn(dsp, s3);
    t := s4;
  }

  /** The first load of a listen: the first `n` bytes sent are staged. */
  lemma LoadedHead(dsp: Dsp, s: Sys, n: nat)
    requires Safe(s) && Shaped(s) && s.at == Seen(n) && s.trail == [] && s.comp.rd == 0
    requires 0 < n <= STAGE && n <= |s.comp.sent| && s.pass == Pass([], 0, CLEARED, 0, 0, 0, 0, [], false)
    ensures var t := Next(dsp, s, Load);
            && t.at == Loaded(n) && t.pass == Pass(s.comp.sent[..n], 0, CLEARED, 0, 0, 0, 0, [], true)
            && t == s.(at := t.at, pass := t.pass)
  {
    hide Store, Unread, Gone, Turn, Safe;
    LoadShape(s, n);
    var data := [] + Unread(s.comp.buf, s.comp.rd, n);
    assert BytesOf(s.trail) + data == data;
  }

  lemma LookedFull(dsp: Dsp, s: Sys)
    requires Safe(s) && Shaped(s) && s.at.Loaded? && s.pcm == Ring(s.pcm.buf, 0, 0, [])
    ensures Shaped(Next(dsp, s, Ack))
    ensures Next(dsp, Next(dsp, s, Ack), Look)
            == s.(comp := s.comp.(rd := s.comp.rd + s.at.take), at := Room(|s.pcm.buf|))
  {
    hide Store, Unread, BytesOf, Gone, Turn, Safe;
  }

  lemma TinyTurn(dsp: Dsp, s: Sys)
    requires Safe(s) && Shaped(s) && s.at.Room? && s.at.space >= FRAME_ROOM && s.eof
    requires s.pass == Pass(TINY + TINY[..1], 0, CLEARED, 0, 0, 0, 0, [], true)
    requires s.trail == [] && s.decoded == []
    ensures CutsFrame(s, Decide)
    ensures var t := Next(dsp, s, Decide);
            && t.trail == [Fed(TINY + TINY[..1])] && t.decoded == [] && t.pass.frames == 0 && t.eof
            && t.comp == s.comp && t.at == Top && t.pass == s.pass.(used := 25) && t.pcm == s.pcm
  {
    hide ParseHeader, Store, Unread, BytesOf, Gone, Safe, Decode, WalkSpec, Cuts, TINY, Turn;
    TinySize();
    var p, buf := s.pass, TINY + TINY[..1];
    assert |buf| == 25 && p.stage[0..] == buf;
    TinyCuts();
    TinyDecodes(dsp);
    assert Turn(dsp, true, s.at.space, p) == Again(p.(used := 25)) by { TinyFeeds(dsp, s.at.space, p); }
    Decides(dsp, s);
    assert buf[0..25] == buf;
  }

  lemma TinyIsFrame()
    ensures IsFrame(TINY) && TINY[0] == 0xFF && |TINY| == 24
  {
    hide FrameLength;
    assert FrameLength(576, 8, 24000) == 24 by { ShortestFrame(); }
    assert ParseHeader(At(TINY, 0)).value == Frame(2, 8, 24000, 2, 576, 24);
  }

  lemma TinyCuts()
    ensures Cuts(TINY + TINY[..1]) && WalkSpec(TINY + TINY[..1], 2).1 == 1
  {
    hide ParseHeader, Cuts, WalkSpec, TINY;
    TinyIsFrame();
    var fs := [TINY];
    FlatCons(fs);
    FlatNone(fs[1..]);
    assert Flat(fs) == TINY;
    CutsIff(fs, TINY[..1], FrameOf(TINY));
    GateCounts(fs, TINY[..1], FrameOf(TINY));
  }

  lemma TinyDecodes(dsp: Dsp)
    ensures Decode(dsp, CLEARED, TINY + TINY[..1]) == Decoded(CLEARED, 25, 0, [])
  {
    hide Decode;
    EofCutLosesFrame(dsp);
    assert TINY[..1] == [0xFF];
  }

  lemma TinyFeeds(dsp: Dsp, room: int, p: Pass)
    requires p == Pass(TINY + TINY[..1], 0, CLEARED, 0, 0, 0, 0, [], true) && room >= FRAME_ROOM
    ensures Turn(dsp, true, room, p) == Again(p.(used := 25))
  {
    hide ParseHeader, Decode, WalkSpec, TINY;
    TinySize();
    assert p.stage[0..] == p.stage;
    TinyCuts();
    TinyDecodes(dsp);
  }

  /**
   * A run in the program's own order: the task looks, then the wire's last bytes are
   * committed and the end declared, then the task goes on. Of a stream of two whole frames
   * the decoder takes 25 bytes for nothing, and no frame is counted.
   */
  lemma EofCutRun(dsp: Dsp, comp: seq<byte>, pcm: seq<byte>)
    requires |comp| >= 48 && |pcm| >= FRAME_ROOM
    ensures IsFrame(TINY) && IsStream([TINY, TINY], [], FrameOf(TINY)) && Safe(Start(comp, pcm, CLEARED))
    ensures var s0, steps := Start(comp, pcm, CLEARED), EarlyWrite() + LateWrite() + LastPass();
            var t := Run(dsp, s0, steps);
            && Flat([TINY, TINY]) == TINY + TINY && PlaysAll(dsp, TINY + TINY, s0, steps) && t.eof
            && !Clean(dsp, s0, steps) && t.comp.sent == TINY + TINY
            && t.trail == [Fed(TINY + TINY[..1])] && t.decoded == [] && t.pass.frames == 0
  {
    hide ParseHeader, Safe, Run, PlaysAll, Clean, TINY, Next;
    TinyIsFrame();
    var fs := [TINY, TINY];
    FlatCons(fs);
    FlatCons(fs[1..]);
    FlatNone(fs[1..][1..]);
    var s := WireAhead(dsp, comp, pcm);
    var t := LastPassLoses(dsp, s);
    Concat(dsp, TINY + TINY, Start(comp, pcm, CLEARED), EarlyWrite() + LateWrite(), LastPass());
  }
}
