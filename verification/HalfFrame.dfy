/**
 * Streams that stop inside a frame: four bytes or more past the last one they are heard to
 * the end and never over (os9/casquinha.c, lines 2064-2066), one byte past it they are over
 * without that frame.
 */
module HalfFrame {
  import opened Bytes
  import opened Rings
  import opened Mp3
  import opened FrameSelect
  import opened TailGate
  import opened Decoder
  import opened Pump
  import opened Pipeline
  import opened Schedule
  import opened StreamEnd
  import opened PlayedOut
  import Sound

  // ---- the state nothing leads out of -----------------------------------------------------------

  /** Ended and drained, and all that is staged is the beginning of a frame. */
  ghost predicate Halted(s: Sys, f0: Frame) {
    && s.eof && Dry(s) && s.pass.used == 0 && !s.at.Made? && !s.at.Laid?
    && s.pass.stage != [] && PartialTail(s.pass.stage, f0)
  }

  lemma TailWaits(dsp: Dsp, room: int, p: Pass, f0: Frame)
    requires Within(p) && p.used == 0 && PartialTail(p.stage, f0)
    ensures Turn(dsp, true, room, p) == Stop(p)
  {
    hide ParseHeader, Flat, WalkSpec, Turn, PartialTail;
    FlatNone([]);
    assert p.stage[0..] == p.stage && [] + p.stage == p.stage;
    TurnByFrames(dsp, true, room, p, [], p.stage, f0);
  }

  lemma StepStaysHalted(dsp: Dsp, s: Sys, a: Step, f0: Frame)
    requires Safe(s) && Shaped(s) && Making(s) && Halted(s, f0) && !a.Write? && !a.Commit?
    ensures var t := Next(dsp, s, a); Halted(t, f0) && t.pass.stage == s.pass.stage && t.decoded == s.decoded
  {
    hide ParseHeader, Store, Unread, BytesOf, Gone, Turn, PartialTail;
    StaysDry(dsp, s, a);
    if a.Decide? && s.at.Room? {
      TailWaits(dsp, s.at.space, s.pass, f0);
      assert s.pass.stage[0..] == s.pass.stage && s.decoded + [] == s.decoded;
    }
    if a.Load? && s.at.Seen? { assert s.pass.stage + [] == s.pass.stage; }
  }

  /** Whatever the task and the interrupt do from there on: no more PCM, and the listen is never over. */
  lemma {:induction false} HaltedForGood(dsp: Dsp, s: Sys, steps: seq<Step>, f0: Frame)
    requires Safe(s) && Making(s) && Halted(s, f0) && NothingComes(steps)
    ensures var t := Run(dsp, s, steps);
            && Halted(t, f0) && t.pass.stage == s.pass.stage && t.decoded == s.decoded && !Over(t)
    decreases |steps|
  {
    hide Next, Safe, Making, PartialTail, Dry;
    SafeIsShaped(s);
    if steps != [] {
      assert steps[0] in steps && forall a :: a in steps[1..] ==> a in steps;
      StepKeeps(dsp, s, steps[0]);
      StepKeepsMaking(dsp, s, steps[0]);
      StepStaysHalted(dsp, s, steps[0], f0);
      HaltedForGood(dsp, Next(dsp, s, steps[0]), steps[1..], f0);
    }
  }

  // ---- a run that leads into it -----------------------------------------------------------------

  /** A whole frame and four bytes of the next. */
  function Stopped(): seq<byte> { TINY + TINY[..4] }

  function Arrives(all: seq<byte>): seq<Step> { [Claim, Write(all), Commit, See] }
  function Ends(): seq<Step> { [Load, Ack, HangUp, Eof] }
  function Decodes(): seq<Step> { [Look, Decide, Lay, Show] }
  function PlaysOut(): seq<Step> { [Look, Decide, Fire, Fire] }

  lemma StoppedShape()
    ensures |Stopped()| == 28 && |TINY| == 24 && Stopped()[24..] == TINY[..4] && Stopped()[..24] == TINY
    ensures IsFrame(TINY) && PartialTail(TINY[..4], FrameOf(TINY)) && !Cuts(Stopped())
    ensures Flat([TINY]) == TINY && Coherent([TINY], FrameOf(TINY)) && IsStream([TINY], TINY[..4], FrameOf(TINY))
  {
    hide ParseHeader, Flat, TINY, Cuts;
    TinyIsFrame();
    FramePart(TINY, TINY[..4], FrameOf(TINY));
    FlatCons([TINY]);
    FlatNone([TINY][1..]);
    CutsIff([TINY], TINY[..4], FrameOf(TINY));
    assert Stopped() == Flat([TINY]) + TINY[..4];
  }

  lemma Arrived(dsp: Dsp, comp: seq<byte>, pcm: seq<byte>, all: seq<byte>) returns (s: Sys)
    requires |comp| >= |all| > 0 && pcm != []
    ensures Safe(Start(comp, pcm, CLEARED)) && Safe(s) && s == Run(dsp, Start(comp, pcm, CLEARED), Arrives(all))
    ensures PlaysAll(dsp, all, Start(comp, pcm, CLEARED), Arrives(all))
    ensures EndsDrained(dsp, Start(comp, pcm, CLEARED), Arrives(all))
    ensures s == Start(comp, pcm, CLEARED).(comp := s.comp, at := Seen(|all|))
    ensures s.comp == Ring(s.comp.buf, |all|, 0, all)
  {
    hide Store, Unread, BytesOf, Gone, Turn, Safe, Run, PlaysAll, EndsDrained, Clean, Next, Plays;
    StartIsSafe(comp, pcm, CLEARED);
    var t0 := Start(comp, pcm, CLEARED);
    assert [] + all == all;
    var t1, t2, t3, t4 := FourSteps(dsp, all, t0, Claim, Write(all), Commit, See);
    Sends(dsp, all, t0, all);
    Sees(dsp, all, t3);
    s := t4;
  }

  lemma Ended(dsp: Dsp, s: Sys, all: seq<byte>) returns (t: Sys)
    requires Safe(s) && s.comp == Ring(s.comp.buf, |all|, 0, all) && s.at == Seen(|all|) && s.trail == []
    requires s.pass == Pass([], 0, CLEARED, 0, 0, 0, 0, [], false) && 0 < |all| <= STAGE
    ensures Safe(t) && t == Run(dsp, s, Ends())
    ensures PlaysAll(dsp, all, s, Ends()) && EndsDrained(dsp, s, Ends())
    ensures t == s.(comp := s.comp.(rd := |all|), at := Top, open := false, eof := true,
                    pass := Pass(all, 0, CLEARED, 0, 0, 0, 0, [], true))
  {
    hide Store, Unread, BytesOf, Gone, Turn, Safe, Run, PlaysAll, EndsDrained, Clean, Next;
    var t1, t2, t3, t4 := FourSteps(dsp, all, s, Load, Ack, HangUp, Eof);
    LoadedHead(dsp, s, |all|);
    assert s.comp.sent[..|all|] == s.comp.sent;
    AcksTake(dsp, t1);
    EndsWire(dsp, t2);
    t := t4;
  }

  lemma EndsWire(dsp: Dsp, s: Sys)
    requires Shaped(s)
    ensures Shaped(Next(dsp, s, HangUp)) && Next(dsp, s, HangUp) == s.(open := false)
    ensures Next(dsp, Next(dsp, s, HangUp), Eof) == s.(open := false, eof := true)
  {
  }

  lemma Looks(dsp: Dsp, s: Sys)
    requires Safe(s) && Shaped(s) && s.at.Top?
    ensures s.pcm.wr <= s.pcm.rd + |s.pcm.buf|
    ensures Next(dsp, s, Look) == s.(at := Room(|s.pcm.buf| - (s.pcm.wr - s.pcm.rd)))
  {
    hide Store, Unread, BytesOf, Gone, Turn;
  }

  /** Laying and showing what was made, if anything was. */
  lemma Publishes(dsp: Dsp, s: Sys)
    requires Safe(s) && Shaped(s) && (s.at.Top? || s.at.Made?)
    ensures var u := Next(dsp, s, Lay);
            && Shaped(u)
            && var t := Next(dsp, u, Show);
            && t == s.(at := Top, pcm := t.pcm) && |t.pcm.buf| == |s.pcm.buf|
            && t.pcm.rd == s.pcm.rd && t.pcm.wr == s.pcm.wr + |Pending(s.at)|
  {
    hide Store, Unread, BytesOf, Gone, Turn, Safe;
  }

  /** The whole frame is decoded, whatever it comes to, and what it made is published. */
  lemma Decoded28(dsp: Dsp, s: Sys) returns (t: Sys)
    requires Safe(s) && s.at.Top? && s.eof && s.trail == [] && s.pcm == Ring(s.pcm.buf, 0, 0, [])
    requires |s.pcm.buf| >= FRAME_ROOM && s.decoded == []
    requires s.pass == Pass(Stopped(), 0, CLEARED, 0, 0, 0, 0, [], true)
    ensures Safe(t) && t == Run(dsp, s, Decodes())
    ensures PlaysAll(dsp, Stopped(), s, Decodes()) && EndsDrained(dsp, s, Decodes())
    ensures t.at == Top && t.trail == [Fed(TINY)] && t.pcm.rd == 0 && t.pcm.wr <= FRAME_ROOM
    ensures |t.pcm.buf| == |s.pcm.buf| && t.pass.stage == Stopped() && t.pass.used == 24 && t.pass.made == []
    ensures t.comp == s.comp && t.eof && t.open == s.open && t.skip == s.skip
  {
    hide Store, Unread, BytesOf, Gone, Turn, TINY, Safe, Run, PlaysAll, EndsDrained, Clean, Next, Stopped, CutsFrame;
    StoppedShape();
    var t1, t2, t3, t4 := FourSteps(dsp, Stopped(), s, Look, Decide, Lay, Show);
    Looks(dsp, s);
    TakesTiny(dsp, t1);
    Publishes(dsp, t2);
    t := t4;
  }

  lemma TakesTiny(dsp: Dsp, s: Sys)
    requires Safe(s) && Shaped(s) && s.at.Room? && s.at.space >= FRAME_ROOM && s.eof
    requires s.pass == Pass(Stopped(), 0, CLEARED, 0, 0, 0, 0, [], true) && s.trail == []
    ensures var t := Next(dsp, s, Decide);
            && (t.at.Top? || t.at.Made?) && |Pending(t.at)| <= FRAME_ROOM && t.trail == [Fed(TINY)]
            && t.pass.stage == Stopped() && t.pass.used == 24 && t.pass.made == []
            && t.comp == s.comp && t.pcm == s.pcm && t.eof && t.open == s.open && t.skip == s.skip
  {
    hide ParseHeader, Flat, Store, Unread, BytesOf, Gone, Safe, Decode, WalkSpec, Cuts, TINY, Turn, StepFrame, Stopped;
    StoppedShape();
    var p, hs, f0 := s.pass, [TINY], FrameOf(TINY);
    assert p.stage[0..] == p.stage == TINY + TINY[..4] by { WholeStopped(); }
    TurnByFrames(dsp, true, s.at.space, p, hs, TINY[..4], f0);
    FeedsNext(dsp, p, hs, TINY[..4], f0);
    TurnAdvances(dsp, true, s.at.space, p);
    Decides(dsp, s);
    assert Stopped()[0..24] == TINY;
  }

  lemma WholeStopped()
    ensures Stopped() == TINY + TINY[..4] && Stopped()[0..] == Stopped()
  {
    hide TINY;
  }

  lemma Heard(dsp: Dsp, s: Sys)
    requires Safe(s) && Shaped(s) && !s.open && s.skip == 0 && s.pcm.wr - s.pcm.rd < Sound.CHUNK
    ensures var t := Next(dsp, s, Fire);
            && t == s.(pcm := s.pcm.(rd := s.pcm.wr), shots := t.shots, applied := t.applied)
  {
    hide Store, BytesOf, Gone, Turn, Safe, Unread;
    assert s.pcm.rd <= s.pcm.wr;
    var queue := Unread(s.pcm.buf, s.pcm.rd, s.pcm.wr - s.pcm.rd);
    assert |queue| == s.pcm.wr - s.pcm.rd;
    assert queue[0..] == queue && queue[..|queue|] == queue;
  }

  lemma TailStops(dsp: Dsp, s: Sys)
    requires Safe(s) && Shaped(s) && s.at.Room? && s.eof
    requires s.pass.stage == Stopped() && s.pass.used == 24 && s.pass.made == []
    ensures var t := Next(dsp, s, Decide);
            t == s.(at := Rest, pass := s.pass.(stage := TINY[..4], used := 0), trail := s.trail, decoded := s.decoded)
  {
    hide ParseHeader, Flat, Store, Unread, BytesOf, Gone, Safe, WalkSpec, TINY, Turn, Stopped, PartialTail;
    StoppedShape();
    FlatNone([]);
    assert [] + TINY[..4] == TINY[..4];
    TurnByFrames(dsp, true, s.at.space, s.pass, [], TINY[..4], FrameOf(TINY));
    assert s.trail + [] == s.trail && s.decoded + [] == s.decoded;
  }

  lemma PlayedTail(dsp: Dsp, s: Sys) returns (t: Sys)
    requires Safe(s) && s.at == Top && s.pass.stage == Stopped() && s.pass.used == 24 && s.pass.made == []
    requires s.eof && !s.open && s.skip == 0 && s.pcm.wr - s.pcm.rd < Sound.CHUNK
    ensures Safe(t) && t == Run(dsp, s, PlaysOut())
    ensures PlaysAll(dsp, Stopped(), s, PlaysOut()) && EndsDrained(dsp, s, PlaysOut())
    ensures t.at == Rest && t.pass.stage == TINY[..4] && t.pass.used == 0 && t.comp == s.comp && t.eof
    ensures t.trail == s.trail && t.pcm.rd == t.pcm.wr
  {
    hide Store, Unread, BytesOf, Gone, Turn, TINY, Safe, Run, PlaysAll, EndsDrained, Clean, Next, Stopped, CutsFrame;
    var t1, t2, t3, t4 := FourSteps(dsp, Stopped(), s, Look, Decide, Fire, Fire);
    Looks(dsp, s);
    TailStops(dsp, t1);
    Heard(dsp, t2);
    Heard(dsp, t3);
    t := t4;
  }

  function HalfFrameSteps(): seq<Step> { Arrives(Stopped()) + Ends() + Decodes() + PlaysOut() }

  lemma HalfFrameLeads(dsp: Dsp, comp: seq<byte>, pcm: seq<byte>) returns (t: Sys)
    requires |comp| >= 28 && |pcm| >= FRAME_ROOM
    ensures Safe(Start(comp, pcm, CLEARED)) && Safe(t) && t == Run(dsp, Start(comp, pcm, CLEARED), HalfFrameSteps())
    ensures PlaysAll(dsp, Stopped(), Start(comp, pcm, CLEARED), HalfFrameSteps())
    ensures EndsDrained(dsp, Start(comp, pcm, CLEARED), HalfFrameSteps())
    ensures t.eof && t.trail == [Fed(TINY)] && t.comp.rd == t.comp.wr && t.pcm.rd == t.pcm.wr
    ensures t.at == Rest && t.pass.stage == TINY[..4] && t.pass.used == 0 && t.pass.stage != []
  {
    hide Safe, Run, PlaysAll, EndsDrained, Clean, Next, TINY, Stopped, Arrives, Ends, Decodes, PlaysOut;
    var all, s0 := Stopped(), Start(comp, pcm, CLEARED);
    StoppedShape();
    var s1 := Arrived(dsp, comp, pcm, all);
    var s2 := Ended(dsp, s1, all);
    var s3 := Decoded28(dsp, s2);
    t := PlayedTail(dsp, s3);
    Joined(dsp, all, s0, Arrives(all), Ends());
    Joined(dsp, all, s0, Arrives(all) + Ends(), Decodes());
    Joined(dsp, all, s0, Arrives(all) + Ends() + Decodes(), PlaysOut());
  }

  /**
   * Sixteen steps: a frame and four bytes arrive, the wire ends on the drained ring, the frame
   * is decoded and all its PCM is heard. Four bytes stay staged for good: whatever the task
   * and the interrupt do from there on, the listen is not over.
   */
  lemma HalfFrameRun(dsp: Dsp, comp: seq<byte>, pcm: seq<byte>, more: seq<Step>) returns (t: Sys, u: Sys)
    requires |comp| >= 28 && |pcm| >= FRAME_ROOM && NothingComes(more)
    ensures IsFrame(TINY) && IsStream([TINY], TINY[..4], FrameOf(TINY)) && Stopped() == Flat([TINY]) + TINY[..4]
    ensures Safe(Start(comp, pcm, CLEARED)) && t == Run(dsp, Start(comp, pcm, CLEARED), HalfFrameSteps())
    ensures PlaysAll(dsp, Stopped(), Start(comp, pcm, CLEARED), HalfFrameSteps())
    ensures EndsDrained(dsp, Start(comp, pcm, CLEARED), HalfFrameSteps())
    ensures t.eof && t.trail == [Fed(TINY)] && t.comp.rd == t.comp.wr && t.pcm.rd == t.pcm.wr
    ensures Safe(t) && u == Run(dsp, t, more)
    ensures !Over(u) && u.pass.stage == t.pass.stage == TINY[..4] && u.decoded == t.decoded
  {
    hide Safe, Run, PlaysAll, EndsDrained, Clean, Next, TINY, Stopped, Flat, Over, HalfFrameSteps, NothingComes, Making;
    StoppedShape();
    WholeStopped();
    t := HalfFrameLeads(dsp, comp, pcm);
    u := Run(dsp, t, more);
    StartMakesNothing(comp, pcm, CLEARED);
    RunKeepsMaking(dsp, Start(comp, pcm, CLEARED), HalfFrameSteps());
    HaltedForGood(dsp, t, more, FrameOf(TINY));
  }

  // ---- one byte instead of four -----------------------------------------------------------------

  function Loses(): seq<Step> { [Look, Decide, Look, Decide] }

  lemma LostTiny(dsp: Dsp, s: Sys) returns (t: Sys)
    requires Safe(s) && s.at.Top? && s.eof && s.trail == [] && s.decoded == []
    requires s.pcm == Ring(s.pcm.buf, 0, 0, []) && |s.pcm.buf| >= FRAME_ROOM
    requires s.pass == Pass(TINY + TINY[..1], 0, CLEARED, 0, 0, 0, 0, [], true)
    ensures Safe(t) && t == Run(dsp, s, Loses())
    ensures PlaysAll(dsp, TINY + TINY[..1], s, Loses()) && EndsDrained(dsp, s, Loses())
    ensures t.trail == [Fed(TINY + TINY[..1])] && t.decoded == [] && t.comp == s.comp && t.pcm == s.pcm
    ensures t.at == Rest && t.pass.stage == [] && t.eof
  {
    hide Store, Unread, BytesOf, Gone, Turn, TINY, Safe, Run, PlaysAll, EndsDrained, Clean, Next, CutsFrame;
    TinySize();
    var t1, t2, t3, t4 := FourSteps(dsp, TINY + TINY[..1], s, Look, Decide, Look, Decide);
    Looks(dsp, s);
    TinyTurn(dsp, t1);
    Looks(dsp, t2);
    NothingLeft(dsp, t3);
    t := t4;
  }

  lemma NothingLeft(dsp: Dsp, s: Sys)
    requires Safe(s) && Shaped(s) && s.at.Room? && s.pass.used == |s.pass.stage| && s.pass.made == []
    ensures var t := Next(dsp, s, Decide);
            t == s.(at := Rest, pass := s.pass.(stage := [], used := 0))
  {
    hide ParseHeader, Store, Unread, BytesOf, Gone, Safe, WalkSpec, Decode, SyncFrom;
    assert s.pass.stage[s.pass.used..] == [] && s.trail + [] == s.trail && s.decoded + [] == s.decoded;
  }

  /** Twelve steps: the same frame with one byte behind it; it is lost, and the listen is over without a sound. */
  lemma LostFrameRun(dsp: Dsp, comp: seq<byte>, pcm: seq<byte>) returns (t: Sys)
    requires |comp| >= 25 && |pcm| >= FRAME_ROOM
    ensures IsFrame(TINY) && IsStream([TINY], TINY[..1], FrameOf(TINY)) && Flat([TINY]) == TINY
    ensures Safe(Start(comp, pcm, CLEARED))
    ensures t == Run(dsp, Start(comp, pcm, CLEARED), Arrives(TINY + TINY[..1]) + Ends() + Loses())
    ensures PlaysAll(dsp, TINY + TINY[..1], Start(comp, pcm, CLEARED), Arrives(TINY + TINY[..1]) + Ends() + Loses())
    ensures t.eof && t.trail == [Fed(TINY + TINY[..1])] && t.decoded == [] && Over(t)
  {
    hide Safe, Run, PlaysAll, EndsDrained, Clean, Next, TINY, Arrives, Ends, Loses, Flat;
    StoppedShape();
    var all, s0 := TINY + TINY[..1], Start(comp, pcm, CLEARED);
    PartOfTail(TINY[..4], TINY[..1], FrameOf(TINY)) by { assert TINY[..1] == TINY[..4][..1]; }
    var s1 := Arrived(dsp, comp, pcm, all);
    var s2 := Ended(dsp, s1, all);
    t := LostTiny(dsp, s2);
    Joined(dsp, all, s0, Arrives(all), Ends());
    Joined(dsp, all, s0, Arrives(all) + Ends(), Loses());
  }

  lemma Joined(dsp: Dsp, all: seq<byte>, s: Sys, a: seq<Step>, b: seq<Step>)
    requires Safe(s) && PlaysAll(dsp, all, s, a) && EndsDrained(dsp, s, a)
    requires PlaysAll(dsp, all, Run(dsp, s, a), b) && EndsDrained(dsp, Run(dsp, s, a), b)
    ensures PlaysAll(dsp, all, s, a + b) && EndsDrained(dsp, s, a + b)
    ensures Run(dsp, s, a + b) == Run(dsp, Run(dsp, s, a), b)
  {
    hide Safe, Run, PlaysAll, EndsDrained, Clean;
    Concat(dsp, all, s, a, b);
    EndsDrainedConcat(dsp, s, a, b);
  }
}
