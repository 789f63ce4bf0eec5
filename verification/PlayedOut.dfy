/**
 * The test that ends a listen (os9/casquinha.c, lines 2064-2066): the transport is gone, no
 * compressed byte is left and the PCM ring is empty. The event loop loads what it tests one
 * thing after the other, while the task and the interrupt go on.
 */
module PlayedOut {
  import opened Bytes
  import opened Rings
  import opened Mp3
  import opened FrameSelect
  import opened TailGate
  import opened Decoder
  import opened Pump
  import opened Pipeline
  import opened Schedule
  import opened StreamEnd

  /** PCM on its way comes from a frame that is still staged. */
  predicate Making(s: Sys) {
    s.at.Made? || s.at.Laid? ==> s.pass.used > 0
  }

  lemma StepKeepsMaking(dsp: Dsp, s: Sys, a: Step)
    requires Safe(s) && Shaped(s) && Making(s)
    ensures Making(Next(dsp, s, a))
  {
    hide Store, Unread, BytesOf, Gone, Turn, Safe;
    if a.Decide? && s.at.Room? { TurnAdvances(dsp, s.eof, s.at.space, s.pass); }
  }

  lemma {:induction false} RunKeepsMaking(dsp: Dsp, s: Sys, steps: seq<Step>)
    requires Safe(s) && Making(s)
    ensures Making(Run(dsp, s, steps))
    decreases |steps|
  {
    hide Next, Safe, Making;
    SafeIsShaped(s);
    if steps != [] {
      StepKeeps(dsp, s, steps[0]);
      StepKeepsMaking(dsp, s, steps[0]);
      RunKeepsMaking(dsp, Next(dsp, s, steps[0]), steps[1..]);
    }
  }

  /** The event loop, busy with the test or done with the wire, adds nothing. */
  predicate NothingComes(steps: seq<Step>) {
    forall a :: a in steps ==> !a.Write? && !a.Commit?
  }

  /** The compressed ring is empty. */
  predicate Dry(s: Sys) {
    s.comp.rd == s.comp.wr
  }

  /** All that the two rings and the stage ever held has left them. */
  predicate Over(s: Sys) {
    Idle(s) && s.pcm.rd == s.pcm.wr
  }

  lemma StaysDry(dsp: Dsp, s: Sys, a: Step)
    requires Safe(s) && Shaped(s) && Making(s) && !a.Write? && !a.Commit? && Dry(s)
    ensures Dry(Next(dsp, s, a))
  {
    hide Store, Unread, BytesOf, Gone, Turn;
  }

  /** Nothing staged and nothing to stage: no more PCM is made. */
  lemma StaysIdle(dsp: Dsp, s: Sys, a: Step)
    requires Safe(s) && Shaped(s) && Making(s) && !a.Write? && !a.Commit? && Idle(s)
    ensures var t := Next(dsp, s, a); Idle(t) && t.pcm.wr == s.pcm.wr
  {
    hide Store, Unread, BytesOf, Gone, Turn;
    StaysDry(dsp, s, a);
    if a.Decide? && s.at.Room? { TurnAdvances(dsp, s.eof, s.at.space, s.pass); }
  }

  lemma CursorOnward(dsp: Dsp, s: Sys, a: Step)
    requires Safe(s) && Shaped(s)
    ensures s.pcm.rd <= Next(dsp, s, a).pcm.rd
  {
    hide Store, Unread, BytesOf, Gone, Turn, Safe;
  }

  lemma {:induction false} RunOnward(dsp: Dsp, s: Sys, steps: seq<Step>)
    requires Safe(s) && Making(s) && NothingComes(steps)
    ensures var t := Run(dsp, s, steps);
            && Making(t) && s.pcm.rd <= t.pcm.rd <= t.pcm.wr
            && (Dry(s) ==> Dry(t)) && (Idle(s) ==> Idle(t) && t.pcm.wr == s.pcm.wr)
    decreases |steps|
  {
    hide Next, Safe, Making, Dry, Idle;
    SafeIsShaped(s);
    if steps != [] {
      assert steps[0] in steps && forall a :: a in steps[1..] ==> a in steps;
      StepKeeps(dsp, s, steps[0]);
      StepKeepsMaking(dsp, s, steps[0]);
      CursorOnward(dsp, s, steps[0]);
      if Dry(s) { StaysDry(dsp, s, steps[0]); }
      if Idle(s) { StaysIdle(dsp, s, steps[0]); }
      RunOnward(dsp, Next(dsp, s, steps[0]), steps[1..]);
    }
  }

  /** The four loads, in the states they were made in; either PCM cursor may come first. */
  predicate Says(s: Sys, u: Sys, v: Sys, w: Sys, wrFirst: bool) {
    && s.comp.rd == s.comp.wr && u.pass.stage == []
    && (if wrFirst then v.pcm.wr == w.pcm.rd else w.pcm.wr == v.pcm.rd)
  }

  /**
   * The test, its loads any number of steps of the task and the interrupt apart: it says yes
   * only when all is over, and then every committed byte was taken and every decoded byte has
   * left the ring; and it says yes whenever all was over when it began.
   */
  lemma TheTestIsSound(dsp: Dsp, s: Sys, a: seq<Step>, b: seq<Step>, c: seq<Step>, wrFirst: bool)
    requires Safe(s) && Making(s) && NothingComes(a) && NothingComes(b) && NothingComes(c)
    ensures var u := Run(dsp, s, a);
            var v := Run(dsp, u, b);
            var w := Run(dsp, v, c);
            && (Says(s, u, v, w, wrFirst) ==>
                  Over(w) && BytesOf(w.trail) == w.comp.sent && w.decoded == Gone(w.shots))
            && (Over(s) ==> Says(s, u, v, w, wrFirst))
  {
    hide Run, Safe, Making, BytesOf, Gone, NothingComes;
    var u := Run(dsp, s, a);
    var v := Run(dsp, u, b);
    var w := Run(dsp, v, c);
    RunOnward(dsp, s, a);
    RunOnward(dsp, u, b);
    RunOnward(dsp, v, c);
    OrderOfCursors(s);
    if Over(w) { OverMeans(w); }
  }

  lemma OrderOfCursors(s: Sys)
    requires Safe(s)
    ensures s.pcm.rd <= s.pcm.wr
  {
  }

  lemma OverMeans(s: Sys)
    requires Safe(s) && Making(s) && Over(s)
    ensures BytesOf(s.trail) == s.comp.sent && s.decoded == Gone(s.shots)
  {
    hide BytesOf, Gone, Unread;
    assert s.comp.sent[..s.comp.wr] == s.comp.sent && s.pcm.sent[..s.pcm.wr] == s.pcm.sent;
    assert s.pass.stage[s.pass.used..] == [];
    assert BytesOf(s.trail) + [] == BytesOf(s.trail) && s.pcm.sent + [] == s.pcm.sent;
  }

  /**
   * A listen that is over, on a stream of which no decision cut a frame: the stream stopped
   * between two frames, and what the interrupts took out of the ring is the PCM of one flat
   * decode of it, no more and no less.
   */
  lemma OverIsFlat(
    dsp: Dsp, d: Dec, fs: seq<seq<byte>>, end: seq<byte>, f0: Frame, comp: seq<byte>, pcm: seq<byte>,
    steps: seq<Step>)
    requires comp != [] && pcm != [] && IsStream(fs, end, f0) && d.header.b0 != 0xFF
    requires Safe(Start(comp, pcm, d)) && PlaysAll(dsp, Flat(fs) + end, Start(comp, pcm, d), steps)
    requires Clean(dsp, Start(comp, pcm, d), steps)
    ensures var s := Run(dsp, Start(comp, pcm, d), steps);
            s.eof && Over(s) ==>
              && end == [] && |s.trail| == |fs| && AllFed(s.trail, fs)
              && Gone(s.shots) == FlatFrom(dsp, Total(d, 0, [], []), Flat(fs)).pcm
  {
    hide ParseHeader, Flat, Through, FlatFrom, Next, PartialTail, IsFrame, OnStream, Safe, Gone, BytesOf, Making;
    var s0 := Start(comp, pcm, d);
    StartOnStream(dsp, d, fs, end, f0, comp, pcm);
    FedIffClean(dsp, d, fs, end, f0, s0, steps);
    assert Making(s0) by { StartMakesNothing(comp, pcm, d); }
    RunKeepsMaking(dsp, s0, steps);
    FlatIsThrough(dsp, d, fs, f0);
    var s := Run(dsp, s0, steps);
    if s.eof && Over(s) {
      OverMeans(s);
      AllTaken(dsp, d, fs, end, f0, s);
    }
  }

  lemma StartMakesNothing(comp: seq<byte>, pcm: seq<byte>, d: Dec)
    ensures Making(Start(comp, pcm, d))
  {
  }

  lemma AllTaken(dsp: Dsp, d: Dec, fs: seq<seq<byte>>, end: seq<byte>, f0: Frame, s: Sys)
    requires OnStream(dsp, d, fs, end, f0, s) && s.eof && Idle(s)
    ensures end == [] && |s.trail| == |fs| && AllFed(s.trail, fs) && |s.trail| <= |fs|
    ensures (forall i | 0 <= i < |fs| :: |fs[i]| >= 4) && s.decoded == Through(dsp, d, fs, |fs|).pcm
  {
    hide ParseHeader, Flat, Through, PartialTail, IsFrame, Safe, BytesOf, DecFits;
    OnStreamIsSafe(dsp, d, fs, end, f0, s);
    Accounted(s);
    StagedIsNext(dsp, d, fs, end, f0, s);
    assert s.comp.sent[..s.comp.wr] == s.comp.sent;
    assert s.pass.stage[s.pass.used..] == [];
    var gs := fs[|s.trail|..];
    assert Flat(gs) == [] && end == [];
    NoFrames(gs);
  }

  lemma NoFrames(gs: seq<seq<byte>>)
    requires Flat(gs) == [] && forall i | 0 <= i < |gs| :: |gs[i]| >= 4
    ensures gs == []
  {
    hide Flat;
    if gs != [] { FlatCons(gs); }
  }
}
