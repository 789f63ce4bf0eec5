/**
 * The single-threaded fallback (os9/casquinha.c, line 2012): one uninterrupted
 * `cq_decring_pump` is one schedule of the three-party machine, so what is proved of
 * every interleaving holds of it.
 */
module Inline {
  import opened Bytes
  import opened Rings
  import opened Mp3
  import opened FrameSelect
  import opened Decoder
  import opened Pump
  import opened Pipeline

  /** The state of the machine as the users of the pipeline object see it. */
  function Seen(s: Sys): View
    requires Safe(s)
  {
    View(s.comp.sent[s.comp.rd..], s.eof, s.pass.stage, s.pass.dec, s.pcm.sent[s.pcm.rd..],
         s.pass.frames, s.pass.resyncs, s.pass.resyncBytes, s.pass.flushes, |s.pcm.sent|)
  }

  lemma {:induction false} RunOnce(dsp: Dsp, s: Sys, a: Step, rest: seq<Step>)
    requires Safe(s)
    ensures Safe(Next(dsp, s, a))
    ensures Run(dsp, s, [a] + rest) == Run(dsp, Next(dsp, s, a), rest)
  {
    hide Next, Safe;
    StepKeeps(dsp, s, a);
    assert ([a] + rest)[0] == a && ([a] + rest)[1..] == rest;
  }

  predicate TaskOnly(steps: seq<Step>) {
    forall i | 0 <= i < |steps| ::
      var a := steps[i]; a.See? || a.Load? || a.Ack? || a.Look? || a.Decide? || a.Lay? || a.Show?
  }

  /** The room a turn sees is what the pass has left of it. */
  lemma TurnIgnoresMade(dsp: Dsp, eof: bool, room: int, p: Pass)
    requires Within(p)
    ensures var v, w := Turn(dsp, eof, room, p), Turn(dsp, eof, room, p.(made := []));
            && v.Stop? == w.Stop? && p.made <= v.pass.made
            && v.pass.(made := []) == w.pass.(made := []) && v.pass.made == p.made + w.pass.made
  {
    hide ParseHeader, Decode, WalkSpec, SyncFrom;
    assert p.made + [] == p.made;
  }

  function Space(s: Sys): int { |s.pcm.buf| - (s.pcm.wr - s.pcm.rd) }

  function Twice(dsp: Dsp, s: Sys, a: Step, b: Step): (t: Sys)
    requires Safe(s)
    ensures Safe(t)
  {
    StepKeeps(dsp, s, a);
    StepKeeps(dsp, Next(dsp, s, a), b);
    Next(dsp, Next(dsp, s, a), b)
  }

  lemma RunTwice(dsp: Dsp, s: Sys, a: Step, b: Step, rest: seq<Step>)
    requires Safe(s)
    ensures Run(dsp, s, [a, b] + rest) == Run(dsp, Twice(dsp, s, a, b), rest)
  {
    hide Next, Safe, Run;
    assert [a, b] + rest == [a] + ([b] + rest);
    SafeIsShaped(s);
    RunOnce(dsp, s, a, [b] + rest);
    RunOnce(dsp, Next(dsp, s, a), b, rest);
  }

  lemma LookDecide(dsp: Dsp, s: Sys)
    requires Safe(s) && s.at.Top?
    ensures Within(s.pass)
    ensures var v, t := Turn(dsp, s.eof, Space(s), s.pass), Twice(dsp, s, Look, Decide);
            && t.comp == s.comp && t.pend == s.pend && t.eof == s.eof && t.pcm == s.pcm
            && t.at == (if v.Stop? then Rest else if v.pass.made == [] then Top else Made(v.pass.made))
            && t.pass == if v.Stop? then v.pass.(stage := v.pass.stage[v.pass.used..], used := 0)
                         else v.pass.(made := [])
  {
    hide ParseHeader, Turn, Store, Unread, BytesOf, Gone;
    StepKeeps(dsp, s, Look);
    TurnAdvances(dsp, s.eof, Space(s), s.pass);
  }

  lemma LayShow(dsp: Dsp, s: Sys)
    requires Safe(s) && s.at.Made?
    ensures var t := Twice(dsp, s, Lay, Show);
            && t.comp == s.comp && t.pend == s.pend && t.eof == s.eof && t.pcm.rd == s.pcm.rd
            && |t.pcm.buf| == |s.pcm.buf| && t.pcm.sent == s.pcm.sent + s.at.data
            && t.at == Top && t.pass == s.pass
  {
    hide ParseHeader, Turn, Store, Unread, BytesOf, Gone;
  }

  lemma Lengths(s: Sys)
    requires Safe(s)
    ensures |s.comp.sent| == s.comp.wr && |s.pcm.sent| == s.pcm.wr
  {
  }

  /** Look, decide, and publish what was made: one turn of the loop, uninterrupted. */
  lemma OneTurnRuns(dsp: Dsp, s: Sys) returns (steps: seq<Step>, t: Sys)
    requires Safe(s) && s.at.Top?
    ensures TaskOnly(steps) && Safe(t) && Within(s.pass)
    ensures forall rest :: Run(dsp, s, steps + rest) == Run(dsp, t, rest)
    ensures var v := Turn(dsp, s.eof, Space(s), s.pass);
            && t.comp == s.comp && t.pend == s.pend && t.eof == s.eof && t.pcm.rd == s.pcm.rd
            && |t.pcm.buf| == |s.pcm.buf| && |t.pcm.sent| == t.pcm.wr && |s.pcm.sent| == s.pcm.wr
            && t.pcm.sent == s.pcm.sent + v.pass.made
            && (match v
                case Stop(q) => t.at == Rest && t.pass == q.(stage := q.stage[q.used..], used := 0)
                case Again(q) => t.at == Top && t.pass == q.(made := []))
  {
    hide ParseHeader, Turn, Safe, Run, Twice;
    LookDecide(dsp, s);
    assert s.pass.made == [] by { MadeIsEmpty(s); }
    StopMakesNothing(dsp, s.eof, Space(s), s.pass);
    var u, v := Twice(dsp, s, Look, Decide), Turn(dsp, s.eof, Space(s), s.pass);
    if u.at.Made? {
      LayShow(dsp, u);
      steps, t := [Look, Decide] + [Lay, Show], Twice(dsp, u, Lay, Show);
      forall rest ensures Run(dsp, s, steps + rest) == Run(dsp, t, rest) {
        assert steps + rest == [Look, Decide] + ([Lay, Show] + rest);
        RunTwice(dsp, s, Look, Decide, [Lay, Show] + rest);
        RunTwice(dsp, u, Lay, Show, rest);
      }
    } else {
      steps, t := [Look, Decide], u;
      forall rest ensures Run(dsp, s, steps + rest) == Run(dsp, t, rest) {
        RunTwice(dsp, s, Look, Decide, rest);
      }
      assert s.pcm.sent + [] == s.pcm.sent;
    }
    Lengths(s);
    Lengths(t);
  }

  /** The rest of a pass, from the head of its loop. */
  lemma {:induction false} LoopRuns(dsp: Dsp, s: Sys, p: Pass, room: nat) returns (steps: seq<Step>)
    requires Safe(s) && s.at.Top? && Within(p) && s.pass == p.(made := []) && Space(s) == room - |p.made|
    ensures TaskOnly(steps)
    ensures var t, q := Run(dsp, s, steps), Loop(dsp, s.eof, room, p);
            && Within(q) && p.made <= q.made
            && t.at == Rest && t.comp == s.comp && t.pend == s.pend && t.eof == s.eof && t.pcm.rd == s.pcm.rd
            && |t.pcm.buf| == |s.pcm.buf| && s.pcm.rd <= |s.pcm.sent|
            && t.pcm.sent == s.pcm.sent + q.made[|p.made|..]
            && t.pass == q.(stage := q.stage[q.used..], used := 0, made := [])
    decreases |p.stage| - p.used
  {
    hide ParseHeader, Turn, Next, Safe;
    PcmRead(s);
    var room' := room - |p.made|;
    TurnAdvances(dsp, s.eof, room', p);
    TurnIgnoresMade(dsp, s.eof, room', p);
    StopMakesNothing(dsp, s.eof, room', p);
    var first, t := OneTurnRuns(dsp, s);
    var v, made := Turn(dsp, s.eof, room', p), Turn(dsp, s.eof, room', s.pass).pass.made;
    assert v.pass.made[|p.made|..] == made;
    if v.Stop? {
      steps := first;
      assert first + [] == first;
      assert Run(dsp, s, first + []) == Run(dsp, t, []);
    } else {
      var more := LoopRuns(dsp, t, v.pass, room);
      steps := first + more;
      var q := Loop(dsp, s.eof, room, v.pass);
      assert s.pcm.sent + made + q.made[|v.pass.made|..] == s.pcm.sent + q.made[|p.made|..];
    }
  }

  /** A whole pass on the object is a run of task steps, with the same result. */
  lemma PumpIsASchedule(dsp: Dsp, s: Sys) returns (steps: seq<Step>)
    requires Safe(s) && s.at.Rest?
    ensures TaskOnly(steps)
    ensures var t := Run(dsp, s, steps);
            && |s.pass.stage| <= STAGE && |Seen(s).out| <= |s.pcm.buf|
            && t.at == Rest && Seen(t) == PumpSpec(dsp, |s.pcm.buf|, Seen(s)).0
  {
    hide ParseHeader, Loop, Safe, Run, Unread, PumpSpec, Topped;
    var s3 := TopUpRuns(dsp, s);
    Lengths(s);
    var p, room := Topped(Seen(s)), |s.pcm.buf| - |Seen(s).out|;
    ToppedEmpty(Seen(s));
    assert p.(made := []) == p;
    var more := LoopRuns(dsp, s3, p, room);
    steps := [See, Load, Ack] + more;
    var t := Run(dsp, s3, more);
    assert Run(dsp, s, [See, Load, Ack] + more) == t;
    PassEnd(dsp, s, s3, t);
  }

  lemma ToppedEmpty(v: View)
    requires |v.stage| <= STAGE
    ensures Topped(v).made == [] && Topped(v).used == 0
  {
  }

  lemma ToppedLength(v: View)
    requires |v.stage| <= STAGE
    ensures |Topped(v).stage| - |v.stage| == Min(|v.queue|, STAGE - |v.stage|)
  {
  }

  lemma PassEnd(dsp: Dsp, s: Sys, s3: Sys, t: Sys)
    requires Safe(s) && Safe(t) && |s.pass.stage| <= STAGE && |Seen(s).out| <= |s.pcm.buf|
    requires s3.pcm == s.pcm && s3.eof == s.eof && s3.pass == Topped(Seen(s))
    requires s3.comp.rd <= |s3.comp.sent|
    requires s3.comp.sent[s3.comp.rd..] == Seen(s).queue[|s3.pass.stage| - |s.pass.stage|..]
    requires var q := Loop(dsp, s3.eof, |s.pcm.buf| - |Seen(s).out|, s3.pass);
             && Within(q) && t.comp == s3.comp && t.eof == s3.eof && t.pcm.rd == s3.pcm.rd
             && t.pcm.sent == s3.pcm.sent + q.made
             && t.pass == q.(stage := q.stage[q.used..], used := 0, made := [])
    ensures Seen(t) == PumpSpec(dsp, |s.pcm.buf|, Seen(s)).0
  {
    hide ParseHeader, Loop, PumpSpec, Safe;
    SafeMeans(s);
    ToppedLength(Seen(s));
    var q := Loop(dsp, s.eof, |s.pcm.buf| - |Seen(s).out|, s3.pass);
    OutGrows(s.pcm.sent, s.pcm.rd, q.made);
    PumpIs(dsp, |s.pcm.buf|, Seen(s), q, Seen(t));
  }

  lemma OutGrows(sent: seq<byte>, rd: nat, made: seq<byte>)
    requires rd <= |sent|
    ensures (sent + made)[rd..] == sent[rd..] + made
  {
  }

  lemma TopUpRuns(dsp: Dsp, s: Sys) returns (t: Sys)
    requires Safe(s) && s.at.Rest?
    ensures Safe(t) && forall rest :: Run(dsp, s, [See, Load, Ack] + rest) == Run(dsp, t, rest)
    ensures |s.pass.stage| <= STAGE && t.at == Top && t.pass == Topped(Seen(s))
    ensures t.comp.rd <= |t.comp.sent|
    ensures t.comp.sent[t.comp.rd..] == Seen(s).queue[|t.pass.stage| - |s.pass.stage|..]
    ensures t.eof == s.eof && t.pcm == s.pcm
    ensures |s.pcm.sent| == s.pcm.wr && s.pcm.rd <= s.pcm.wr <= s.pcm.rd + |s.pcm.buf|
  {
    hide ParseHeader, Store, Unread, BytesOf, Gone, Run, Next, RingOk;
    var u := Twice(dsp, s, See, Load);
    SafeIsShaped(u);
    StepKeeps(dsp, u, Ack);
    t := Next(dsp, u, Ack);
    forall rest ensures Run(dsp, s, [See, Load, Ack] + rest) == Run(dsp, t, rest) {
      assert [See, Load, Ack] + rest == [See, Load] + ([Ack] + rest);
      RunTwice(dsp, s, See, Load, [Ack] + rest);
      RunOnce(dsp, u, Ack, rest);
    }
    TopUpShape(dsp, s);
  }

  /** See, load and acknowledge, uninterrupted: where they lead. */
  lemma TopUpSteps(dsp: Dsp, s: Sys)
    requires Safe(s) && s.at.Rest? && |s.pass.stage| <= STAGE && s.comp.rd <= s.comp.wr
    ensures var take := Min(s.comp.wr - s.comp.rd, STAGE - |s.pass.stage|);
            var u := Twice(dsp, s, See, Load);
            && Safe(u) && Shaped(u)
            && Next(dsp, u, Ack)
               == s.(comp := s.comp.(rd := s.comp.rd + take), at := Top, pass := s.pass.(
                 stage := s.pass.stage + Unread(s.comp.buf, s.comp.rd, take), progress := take > 0))
  {
    hide ParseHeader, Store, Unread, BytesOf, Gone, Next, Safe;
    SafeIsShaped(s);
    SeesAll(dsp, s);
    StepKeeps(dsp, s, See);
    var s1 := Next(dsp, s, See);
    SafeIsShaped(s1);
    LoadsFit(dsp, s1);
    StepKeeps(dsp, s1, Load);
    var s2 := Next(dsp, s1, Load);
    SafeIsShaped(s2);
    AcksTake(dsp, s2);
  }

  lemma TopUpShape(dsp: Dsp, s: Sys)
    requires Safe(s) && s.at.Rest?
    ensures var u := Twice(dsp, s, See, Load);
            var t := Next(dsp, u, Ack);
            && Safe(u) && |s.comp.sent| == s.comp.wr && |s.pass.stage| <= STAGE
            && t.at == Top && t.pass == Topped(Seen(s)) && t.eof == s.eof && t.pcm == s.pcm
            && t.comp.rd <= |t.comp.sent|
            && t.comp.sent[t.comp.rd..] == Seen(s).queue[|t.pass.stage| - |s.pass.stage|..]
    ensures |s.pcm.sent| == s.pcm.wr && s.pcm.rd <= s.pcm.wr <= s.pcm.rd + |s.pcm.buf|
  {
    hide ParseHeader, Store, Unread, BytesOf, Gone, Next, Safe, Twice, Topped, Shaped;
    SafeMeans(s);
    StageRoom(s);
    var v := Seen(s);
    var take := Min(|v.queue|, STAGE - |v.stage|);
    TopUpSteps(dsp, s);
    UnreadHead(s.comp.buf, s.comp.rd, take, s.comp.wr - s.comp.rd);
    ToppedIs(v, take);
    DropTwice(s.comp.sent, s.comp.rd, take);
  }

  lemma ToppedIs(v: View, take: nat)
    requires |v.stage| <= STAGE && take == Min(|v.queue|, STAGE - |v.stage|)
    ensures Topped(v) == Pass(v.stage + v.queue[..take], 0, v.dec, v.frames, v.resyncs, v.resyncBytes, v.flushes, [],
                              take > 0)
  {
  }

  lemma DropTwice(a: seq<byte>, i: nat, j: nat)
    requires i + j <= |a|
    ensures a[i..][j..] == a[i + j..]
  {
  }

  lemma StageRoom(s: Sys)
    requires Safe(s)
    ensures |s.pass.stage| <= STAGE && s.pass.made == [] && (s.at.Rest? ==> s.pass.used == 0)
  {
  }

  lemma UnreadHead(buf: seq<byte>, at: nat, k: nat, n: nat)
    requires |buf| > 0 && k <= n
    ensures Unread(buf, at, k) == Unread(buf, at, n)[..k]
  {
  }
}
