/**
 * No deadlock of the whole path: from every state a run can reach, on any bytes, the rest of
 * them can be played out, their end declared and the pipeline brought to rest.
 */
module Completion {
  import opened Bytes
  import opened Rings
  import opened Mp3
  import opened FrameSelect
  import opened TailGate
  import opened Decoder
  import opened Pump
  import opened Pipeline
  import opened Safety
  import opened Schedule
  import opened StreamEnd
  import Sound
  import Inline

  /** The PCM ring still has room for a frame when less than one hardware buffer is queued. */
  const PCM_ENOUGH: nat := Sound.CHUNK + FRAME_ROOM

  /** The wire side of a run that plays the bytes `all`. */
  ghost predicate Wired(all: seq<byte>, s: Sys) {
    Safe(s) && s.comp.sent + s.pend <= all && (s.eof ==> s.comp.sent == all)
  }

  lemma WiredFacts(all: seq<byte>, s: Sys)
    requires Wired(all, s)
    ensures Safe(s) && Shaped(s) && |s.comp.sent| == s.comp.wr && s.comp.rd <= s.comp.wr <= |all|
    ensures s.comp.sent <= all && (s.comp.sent != all ==> s.comp.wr < |all|)
    ensures s.eof ==> s.comp.sent == all && s.pend == []
  {
    hide BytesOf, Gone, Unread;
    PartOf(s.comp.sent, s.pend, all);
    if s.comp.wr == |all| { assert s.comp.sent == all; }
  }

  ghost predicate Leads(dsp: Dsp, all: seq<byte>, s: Sys, t: Sys) {
    Safe(s) && exists steps ::
      PlaysAll(dsp, all, s, steps) && EndsDrained(dsp, s, steps) && Run(dsp, s, steps) == t
  }

  lemma LeadsNowhere(dsp: Dsp, all: seq<byte>, s: Sys)
    requires Safe(s)
    ensures Leads(dsp, all, s, s)
  {
    hide Next, Safe, Plays;
    assert PlaysAll(dsp, all, s, []) && EndsDrained(dsp, s, []) && Run(dsp, s, []) == s;
  }

  lemma LeadsOn(dsp: Dsp, all: seq<byte>, s: Sys, t: Sys, u: Sys)
    requires Leads(dsp, all, s, t) && Leads(dsp, all, t, u)
    ensures Leads(dsp, all, s, u)
  {
    hide Next, Safe, Plays, PlaysAll, Run, EndsDrained, Clean;
    var a :| PlaysAll(dsp, all, s, a) && EndsDrained(dsp, s, a) && Run(dsp, s, a) == t;
    var b :| PlaysAll(dsp, all, t, b) && EndsDrained(dsp, t, b) && Run(dsp, t, b) == u;
    Concat(dsp, all, s, a, b);
    EndsDrainedConcat(dsp, s, a, b);
  }

  lemma WiredStays(dsp: Dsp, all: seq<byte>, s: Sys, a: Step)
    requires Wired(all, s) && Plays(all, s, a)
    ensures Shaped(s) && Wired(all, Next(dsp, s, a))
  {
    hide Next, Safe;
    StepKeeps(dsp, s, a);
    WiredFacts(all, s);
    if a.Decide? && s.at.Room? {
      Decides(dsp, s);
    } else {
      OtherSteps(dsp, s, a);
      if a.Write? { assert s.comp.sent + (s.pend + a.data) == s.comp.sent + s.pend + a.data; }
    }
  }

  /** One step the producer's rule allows. */
  lemma Go(dsp: Dsp, all: seq<byte>, s: Sys, a: Step) returns (t: Sys)
    requires Wired(all, s) && Plays(all, s, a) && (a.Eof? ==> s.comp.rd == s.comp.wr)
    ensures Safe(s) && Shaped(s) && t == Next(dsp, s, a) && Wired(all, t) && Leads(dsp, all, s, t)
  {
    hide Next, Safe, Wired, Plays;
    WiredFacts(all, s);
    t := Next(dsp, s, a);
    WiredStays(dsp, all, s, a);
    WiredFacts(all, t);
    var steps := [a];
    assert steps[1..] == [] && Run(dsp, t, []) == t && PlaysAll(dsp, all, t, []) && EndsDrained(dsp, t, []);
    assert PlaysAll(dsp, all, s, steps) && EndsDrained(dsp, s, steps) && Run(dsp, s, steps) == t;
  }

  /** What only the sound interrupt and the decode task leave alone. */
  predicate SameWire(s: Sys, t: Sys) {
    && t.comp.wr == s.comp.wr && t.comp.sent == s.comp.sent && t.pend == s.pend && t.eof == s.eof
    && |t.comp.buf| == |s.comp.buf| && |t.pcm.buf| == |s.pcm.buf| && t.comp.rd >= s.comp.rd
  }

  /** Firings until a frame's PCM fits. */
  lemma {:induction false} MakeRoom(dsp: Dsp, all: seq<byte>, s: Sys) returns (t: Sys)
    requires Wired(all, s) && |s.pcm.buf| >= PCM_ENOUGH
    ensures Wired(all, t) && Leads(dsp, all, s, t)
    ensures SameWire(s, t) && t.comp == s.comp && t.at == s.at && t.pass == s.pass && t.trail == s.trail
    ensures Inline.Space(t) >= FRAME_ROOM
    decreases s.pcm.wr - s.pcm.rd
  {
    hide Wired, Plays, Turn, Store, Unread, BytesOf, Gone, Safe;
    WiredFacts(all, s);
    if Inline.Space(s) >= FRAME_ROOM {
      t := s;
      LeadsNowhere(dsp, all, s);
    } else {
      assert Plays(all, s, Fire) by { FireIsFree(all, s); }
      var u := Go(dsp, all, s, Fire);
      Fired(dsp, s);
      t := MakeRoom(dsp, all, u);
      LeadsOn(dsp, all, s, u, t);
    }
  }

  lemma FireIsFree(all: seq<byte>, s: Sys)
    ensures Plays(all, s, Fire)
  {
  }

  lemma Fired(dsp: Dsp, s: Sys)
    requires Safe(s) && Shaped(s) && s.pcm.wr - s.pcm.rd >= Sound.CHUNK
    ensures var t := Next(dsp, s, Fire);
            && SameWire(s, t) && t.comp == s.comp && t.at == s.at && t.pass == s.pass && t.trail == s.trail
            && t.pcm.wr == s.pcm.wr && s.pcm.rd < t.pcm.rd <= t.pcm.wr
  {
    hide Turn, Store, BytesOf, Gone, Safe, Sound.FireSpec;
    var queue := Unread(s.pcm.buf, s.pcm.rd, s.pcm.wr - s.pcm.rd);
    Sound.FireConserves(queue, s.skip, s.open);
    FireTakes(queue, s.skip, s.open);
  }

  lemma FireTakes(queue: seq<byte>, skip: int, open: bool)
    requires |queue| >= Sound.CHUNK
    ensures var shot := Sound.FireSpec(queue, skip, open);
            1 <= |shot.trimmed| + |shot.served| <= |queue|
  {
  }

  predicate IsTask(a: Step) {
    a.See? || a.Load? || a.Ack? || a.Look? || a.Decide? || a.Lay? || a.Show?
  }

  lemma TaskIsFree(all: seq<byte>, s: Sys, a: Step)
    requires IsTask(a)
    ensures Plays(all, s, a)
  {
  }

  lemma TaskLeavesWire(dsp: Dsp, s: Sys, a: Step)
    requires Safe(s) && Shaped(s) && IsTask(a)
    ensures SameWire(s, Next(dsp, s, a))
  {
    hide Turn, Store, Unread, BytesOf, Gone, Safe;
  }

  /** A task step leaves the wire alone. */
  lemma TaskStep(dsp: Dsp, all: seq<byte>, s: Sys, a: Step) returns (t: Sys)
    requires Wired(all, s) && IsTask(a)
    ensures Safe(s) && Shaped(s) && t == Next(dsp, s, a)
    ensures Wired(all, t) && Leads(dsp, all, s, t) && SameWire(s, t)
  {
    hide Wired, Plays, Safe, Next;
    TaskIsFree(all, s, a);
    WiredFacts(all, s);
    TaskLeavesWire(dsp, s, a);
    t := Go(dsp, all, s, a);
  }

  lemma StageFits(s: Sys)
    requires Safe(s)
    ensures |s.pass.stage| <= STAGE
  {
  }

  /** The top-up: everything visible that fits in the stage. */
  lemma TopUpTop(dsp: Dsp, all: seq<byte>, s: Sys) returns (t: Sys)
    requires Wired(all, s) && (s.at.Rest? || s.at.Seen? || s.at.Loaded?)
    ensures Wired(all, t) && Leads(dsp, all, s, t) && SameWire(s, t) && t.at.Top?
    ensures s.at.Rest? && s.comp.rd < s.comp.wr && |s.pass.stage| < STAGE ==> t.comp.rd > s.comp.rd
    decreases match s.at case Rest => 2 case Seen(_) => 1 case _ => 0
  {
    hide Wired, Next, Safe;
    WiredFacts(all, s);
    StageFits(s);
    match s.at {
      case Rest =>
        var u := TaskStep(dsp, all, s, See);
        SeesAll(dsp, s);
        var v := TaskStep(dsp, all, u, Load);
        LoadsFit(dsp, u);
        t := TaskStep(dsp, all, v, Ack);
        AcksTake(dsp, v);
        LeadsOn(dsp, all, s, u, v);
        LeadsOn(dsp, all, s, v, t);
      case Seen(_) =>
        var u := TaskStep(dsp, all, s, Load);
        LoadsFit(dsp, s);
        t := TaskStep(dsp, all, u, Ack);
        AcksTake(dsp, u);
        LeadsOn(dsp, all, s, u, t);
      case Loaded(_) =>
        t := TaskStep(dsp, all, s, Ack);
        AcksTake(dsp, s);
    }
  }

  lemma LaysShows(dsp: Dsp, s: Sys)
    requires Safe(s) && Shaped(s)
    ensures s.at.Made? ==> var t := Next(dsp, s, Lay);
              t.at.Laid? && t.pass == s.pass && t.comp == s.comp
    ensures s.at.Laid? ==> var t := Next(dsp, s, Show);
              t.at == Top && t.pass == s.pass && t.comp == s.comp
  {
    hide Store, Unread, BytesOf, Gone, Turn, Safe;
  }

  lemma ShowMade(dsp: Dsp, all: seq<byte>, s: Sys) returns (t: Sys)
    requires Wired(all, s) && (s.at.Made? || s.at.Laid?)
    ensures Wired(all, t) && Leads(dsp, all, s, t) && SameWire(s, t) && t.at.Top?
    ensures t.pass == s.pass && t.comp == s.comp
  {
    hide Wired, Next, Safe;
    if s.at.Made? {
      var u := TaskStep(dsp, all, s, Lay);
      LaysShows(dsp, s);
      t := TaskStep(dsp, all, u, Show);
      LaysShows(dsp, u);
      LeadsOn(dsp, all, s, u, t);
    } else {
      t := TaskStep(dsp, all, s, Show);
      LaysShows(dsp, s);
    }
  }

  lemma Decided(dsp: Dsp, s: Sys)
    requires Safe(s) && Shaped(s) && s.at.Room?
    ensures var v, t := Turn(dsp, s.eof, s.at.space, s.pass), Next(dsp, s, Decide);
            && t.at == (if v.Stop? then Rest else if v.pass.made == [] then Top else Made(v.pass.made))
            && t.comp == s.comp && t.pcm == s.pcm && t.eof == s.eof && Within(v.pass)
            && t.pass == if v.Stop? then v.pass.(stage := v.pass.stage[v.pass.used..], used := 0)
                         else v.pass.(made := [])
  {
    hide Turn, Store, Unread, BytesOf, Gone, Safe;
    TurnAdvances(dsp, s.eof, s.at.space, s.pass);
  }

  /** From any point of a pass the task comes to the head of its loop. */
  lemma ToTop(dsp: Dsp, all: seq<byte>, s: Sys) returns (t: Sys)
    requires Wired(all, s)
    ensures Wired(all, t) && Leads(dsp, all, s, t) && SameWire(s, t) && t.at.Top?
  {
    hide Wired, Next, Safe, Turn;
    WiredFacts(all, s);
    match s.at {
      case Top =>
        t := s;
        LeadsNowhere(dsp, all, s);
      case Room(_) =>
        var u := TaskStep(dsp, all, s, Decide);
        Decided(dsp, s);
        if u.at.Rest? {
          t := TopUpTop(dsp, all, u);
          LeadsOn(dsp, all, s, u, t);
        } else if u.at.Made? {
          t := ShowMade(dsp, all, u);
          LeadsOn(dsp, all, s, u, t);
        } else {
          t := u;
        }
      case Made(_) => t := ShowMade(dsp, all, s);
      case Laid(_) => t := ShowMade(dsp, all, s);
      case _ => t := TopUpTop(dsp, all, s);
    }
  }

  /** The pass is over, there is PCM room, and another pass over the same stage would do nothing. */
  ghost predicate Quiet(dsp: Dsp, s: Sys) {
    && Safe(s) && s.at.Rest? && Inline.Space(s) >= FRAME_ROOM
    && Turn(dsp, s.eof, Inline.Space(s), s.pass) == Stop(s.pass)
  }

  lemma Looked(dsp: Dsp, s: Sys)
    requires Safe(s) && Shaped(s) && s.at.Top?
    ensures var t := Next(dsp, s, Look);
            t == s.(at := Room(Inline.Space(s))) && Inline.Space(s) >= 0
  {
    hide Unread, BytesOf, Gone;
  }

  /** What a turn does, given PCM room: the pass ends for good, or uses more of the stage. */
  lemma TopTurn(dsp: Dsp, all: seq<byte>, s: Sys) returns (t: Sys)
    requires Wired(all, s) && s.at.Top? && Inline.Space(s) >= FRAME_ROOM
    ensures Within(s.pass) && Wired(all, t) && Leads(dsp, all, s, t) && SameWire(s, t) && t.comp == s.comp
    ensures Quiet(dsp, t) || (t.at.Top? && t.pass.stage == s.pass.stage && s.pass.used < t.pass.used <= |t.pass.stage|)
  {
    hide Wired, Next, Safe, Turn;
    WiredFacts(all, s);
    var u := TaskStep(dsp, all, s, Look);
    Looked(dsp, s);
    TurnAdvances(dsp, u.eof, u.at.space, u.pass);
    var v := TaskStep(dsp, all, u, Decide);
    Decided(dsp, u);
    LeadsOn(dsp, all, s, u, v);
    if v.at.Rest? {
      StopIsQuiet(dsp, u.eof, u.at.space, u.pass);
      WiredFacts(all, v);
      t := v;
    } else if v.at.Made? {
      t := ShowMade(dsp, all, v);
      LeadsOn(dsp, all, s, v, t);
    } else {
      t := v;
    }
  }

  /** The pass runs to its end, with firings wherever it waits for PCM room. */
  lemma {:induction false} Work(dsp: Dsp, all: seq<byte>, s: Sys) returns (t: Sys)
    requires Wired(all, s) && s.at.Top? && |s.pcm.buf| >= PCM_ENOUGH
    ensures Wired(all, t) && Leads(dsp, all, s, t) && SameWire(s, t) && t.comp == s.comp && Quiet(dsp, t)
    decreases |s.pass.stage| - s.pass.used
  {
    hide Wired, Next, Safe, Turn, Quiet;
    var u := MakeRoom(dsp, all, s);
    t := TopTurn(dsp, all, u);
    LeadsOn(dsp, all, s, u, t);
    if !Quiet(dsp, t) {
      var v := t;
      t := Work(dsp, all, v);
      LeadsOn(dsp, all, s, v, t);
    }
  }

  /** One whole pass. */
  lemma OnePass(dsp: Dsp, all: seq<byte>, s: Sys) returns (t: Sys)
    requires Wired(all, s) && |s.pcm.buf| >= PCM_ENOUGH
    ensures Wired(all, t) && Leads(dsp, all, s, t) && SameWire(s, t) && Quiet(dsp, t)
    ensures s.at.Rest? && s.comp.rd < s.comp.wr && |s.pass.stage| < STAGE ==> t.comp.rd > s.comp.rd
  {
    hide Wired, Next, Safe, Turn, Quiet;
    var u;
    if s.at.Rest? { u := TopUpTop(dsp, all, s); } else { u := ToTop(dsp, all, s); }
    t := Work(dsp, all, u);
    LeadsOn(dsp, all, s, u, t);
  }

  // ---- the wire ---------------------------------------------------------------------------------

  lemma CommitAll(dsp: Dsp, all: seq<byte>, s: Sys) returns (t: Sys)
    requires Wired(all, s)
    ensures Wired(all, t) && Leads(dsp, all, s, t)
    ensures t == s.(comp := Publish(s.comp, s.pend), pend := [], claimed := 0)
  {
    hide Wired, Turn, Store, Unread, BytesOf, Gone, Safe;
    t := Go(dsp, all, s, Commit);
  }

  lemma NextByte(sent: seq<byte>, all: seq<byte>) returns (next: seq<byte>)
    requires sent <= all && |sent| < |all|
    ensures |next| == 1 && sent + next <= all && sent + [] + next == sent + next && [] + next == next
  {
    var n := |sent|;
    next := all[n..n + 1];
    assert sent == all[..n];
    assert all[..n] + next == all[..n + 1];
  }

  lemma ClaimsSome(dsp: Dsp, s: Sys)
    requires Safe(s) && Shaped(s) && s.pend == [] && s.comp.rd == s.comp.wr
    ensures var t := Next(dsp, s, Claim); t == s.(claimed := t.claimed) && t.claimed >= 1
  {
    hide Store, Unread, BytesOf, Gone, Turn, Safe;
  }

  lemma Writes(dsp: Dsp, s: Sys, data: seq<byte>)
    requires Safe(s) && Shaped(s) && s.pend == [] && |data| <= s.claimed && [] + data == data
    ensures var t := Next(dsp, s, Write(data));
            && t == s.(comp := t.comp, pend := data)
            && t.comp == s.comp.(buf := t.comp.buf) && |t.comp.buf| == |s.comp.buf|
  {
    hide Store, Unread, BytesOf, Gone, Turn, Safe;
  }

  /** A drained ring takes at least the next byte of the stream. */
  lemma SendOne(dsp: Dsp, all: seq<byte>, s: Sys) returns (t: Sys)
    requires Wired(all, s) && s.pend == [] && s.comp.rd == s.comp.wr && s.comp.sent != all
    ensures Wired(all, t) && Leads(dsp, all, s, t)
    ensures t.at == s.at && t.pass == s.pass && t.pcm == s.pcm && t.eof == s.eof
    ensures t.comp.rd == s.comp.rd && t.comp.wr == s.comp.wr + 1 && t.pend == []
  {
    hide Wired, Next, Safe;
    WiredFacts(all, s);
    var next := NextByte(s.comp.sent, all);
    var u := Go(dsp, all, s, Claim);
    ClaimsSome(dsp, s);
    var v := Go(dsp, all, u, Write(next));
    Writes(dsp, u, next);
    t := CommitAll(dsp, all, v);
    LeadsOn(dsp, all, s, u, v);
    LeadsOn(dsp, all, s, v, t);
  }

  /** A quiet task has at most 8192 bytes staged: the top-up always finds room. */
  lemma QuietHasRoom(dsp: Dsp, s: Sys)
    requires Quiet(dsp, s)
    ensures |s.pass.stage| <= DEEP_STAGE
    ensures s.comp.rd == s.comp.wr ==> Settled(dsp, s)
  {
    hide Turn, BytesOf, Gone, Unread, RingOk;
    if |s.pass.stage| - s.pass.used > DEEP_STAGE { DeepTurn(dsp, s.eof, Inline.Space(s), s.pass); }
  }

  /** The rest of the bytes are written and drained, byte by byte if need be. */
  lemma {:induction false} PlayOut(dsp: Dsp, all: seq<byte>, s: Sys) returns (t: Sys)
    requires Wired(all, s) && Quiet(dsp, s) && s.pend == [] && |s.pcm.buf| >= PCM_ENOUGH
    ensures Wired(all, t) && Leads(dsp, all, s, t) && Quiet(dsp, t)
    ensures t.comp.sent == all && t.comp.rd == t.comp.wr && |t.pcm.buf| == |s.pcm.buf| && t.pend == []
    decreases |all| - s.comp.rd, |all| - s.comp.wr
  {
    hide Wired, Next, Safe, Turn;
    WiredFacts(all, s);
    QuietHasRoom(dsp, s);
    if s.comp.rd < s.comp.wr {
      var u := OnePass(dsp, all, s);
      WiredFacts(all, u);
      t := PlayOut(dsp, all, u);
      LeadsOn(dsp, all, s, u, t);
    } else if s.comp.sent != all {
      var u := SendOne(dsp, all, s);
      WiredFacts(all, u);
      t := PlayOut(dsp, all, u);
      LeadsOn(dsp, all, s, u, t);
    } else {
      t := s;
      LeadsNowhere(dsp, all, s);
    }
  }

  lemma Ended(dsp: Dsp, all: seq<byte>, s: Sys) returns (t: Sys)
    requires Wired(all, s) && s.comp.sent == all && s.comp.rd == s.comp.wr
    ensures Wired(all, t) && Leads(dsp, all, s, t) && t == s.(eof := true)
  {
    hide Wired, Turn, Store, Unread, BytesOf, Gone, Safe;
    t := Go(dsp, all, s, Eof);
  }

  /**
   * Any bytes at all: from every state of a run that plays them, in the middle of any pass and
   * any write, some continuation commits the rest, ends them on a drained ring and settles.
   * Nothing on the path can block for good, provided the PCM ring holds one hardware buffer
   * and one frame.
   */
  lemma CanAlwaysFinish(dsp: Dsp, all: seq<byte>, s: Sys) returns (t: Sys)
    requires Wired(all, s) && |s.pcm.buf| >= PCM_ENOUGH
    ensures Leads(dsp, all, s, t) && Wired(all, t) && t.eof && t.comp.sent == all && Settled(dsp, t)
  {
    hide Wired, Next, Safe, Turn, Quiet, Settled;
    var u := CommitAll(dsp, all, s);
    var v := OnePass(dsp, all, u);
    var w := PlayOut(dsp, all, v);
    var x := Ended(dsp, all, w);
    t := OnePass(dsp, all, x);
    LeadsOn(dsp, all, s, u, v);
    LeadsOn(dsp, all, s, v, w);
    LeadsOn(dsp, all, s, w, x);
    LeadsOn(dsp, all, s, x, t);
    WiredFacts(all, t);
    QuietHasRoom(dsp, t);
  }

  lemma {:induction false} RunIsWired(dsp: Dsp, all: seq<byte>, s: Sys, steps: seq<Step>)
    requires Wired(all, s) && Safe(s) && PlaysAll(dsp, all, s, steps)
    ensures Wired(all, Run(dsp, s, steps)) && |Run(dsp, s, steps).pcm.buf| == |s.pcm.buf|
    decreases |steps|
  {
    hide Next, Safe, Wired, Plays;
    if steps != [] {
      WiredStays(dsp, all, s, steps[0]);
      StepKeeps(dsp, s, steps[0]);
      SizeKept(dsp, s, steps[0]);
      RunIsWired(dsp, all, Next(dsp, s, steps[0]), steps[1..]);
    }
  }

  /**
   * Every schedule from a fresh start can be continued to its end, on any bytes; if its own
   * `eof`, when it has one, came on a drained ring, so does the whole schedule's.
   */
  lemma EveryRunCanFinish(dsp: Dsp, all: seq<byte>, d: Dec, comp: seq<byte>, pcm: seq<byte>, steps: seq<Step>)
    returns (more: seq<Step>)
    requires comp != [] && |pcm| >= PCM_ENOUGH
    requires Safe(Start(comp, pcm, d)) && PlaysAll(dsp, all, Start(comp, pcm, d), steps)
    ensures PlaysAll(dsp, all, Start(comp, pcm, d), steps + more)
    ensures EndsDrained(dsp, Start(comp, pcm, d), steps) ==> EndsDrained(dsp, Start(comp, pcm, d), steps + more)
    ensures var t := Run(dsp, Start(comp, pcm, d), steps + more);
            t.eof && t.comp.sent == all && Settled(dsp, t)
  {
    hide Plays, PlaysAll, EndsDrained, Run, Next, Settled, Wired, Safe, Clean;
    var s0 := Start(comp, pcm, d);
    StartIsWired(all, comp, pcm, d);
    RunIsWired(dsp, all, s0, steps);
    var s := Run(dsp, s0, steps);
    var t := CanAlwaysFinish(dsp, all, s);
    more :| PlaysAll(dsp, all, s, more) && EndsDrained(dsp, s, more) && Run(dsp, s, more) == t;
    Concat(dsp, all, s0, steps, more);
    EndsDrainedConcat(dsp, s0, steps, more);
  }

  lemma StartIsWired(all: seq<byte>, comp: seq<byte>, pcm: seq<byte>, d: Dec)
    requires comp != [] && pcm != []
    ensures Wired(all, Start(comp, pcm, d))
  {
    StartIsSafe(comp, pcm, d);
  }

  /**
   * So a stream of whole frames, ended on a drained ring, is always played out: every
   * schedule of it can be continued until all the PCM of a flat decode has been made and the
   * pipeline is idle. Of one that stops inside a frame, the last frame is lost to the one to three
   * bytes behind it, or all the PCM is made but with four or more bytes left it never gets idle.
   */
  lemma StreamsCanFinish(
    dsp: Dsp, d: Dec, fs: seq<seq<byte>>, end: seq<byte>, f0: Frame, comp: seq<byte>, pcm: seq<byte>,
    steps: seq<Step>) returns (more: seq<Step>)
    requires comp != [] && |pcm| >= PCM_ENOUGH && fs != [] && IsStream(fs, end, f0) && d.header.b0 != 0xFF
    requires Safe(Start(comp, pcm, d)) && PlaysAll(dsp, Flat(fs) + end, Start(comp, pcm, d), steps)
    requires EndsDrained(dsp, Start(comp, pcm, d), steps)
    ensures PlaysAll(dsp, Flat(fs) + end, Start(comp, pcm, d), steps + more)
    ensures var t := Run(dsp, Start(comp, pcm, d), steps + more);
            && t.eof && Settled(dsp, t)
            && (if |end| in {1, 2, 3} then
                  && LostLast(t.trail, fs)
                  && FlatFrom(dsp, Total(d, 0, [], []), Flat(fs[..|fs| - 1])).pcm <= t.decoded
                else t.decoded == FlatFrom(dsp, Total(d, 0, [], []), Flat(fs)).pcm && (Idle(t) <==> end == []))
  {
    hide Plays, PlaysAll, EndsDrained, Run, Next, Settled, Safe, Clean, FlatFrom, Flat, IsStream;
    more := EveryRunCanFinish(dsp, Flat(fs) + end, d, comp, pcm, steps);
    EndOfStream(dsp, d, fs, end, f0, comp, pcm, steps + more);
  }
}
