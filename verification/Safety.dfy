/**
 * What every interleaving of the three contexts keeps, and what becomes of a trim request
 * (os9/casquinha.c, lines 1571-1574).
 */
module Safety {
  import opened Bytes
  import opened Rings
  import opened FrameSelect
  import opened Decoder
  import opened Pump
  import opened Pipeline
  import opened Sound

  lemma SizeKept(dsp: Dsp, s: Sys, a: Step)
    requires Safe(s) && Shaped(s)
    ensures |Next(dsp, s, a).pcm.buf| == |s.pcm.buf|
  {
    hide Store, Unread, BytesOf, Gone, Turn, Safe;
  }

  // ---- what becomes of a trim request -----------------------------------------------------

  predicate Positive(requests: seq<int>) {
    forall r :: r in requests ==> r > 0
  }

  /** The event loop would ask for a negative trim: its two loads do not fit together. */
  predicate Torn(s: Sys) {
    s.skip == 0 && TrimRequest(Fill(s)) < 0
  }

  /** No request of the schedule is made on a torn reading. */
  predicate NoneTorn(dsp: Dsp, s: Sys, steps: seq<Step>)
    requires Safe(s)
    decreases |steps|
  {
    steps == [] || (
      StepKeeps(dsp, s, steps[0]);
      !(steps[0].AskTrim? && Torn(s)) && NoneTorn(dsp, Next(dsp, s, steps[0]), steps[1..]))
  }

  /** Requests are only added, and only an ask on a torn reading adds one that is not positive. */
  lemma AsksAndTrims(dsp: Dsp, s: Sys, a: Step)
    requires Safe(s) && Shaped(s)
    ensures s.asked <= Next(dsp, s, a).asked
    ensures Positive(s.applied) ==> Positive(Next(dsp, s, a).applied)
    ensures Positive(s.asked) ==> (Positive(Next(dsp, s, a).asked) <==> !(a.AskTrim? && Torn(s)))
  {
    hide Store, Unread, BytesOf, Gone, Turn, Safe, TrimRequest;
    var t := Next(dsp, s, a);
    if a.AskTrim? && t.asked != s.asked { assert t.skip in t.asked; }
  }

  /**
   * Over every run: only positive requests are ever applied, and every request made is
   * positive if and only if none was made on a torn reading.
   */
  lemma {:induction false} RequestsLandIff(dsp: Dsp, s: Sys, steps: seq<Step>)
    requires Safe(s) && Positive(s.applied)
    ensures Positive(Run(dsp, s, steps).applied) && s.asked <= Run(dsp, s, steps).asked
    ensures Positive(s.asked) ==> (Positive(Run(dsp, s, steps).asked) <==> NoneTorn(dsp, s, steps))
    decreases |steps|
  {
    hide Next, Safe, Torn;
    SafeIsShaped(s);
    if steps != [] {
      StepKeeps(dsp, s, steps[0]);
      AsksAndTrims(dsp, s, steps[0]);
      var t := Next(dsp, s, steps[0]);
      RequestsLandIff(dsp, t, steps[1..]);
      if !Positive(t.asked) {
        var r :| r in t.asked && r <= 0;
        assert r in Run(dsp, s, steps).asked;
      }
    }
  }

  // ---- the whole machine ------------------------------------------------------------------

  /**
   * Every interleaving, any bytes: neither ring ever overflows or underflows, every unread
   * byte in both arrays is the byte that was published, the decoder's input (fed, dropped
   * and staged) is the committed stream in order, and the PCM that left the ring (trimmed
   * or served, in order), plus what is unread, plus what is on its way, is the decoded PCM.
   * Trim requests are applied in the order made, each once, all but the one pending; and all
   * are such as a firing applies if and only if none was made on a torn reading.
   */
  lemma ThreePartySafety(dsp: Dsp, comp: seq<byte>, pcm: seq<byte>, dec: Dec, steps: seq<Step>)
    requires comp != [] && pcm != []
    ensures Safe(Start(comp, pcm, dec))
    ensures var s := Run(dsp, Start(comp, pcm, dec), steps);
            && s.comp.rd <= s.comp.wr <= s.comp.rd + |s.comp.buf|
            && s.pcm.rd <= s.pcm.wr <= s.pcm.rd + |s.pcm.buf|
            && |s.comp.buf| > 0 && |s.pcm.buf| > 0 && |s.comp.sent| == s.comp.wr
            && Unread(s.comp.buf, s.comp.rd, s.comp.wr - s.comp.rd) == s.comp.sent[s.comp.rd..]
            && s.decoded == Gone(s.shots) + Unread(s.pcm.buf, s.pcm.rd, s.pcm.wr - s.pcm.rd) + Pending(s.at)
            && BytesOf(s.trail) + s.pass.stage[s.pass.used..] <= s.comp.sent
    ensures var s := Run(dsp, Start(comp, pcm, dec), steps);
            && s.asked == s.applied + (if s.skip != 0 then [s.skip] else []) && Positive(s.applied)
            && (Positive(s.asked) <==> NoneTorn(dsp, Start(comp, pcm, dec), steps))
  {
    hide Unread, Run, BytesOf, Gone, Safe, NoneTorn;
    StartIsSafe(comp, pcm, dec);
    RequestsLandIff(dsp, Start(comp, pcm, dec), steps);
    SafeMeans(Run(dsp, Start(comp, pcm, dec), steps));
  }
}
