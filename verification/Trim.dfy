/** The latency trim over whole runs of the three-party machine (os9/casquinha.c, lines 1632-1655, 2055-2063). */
module Trim {
  import opened Bytes
  import opened Cursors
  import opened Rings
  import opened Decoder
  import opened Pump
  import opened Sound
  import opened Pipeline
  import opened Safety
  import FrameSelect
  import Schedule

  // ---- two loads make one reading ---------------------------------------------------------

  /** The backlog last read by the event loop is not more than is queued now. */
  predicate Fresh(s: Sys) {
    Fill(s) + s.pcm.rd <= s.pcm.wr
  }

  /** The write cursor last loaded has not been passed by the read cursor. */
  predicate Ahead(s: Sys) {
    s.pcm.rd <= s.seenWr
  }

  /** The read cursor last loaded has not moved. */
  predicate Still(s: Sys) {
    s.seenRd == s.pcm.rd
  }

  /** A load puts its half right, and only a firing can spoil either half. */
  lemma OnlyFiringsSpoil(dsp: Dsp, s: Sys, a: Step)
    requires Safe(s) && Shaped(s)
    ensures var t := Next(dsp, s, a);
            && (a.SeeWr? || (Ahead(s) && !a.Fire?) ==> Ahead(t))
            && (a.SeeRd? || (Still(s) && !a.Fire?) ==> Still(t))
  {
    hide Store, Unread, BytesOf, Gone, Turn, RingOk;
    PcmRead(s);
  }

  lemma {:induction false} HalvesHold(dsp: Dsp, s: Sys, steps: seq<Step>)
    requires Safe(s) && Fire !in steps
    ensures Ahead(s) || SeeWr in steps ==> Ahead(Run(dsp, s, steps))
    ensures Still(s) || SeeRd in steps ==> Still(Run(dsp, s, steps))
    ensures |Run(dsp, s, steps).pcm.buf| == |s.pcm.buf|
    decreases |steps|
  {
    hide Next, Safe, Ahead, Still;
    SafeIsShaped(s);
    if steps != [] {
      StepKeeps(dsp, s, steps[0]);
      OnlyFiringsSpoil(dsp, s, steps[0]);
      SizeKept(dsp, s, steps[0]);
      HalvesHold(dsp, Next(dsp, s, steps[0]), steps[1..]);
    }
  }

  /**
   * Whatever the wire and the task do in between, and in whichever order the two cursors are
   * loaded: as long as no firing comes after the first load, the backlog read is queued.
   */
  lemma OnlyFiringsStale(dsp: Dsp, s: Sys, steps: seq<Step>)
    requires Safe(s) && |s.pcm.buf| < WRAP
    requires SeeWr in steps && SeeRd in steps && Fire !in steps
    ensures Fresh(Run(dsp, s, steps)) && Fill(Run(dsp, s, steps)) <= |s.pcm.buf|
  {
    hide Run, Next, Safe;
    HalvesHold(dsp, s, steps);
    Snapshots(Run(dsp, s, steps));
  }

  lemma Snapshots(s: Sys)
    requires Safe(s)
    ensures s.seenWr <= s.pcm.wr <= s.pcm.rd + |s.pcm.buf| && s.seenRd <= s.pcm.rd <= s.pcm.wr
  {
    hide Store, Unread, BytesOf, Gone;
  }

  /**
   * The write cursor loaded first: the reading is good if and only if the read cursor has not
   * passed it by the second load, and the event loop can tell, for that is when the 32-bit
   * backlog is no more than the ring holds. Otherwise the request is negative. (Between the
   * two loads less than 2 GB of sound, over three hours of it, is played.)
   */
  lemma WrThenRd(dsp: Dsp, s: Sys)
    requires Safe(s) && Shaped(s) && |s.pcm.buf| <= HALF && s.pcm.rd - s.seenWr <= HALF - RING_TARGET
    ensures var t := Next(dsp, s, SeeRd);
            && (s.pcm.rd <= s.seenWr <==> Fill(t) <= |t.pcm.buf|)
            && (s.pcm.rd <= s.seenWr <==> Fresh(t))
            && (s.pcm.rd <= s.seenWr <==> TrimRequest(Fill(t)) >= 0)
            && (s.pcm.rd <= s.seenWr ==> Fill(t) == s.seenWr - s.pcm.rd)
  {
    hide Store, Unread, BytesOf, Gone, Turn, Safe;
    Snapshots(s);
    var t := Next(dsp, s, SeeRd);
    assert Fill(t) == if s.pcm.rd <= s.seenWr then s.seenWr - s.pcm.rd else WRAP - (s.pcm.rd - s.seenWr);
  }

  /** The read cursor loaded first: never negative, and fresh if and only if it has not moved since. */
  lemma RdThenWr(dsp: Dsp, s: Sys)
    requires Safe(s) && Shaped(s) && s.pcm.wr - s.seenRd < HALF + RING_TARGET
    ensures var t := Next(dsp, s, SeeWr);
            && TrimRequest(Fill(t)) >= 0 && Fill(t) == s.pcm.wr - s.seenRd
            && (Fresh(t) <==> s.seenRd == s.pcm.rd)
  {
    hide Store, Unread, BytesOf, Gone, Turn, Safe;
    Snapshots(s);
  }

  // ---- a request that is never applied ------------------------------------------------------

  lemma NegativeStays(dsp: Dsp, s: Sys, a: Step)
    requires Safe(s) && Shaped(s) && s.skip < 0
    ensures var t := Next(dsp, s, a);
            && t.skip == s.skip && t.asked == s.asked && t.applied == s.applied
            && (t.shots == s.shots || exists x :: t.shots == s.shots + [x] && x.trimmed == [])
  {
    hide Store, Unread, BytesOf, Gone, Turn, Safe;
    if a.Fire? {
      var x := FireSpec(Unread(s.pcm.buf, s.pcm.rd, s.pcm.wr - s.pcm.rd), s.skip, s.open);
      assert Next(dsp, s, a).shots == s.shots + [x];
    }
  }

  /** A negative request stays, bars every other, and nothing is trimmed any more. */
  lemma {:induction false} NegativeBlocks(dsp: Dsp, s: Sys, steps: seq<Step>)
    requires Safe(s) && s.skip < 0
    ensures var t := Run(dsp, s, steps);
            && t.skip == s.skip && t.asked == s.asked && t.applied == s.applied && s.shots <= t.shots
            && forall k :: |s.shots| <= k < |t.shots| ==> t.shots[k].trimmed == []
    decreases |steps|
  {
    hide Next, Safe;
    SafeIsShaped(s);
    if steps != [] {
      StepKeeps(dsp, s, steps[0]);
      NegativeStays(dsp, s, steps[0]);
      NegativeBlocks(dsp, Next(dsp, s, steps[0]), steps[1..]);
    }
  }

  lemma PositiveStep(dsp: Dsp, s: Sys, a: Step)
    requires Safe(s) && Shaped(s)
    ensures var t := Next(dsp, s, a);
            && s.applied <= t.applied
            && (s.skip > 0 ==> if a.Fire? then s.asked <= t.applied else t.skip == s.skip && t.asked == s.asked)
  {
    hide Store, Unread, BytesOf, Gone, Turn, RingOk;
  }

  lemma {:induction false} AppliedGrows(dsp: Dsp, s: Sys, steps: seq<Step>)
    requires Safe(s)
    ensures s.applied <= Run(dsp, s, steps).applied
    decreases |steps|
  {
    hide Next, Safe;
    SafeIsShaped(s);
    if steps != [] {
      StepKeeps(dsp, s, steps[0]);
      PositiveStep(dsp, s, steps[0]);
      AppliedGrows(dsp, Next(dsp, s, steps[0]), steps[1..]);
    }
  }

  /** A positive one is applied by the next firing. */
  lemma {:induction false} PositiveIsApplied(dsp: Dsp, s: Sys, steps: seq<Step>)
    requires Safe(s) && s.skip > 0 && Fire in steps
    ensures s.asked <= Run(dsp, s, steps).applied
    decreases |steps|
  {
    hide Next, Safe;
    SafeIsShaped(s);
    StepKeeps(dsp, s, steps[0]);
    PositiveStep(dsp, s, steps[0]);
    var t := Next(dsp, s, steps[0]);
    if steps[0].Fire? {
      AppliedGrows(dsp, t, steps[1..]);
    } else {
      PositiveIsApplied(dsp, t, steps[1..]);
    }
  }

  /** Whatever follows, if the interrupt still fires: a request is applied if and only if its reading was not torn. */
  lemma AppliedIff(dsp: Dsp, s: Sys, steps: seq<Step>)
    requires Safe(s) && s.skip == 0 && TrimRequest(Fill(s)) != 0 && Fire in steps
    ensures var t := Run(dsp, s, [AskTrim] + steps);
            && (s.asked + [TrimRequest(Fill(s))] <= t.applied <==> !Torn(s))
            && (Torn(s) ==> t.applied == s.applied && t.skip == TrimRequest(Fill(s)))
  {
    hide Next, Safe, TrimRequest;
    SafeIsShaped(s);
    StepKeeps(dsp, s, AskTrim);
    var u := Next(dsp, s, AskTrim);
    Asked(dsp, s);
    assert ([AskTrim] + steps)[1..] == steps;
    assert Run(dsp, s, [AskTrim] + steps) == Run(dsp, u, steps);
    if u.skip < 0 {
      NegativeBlocks(dsp, u, steps);
    } else {
      PositiveIsApplied(dsp, u, steps);
    }
  }

  lemma Asked(dsp: Dsp, s: Sys)
    requires Safe(s) && Shaped(s) && s.skip == 0 && TrimRequest(Fill(s)) != 0
    ensures var t := Next(dsp, s, AskTrim);
            && t.skip == TrimRequest(Fill(s)) && t.asked == s.asked + [t.skip] && t.applied == s.applied
            && s.asked == s.applied
  {
    hide Store, Unread, BytesOf, Gone, Turn, RingOk, TrimRequest;
  }

  /**
   * The write cursor loaded first: the request is applied if and only if the read cursor has
   * not passed it by the second load; the event loop could ask just that before it requests.
   */
  lemma AppliedIffAhead(dsp: Dsp, s: Sys, steps: seq<Step>)
    requires Safe(s) && Shaped(s) && |s.pcm.buf| <= HALF && s.pcm.rd - s.seenWr <= HALF - RING_TARGET
    requires s.skip == 0 && TrimRequest(Fill(Next(dsp, s, SeeRd))) != 0 && Fire in steps
    ensures var u, t := Next(dsp, s, SeeRd), Run(dsp, s, [SeeRd] + ([AskTrim] + steps));
            && (s.asked + [TrimRequest(Fill(u))] <= t.applied <==> s.pcm.rd <= s.seenWr)
            && (s.pcm.rd <= s.seenWr <==> Fill(u) <= |u.pcm.buf|)
  {
    hide Next, Safe, TrimRequest, Run, Fresh, NoneTorn;
    WrThenRd(dsp, s);
    RunCons(dsp, s, SeeRd, [AskTrim] + steps);
    LoadAsksNothing(dsp, s);
    AppliedIff(dsp, Next(dsp, s, SeeRd), steps);
  }

  lemma LoadAsksNothing(dsp: Dsp, s: Sys)
    requires Shaped(s)
    ensures Next(dsp, s, SeeRd) == s.(seenRd := s.pcm.rd)
  {
  }

  /** Load, publish, fire, load, ask: the firing serves what the task published between the loads. */
  function TornSteps(): seq<Step> { [SeeWr, Show, Fire, SeeRd, AskTrim] }

  lemma RunCons(dsp: Dsp, s: Sys, a: Step, rest: seq<Step>)
    requires Safe(s)
    ensures Shaped(s) && Safe(Next(dsp, s, a))
    ensures Run(dsp, s, [a] + rest) == Run(dsp, Next(dsp, s, a), rest)
    ensures NoneTorn(dsp, s, [a] + rest) <==> !(a.AskTrim? && Torn(s)) && NoneTorn(dsp, Next(dsp, s, a), rest)
  {
    hide Next, Safe, Torn;
    SafeIsShaped(s);
    StepKeeps(dsp, s, a);
    assert ([a] + rest)[0] == a && ([a] + rest)[1..] == rest;
  }

  lemma FiveSteps(dsp: Dsp, s: Sys, more: seq<Step>) returns (t1: Sys, t2: Sys, t3: Sys, t4: Sys, t5: Sys)
    requires Safe(s)
    ensures Safe(t1) && Safe(t2) && Safe(t3) && Safe(t4) && Safe(t5)
    ensures Shaped(s) && Shaped(t1) && Shaped(t2) && Shaped(t3) && Shaped(t4)
    ensures t1 == Next(dsp, s, SeeWr) && t2 == Next(dsp, t1, Show) && t3 == Next(dsp, t2, Fire)
    ensures t4 == Next(dsp, t3, SeeRd) && t5 == Next(dsp, t4, AskTrim)
    ensures Run(dsp, s, TornSteps() + more) == Run(dsp, t5, more)
    ensures Torn(t4) ==> !NoneTorn(dsp, s, TornSteps() + more)
  {
    hide Next, Safe, Run, NoneTorn, Torn;
    var q4 := [AskTrim] + more;
    var q3 := [SeeRd] + q4;
    var q2 := [Fire] + q3;
    var q1 := [Show] + q2;
    assert TornSteps() + more == [SeeWr] + q1;
    RunCons(dsp, s, SeeWr, q1);
    t1 := Next(dsp, s, SeeWr);
    RunCons(dsp, t1, Show, q2);
    t2 := Next(dsp, t1, Show);
    RunCons(dsp, t2, Fire, q3);
    t3 := Next(dsp, t2, Fire);
    RunCons(dsp, t3, SeeRd, q4);
    t4 := Next(dsp, t3, SeeRd);
    RunCons(dsp, t4, AskTrim, more);
    t5 := Next(dsp, t4, AskTrim);
  }

  /** What the two loads see: the read cursor, a chunk further on, past the write cursor loaded before. */
  lemma TornLoads(dsp: Dsp, s: Sys, t1: Sys, t2: Sys, t3: Sys, t4: Sys)
    requires Safe(s) && s.at.Laid? && s.open && s.skip == 0
    requires s.pcm.wr - s.pcm.rd < CHUNK <= s.pcm.wr + |s.at.data| - s.pcm.rd
    requires Shaped(s) && Shaped(t1) && Shaped(t2) && Shaped(t3)
    requires t1 == Next(dsp, s, SeeWr) && t2 == Next(dsp, t1, Show) && t3 == Next(dsp, t2, Fire)
    requires t4 == Next(dsp, t3, SeeRd)
    ensures t4.seenWr == s.pcm.wr && t4.seenRd == t4.pcm.rd == s.pcm.rd + CHUNK && t4.skip == 0
    ensures t4.asked == s.asked && t4.applied == s.applied && |t4.shots| == |s.shots| + 1
  {
    hide Store, Unread, BytesOf, Gone, Turn, Safe;
    var queue := Unread(t2.pcm.buf, t2.pcm.rd, t2.pcm.wr - t2.pcm.rd);
    assert |queue| == t2.pcm.wr - t2.pcm.rd >= CHUNK;
    assert |FireSpec(queue, 0, true).trimmed| == 0 && |FireSpec(queue, 0, true).served| == CHUNK;
  }

  lemma TornByOne(s: Sys, passed: nat)
    requires s.skip == 0 && s.seenRd == s.seenWr + passed && 0 < passed <= CHUNK
    ensures Torn(s) && TrimRequest(Fill(s)) + passed + RING_TARGET == 0
  {
    assert Fill(s) == WRAP - passed;
  }

  /**
   * From every state in which the frame being published completes a chunk: with those five
   * steps the request comes out negative, and no trim is ever applied again.
   */
  lemma TornRun(dsp: Dsp, s: Sys, more: seq<Step>)
    requires Safe(s) && s.at.Laid? && s.open && s.skip == 0
    requires s.pcm.wr - s.pcm.rd < CHUNK <= s.pcm.wr + |s.at.data| - s.pcm.rd
    ensures !NoneTorn(dsp, s, TornSteps() + more)
    ensures var t := Run(dsp, s, TornSteps() + more);
            && t.skip == s.pcm.wr - (s.pcm.rd + CHUNK) - RING_TARGET < 0
            && t.asked == s.asked + [t.skip] && t.applied == s.applied
            && forall k :: |s.shots| < k < |t.shots| ==> t.shots[k].trimmed == []
  {
    hide Next, Safe, Run, NoneTorn;
    var t1, t2, t3, t4, t5 := FiveSteps(dsp, s, more);
    TornLoads(dsp, s, t1, t2, t3, t4);
    TornByOne(t4, s.pcm.rd + CHUNK - s.pcm.wr) by { Snapshots(s); }
    Asked(dsp, t4);
    NegativeBlocks(dsp, t5, more);
    AskFiresNothing(dsp, t4);
  }

  lemma AskFiresNothing(dsp: Dsp, s: Sys)
    requires Shaped(s)
    ensures Next(dsp, s, AskTrim).shots == s.shots
  {
    hide TrimRequest;
  }

  /** Only a frame published adds to the backlog, and without a firing nothing takes from it. */
  lemma OnlyShowsAdd(dsp: Dsp, s: Sys, a: Step)
    requires Safe(s) && Shaped(s) && a != Fire && a != HangUp && a != AskTrim
    ensures var t := Next(dsp, s, a);
            && t.pcm.rd == s.pcm.rd && t.open == s.open && t.skip == s.skip
            && t.pcm.wr == s.pcm.wr + if a.Show? && s.at.Laid? then |s.at.data| else 0
  {
    hide Store, Unread, BytesOf, Gone, Turn, Safe;
  }

  /**
   * Such a state is met on every run that queues a chunk of PCM between two firings of a
   * starved interrupt, with the wire open and no request pending.
   */
  lemma {:induction false} EveryChunkCompletes(dsp: Dsp, s: Sys, steps: seq<Step>) returns (k: nat)
    requires Safe(s) && s.open && s.skip == 0 && s.pcm.wr - s.pcm.rd < CHUNK
    requires Fire !in steps && HangUp !in steps && AskTrim !in steps
    requires var t := Run(dsp, s, steps); CHUNK <= t.pcm.wr - t.pcm.rd
    ensures k < |steps|
    ensures var t := Run(dsp, s, steps[..k]);
            && t.at.Laid? && t.open && t.skip == 0
            && t.pcm.wr - t.pcm.rd < CHUNK <= t.pcm.wr + |t.at.data| - t.pcm.rd
    decreases |steps|
  {
    hide Next, Safe;
    SafeIsShaped(s);
    StepKeeps(dsp, s, steps[0]);
    OnlyShowsAdd(dsp, s, steps[0]);
    var u := Next(dsp, s, steps[0]);
    if u.pcm.wr - u.pcm.rd >= CHUNK {
      k := 0;
      assert steps[..0] == [];
    } else {
      var j := EveryChunkCompletes(dsp, u, steps[1..]);
      k := j + 1;
      assert steps[..k][0] == steps[0] && steps[..k][1..] == steps[1..][..j];
    }
  }

  /** So every listen that queues a chunk before it is first fired at can be torn on the way. */
  lemma EveryListenCanTear(dsp: Dsp, comp: seq<byte>, pcm: seq<byte>, dec: FrameSelect.Dec, steps: seq<Step>)
    returns (k: nat)
    requires comp != [] && pcm != [] && Safe(Start(comp, pcm, dec))
    requires Fire !in steps && HangUp !in steps && AskTrim !in steps
    requires var t := Run(dsp, Start(comp, pcm, dec), steps); CHUNK <= t.pcm.wr - t.pcm.rd
    ensures k < |steps|
    ensures var t := Run(dsp, Start(comp, pcm, dec), steps[..k] + TornSteps()); t.skip < 0 && t.applied == []
  {
    hide Next, Safe, Run, NoneTorn;
    var s := Start(comp, pcm, dec);
    k := EveryChunkCompletes(dsp, s, steps);
    var u := Run(dsp, s, steps[..k]);
    TornRun(dsp, u, []);
    assert TornSteps() + [] == TornSteps();
    Schedule.Concat(dsp, [], s, steps[..k], TornSteps());
    var t := Run(dsp, s, steps[..k] + TornSteps());
    SafeMeans(t);
    NothingAskedYet(dsp, s, steps[..k]);
  }

  lemma AsksNothing(dsp: Dsp, s: Sys, a: Step)
    requires Safe(s) && Shaped(s) && a != AskTrim && s.asked == []
    ensures Next(dsp, s, a).asked == []
  {
    hide Store, Unread, BytesOf, Gone, Turn, Safe, TrimRequest;
  }

  lemma {:induction false} NothingAskedYet(dsp: Dsp, s: Sys, steps: seq<Step>)
    requires Safe(s) && s.asked == [] && AskTrim !in steps
    ensures Run(dsp, s, steps).asked == Run(dsp, s, steps).applied == []
    decreases |steps|
  {
    hide Next, Safe;
    SafeIsShaped(s);
    SafeMeans(s);
    if steps != [] {
      StepKeeps(dsp, s, steps[0]);
      AsksNothing(dsp, s, steps[0]);
      NothingAskedYet(dsp, Next(dsp, s, steps[0]), steps[1..]);
    }
  }

  // ---- no trim starves the ear --------------------------------------------------------------

  /** A pending request leaves the target; every firing that trimmed also served a whole chunk. */
  predicate Kept(s: Sys) {
    && (s.skip > 0 ==> s.pcm.rd + s.skip + RING_TARGET <= s.pcm.wr)
    && forall k :: 0 <= k < |s.shots| ==> s.shots[k].trimmed == [] || |s.shots[k].served| == CHUNK
  }

  /** The event loop makes a request. */
  predicate Requests(s: Sys, a: Step) {
    a.AskTrim? && s.skip == 0 && TrimRequest(Fill(s)) != 0
  }

  lemma RequestFits(s: Sys)
    requires Kept(s) && Fresh(s) && s.skip == 0
    ensures TrimRequest(Fill(s)) > 0 ==> s.pcm.rd + TrimRequest(Fill(s)) + RING_TARGET <= s.pcm.wr
  {
  }

  lemma StepKeepsTarget(dsp: Dsp, s: Sys, a: Step)
    requires Safe(s) && Shaped(s) && Kept(s) && (Requests(s, a) ==> Fresh(s))
    ensures Kept(Next(dsp, s, a))
  {
    hide Store, Unread, BytesOf, Gone, Turn, RingOk;
    PcmRead(s);
    if Requests(s, a) { RequestFits(s); }
    if a.Fire? {
      var t, queue := Next(dsp, s, a), Unread(s.pcm.buf, s.pcm.rd, s.pcm.wr - s.pcm.rd);
      assert t.shots == s.shots + [FireSpec(queue, s.skip, s.open)];
    }
  }

  lemma FreshIsWhole(s: Sys, a: Step)
    requires Safe(s) && |s.pcm.buf| <= HALF && (Requests(s, a) ==> Fresh(s))
    ensures !(a.AskTrim? && Torn(s))
  {
    hide Safe;
    Snapshots(s);
  }

  /** Every request is made on a backlog that is still queued. */
  predicate AsksFresh(dsp: Dsp, s: Sys, steps: seq<Step>)
    requires Safe(s)
    decreases |steps|
  {
    steps == [] || (
      StepKeeps(dsp, s, steps[0]);
      (Requests(s, steps[0]) ==> Fresh(s)) && AsksFresh(dsp, Next(dsp, s, steps[0]), steps[1..]))
  }

  /**
   * Over every such run, whatever the task and the wire do, no trim ever starves the ear:
   * each firing that trimmed left at least the target queued and served a whole chunk; and,
   * with a ring of at most 2 GB, no request was made on a torn reading, so each is applied.
   */
  lemma {:induction false} TrimsNeverStarve(dsp: Dsp, s: Sys, steps: seq<Step>)
    requires Safe(s) && Kept(s) && AsksFresh(dsp, s, steps)
    ensures Kept(Run(dsp, s, steps)) && (|s.pcm.buf| <= HALF ==> NoneTorn(dsp, s, steps))
    decreases |steps|
  {
    hide Next, Safe, Kept, Fresh, Requests, Torn;
    SafeIsShaped(s);
    if steps != [] {
      StepKeeps(dsp, s, steps[0]);
      StepKeepsTarget(dsp, s, steps[0]);
      SizeKept(dsp, s, steps[0]);
      if |s.pcm.buf| <= HALF { FreshIsWhole(s, steps[0]); }
      TrimsNeverStarve(dsp, Next(dsp, s, steps[0]), steps[1..]);
    }
  }

  /** From the start of a listen. */
  lemma ListensNeverStarve(dsp: Dsp, comp: seq<byte>, pcm: seq<byte>, dec: FrameSelect.Dec, steps: seq<Step>)
    requires comp != [] && pcm != [] && Safe(Start(comp, pcm, dec)) && AsksFresh(dsp, Start(comp, pcm, dec), steps)
    ensures var s := Run(dsp, Start(comp, pcm, dec), steps);
            && (forall k :: 0 <= k < |s.shots| && s.shots[k].trimmed != [] ==> |s.shots[k].served| == CHUNK)
            && (|pcm| <= HALF ==> Positive(s.asked) && s.asked == s.applied + (if s.skip > 0 then [s.skip] else []))
  {
    hide Next, Safe, Run, Fresh, NoneTorn;
    TrimsNeverStarve(dsp, Start(comp, pcm, dec), steps);
    ThreePartySafety(dsp, comp, pcm, dec, steps);
    var s := Run(dsp, Start(comp, pcm, dec), steps);
    if Positive(s.asked) && s.skip != 0 { assert s.asked[|s.applied|] in s.asked; }
  }

  /** A request starves the ear exactly when what is left behind it is less than one chunk. */
  lemma TrimStarvesIff(queue: seq<byte>, fill: cursor)
    requires TrimRequest(fill) > 0
    ensures var shot := FireSpec(queue, TrimRequest(fill), true);
            && (shot.served == [] <==> |queue| < TrimRequest(fill) + CHUNK)
            && (shot.served == [] <==> shot.silence == CHUNK)
  {
  }
}
