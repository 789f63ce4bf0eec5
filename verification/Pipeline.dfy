/**
 * The three contexts of the audio path as one machine: the event loop (producer and
 * trim), the decode task, and the sound interrupt, each advancing one step at a time in
 * any order. Cursors are unbounded here (Cursors.NarrowRefinesWide justifies that). No step
 * of the event loop or of the task loads more than one cursor that another context writes, so
 * everything computed from such a load may be stale, and two loads need not fit together; a
 * firing of the interrupt is one step, for nothing runs before it returns.
 */
module Pipeline {
  import opened Bytes
  import opened Cursors
  import opened Rings
  import opened Mp3
  import opened FrameSelect
  import opened Decoder
  import opened Pump
  import opened Sound

  // ---- one single-producer single-consumer ring ------------------------------------

  /** A ring and everything ever published through it. */
  datatype Ring = Ring(buf: seq<byte>, wr: nat, rd: nat, sent: seq<byte>)

  function Store(buf: seq<byte>, w: nat, data: seq<byte>): (r: seq<byte>)
    requires |buf| > 0
    ensures |r| == |buf|
  {
    seq(|buf|, k requires 0 <= k < |buf| =>
      var i := (k - w) % |buf|;
      if i < |data| then data[i] else buf[k])
  }

  /**
   * Unread bytes, then bytes written but not published: all still in the array, in order,
   * and together no more than the array holds.
   */
  ghost predicate RingOk(r: Ring, pend: seq<byte>) {
    && |r.buf| > 0 && |r.sent| == r.wr
    && r.rd <= r.wr && r.wr + |pend| <= r.rd + |r.buf|
    && Unread(r.buf, r.rd, r.wr - r.rd + |pend|) == r.sent[r.rd..] + pend
  }

  function Publish(r: Ring, pend: seq<byte>): Ring {
    r.(wr := r.wr + |pend|, sent := r.sent + pend)
  }

  lemma StoreIsStored(buf: seq<byte>, w: nat, data: seq<byte>)
    requires 0 < |buf| && |data| <= |buf|
    ensures Stored(buf, Store(buf, w, data), w, data)
  {
    var size, after := |buf|, Store(buf, w, data);
    forall i | 0 <= i < |data| ensures Unread(after, w, |data|)[i] == data[i] {
      SlotBack(w, i, size);
    }
    forall x | w + |data| <= x < w + size ensures after[x % size] == buf[x % size] {
      SlotBack(w, x - w, size);
    }
  }

  lemma WriteKeeps(r: Ring, pend: seq<byte>, data: seq<byte>)
    requires RingOk(r, pend) && r.wr + |pend| + |data| <= r.rd + |r.buf|
    ensures RingOk(r.(buf := Store(r.buf, r.wr + |pend|, data)), pend + data)
  {
    hide Store, Unread;
    StoreIsStored(r.buf, r.wr + |pend|, data);
    StoreAppends(r.buf, Store(r.buf, r.wr + |pend|, data), r.rd, r.wr - r.rd + |pend|, data);
    assert r.sent[r.rd..] + (pend + data) == r.sent[r.rd..] + pend + data;
  }

  lemma PublishKeeps(r: Ring, pend: seq<byte>)
    requires RingOk(r, pend)
    ensures RingOk(Publish(r, pend), [])
  {
    hide Unread;
    assert (r.sent + pend)[r.rd..] + [] == r.sent[r.rd..] + pend;
  }

  lemma TakeKeeps(r: Ring, pend: seq<byte>, n: nat)
    requires RingOk(r, pend) && r.rd + n <= r.wr
    ensures RingOk(r.(rd := r.rd + n), pend)
    ensures Unread(r.buf, r.rd, n) == r.sent[r.rd..r.rd + n]
  {
    var m := r.wr - r.rd + |pend|;
    var all, rest := Unread(r.buf, r.rd, m), Unread(r.buf, r.rd + n, m - n);
    assert rest == all[n..];
    assert (r.sent[r.rd..] + pend)[n..] == r.sent[r.rd + n..] + pend;
    assert Unread(r.buf, r.rd, n) == all[..n];
  }

  // ---- the machine --------------------------------------------------------------------

  /** Where the decode task is inside `cq_decring_pump`. */
  datatype TaskAt =
    | Rest
    | Seen(avail: nat)           // comp_wr read
    | Loaded(take: nat)          // bytes in the stage, comp_rd not yet published
    | Top                        // head of the decode loop
    | Room(space: nat)           // pcm_rd read
    | Made(data: seq<byte>)      // a frame decoded into the bounce buffer
    | Laid(data: seq<byte>)      // its PCM in the ring, pcm_wr not yet published

  /** A run of stream bytes the decoder took, or that a resync or flush threw away. */
  datatype Piece = Fed(bytes: seq<byte>) | Dropped(bytes: seq<byte>)

  datatype Sys = Sys(
    comp: Ring, claimed: nat, pend: seq<byte>, eof: bool,
    at: TaskAt, pass: Pass, trail: seq<Piece>, decoded: seq<byte>,
    pcm: Ring, open: bool, skip: int, seenWr: nat, seenRd: nat, asked: seq<int>, applied: seq<int>, shots: seq<Shot>)

  datatype Step =
    | Claim | Write(data: seq<byte>) | Commit | Eof | HangUp       // event loop, wire side
    | SeeWr | SeeRd | AskTrim                                    // event loop, trim
    | See | Load | Ack | Look | Decide | Lay | Show               // decode task
    | Fire                                                       // sound interrupt

  function Piecewise(p: Pass, q: Pass): seq<Piece>
    requires p.used <= q.used <= |p.stage|
  {
    if q.used == p.used then []
    else if q.resyncs != p.resyncs || q.flushes != p.flushes then [Dropped(p.stage[p.used..q.used])]
    else [Fed(p.stage[p.used..q.used])]
  }

  function DecideOn(dsp: Dsp, s: Sys): Sys
    requires s.at.Room? && Within(s.pass)
  {
    TurnAdvances(dsp, s.eof, s.at.space, s.pass);
    var v := Turn(dsp, s.eof, s.at.space, s.pass);
    var t := s.(trail := s.trail + Piecewise(s.pass, v.pass), decoded := s.decoded + v.pass.made);
    match v
    case Stop(q) => t.(at := Rest, pass := q.(stage := q.stage[q.used..], used := 0))
    case Again(q) =>
      t.(at := if q.made == [] then Top else Made(q.made), pass := q.(made := []))
  }

  /** The backlog the event loop computes, in 32 bits, from its two loads. */
  function Fill(s: Sys): cursor {
    (s.seenWr - s.seenRd) % WRAP
  }

  predicate Shaped(s: Sys) {
    Within(s.pass) && |s.comp.buf| > 0 && |s.pcm.buf| > 0 && s.pcm.rd <= s.pcm.wr
  }

  /** One step of one context; a step that is not enabled changes nothing. */
  function Next(dsp: Dsp, s: Sys, a: Step): Sys
    requires Shaped(s)
  {
    match a
    case Claim =>
      if s.pend != [] || s.comp.wr > s.comp.rd + |s.comp.buf| then s
      else s.(claimed := Min(|s.comp.buf| - (s.comp.wr - s.comp.rd), |s.comp.buf| - s.comp.wr % |s.comp.buf|))
    case Write(data) =>
      if |s.pend| + |data| > s.claimed then s
      else s.(comp := s.comp.(buf := Store(s.comp.buf, s.comp.wr + |s.pend|, data)), pend := s.pend + data)
    case Commit => s.(comp := Publish(s.comp, s.pend), pend := [], claimed := 0)
    case Eof => s.(eof := true)
    case HangUp => s.(open := false)
    case SeeWr => s.(seenWr := s.pcm.wr)
    case SeeRd => s.(seenRd := s.pcm.rd)
    case AskTrim =>
      if s.skip != 0 || TrimRequest(Fill(s)) == 0 then s
      else s.(skip := TrimRequest(Fill(s)), asked := s.asked + [TrimRequest(Fill(s))])
    case See =>
      if !s.at.Rest? || s.comp.wr < s.comp.rd then s
      else s.(at := Seen(s.comp.wr - s.comp.rd))
    case Load =>
      if !s.at.Seen? || |s.pass.stage| > STAGE then s
      else
        var take := Min(s.at.avail, STAGE - |s.pass.stage|);
        s.(at := Loaded(take), pass := s.pass.(
          stage := s.pass.stage + Unread(s.comp.buf, s.comp.rd, take), progress := take > 0))
    case Ack =>
      if !s.at.Loaded? then s else s.(comp := s.comp.(rd := s.comp.rd + s.at.take), at := Top)
    case Look =>
      if !s.at.Top? || s.pcm.wr > s.pcm.rd + |s.pcm.buf| then s
      else s.(at := Room(|s.pcm.buf| - (s.pcm.wr - s.pcm.rd)))
    case Decide => if !s.at.Room? then s else DecideOn(dsp, s)
    case Lay =>
      if !s.at.Made? then s
      else s.(at := Laid(s.at.data), pcm := s.pcm.(buf := Store(s.pcm.buf, s.pcm.wr, s.at.data)))
    case Show =>
      if !s.at.Laid? then s else s.(at := Top, pcm := Publish(s.pcm, s.at.data))
    case Fire =>
      var shot := FireSpec(Unread(s.pcm.buf, s.pcm.rd, s.pcm.wr - s.pcm.rd), s.skip, s.open);
      s.(pcm := s.pcm.(rd := s.pcm.rd + |shot.trimmed| + |shot.served|), skip := Min(s.skip, 0),
         applied := s.applied + (if s.skip > 0 then [s.skip] else []), shots := s.shots + [shot])
  }

  // ---- what every step keeps ------------------------------------------------------------

  function BytesOf(trail: seq<Piece>): seq<byte> {
    if trail == [] then [] else BytesOf(trail[..|trail| - 1]) + trail[|trail| - 1].bytes
  }

  /** The PCM that has left the ring, firing by firing. */
  function Gone(shots: seq<Shot>): seq<byte> {
    if shots == [] then []
    else var last := shots[|shots| - 1]; Gone(shots[..|shots| - 1]) + last.trimmed + last.served
  }

  function Pending(at: TaskAt): seq<byte> {
    match at case Made(d) => d case Laid(d) => d case _ => []
  }

  /** Bytes of the compressed ring already copied to the stage. */
  function Copied(s: Sys): nat {
    s.comp.rd + if s.at.Loaded? then s.at.take else 0
  }

  /** Both rings hold, snapshots are conservative. */
  ghost predicate RingsSafe(s: Sys) {
    && RingOk(s.comp, s.pend) && |s.pend| <= s.claimed
    && s.comp.wr + s.claimed <= s.comp.rd + |s.comp.buf|
    && RingOk(s.pcm, if s.at.Laid? then s.at.data else [])
    && s.seenWr <= s.pcm.wr && s.seenRd <= s.pcm.rd
    && match s.at
       case Seen(avail) => s.comp.rd + avail <= s.comp.wr
       case Loaded(take) => s.comp.rd + take <= s.comp.wr
       case Room(space) => s.pcm.wr + space <= s.pcm.rd + |s.pcm.buf|
       case Made(data) => s.pcm.wr + |data| <= s.pcm.rd + |s.pcm.buf|
       case _ => true
  }

  /** Nothing is lost, duplicated or reordered on either side of the decoder. */
  ghost predicate Conserved(s: Sys) {
    && Within(s.pass) && |s.pass.stage| <= STAGE && s.pass.made == []
    && Copied(s) <= |s.comp.sent|
    && BytesOf(s.trail) + s.pass.stage[s.pass.used..] == s.comp.sent[..Copied(s)]
    && s.decoded == s.pcm.sent + Pending(s.at)
    && s.pcm.rd <= |s.pcm.sent| && Gone(s.shots) == s.pcm.sent[..s.pcm.rd]
    && s.asked == s.applied + (if s.skip != 0 then [s.skip] else [])
    && (s.at.Rest? || s.at.Seen? || s.at.Loaded? ==> s.pass.used == 0)
  }

  ghost predicate Safe(s: Sys) {
    RingsSafe(s) && Conserved(s)
  }

  lemma SafeIsShaped(s: Sys)
    requires Safe(s)
    ensures Shaped(s)
  {
  }

  lemma MadeIsEmpty(s: Sys)
    requires Safe(s)
    ensures s.pass.made == []
  {
  }

  /** A claim takes all that is free up to the end of the array, and not more. */
  lemma ClaimIsMost(dsp: Dsp, s: Sys)
    requires Safe(s) && Shaped(s) && s.pend == []
    ensures var t := Next(dsp, s, Claim);
            && t == s.(claimed := t.claimed) && s.comp.wr + t.claimed <= s.comp.rd + |s.comp.buf|
            && s.comp.wr % |s.comp.buf| + t.claimed <= |s.comp.buf|
            && (s.comp.wr + t.claimed == s.comp.rd + |s.comp.buf|
                || s.comp.wr % |s.comp.buf| + t.claimed == |s.comp.buf|)
  {
    hide Store, Unread, BytesOf, Gone, Turn;
  }

  // The steps of the top-up, spelled out.

  lemma SeesAll(dsp: Dsp, s: Sys)
    requires Safe(s) && Shaped(s) && s.at.Rest? && s.comp.rd <= s.comp.wr
    ensures Next(dsp, s, See) == s.(at := Seen(s.comp.wr - s.comp.rd))
  {
    hide Store, Unread, BytesOf, Gone, Turn, Safe;
  }

  lemma LoadsFit(dsp: Dsp, s: Sys)
    requires Safe(s) && Shaped(s) && s.at.Seen? && |s.pass.stage| <= STAGE
    ensures var take := Min(s.at.avail, STAGE - |s.pass.stage|);
            Next(dsp, s, Load) == s.(at := Loaded(take), pass := s.pass.(
              stage := s.pass.stage + Unread(s.comp.buf, s.comp.rd, take), progress := take > 0))
  {
    hide Store, Unread, BytesOf, Gone, Turn, Safe;
  }

  lemma AcksTake(dsp: Dsp, s: Sys)
    requires Safe(s) && Shaped(s) && s.at.Loaded?
    ensures Next(dsp, s, Ack) == s.(comp := s.comp.(rd := s.comp.rd + s.at.take), at := Top)
  {
    hide Store, Unread, BytesOf, Gone, Turn, Safe;
  }

  lemma GoneSnoc(shots: seq<Shot>, x: Shot)
    ensures Gone(shots + [x]) == Gone(shots) + x.trimmed + x.served
  {
    assert (shots + [x])[..|shots|] == shots;
  }

  lemma BytesSnoc(trail: seq<Piece>, x: Piece)
    ensures BytesOf(trail + [x]) == BytesOf(trail) + x.bytes
  {
    assert (trail + [x])[..|trail|] == trail;
  }

  lemma ProducerKeeps(dsp: Dsp, s: Sys, a: Step)
    requires Safe(s) && (a.Claim? || a.Write? || a.Commit?)
    ensures Safe(Next(dsp, s, a))
  {
    hide Store, Unread, BytesOf, Gone;
    match a {
      case Claim =>
      case Write(data) =>
        if |s.pend| + |data| <= s.claimed { WriteKeeps(s.comp, s.pend, data); }
      case Commit =>
        PublishKeeps(s.comp, s.pend);
        assert (s.comp.sent + s.pend)[..Copied(s)] == s.comp.sent[..Copied(s)];
    }
  }

  lemma LoadShape(s: Sys, take: nat)
    requires Safe(s) && s.at.Seen? && take <= s.at.avail
    ensures BytesOf(s.trail) + (s.pass.stage + Unread(s.comp.buf, s.comp.rd, take)) == s.comp.sent[..s.comp.rd + take]
  {
    hide Store, Unread, BytesOf, Gone, RingOk;
    var before, stage := BytesOf(s.trail), s.pass.stage;
    TakeKeeps(s.comp, s.pend, take) by { assert RingsSafe(s); SeenInside(s); }
    var data := Unread(s.comp.buf, s.comp.rd, take);
    assert before + (stage + data) == before + stage + data;
    assert stage[0..] == stage;
    assert s.comp.sent[..s.comp.rd + take] == s.comp.sent[..s.comp.rd] + s.comp.sent[s.comp.rd..s.comp.rd + take];
  }

  lemma SeenInside(s: Sys)
    requires Safe(s) && s.at.Seen?
    ensures RingOk(s.comp, s.pend) && s.comp.rd + s.at.avail <= s.comp.wr && |s.comp.sent| == s.comp.wr
  {
  }

  lemma LoadKeeps(dsp: Dsp, s: Sys)
    requires Safe(s) && s.at.Seen?
    ensures Safe(Next(dsp, s, Load))
  {
    hide Store, Unread, BytesOf, Gone;
    var t := Next(dsp, s, Load);
    LoadShape(s, t.at.take);
    assert t.pass.stage[0..] == t.pass.stage;
  }

  /** A turn moves bytes from the stage to the trail, and drops none. */
  lemma PieceConserves(trail: seq<Piece>, p: Pass, q: Pass)
    requires p.used <= q.used <= |p.stage| && q.stage == p.stage
    ensures BytesOf(trail + Piecewise(p, q)) + q.stage[q.used..] == BytesOf(trail) + p.stage[p.used..]
  {
    hide BytesOf;
    var before, taken, rest := BytesOf(trail), p.stage[p.used..q.used], p.stage[q.used..];
    var piece := Piecewise(p, q);
    if q.used > p.used {
      BytesSnoc(trail, piece[0]);
    } else {
      assert trail + piece == trail;
    }
    assert BytesOf(trail + piece) == before + taken;
    assert p.stage[p.used..] == taken + rest;
    assert before + taken + rest == before + (taken + rest);
  }

  lemma TurnKeeps(dsp: Dsp, s: Sys)
    requires Safe(s) && s.at.Room?
    ensures Safe(Next(dsp, s, Decide))
  {
    hide Store, Unread, BytesOf, Gone, Turn, RingOk, Piecewise;
    TurnAdvances(dsp, s.eof, s.at.space, s.pass);
    var p, q := s.pass, Turn(dsp, s.eof, s.at.space, s.pass).pass;
    StopMakesNothing(dsp, s.eof, s.at.space, p);
    PieceConserves(s.trail, p, q);
    assert q.stage[q.used..][0..] == q.stage[q.used..];
    assert s.decoded == s.pcm.sent + [] == s.pcm.sent;
  }

  lemma StopMakesNothing(dsp: Dsp, eof: bool, room: int, p: Pass)
    requires Within(p)
    ensures Turn(dsp, eof, room, p).Stop? ==> Turn(dsp, eof, room, p).pass.made == p.made
  {
    hide ParseHeader, Decode, WalkSpec, SyncFrom;
  }

  lemma LooksKeep(dsp: Dsp, s: Sys, a: Step)
    requires Safe(s) && (a.See? || a.Look?)
    ensures Safe(Next(dsp, s, a))
  {
    hide Store, Unread, BytesOf, Gone;
  }

  lemma AckKeeps(dsp: Dsp, s: Sys)
    requires Safe(s)
    ensures Safe(Next(dsp, s, Ack))
  {
    hide Store, Unread, BytesOf, Gone;
    if s.at.Loaded? { TakeKeeps(s.comp, s.pend, s.at.take); }
  }

  lemma ShowsKeep(dsp: Dsp, s: Sys, a: Step)
    requires Safe(s) && (a.Lay? || a.Show?)
    ensures Safe(Next(dsp, s, a))
  {
    hide Store, Unread, BytesOf, Gone, Conserved;
    SafeIsShaped(s);
    if a.Lay? && s.at.Made? {
      WriteKeeps(s.pcm, [], s.at.data);
      assert [] + s.at.data == s.at.data;
    } else if a.Show? && s.at.Laid? {
      PublishKeeps(s.pcm, s.at.data);
    }
    ShowsConserve(dsp, s, a);
  }

  lemma ShowsConserve(dsp: Dsp, s: Sys, a: Step)
    requires Conserved(s) && Shaped(s) && (a.Lay? || a.Show?) && RingsSafe(s)
    ensures Conserved(Next(dsp, s, a))
  {
    hide Store, Unread, BytesOf, Gone, RingOk;
    if a.Show? && s.at.Laid? {
      assert (s.pcm.sent + s.at.data)[..s.pcm.rd] == s.pcm.sent[..s.pcm.rd];
      assert s.pcm.sent + s.at.data + [] == s.pcm.sent + s.at.data;
    }
  }

  lemma TaskKeeps(dsp: Dsp, s: Sys, a: Step)
    requires Safe(s) && (a.See? || a.Ack? || a.Look? || a.Lay? || a.Show?)
    ensures Safe(Next(dsp, s, a))
  {
    hide Safe, Next;
    SafeIsShaped(s);
    match a {
      case Ack => AckKeeps(dsp, s);
      case Lay => ShowsKeep(dsp, s, a);
      case Show => ShowsKeep(dsp, s, a);
      case _ => LooksKeep(dsp, s, a);
    }
  }

  lemma FireShape(s: Sys)
    requires Safe(s)
    ensures var q := Unread(s.pcm.buf, s.pcm.rd, s.pcm.wr - s.pcm.rd);
            var shot := FireSpec(q, s.skip, s.open);
            var n := |shot.trimmed| + |shot.served|;
            && s.pcm.rd + n <= s.pcm.wr
            && Gone(s.shots + [shot]) == s.pcm.sent[..s.pcm.rd + n]
  {
    hide Store, Unread, BytesOf, Gone, FireSpec, RingOk;
    PcmRead(s);
    var queue := Unread(s.pcm.buf, s.pcm.rd, s.pcm.wr - s.pcm.rd);
    var shot := FireSpec(queue, s.skip, s.open);
    FireConserves(queue, s.skip, s.open);
    var n := |shot.trimmed| + |shot.served|;
    GoneSnoc(s.shots, shot);
    var was := s.pcm.sent[..s.pcm.rd];
    assert was + shot.trimmed + shot.served == was + (shot.trimmed + shot.served);
    assert shot.trimmed + shot.served == queue[..n] == s.pcm.sent[s.pcm.rd..s.pcm.rd + n];
    assert s.pcm.sent[..s.pcm.rd + n] == was + s.pcm.sent[s.pcm.rd..s.pcm.rd + n];
  }

  lemma PcmRead(s: Sys)
    requires Safe(s)
    ensures |s.pcm.sent| == s.pcm.wr && s.pcm.rd <= s.pcm.wr && |s.pcm.buf| > 0
    ensures Unread(s.pcm.buf, s.pcm.rd, s.pcm.wr - s.pcm.rd) == s.pcm.sent[s.pcm.rd..]
  {
    TakeKeeps(s.pcm, if s.at.Laid? then s.at.data else [], s.pcm.wr - s.pcm.rd);
    assert s.pcm.sent[s.pcm.rd..s.pcm.wr] == s.pcm.sent[s.pcm.rd..];
  }

  lemma FireKeeps(dsp: Dsp, s: Sys)
    requires Safe(s)
    ensures Safe(Next(dsp, s, Fire))
  {
    hide Store, Unread, BytesOf, Gone, FireSpec;
    FireShape(s);
    var shot := FireSpec(Unread(s.pcm.buf, s.pcm.rd, s.pcm.wr - s.pcm.rd), s.skip, s.open);
    TakeKeeps(s.pcm, if s.at.Laid? then s.at.data else [], |shot.trimmed| + |shot.served|);
  }

  lemma StepKeeps(dsp: Dsp, s: Sys, a: Step)
    requires Safe(s)
    ensures Safe(Next(dsp, s, a))
  {
    hide Store, Unread, BytesOf, Gone, Turn;
    match a {
      case Claim => ProducerKeeps(dsp, s, a);
      case Write(_) => ProducerKeeps(dsp, s, a);
      case Commit => ProducerKeeps(dsp, s, a);
      case Load => if s.at.Seen? { LoadKeeps(dsp, s); }
      case Decide => if s.at.Room? { TurnKeeps(dsp, s); }
      case Fire => FireKeeps(dsp, s);
      case Eof =>
      case HangUp =>
      case SeeWr =>
      case SeeRd =>
      case AskTrim =>
      case _ => TaskKeeps(dsp, s, a);
    }
  }

  function Run(dsp: Dsp, s: Sys, steps: seq<Step>): (t: Sys)
    requires Safe(s)
    ensures Safe(t)
    decreases |steps|
  {
    if steps == [] then s
    else
      StepKeeps(dsp, s, steps[0]);
      Run(dsp, Next(dsp, s, steps[0]), steps[1..])
  }

  /** A new listen: empty rings, the decoder initialised, the task at rest. */
  function Start(comp: seq<byte>, pcm: seq<byte>, dec: Dec): Sys {
    Sys(Ring(comp, 0, 0, []), 0, [], false, Rest, Pass([], 0, dec, 0, 0, 0, 0, [], false), [], [],
        Ring(pcm, 0, 0, []), true, 0, 0, 0, [], [], [])
  }

  lemma StartIsSafe(comp: seq<byte>, pcm: seq<byte>, dec: Dec)
    requires comp != [] && pcm != []
    ensures Safe(Start(comp, pcm, dec))
  {
  }

  lemma SafeMeans(s: Sys)
    requires Safe(s)
    ensures s.comp.rd <= s.comp.wr <= s.comp.rd + |s.comp.buf| && s.pcm.rd <= s.pcm.wr <= s.pcm.rd + |s.pcm.buf|
    ensures |s.comp.buf| > 0 && |s.pcm.buf| > 0 && |s.comp.sent| == s.comp.wr && |s.pcm.sent| == s.pcm.wr
    ensures Unread(s.comp.buf, s.comp.rd, s.comp.wr - s.comp.rd) == s.comp.sent[s.comp.rd..]
    ensures s.decoded == Gone(s.shots) + Unread(s.pcm.buf, s.pcm.rd, s.pcm.wr - s.pcm.rd) + Pending(s.at)
    ensures s.pass.used <= |s.pass.stage| && BytesOf(s.trail) + s.pass.stage[s.pass.used..] <= s.comp.sent
    ensures s.asked == s.applied + (if s.skip != 0 then [s.skip] else [])
  {
    hide Unread, BytesOf, Gone;
    TakeKeeps(s.comp, s.pend, s.comp.wr - s.comp.rd);
    PcmRead(s);
    assert s.comp.sent[s.comp.rd..] == s.comp.sent[s.comp.rd..s.comp.wr];
    assert s.pcm.sent == s.pcm.sent[..s.pcm.rd] + s.pcm.sent[s.pcm.rd..];
  }
}
