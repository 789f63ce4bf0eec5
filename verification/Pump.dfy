/** One pass of `cq_decring_pump` on values (src/cq_decring.c, lines 79-179). */
module Pump {
  import opened Bytes
  import opened Mp3
  import opened FrameSelect
  import opened TailGate
  import opened Decoder

  const STAGE: nat := 64 * 1024
  const FRAME_ROOM: nat := 1152 * 2 * 2   // CQ_MP3DEC_MAX_SAMPLES * 2
  const DEEP_STAGE: nat := 8192

  /** A pass under way: the stage, how much of it is used, the decoder, the mailbox, the PCM made. */
  datatype Pass = Pass(
    stage: seq<byte>, used: nat, dec: Dec,
    frames: nat, resyncs: nat, resyncBytes: nat, flushes: nat,
    made: seq<byte>, progress: bool)

  datatype Verdict = Stop(pass: Pass) | Again(pass: Pass)

  predicate Within(p: Pass) {
    p.used <= |p.stage|
  }

  function Gate(eof: bool): nat { if eof then 1 else 2 }

  /** What the gate does when it holds. */
  function Held(p: Pass): Verdict
    requires Within(p)
  {
    var rest := p.stage[p.used..];
    if |rest| <= DEEP_STAGE then Stop(p)
    else
      var off := SyncFrom(rest, 0);
      if off > 0 then
        Again(p.(resyncs := p.resyncs + 1, resyncBytes := p.resyncBytes + off, used := p.used + off))
      else if off < 0 then Stop(p.(flushes := p.flushes + 1, used := |p.stage|))
      else Stop(p)
  }

  /** One decoder call. */
  function Feed(dsp: Dsp, p: Pass): Verdict
    requires Within(p)
  {
    var r := Decode(dsp, p.dec, p.stage[p.used..]);
    var q := p.(dec := r.dec);
    if r.consumed == 0 then Stop(q)
    else if r.samples == 0 then Again(q.(used := p.used + r.consumed, progress := true))
    else Again(q.(used := p.used + r.consumed, progress := true,
                  frames := p.frames + 1, made := p.made + r.pcm))
  }

  /** One turn of the loop, with `room` bytes free in the PCM ring. */
  function Turn(dsp: Dsp, eof: bool, room: int, p: Pass): Verdict
    requires Within(p)
  {
    if room < FRAME_ROOM || p.used >= |p.stage| then Stop(p)
    else if WalkSpec(p.stage[p.used..], 2).1 < Gate(eof) then Held(p)
    else Feed(dsp, p)
  }

  lemma SyncInside(buf: seq<byte>)
    ensures SyncFrom(buf, 0) >= 0 ==> SyncFrom(buf, 0) < |buf|
  {
    hide ParseHeader;
    SyncFromMeaning(buf, 0);
  }

  /** A turn that goes on has used at least one more staged byte, and makes at most one frame of PCM. */
  lemma TurnAdvances(dsp: Dsp, eof: bool, room: int, p: Pass)
    requires Within(p)
    ensures var v := Turn(dsp, eof, room, p);
            && Within(v.pass) && v.pass.stage == p.stage
            && v.pass.used >= p.used && (v.Again? ==> v.pass.used > p.used)
            && |v.pass.made| <= |p.made| + FRAME_ROOM
            && (v.pass.made != p.made ==> room >= FRAME_ROOM)
  {
    hide ParseHeader, Decode, WalkSpec, SyncFrom;
    var rest := p.stage[p.used..];
    DecodeConsumes(dsp, p.dec, rest);
    SyncInside(rest);
  }

  function Loop(dsp: Dsp, eof: bool, room: nat, p: Pass): Pass
    requires Within(p)
    decreases |p.stage| - p.used
  {
    TurnAdvances(dsp, eof, room - |p.made|, p);
    match Turn(dsp, eof, room - |p.made|, p)
    case Stop(q) => q
    case Again(q) => Loop(dsp, eof, room, q)
  }

  /** The whole pass keeps the stage, uses no more than it, and makes no more than fits. */
  lemma {:induction false} LoopBounds(dsp: Dsp, eof: bool, room: nat, p: Pass)
    requires Within(p) && |p.made| <= room
    ensures var q := Loop(dsp, eof, room, p);
            q.stage == p.stage && p.used <= q.used <= |q.stage| && |q.made| <= room
    decreases |p.stage| - p.used
  {
    hide ParseHeader, Turn;
    TurnAdvances(dsp, eof, room - |p.made|, p);
    var v := Turn(dsp, eof, room - |p.made|, p);
    if v.Again? { LoopBounds(dsp, eof, room, v.pass); }
  }

  /** What the pipeline holds, as its users see it. */
  datatype View = View(
    queue: seq<byte>, eof: bool, stage: seq<byte>, dec: Dec, out: seq<byte>,
    frames: nat, resyncs: nat, resyncBytes: nat, flushes: nat, pcmTotal: nat)

  function Topped(v: View): Pass
    requires |v.stage| <= STAGE
  {
    var take := Min(|v.queue|, STAGE - |v.stage|);
    Pass(v.stage + v.queue[..take], 0, v.dec, v.frames, v.resyncs, v.resyncBytes, v.flushes, [], take > 0)
  }

  /** One call with a PCM ring of `size` bytes: the state after it and the returned progress. */
  function PumpSpec(dsp: Dsp, size: nat, v: View): (View, bool)
    requires |v.stage| <= STAGE && |v.out| <= size
  {
    var p := Topped(v);
    LoopBounds(dsp, v.eof, size - |v.out|, p);
    var q := Loop(dsp, v.eof, size - |v.out|, p);
    (View(v.queue[|p.stage| - |v.stage|..], v.eof, q.stage[q.used..], q.dec, v.out + q.made,
          q.frames, q.resyncs, q.resyncBytes, q.flushes, v.pcmTotal + |q.made|),
     q.progress)
  }

  /** What a pass comes to, from the pass its loop ends in. */
  lemma PumpIs(dsp: Dsp, size: nat, v: View, q: Pass, w: View)
    requires |v.stage| <= STAGE && |v.out| <= size
    requires q == Loop(dsp, v.eof, size - |v.out|, Topped(v)) && Within(q)
    requires w.queue == v.queue[Min(|v.queue|, STAGE - |v.stage|)..] && w.eof == v.eof
    requires w.stage == q.stage[q.used..] && w.dec == q.dec && w.out == v.out + q.made
    requires w.frames == q.frames && w.resyncs == q.resyncs && w.resyncBytes == q.resyncBytes
    requires w.flushes == q.flushes && w.pcmTotal == v.pcmTotal + |q.made|
    ensures (w, q.progress) == PumpSpec(dsp, size, v)
  {
    hide ParseHeader, Loop;
  }

  // ---- where a resync lands ------------------------------------------------------

  lemma ConfirmedFrom(buf: seq<byte>, off: nat)
    requires Confirmed(buf, off)
    ensures off <= |buf| && Confirmed(buf[off..], 0)
  {
    hide ParseHeader;
    var n := ParseAt(buf, off).value.frameBytes;
    assert At(buf[off..], 0) == At(buf, off) && At(buf[off..], n) == At(buf, off + n);
  }

  /** There is a sync point `off` bytes on, and none before it. */
  ghost predicate SyncPoint(rest: seq<byte>, off: nat) {
    Confirmed(rest, off) && forall j: nat :: j < off ==> Refuted(rest, j)
  }

  /**
   * A turn resyncs by `off` bytes if and only if there is room for a frame of PCM, the gate
   * holds over more than 8192 staged bytes, and the first sync point is `off` bytes on.
   */
  lemma ResyncIff(dsp: Dsp, eof: bool, room: int, p: Pass, off: nat)
    requires Within(p) && off > 0
    ensures var v, rest := Turn(dsp, eof, room, p), p.stage[p.used..];
            (v.pass.resyncs != p.resyncs && v.pass.used == p.used + off) <==>
              && room >= 4608 && WalkSpec(rest, 2).1 < (if eof then 1 else 2) && |rest| > 8192
              && SyncPoint(rest, off)
  {
    hide ParseHeader, Decode, WalkSpec, SyncFrom;
    SyncIsLeast(p.stage[p.used..], off);
  }

  /**
   * Where it lands: on bytes that are confirmed at once, with every offset it passed refuted;
   * exactly the bytes passed are counted, and nothing else changes.
   */
  lemma ResyncLands(dsp: Dsp, eof: bool, room: int, p: Pass)
    requires Within(p) && Turn(dsp, eof, room, p).pass.resyncs != p.resyncs
    ensures var v := Turn(dsp, eof, room, p);
            var off := v.pass.used - p.used;
            && off > 0 && v.pass.used <= |p.stage| && Confirmed(p.stage[v.pass.used..], 0)
            && (forall j: nat :: j < off ==> Refuted(p.stage[p.used..], j))
            && v == Again(p.(used := v.pass.used, resyncs := p.resyncs + 1, resyncBytes := p.resyncBytes + off))
  {
    hide ParseHeader, Decode, WalkSpec, SyncFrom, Confirmed, Refuted;
    var rest := p.stage[p.used..];
    var off := SyncFrom(rest, 0);
    assert off > 0;
    SyncInside(rest);
    SyncIsLeast(rest, off);
    ConfirmedFrom(rest, off);
    assert rest[off..] == p.stage[p.used + off..];
  }

  /** A flush drops all that is staged, and only when there is no sync point in it. */
  lemma FlushDrops(dsp: Dsp, eof: bool, room: int, p: Pass)
    requires Within(p) && Turn(dsp, eof, room, p).pass.flushes != p.flushes
    ensures Turn(dsp, eof, room, p) == Stop(p.(used := |p.stage|, flushes := p.flushes + 1))
    ensures forall off: nat :: !SyncPoint(p.stage[p.used..], off)
  {
    hide ParseHeader, Decode, WalkSpec, SyncFrom, Confirmed, Refuted;
    forall off: nat ensures !SyncPoint(p.stage[p.used..], off) {
      SyncIsLeast(p.stage[p.used..], off);
    }
  }

  // ---- no gate deadlock ----------------------------------------------------------

  /** The gate only holds at a sync point when nothing follows it in reach. */
  lemma SyncAtHeadOpensGate(rest: seq<byte>)
    requires |rest| > DEEP_STAGE && SyncFrom(rest, 0) == 0
    ensures WalkSpec(rest, 2).1 == 2
  {
    hide ParseHeader;
    SyncFromMeaning(rest, 0);
    var a := ParseAt(rest, 0).value;
    FrameBytesRange(At(rest, 0));
    FrameBytesRange(At(rest, a.frameBytes));
    assert WholeAt(rest, 0, a) && WholeAt(rest, a.frameBytes, a);
    assert WalkFrom(rest, a.frameBytes, a, 1).1 == 1;
    assert WalkFrom(rest, 0, a, 2).1 == 2;
  }

  lemma DeepTurn(dsp: Dsp, eof: bool, room: int, p: Pass)
    requires Within(p) && |p.stage| - p.used > DEEP_STAGE && room >= FRAME_ROOM
    ensures Turn(dsp, eof, room, p).pass.used > p.used
  {
    hide ParseHeader, Decode, WalkSpec, SyncFrom;
    var rest := p.stage[p.used..];
    DecodeConsumes(dsp, p.dec, rest);
    if SyncFrom(rest, 0) == 0 { SyncAtHeadOpensGate(rest); }
  }

  /**
   * Whatever the bytes: a pass that finds more than 8192 bytes staged and room for one
   * frame in the PCM ring removes at least one staged byte.
   */
  lemma DeepStageShrinks(dsp: Dsp, eof: bool, room: nat, p: Pass)
    requires Within(p) && |p.stage| - p.used > DEEP_STAGE && room >= FRAME_ROOM + |p.made|
    ensures Loop(dsp, eof, room, p).used > p.used
  {
    hide ParseHeader, Turn;
    DeepTurn(dsp, eof, room - |p.made|, p);
    TurnAdvances(dsp, eof, room - |p.made|, p);
    var v := Turn(dsp, eof, room - |p.made|, p);
    if v.Again? { LoopKeepsUsed(dsp, eof, room, v.pass); }
  }

  /** After a pass that had PCM room, another over what it leaves would change nothing. */
  lemma StopIsQuiet(dsp: Dsp, eof: bool, room: int, p: Pass)
    requires Within(p) && room >= FRAME_ROOM && Turn(dsp, eof, room, p).Stop?
    ensures var q := Turn(dsp, eof, room, p).pass;
            && Within(q)
            && var r := q.(stage := q.stage[q.used..], used := 0);
               Turn(dsp, eof, room, r) == Stop(r)
  {
    hide ParseHeader, Decode, WalkSpec, SyncFrom;
    TurnAdvances(dsp, eof, room, p);
    DecodeConsumes(dsp, p.dec, p.stage[p.used..]);
    var q := Turn(dsp, eof, room, p).pass;
    assert q.stage[q.used..][0..] == q.stage[q.used..];
    if q.used == |q.stage| { assert q.stage[q.used..] == []; }
  }

  lemma {:induction false} LoopKeepsUsed(dsp: Dsp, eof: bool, room: nat, p: Pass)
    requires Within(p)
    ensures Loop(dsp, eof, room, p).used >= p.used
    decreases |p.stage| - p.used
  {
    hide ParseHeader, Turn;
    TurnAdvances(dsp, eof, room - |p.made|, p);
    var v := Turn(dsp, eof, room - |p.made|, p);
    if v.Again? { LoopKeepsUsed(dsp, eof, room, v.pass); }
  }

  // ---- what the returned progress says -----------------------------------------------------------

  lemma {:induction false} ProgressStays(dsp: Dsp, eof: bool, room: nat, p: Pass)
    requires Within(p) && p.progress
    ensures Loop(dsp, eof, room, p).progress
    decreases |p.stage| - p.used
  {
    hide ParseHeader, Turn;
    TurnAdvances(dsp, eof, room - |p.made|, p);
    TurnProgress(dsp, eof, room - |p.made|, p);
    var v := Turn(dsp, eof, room - |p.made|, p);
    if v.Again? { ProgressStays(dsp, eof, room, v.pass); }
  }

  lemma TurnProgress(dsp: Dsp, eof: bool, room: int, p: Pass)
    requires Within(p)
    ensures p.progress ==> Turn(dsp, eof, room, p).pass.progress
  {
    hide ParseHeader, Decode, WalkSpec, SyncFrom;
  }

  /** The first turn of a pass: it waits, it realigns or gives up, or it feeds the decoder. */
  lemma FirstTurn(dsp: Dsp, eof: bool, room: nat, p: Pass)
    requires Within(p) && p.used == 0 && p.made == []
    ensures var v := Turn(dsp, eof, room, p);
            var open := WalkSpec(p.stage, 2).1 >= Gate(eof);
            && (room < FRAME_ROOM || (|p.stage| <= DEEP_STAGE && !open) ==> v == Stop(p))
            && (room >= FRAME_ROOM && open ==> v.Again? && v.pass.progress)
  {
    hide ParseHeader, Decode, WalkFrom, SyncFrom;
    assert p.stage[0..] == p.stage;
    DecodeConsumes(dsp, p.dec, p.stage);
  }

  /**
   * A pass changes nothing and reports no progress if and only if there is nothing to top
   * up with, and there is no room for a frame of PCM or the gate holds over a shallow stage.
   */
  lemma IdlePassIff(dsp: Dsp, size: nat, v: View)
    requires |v.stage| <= STAGE && |v.out| <= size
    ensures PumpSpec(dsp, size, v) == (v, false) <==>
              && (v.queue == [] || |v.stage| == STAGE)
              && (size - |v.out| < FRAME_ROOM
                  || (|v.stage| <= DEEP_STAGE && WalkSpec(v.stage, 2).1 < Gate(v.eof)))
  {
    hide ParseHeader, Turn, WalkSpec;
    var p, room := Topped(v), size - |v.out|;
    LoopBounds(dsp, v.eof, room, p);
    if p.progress { ProgressStays(dsp, v.eof, room, p); }
    else {
      assert p.stage == v.stage + [] == v.stage;
      FirstTurn(dsp, v.eof, room, p);
      if room >= FRAME_ROOM && |p.stage| > DEEP_STAGE { DeepStageShrinks(dsp, v.eof, room, p); }
      TurnAdvances(dsp, v.eof, room, p);
      var t := Turn(dsp, v.eof, room, p);
      if t.Again? && t.pass.progress { ProgressStays(dsp, v.eof, room, t.pass); }
      if t == Stop(p) { assert p.stage[0..] == p.stage && v.queue[0..] == v.queue && v.out + [] == v.out; }
    }
  }

  /**
   * A pass that reports no progress left everything as it was if and only if there was no
   * room for a frame of PCM or at most 8192 bytes were staged. Otherwise it resynced or flushed.
   */
  lemma NoProgressIff(dsp: Dsp, size: nat, v: View)
    requires |v.stage| <= STAGE && |v.out| <= size && !PumpSpec(dsp, size, v).1
    ensures PumpSpec(dsp, size, v).0 == v <==> size - |v.out| < FRAME_ROOM || |v.stage| <= DEEP_STAGE
  {
    hide ParseHeader, Turn, WalkSpec;
    IdlePassIff(dsp, size, v);
    var p, room := Topped(v), size - |v.out|;
    LoopBounds(dsp, v.eof, room, p);
    if p.progress { ProgressStays(dsp, v.eof, room, p); }
    else {
      assert p.stage == v.stage + [] == v.stage;
      FirstTurn(dsp, v.eof, room, p);
      TurnAdvances(dsp, v.eof, room, p);
      var t := Turn(dsp, v.eof, room, p);
      if t.Again? && t.pass.progress { ProgressStays(dsp, v.eof, room, t.pass); }
    }
  }

  lemma {:induction false} NoSyncInJunk(buf: seq<byte>, i: nat)
    requires forall b :: b in buf ==> b != 0xFF
    ensures SyncFrom(buf, i) == -1
    decreases |buf| - i
  {
    hide ParseHeader;
    ParseNeedsSyncByte(buf, i);
    if i + 4 <= |buf| {
      assert buf[i] in buf;
      NoSyncInJunk(buf, i + 1);
    }
  }

  /** 9000 bytes that hold no frame: the pass throws them all away and reports no progress. */
  lemma FlushReportsNothing(dsp: Dsp, size: nat, v: View)
    requires v.queue == [] && v.stage == seq(9000, _ => 0) && |v.out| + FRAME_ROOM <= size
    ensures PumpSpec(dsp, size, v) == (v.(stage := [], flushes := v.flushes + 1), false)
  {
    hide ParseHeader, Decode;
    var p := Topped(v);
    assert p.stage == v.stage && p.stage[0..] == p.stage;
    ParseNeedsSyncByte(v.stage, 0);
    NoSyncInJunk(v.stage, 0);
    assert Turn(dsp, v.eof, size - |v.out|, p) == Stop(p.(flushes := p.flushes + 1, used := |p.stage|));
    assert v.queue[0..] == v.queue && v.out + [] == v.out && p.stage[|p.stage|..] == [];
  }
}
