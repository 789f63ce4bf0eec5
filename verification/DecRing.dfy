/** The decode pipeline object of src/cq_decring.c: arrays, 32-bit cursors, in place. */
module DecRing {
  import opened Bytes
  import opened Memory
  import opened Cursors
  import opened Rings
  import opened Mp3
  import opened FrameSelect
  import opened Decoder
  import opened Pump

  class DecRing {
    const comp: array<byte>
    const stage: array<byte>
    const pcm: array<byte>
    const dec: Mp3Dec
    var compWr: cursor
    var compRd: cursor
    var eof: bool
    var stageLen: nat
    var pcmWr: cursor
    var pcmRd: cursor
    var frames: nat
    var resyncs: nat
    var resyncBytes: nat
    var flushes: nat
    var pcmTotal: nat

    ghost predicate Valid()
      reads this
    {
      && RingSize(comp.Length) && RingSize(pcm.Length)
      && stage.Length == STAGE && stageLen <= STAGE
      && comp != stage && comp != pcm && stage != pcm
      && Sub(compWr, compRd) <= comp.Length && Sub(pcmWr, pcmRd) <= pcm.Length
    }

    ghost function ViewOf(): View
      requires Valid()
      reads this, comp, stage, pcm, dec
    {
      View(Unread(comp[..], compRd, Sub(compWr, compRd)), eof, stage[..stageLen], dec.State(),
           Unread(pcm[..], pcmRd, Sub(pcmWr, pcmRd)),
           frames, resyncs, resyncBytes, flushes, pcmTotal)
    }

    constructor (comp: array<byte>, pcm: array<byte>, dec: Mp3Dec)
      requires RingSize(comp.Length) && RingSize(pcm.Length) && comp != pcm
      ensures Valid() && this.comp == comp && this.pcm == pcm && this.dec == dec && fresh(stage)
      ensures ViewOf() == View([], false, [], dec.State(), [], 0, 0, 0, 0, 0)
    {
      this.comp, this.pcm, this.dec := comp, pcm, dec;
      stage := new byte[STAGE];
      compWr, compRd, eof, stageLen, pcmWr, pcmRd := 0, 0, false, 0, 0, 0;
      frames, resyncs, resyncBytes, flushes, pcmTotal := 0, 0, 0, 0, 0;
    }

    method Space() returns (space: nat)
      requires Valid()
      ensures space + |ViewOf().queue| == comp.Length
    {
      space := comp.Length - Sub(compWr, compRd);
    }

    /** Where the producer may write, and how much before the wrap. */
    method Claim() returns (pos: nat, contig: nat)
      requires Valid()
      ensures pos == compWr % comp.Length && pos + contig <= comp.Length
      ensures contig == Min(comp.Length - |ViewOf().queue|, comp.Length - pos)
    {
      var space := Space();
      pos := compWr % comp.Length;
      contig := Min(space, comp.Length - pos);
    }

    /** Publishes `n` bytes already written at the write position. */
    method Commit(n: nat)
      requires Valid() && n + |ViewOf().queue| <= comp.Length
      modifies this`compWr
      ensures Valid()
      ensures ViewOf() == old(ViewOf()).(queue := Unread(comp[..], compRd, old(|ViewOf().queue|) + n))
    {
      ghost var fill := Sub(compWr, compRd);
      SumOfSub(compWr, compRd, n);
      compWr := Plus(compWr, n);
    }

    /** A claim filled and committed: the bytes join the queue. */
    method Fill(data: seq<byte>)
      requires Valid() && |data| + |ViewOf().queue| <= comp.Length
      requires compWr % comp.Length + |data| <= comp.Length
      modifies this`compWr, comp
      ensures Valid()
      ensures ViewOf() == old(ViewOf()).(queue := old(ViewOf()).queue + data)
    {
      ghost var was := comp[..];
      CopyIn(data, comp, compWr);
      StoredAtCursor(was, comp[..], compRd, compWr, data);
      Commit(|data|);
    }

    /** The feeding loop of every producer: claim, copy, commit, until done or full. */
    method Put(p: seq<byte>) returns (done: nat)
      requires Valid()
      modifies this`compWr, comp
      ensures Valid() && done == Min(|p|, comp.Length - |old(ViewOf()).queue|)
      ensures ViewOf() == old(ViewOf()).(queue := old(ViewOf()).queue + p[..done])
    {
      hide Unread, Sub, Plus;
      ghost var v := ViewOf();
      done := 0;
      while done < |p|
        invariant Valid() && done <= |p| && done + |v.queue| <= comp.Length
        invariant ViewOf() == v.(queue := v.queue + p[..done])
        decreases |p| - done
      {
        var pos, contig := Claim();
        if contig == 0 { break; }
        if contig > |p| - done { contig := |p| - done; }
        Fill(p[done..done + contig]);
        assert p[..done + contig] == p[..done] + p[done..done + contig];
        done := done + contig;
      }
    }

    method Eof()
      requires Valid()
      modifies this`eof
      ensures Valid() && ViewOf() == old(ViewOf()).(eof := true)
    {
      eof := true;
    }

    method Idle() returns (idle: bool)
      requires Valid()
      ensures idle <==> ViewOf().queue == [] && ViewOf().stage == []
    {
      idle := compWr == compRd && stageLen == 0;
    }

    /** For a new stream; the PCM cursors belong to the application and are left alone. */
    method Reset()
      requires Valid()
      modifies this
      ensures Valid()
      ensures ViewOf() == old(ViewOf()).(queue := [], eof := false, stage := [], frames := 0,
              resyncs := 0, resyncBytes := 0, flushes := 0, pcmTotal := 0)
    {
      hide Unread, RingSize;
      compWr, compRd, eof, stageLen := 0, 0, false, 0;
      frames, resyncs, resyncBytes, flushes, pcmTotal := 0, 0, 0, 0, 0;
      assert stage[..0] == [];
    }

    /** What `OpenAudioOutput` leaves: fresh rings on both sides and a decoder that must search. */
    method Open()
      requires Valid()
      modifies this, dec
      ensures Valid()
      ensures ViewOf() == View([], false, [], old(dec.State()).(header := old(dec.header).(b0 := 0)), [], 0, 0, 0, 0, 0)
    {
      pcmWr, pcmRd := 0, 0;
      Reset();
      dec.Init();
    }

    /** Moves what fits from the compressed ring to the stage. */
    method TopUp() returns (take: nat)
      requires Valid()
      modifies this`compRd, this`stageLen, stage
      ensures Valid() && take == Min(|old(ViewOf()).queue|, STAGE - |old(ViewOf()).stage|)
      ensures ViewOf() == old(ViewOf()).(queue := old(ViewOf()).queue[take..],
              stage := old(ViewOf()).stage + old(ViewOf()).queue[..take])
    {
      hide Unread, Sub, RingSize;
      var avail := Sub(compWr, compRd);
      take := Min(avail, STAGE - stageLen);
      if take > 0 {
        ghost var was, queue := stage[..stageLen], Unread(comp[..], compRd, avail);
        CopyOut(comp, compRd, take, stage, stageLen);
        UnreadDrop(comp[..], compRd, take, avail);
        SubOfSum(compWr, compRd, take);
        assert stage[..stageLen + take] == was + queue[..take];
        stageLen := stageLen + take;
        compRd := Plus(compRd, take);
      }
    }

    /** Writes one frame of PCM and publishes it. */
    method Emit(data: seq<byte>)
      requires Valid() && |data| + |ViewOf().out| <= pcm.Length
      modifies this`pcmWr, this`pcmTotal, pcm
      ensures Valid()
      ensures ViewOf() == old(ViewOf()).(out := old(ViewOf()).out + data, pcmTotal := old(pcmTotal) + |data|)
    {
      ghost var was := pcm[..];
      CopyIn(data, pcm, pcmWr);
      StoredAtCursor(was, pcm[..], pcmRd, pcmWr, data);
      SumOfSub(pcmWr, pcmRd, |data|);
      pcmWr := Plus(pcmWr, |data|);
      pcmTotal := pcmTotal + |data|;
    }

    /** Drops the used prefix of the stage. */
    method Compact(used: nat)
      requires Valid() && used <= stageLen
      modifies this`stageLen, stage
      ensures Valid() && ViewOf() == old(ViewOf()).(stage := old(ViewOf()).stage[used..])
    {
      if used > 0 {
        stageLen := stageLen - used;
        MoveToFront(stage, used, stageLen);
      }
    }

    ghost function PassOf(used: nat, made: seq<byte>, progress: bool): Pass
      requires Valid()
      reads this, stage, dec
    {
      Pass(stage[..stageLen], used, dec.State(), frames, resyncs, resyncBytes, flushes, made, progress)
    }

    /** The gate holds: wait, or drop the junk a deep stage starts with. */
    method Realign(used: nat, ghost made: seq<byte>, was: bool) returns (again: bool, next: nat)
      requires Valid() && used <= stageLen
      modifies this`resyncs, this`resyncBytes, this`flushes
      ensures Valid() && next <= stageLen
      ensures Held(old(PassOf(used, made, was)))
              == if again then Again(PassOf(next, made, was)) else Stop(PassOf(next, made, was))
    {
      hide ParseHeader, SyncFrom, Sub, Plus;
      again, next := false, used;
      var rest := stage[used..stageLen];
      assert rest == stage[..stageLen][used..];
      SyncInside(rest);
      if stageLen - used > DEEP_STAGE {
        var off, _ := Sync(rest);
        if off > 0 {
          resyncs := resyncs + 1;
          resyncBytes := resyncBytes + off;
          again, next := true, used + off;
        } else if off < 0 {
          flushes := flushes + 1;
          next := stageLen;
        }
      }
    }

    /** The body of the decode loop; `made` is the PCM this pass has emitted so far. */
    method OneTurn(used: nat, ghost made: seq<byte>, was: bool)
      returns (again: bool, next: nat, ghost out: seq<byte>, progress: bool)
      requires Valid() && used <= stageLen
      modifies this`pcmWr, this`pcmTotal, this`frames, this`resyncs, this`resyncBytes, this`flushes, pcm, dec
      ensures Valid() && next <= stageLen && made <= out
      ensures Turn(dec.dsp, eof, pcm.Length - |old(ViewOf()).out|, old(PassOf(used, made, was)))
              == if again then Again(PassOf(next, out, progress)) else Stop(PassOf(next, out, progress))
      ensures ViewOf().out == old(ViewOf()).out + out[|made|..]
      ensures ViewOf().queue == old(ViewOf()).queue && pcmTotal + |made| == old(pcmTotal) + |out|
    {
      hide ParseHeader, Decode, WalkSpec, Held, Feed, Unread, Sub, Plus, RingSize;
      again, next, out, progress := false, used, made, was;
      var space := pcm.Length - Sub(pcmWr, pcmRd);
      if space < FRAME_ROOM { return; }
      if used >= stageLen { return; }
      var rest := stage[used..stageLen];
      assert rest == stage[..stageLen][used..];
      var _, whole := Walk(rest, 2);
      if whole < (if eof then 1 else 2) {
        again, next := Realign(used, made, was);
        return;
      }
      next, out := FeedOne(used, made, was);
      again, progress := true, true;
    }

    /** One decoder call on what is staged, its PCM emitted. */
    method FeedOne(used: nat, ghost made: seq<byte>, ghost was: bool) returns (next: nat, ghost out: seq<byte>)
      requires Valid() && used < stageLen && pcm.Length - |ViewOf().out| >= FRAME_ROOM
      modifies this`pcmWr, this`pcmTotal, this`frames, pcm, dec
      ensures Valid() && used < next <= stageLen && made <= out
      ensures Feed(dec.dsp, old(PassOf(used, made, was))) == Again(PassOf(next, out, true))
      ensures ViewOf().out == old(ViewOf()).out + out[|made|..]
      ensures ViewOf().queue == old(ViewOf()).queue && pcmTotal + |made| == old(pcmTotal) + |out|
    {
      hide ParseHeader, Decode, Unread, Sub, Plus, RingSize;
      var rest := stage[used..stageLen];
      assert rest == stage[..stageLen][used..];
      DecodeConsumes(dec.dsp, dec.State(), rest);
      out := made;
      var samples, data, consumed := dec.Frame(rest);
      next := used + consumed;
      if samples > 0 {
        frames := frames + 1;
        Emit(data);
        out := made + data;
      }
    }

    /** The decode loop of one pass. */
    method DecodeStaged(was: bool) returns (used: nat, ghost made: seq<byte>, progress: bool)
      requires Valid()
      modifies this`pcmWr, this`pcmTotal, this`frames, this`resyncs, this`resyncBytes, this`flushes, pcm, dec
      ensures Valid() && used <= stageLen
      ensures Loop(dec.dsp, eof, pcm.Length - |old(ViewOf()).out|, old(PassOf(0, [], was)))
              == PassOf(used, made, progress)
      ensures ViewOf().out == old(ViewOf()).out + made && pcmTotal == old(pcmTotal) + |made|
      ensures ViewOf().queue == old(ViewOf()).queue
    {
      hide ParseHeader, Turn, Unread, Sub, Plus, RingSize;
      ghost var out, room := ViewOf().out, pcm.Length - |ViewOf().out|;
      ghost var goal := Loop(dec.dsp, eof, room, PassOf(0, [], was));
      used, made, progress := 0, [], was;
      var again := true;
      while again
        invariant Valid() && used <= stageLen && ViewOf().queue == old(ViewOf()).queue
        invariant ViewOf().out == out + made && pcmTotal == old(pcmTotal) + |made|
        invariant goal == if again then Loop(dec.dsp, eof, room, PassOf(used, made, progress))
                          else PassOf(used, made, progress)
        decreases again, stageLen - used
      {
        TurnAdvances(dec.dsp, eof, room - |made|, PassOf(used, made, progress));
        again, used, made, progress := OneTurn(used, made, progress);
      }
    }

    /** One bounded pass: exactly the pass the specification describes, on arrays. */
    method Pump() returns (progress: bool)
      requires Valid()
      modifies this, stage, pcm, dec
      ensures Valid()
      ensures (ViewOf(), progress) == PumpSpec(dec.dsp, pcm.Length, old(ViewOf()))
    {
      hide ParseHeader, Loop, Unread, Sub, Plus, RingSize, PumpSpec;
      ghost var v := ViewOf();
      var take := TopUp();
      ghost var first := PassOf(0, [], take > 0);
      assert first == Topped(v);
      var used, made, more := DecodeStaged(take > 0);
      ghost var q := PassOf(used, made, more);
      Compact(used);
      PumpIs(dec.dsp, pcm.Length, v, q, ViewOf());
      return more;
    }
  }

  /** Data stored at the wrapped write cursor is appended to what was unread. */
  lemma StoredAtCursor(before: seq<byte>, after: seq<byte>, rd: cursor, wr: cursor, data: seq<byte>)
    requires |before| > 0 && RingSize(|before|) && Stored(before, after, wr, data)
    requires Sub(wr, rd) + |data| <= |before|
    ensures Unread(after, rd, Sub(wr, rd) + |data|) == Unread(before, rd, Sub(wr, rd)) + data
  {
    var n, size := Sub(wr, rd), |before|;
    assert (rd + n) % WRAP == wr;
    UnreadWrapped(after, rd + n, |data|);
    forall x | rd + n + |data| <= x < rd + n + size ensures after[x % size] == before[x % size] {
      var y := x - (rd + n) + wr;
      WrapKeepsSlot(rd + n, x - (rd + n), size);
      assert after[y % size] == before[y % size];
    }
    StoreAppends(before, after, rd, n, data);
  }
}
