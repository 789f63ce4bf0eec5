/** `ServiceAudio` on its objects: the transaction, the staging buffer and the ring. */
module Listener {
  import opened Bytes
  import opened Memory
  import opened Cursors
  import opened Rings
  import opened Mp3
  import opened Pump
  import opened DecRing
  import opened Feed
  import Transport

  class Tuner {
    const gComp: array<byte>
    const tx: Transport.Transaction
    const ring: DecRing
    var au: Au
    var open: bool
    var len: nat

    ghost predicate Valid()
      reads this, tx, ring
    {
      && gComp.Length == STAGING && len <= STAGING && tx.Valid() && ring.Valid()
      && gComp != tx.data && ring.comp != tx.data && ring.stage != tx.data && ring.pcm != tx.data
      && ring.comp != gComp && ring.stage != gComp && ring.pcm != gComp
      && ring.comp.Length == COMP_RING
    }

    constructor (tx: Transport.Transaction, ring: DecRing)
      requires tx.Valid() && ring.Valid() && ring.comp.Length == COMP_RING
      requires ring.comp != tx.data && ring.stage != tx.data && ring.pcm != tx.data
      ensures Valid() && this.tx == tx && this.ring == ring && fresh(gComp)
      ensures au == Http && open && len == 0
    {
      this.tx, this.ring := tx, ring;
      gComp := new byte[STAGING];
      au, open, len := Http, true, 0;
    }

    ghost function Wired(): seq<byte>
      requires Valid()
      reads this, tx, tx.data, ring
    {
      if open then tx.State().data else []
    }

    /** The abstract listen; what was committed is the caller's to remember. */
    ghost function Now(committed: seq<byte>, lost: seq<byte>): Listen
      requires Valid()
      reads this, gComp, tx, tx.data, ring
    {
      Listen(au, open, gComp[..len], Wired(), committed, lost)
    }

    ghost function TxState(): Transport.Tx
      requires Valid()
      reads this, tx, tx.data, ring
    {
      tx.State()
    }

    ghost function RingView(): View
      requires Valid()
      reads this, tx, ring, ring.comp, ring.stage, ring.pcm, ring.dec
    {
      ring.ViewOf()
    }

    /** Zero-copy: the socket is drained straight into the claimed region of the ring. */
    method DrainStreamToDec()
      requires Valid()
      modifies tx`len, tx.data, ring`compWr, ring.comp
      ensures Valid() && tx.data == old(tx.data) && |old(RingView()).queue| <= COMP_RING
      ensures (TxState(), RingView()) == Piped(old(TxState()), old(RingView()),
              Min(|old(TxState()).data|, COMP_RING - |old(RingView()).queue|))
    {
      hide *;
      ghost var t, v := TxState(), RingView();
      var done := 0;
      PipedNothing(t, v);
      while true
        invariant Valid() && tx.data == old(tx.data)
        invariant done <= |t.data| && (done == 0 || |v.queue| + done <= COMP_RING)
        invariant (TxState(), RingView()) == Piped(t, v, done)
        decreases |t.data| - done
      {
        var contig, n := DrainOnce();
        PipedTwice(t, v, done, n);
        done := done + n;
        if contig == 0 || n == 0 { break; }
      }
      MinIs(|t.data|, COMP_RING - |v.queue|, done);
    }

    /** One claim, drain and commit. */
    method DrainOnce() returns (contig: nat, n: nat)
      requires Valid()
      modifies tx`len, tx.data, ring`compWr, ring.comp
      ensures Valid() && tx.data == old(tx.data)
      ensures n <= contig && n <= |old(TxState()).data| && (n == contig || n == |old(TxState()).data|)
      ensures |old(RingView()).queue| + n <= COMP_RING
      ensures contig == 0 <==> |old(RingView()).queue| == COMP_RING
      ensures (TxState(), RingView()) == Piped(old(TxState()), old(RingView()), n)
    {
      hide Unread, Sub, Plus, Stored, RingSize;
      ghost var was, t := ring.comp[..], TxState();
      contig, n := DrainIntoRing();
      StoredAtCursor(was, ring.comp[..], ring.compRd, ring.compWr, t.data[..n]);
      ring.Commit(n);
    }

    /** The drain itself: nothing is published yet. */
    method DrainIntoRing() returns (contig: nat, n: nat)
      requires Valid()
      modifies tx`len, tx.data, ring.comp
      ensures Valid() && n <= contig && n == Min(|old(TxState()).data|, contig)
      ensures |RingView().queue| + contig <= COMP_RING
      ensures contig == 0 <==> |RingView().queue| == COMP_RING
      ensures TxState() == old(TxState()).(data := old(TxState()).data[n..])
      ensures Stored(old(ring.comp[..]), ring.comp[..], ring.compWr, old(TxState()).data[..n])
      ensures RingView() == old(RingView()).(queue := Unread(ring.comp[..], ring.compRd, |old(RingView()).queue|))
    {
      hide Unread, Sub, Plus, Stored, RingSize;
      ghost var was, t := ring.comp[..], TxState();
      var pos;
      pos, contig := ring.Claim();
      n := tx.DrainInto(ring.comp, pos, contig);
      RegionStored(was, ring.comp[..], ring.compWr, pos, t.data[..n]);
    }

    /** Pre-play: the bytes stage in `gComp`. */
    method StageFromWire()
      requires Valid()
      modifies this`len, gComp, tx`len, tx.data
      ensures Valid() && tx.data == old(tx.data)
      ensures var wire, n := old(tx.State()).data, Min(|old(tx.State()).data|, STAGING - old(len));
              && tx.State() == old(tx.State()).(data := wire[n..])
              && gComp[..len] == old(gComp[..len]) + wire[..n]
    {
      hide Unread, Sub, Plus, RingSize;
      ghost var wire, staged := tx.State().data, gComp[..len];
      if len < STAGING {
        var n := tx.DrainInto(gComp, len, STAGING - len);
        assert gComp[..len + n] == staged + gComp[len..len + n];
        len := len + n;
      } else {
        assert wire[0..] == wire && staged + wire[..0] == staged;
      }
    }

    /** Drops a prefix of the staging buffer. */
    method DropStaged(n: nat)
      requires Valid() && n <= len
      modifies this`len, gComp
      ensures Valid() && gComp[..len] == old(gComp[..len])[n..]
    {
      len := len - n;
      MoveToFront(gComp, n, len);
    }

    method StopNow()
      requires Valid()
      modifies this`au, this`open, this`len
      ensures Valid() && au == Idle && !open && len == 0
    {
      au, open, len := Idle, false, 0;
    }

    method StripHeader()
      requires Valid() && au == Http
      modifies this`au, this`open, this`len, gComp
      ensures Valid()
      ensures au.Idle? || (Now([], []) == Strip(old(Now([], []))) && open == old(open))
      ensures Strip(old(Now([], []))).au == au
    {
      if len < 4 { return; }
      var i := 0;
      while i + 3 < len && !(gComp[i] == 13 && gComp[i + 1] == 10 && gComp[i + 2] == 13 && gComp[i + 3] == 10)
        invariant i <= len && Valid()
        invariant HeaderEnd(gComp[..len], 0) == HeaderEnd(gComp[..len], i)
      {
        i := i + 1;
      }
      if i + 3 < len {
        DropStaged(i + 4);
        au := Syncing;
      } else if len > HEADER_LIMIT {
        StopNow();
      }
    }

    /** Sync, open the output on fresh rings, and hand the synced remainder to it. */
    method SyncAndHandOff()
      requires Valid() && au == Syncing
      modifies this`au, this`open, this`len, gComp, ring, ring.comp, ring.dec
      ensures Valid()
      ensures var f, g := old(Now([], [])), SyncUp(old(Now([], [])));
              && au == g.au && (!au.Idle? ==> open == f.open && gComp[..len] == g.staged)
              && (au.Play? ==> JustOpened(RingView(), g.committed))
              && (!au.Play? ==> RingView() == old(RingView()))
    {
      hide ParseHeader, SyncFrom, Unread, Sub, Plus;
      SyncInside(gComp[..len]);
      var off, _ := Sync(gComp[..len]);
      if off >= 0 {
        DropStaged(off);
        HandOff();
        au := Play;
      } else if len > SYNC_LIMIT {
        StopNow();
      }
    }

    /** Fresh rings, and all that is staged into the compressed one. */
    method HandOff()
      requires Valid()
      modifies this`len, ring, ring.comp, ring.dec
      ensures Valid() && len == 0 && JustOpened(RingView(), old(gComp[..len]))
    {
      hide Unread, Sub, Plus, RingSize;
      ring.Open();
      var staged := gComp[..len];
      var done := ring.Put(staged);
      assert done == len && staged[..done] == staged && [] + staged == staged;
      len := 0;
    }

    /** Moves what the transport buffers to where this phase wants it. */
    method Move()
      requires Valid() && !au.Idle?
      modifies this`len, gComp, tx`len, tx.data, ring`compWr, ring.comp
      ensures Valid() && tx.data == old(tx.data)
      ensures var v, t := old(RingView()), old(TxState());
              && |v.queue| <= COMP_RING
              && var g := Moved(Listen(au, open, old(gComp[..len]), t.data, [], []), COMP_RING - |v.queue|);
              && gComp[..len] == g.staged && TxState() == t.(data := g.wire)
              && RingView() == v.(queue := v.queue + g.committed)
    {
      hide Unread, Sub, Plus;
      if au == Play {
        DrainStreamToDec();
      } else {
        StageFromWire();
        assert RingView().queue + [] == RingView().queue;
      }
    }

    /** The stream is over: a last move, then the transport goes and the pipeline is told. */
    method HangUp()
      requires Valid() && open && !au.Idle?
      modifies this, gComp, tx`len, tx.data, ring`compWr, ring`eof, ring.comp
      ensures Valid() && tx.data == old(tx.data)
      ensures var f, v := old(Now([], [])), old(RingView());
              && |v.queue| <= COMP_RING
              && var g := HungUp(Moved(f, COMP_RING - |v.queue|));
              && au == g.au && open == g.open && (!au.Idle? ==> gComp[..len] == g.staged)
              && RingView() == v.(queue := v.queue + g.committed, eof := v.eof || f.au.Play?)
    {
      hide Moved, HungUp, Unread, Sub, Plus, Piped, RingSize;
      ghost var f, v := Now([], []), RingView();
      Move();
      MovedKeeps(f, COMP_RING - |v.queue|);
      HungUpDepends(Moved(f, COMP_RING - |v.queue|), Now([], []));
      Conclude();
    }

    /** The transport is freed; the pipeline learns of the end, or there is none. */
    method Conclude()
      requires Valid() && open && !au.Idle?
      modifies this`au, this`open, this`len, ring`eof
      ensures Valid()
      ensures var f, g := old(Now([], [])), HungUp(old(Now([], [])));
              && au == g.au && open == g.open && (!au.Idle? ==> gComp[..len] == g.staged)
              && RingView() == old(RingView()).(eof := old(ring.eof) || f.au.Play?)
    {
      hide Unread, Sub, Plus, RingSize;
      if au == Play {
        open := false;
        ring.Eof();
      } else {
        StopNow();
      }
    }

    /** Polls, moves, notes death: part 1 of a slice. */
    method ServiceWire(ot: Transport.Ot)
      requires Valid() && open && !au.Idle?
      modifies this, gComp, tx, tx.data, ring`compWr, ring`eof, ring.comp
      ensures Valid()
      ensures var f, v, polled := old(Now([], [])), old(RingView()), Transport.PollSpec(old(TxState()), ot).0;
              && f.wire <= polled.data && |v.queue| <= COMP_RING
              && var in_ := Met(f, polled, COMP_RING - |v.queue|);
                 var g := Wire(f, in_);
              && au == g.au && open == g.open && (!au.Idle? ==> gComp[..len] == g.staged)
              && (open ==> TxState().data == g.wire)
              && RingView() == v.(queue := v.queue + g.committed, eof := v.eof || (f.au.Play? && in_.closed))
    {
      hide Transport.PollSpec, Moved, HungUp, Unread, Sub, Plus, RingSize, Piped, Wire, Met;
      ghost var f, v := Now([], []), RingView();
      ghost var polled := Refill(ot);
      WireIs(f, polled, COMP_RING - |v.queue|);
      ghost var room := COMP_RING - |v.queue|;
      assert polled.data == f.wire + polled.data[|f.wire|..];
      MovedKeeps(f.(wire := polled.data), room);
      if tx.status != Transport.Running {
        ghost var g := Moved(f.(wire := polled.data), room);
        HungUpOnward(g, LateRoom(f.au, |polled.data|, room));
        assert v.queue + g.committed + HungUp(Moved(g.(committed := []), LateRoom(f.au, |polled.data|, room))).committed
            == v.queue + HungUp(Moved(g, LateRoom(f.au, |polled.data|, room))).committed;
        HangUp();
      }
    }

    /** The poll and the move. */
    method Refill(ot: Transport.Ot) returns (ghost polled: Transport.Tx)
      requires Valid() && open && !au.Idle?
      modifies this`len, gComp, tx, tx.data, ring`compWr, ring.comp
      ensures Valid() && (tx.data == old(tx.data) || fresh(tx.data))
      ensures polled == Transport.PollSpec(old(TxState()), ot).0
      ensures var f, v := old(Now([], [])), old(RingView());
              && f.wire <= polled.data && |v.queue| <= COMP_RING
              && var g := Moved(f.(wire := polled.data), COMP_RING - |v.queue|);
              && gComp[..len] == g.staged && TxState() == polled.(data := g.wire)
              && RingView() == v.(queue := v.queue + g.committed)
    {
      hide Transport.PollSpec, Moved, Unread, Sub, Plus, RingSize, Piped;
      Transport.PollAppends(TxState(), ot);
      PollTx(ot);
      polled := TxState();
      Move();
    }

    method PollTx(ot: Transport.Ot)
      requires Valid()
      modifies tx, tx.data
      ensures Valid() && (tx.data == old(tx.data) || fresh(tx.data))
      ensures TxState() == Transport.PollSpec(old(TxState()), ot).0
    {
      hide Transport.PollSpec, Unread, Sub, Plus, RingSize;
      var _ := tx.PollOnce(ot);
    }

    /** Header and sync: parts 2 and 3 of a slice. */
    method ServiceHead()
      requires Valid() && !au.Idle?
      modifies this`au, this`open, this`len, gComp, ring, ring.comp, ring.dec
      ensures Valid()
      ensures var f, v := old(Now([], [])), old(RingView());
              var g := Head(f);
              && au == g.au && (!au.Idle? ==> open == g.open && gComp[..len] == g.staged)
              && TxState() == old(TxState())
              && (if f.au.Play? || !g.au.Play? then RingView() == v else JustOpened(RingView(), g.committed))
    {
      hide ParseHeader, SyncFrom, HeaderEnd, Unread, Sub, Plus, RingSize;
      if au == Http {
        StripHeader();
        if au == Idle { return; }
      }
      if au == Syncing { SyncAndHandOff(); }
    }

    /** The first three parts of `ServiceAudio` are one slice of the abstract listen. */
    method ServiceAudio(ot: Transport.Ot)
      requires Valid() && !au.Idle?
      modifies this, gComp, tx, tx.data, ring, ring.comp, ring.dec
      ensures Valid()
      ensures var f, v, polled := old(Now([], [])), old(RingView()), Transport.PollSpec(old(TxState()), ot).0;
              && (f.open ==> f.wire <= polled.data) && |v.queue| <= COMP_RING
              && var in_ := if f.open then Met(f, polled, COMP_RING - |v.queue|) else Slice([], false, 0, 0);
                 var g := Service(f, in_);
              && au == g.au
              && (!au.Idle? ==> open == g.open && gComp[..len] == g.staged && (open ==> TxState().data == g.wire))
              && (if f.au.Play? then RingView() == v.(queue := v.queue + g.committed, eof := v.eof || in_.closed)
                  else if g.au.Play? then JustOpened(RingView(), g.committed)
                  else RingView() == v)
    {
      hide Transport.PollSpec, Wire, Head, Unread, Sub, Plus, RingSize, JustOpened, Met;
      ghost var f, v, polled := Now([], []), RingView(), Transport.PollSpec(TxState(), ot).0;
      QueueFits(v);
      ghost var in_ := Slice([], false, 0, 0);
      if open {
        ServiceWire(ot);
        in_ := Met(f, polled, COMP_RING - |v.queue|);
      } else {
        NoWire(f, in_);
      }
      ghost var g := Wire(f, in_);
      WireCommits(f, in_);
      assert v.queue + [] == v.queue;
      if au == Idle { return; }
      HeadDepends(g, Now([], []));
      ServiceHead();
    }

    ghost method QueueFits(v: View)
      requires Valid() && v == RingView()
      ensures |v.queue| <= COMP_RING
    {
    }
  }

  /** What a slice meets when the task leaves the ring alone: the last drain finds the room that is left. */
  ghost function Met(f: Listen, polled: Transport.Tx, room: nat): Slice
    requires f.wire <= polled.data
  {
    Slice(polled.data[|f.wire|..], polled.status != Transport.Running, room, LateRoom(f.au, |polled.data|, room))
  }

  lemma WireIs(f: Listen, polled: Transport.Tx, room: nat)
    requires f.open && f.wire <= polled.data
    ensures var closed, g := polled.status != Transport.Running, Moved(f.(wire := polled.data), room);
            && Met(f, polled, room).closed == closed
            && Wire(f, Met(f, polled, room))
               == if closed then HungUp(Moved(g, LateRoom(f.au, |polled.data|, room))) else g
  {
    hide Moved, HungUp;
    assert f.wire + polled.data[|f.wire|..] == polled.data;
  }

  function LateRoom(au: Au, n: nat, room: nat): nat {
    if au.Play? then room - Min(n, room) else room
  }

  /** Fresh rings with the handed-over bytes queued, and a decoder whose saved header is void. */
  predicate JustOpened(v: View, committed: seq<byte>) {
    v == View(committed, false, [], v.dec, [], 0, 0, 0, 0, 0) && v.dec.header.b0 == 0
  }

  lemma HungUpDepends(f: Listen, g: Listen)
    requires f.au == g.au && f.staged == g.staged
    ensures var h, k := HungUp(f), HungUp(g);
            h.au == k.au && !h.open && !k.open && (!h.au.Idle? ==> h.staged == k.staged) && h.committed == f.committed
  {
  }

  lemma NoWire(f: Listen, in_: Slice)
    requires !f.open
    ensures Wire(f, in_) == f
  {
  }

  /** Hanging up after a first move is hanging up on what that move left. */
  lemma HungUpOnward(g: Listen, late: nat)
    ensures var h, k := HungUp(Moved(g, late)), HungUp(Moved(g.(committed := []), late));
            && h.au == k.au && !h.open && !k.open && h.staged == k.staged && h.wire == k.wire
            && h.committed == g.committed + k.committed
  {
    var m := Moved(g.(committed := []), late);
    assert [] + m.committed == m.committed && g.committed + [] == g.committed;
    if g.au.Play? {
      var n := Min(|g.wire|, late);
      assert [] + g.wire[..n] == g.wire[..n];
    }
  }

  /** The first `n` buffered bytes of the transaction go to the end of the ring. */
  ghost function Piped(t: Transport.Tx, v: View, n: nat): (r: (Transport.Tx, View))
    requires n <= |t.data|
    ensures |r.0.data| == |t.data| - n && |r.1.queue| == |v.queue| + n
  {
    (t.(data := t.data[n..]), v.(queue := v.queue + t.data[..n]))
  }

  lemma PipedNothing(t: Transport.Tx, v: View)
    ensures Piped(t, v, 0) == (t, v)
  {
    assert t.data[0..] == t.data && v.queue + t.data[..0] == v.queue;
  }

  lemma PipedTwice(t: Transport.Tx, v: View, a: nat, b: nat)
    requires a + b <= |t.data|
    ensures var m := Piped(t, v, a);
            Piped(m.0, m.1, b) == Piped(t, v, a + b)
  {
    assert t.data[a..][b..] == t.data[a + b..];
    assert v.queue + t.data[..a] + t.data[a..][..b] == v.queue + t.data[..a + b];
  }

  lemma MovedKeeps(f: Listen, room: nat)
    ensures var g := Moved(f, room);
            && g.au == f.au && g.open == f.open && g.lost == f.lost
            && (!f.au.Play? ==> g.committed == f.committed)
            && (f.au.Play? ==> g.staged == f.staged && |g.committed| == |f.committed| + Min(|f.wire|, room))
  {
  }

  lemma WireCommits(f: Listen, in_: Slice)
    requires f.committed == []
    ensures !f.au.Play? ==> Wire(f, in_).committed == []
    ensures Wire(f, in_).au == f.au || Wire(f, in_).au.Idle?
    ensures f.au.Play? ==> Wire(f, in_).au.Play?
  {
  }

  lemma MinIs(a: nat, b: nat, m: nat)
    requires m <= a && m <= b && (m == a || m == b)
    ensures m == Min(a, b)
  {
  }

  /** A contiguous write inside the claimed region is a write at the write cursor. */
  lemma RegionStored(before: seq<byte>, after: seq<byte>, wr: nat, pos: nat, data: seq<byte>)
    requires |after| == |before| > 0 && pos == wr % |before| && pos + |data| <= |before|
    requires after[pos..pos + |data|] == data
    requires after[..pos] == before[..pos] && after[pos + |data|..] == before[pos + |data|..]
    ensures Stored(before, after, wr, data)
  {
    var size := |before|;
    forall i | 0 <= i < |data| ensures Unread(after, wr, |data|)[i] == data[i] {
      SlotOffset(wr, i, size);
      assert after[pos..pos + |data|][i] == after[pos + i];
    }
    forall x | wr + |data| <= x < wr + size ensures after[x % size] == before[x % size] {
      SlotOffset(wr, x - wr, size);
      var s := x % size;
      assert s < pos || s >= pos + |data|;
      if s < pos { assert after[..pos][s] == before[..pos][s]; }
      else { assert after[pos + |data|..][s - pos - |data|] == before[pos + |data|..][s - pos - |data|]; }
    }
  }
}
