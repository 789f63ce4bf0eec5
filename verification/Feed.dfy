/**
 * From the socket to the compressed ring: header strip, sync, handoff and feeding
 * (os9/casquinha.c, lines 1889-2006).
 */
module Feed {
  import opened Bytes
  import opened Cursors
  import opened Rings
  import opened Mp3
  import opened Pump
  import opened DecRing
  import Transport

  const STAGING: nat := 64 * 1024
  const HEADER_LIMIT: nat := 8192
  const SYNC_LIMIT: nat := 32 * 1024
  const COMP_RING: nat := 256 * 1024

  datatype Au = Idle | Http | Syncing | Play

  /** `lost`: what was still buffered in the transport when it was freed. */
  datatype Listen = Listen(
    au: Au, open: bool, staged: seq<byte>, wire: seq<byte>, committed: seq<byte>, lost: seq<byte>)

  /**
   * What one service slice meets: bytes that arrived, the stream's end, room in the ring, and
   * the room there is by the time of the last drain when the stream has ended.
   */
  datatype Slice = Slice(arrived: seq<byte>, closed: bool, room: nat, late: nat)

  predicate HeaderEndsAt(buf: seq<byte>, i: nat) {
    i + 4 <= |buf| && buf[i] == 13 && buf[i + 1] == 10 && buf[i + 2] == 13 && buf[i + 3] == 10
  }

  /** Offset just past the first CRLFCRLF at or after `i`, or -1. */
  function HeaderEnd(buf: seq<byte>, i: nat): int
    decreases |buf| - i
  {
    if i + 4 > |buf| then -1 else if HeaderEndsAt(buf, i) then i + 4 else HeaderEnd(buf, i + 1)
  }

  function Stopped(f: Listen): Listen {
    f.(au := Idle, open := false, staged := [])
  }

  /** The drain: into the ring while playing, into the staging buffer before. */
  function Moved(f: Listen, room: nat): Listen {
    var n := Min(|f.wire|, if f.au.Play? then room else STAGING - Min(|f.staged|, STAGING));
    if f.au.Play? then f.(wire := f.wire[n..], committed := f.committed + f.wire[..n])
    else f.(wire := f.wire[n..], staged := f.staged + f.wire[..n])
  }

  /** The transport is freed with whatever it still buffers. */
  function HungUp(f: Listen): Listen {
    if f.au.Play? then f.(open := false, lost := f.wire, wire := []) else Stopped(f)
  }

  /** 1) the wire: poll, drain, note death. */
  function Wire(f: Listen, in_: Slice): Listen {
    if !f.open then f
    else
      var g := Moved(f.(wire := f.wire + in_.arrived), in_.room);
      if in_.closed then HungUp(Moved(g, in_.late)) else g
  }

  lemma HeaderEndInside(buf: seq<byte>, i: nat)
    ensures HeaderEnd(buf, i) <= |buf|
    decreases |buf| - i
  {
  }

  /** 2) strip the response header. */
  function Strip(f: Listen): Listen {
    if !f.au.Http? || |f.staged| < 4 then f
    else
      HeaderEndInside(f.staged, 0);
      var h := HeaderEnd(f.staged, 0);
      if h >= 0 then f.(au := Syncing, staged := f.staged[h..])
      else if |f.staged| > HEADER_LIMIT then Stopped(f)
      else f
  }

  /** 3) find the first confirmed frame and hand everything from it on to the ring. */
  function SyncUp(f: Listen): Listen {
    if !f.au.Syncing? then f
    else
      SyncInside(f.staged);
      var off := SyncFrom(f.staged, 0);
      if off >= 0 then f.(au := Play, staged := [], committed := f.staged[off..])
      else if |f.staged| > SYNC_LIMIT then Stopped(f)
      else f
  }

  /** Parts 2 and 3. */
  function Head(g: Listen): Listen {
    var h := if g.au.Http? then Strip(g) else g;
    if h.au.Idle? then h else SyncUp(h)
  }

  /** One call of `ServiceAudio`. */
  function Service(f: Listen, in_: Slice): Listen {
    if f.au.Idle? then f
    else
      var g := Wire(f, in_);
      if g.au.Idle? then g else Head(g)
  }

  /** The head of the stream is judged by the staged bytes alone. */
  lemma HeadDepends(f: Listen, g: Listen)
    requires f.au == g.au && f.open == g.open && f.staged == g.staged
    ensures var h, k := Head(f), Head(g);
            && h.au == k.au && h.open == k.open && h.staged == k.staged && h.wire == f.wire
            && (h.au.Play? && !f.au.Play? ==> h.committed == k.committed)
            && (f.au.Play? ==> h == f) && (!h.au.Idle? ==> h.open == f.open)
  {
    hide ParseHeader, SyncFrom, HeaderEnd;
  }

  const TUNING: Listen := Listen(Http, true, [], [], [], [])

  // ---- chunk independence -------------------------------------------------------------------

  lemma {:induction false} HeaderStable(buf: seq<byte>, more: seq<byte>, i: nat)
    requires HeaderEnd(buf, i) >= 0
    ensures HeaderEnd(buf + more, i) == HeaderEnd(buf, i)
    decreases |buf| - i
  {
    if !HeaderEndsAt(buf, i) {
      HeaderStable(buf, more, i + 1);
    }
  }

  /** Where the audio starts in the bytes received: past the header, at the first confirmed frame. */
  ghost predicate StartsAt(received: seq<byte>, h: nat, off: nat) {
    && h <= |received| && HeaderEnd(received, 0) == h
    && SyncFrom(received[h..], 0) == off && h + off <= |received|
  }

  lemma StartStable(received: seq<byte>, more: seq<byte>, h: nat, off: nat)
    requires StartsAt(received, h, off)
    ensures StartsAt(received + more, h, off)
  {
    hide ParseHeader, SyncFrom;
    HeaderStable(received, more, 0);
    assert (received + more)[h..] == received[h..] + more;
    SyncStable(received[h..], more);
  }

  /** Where every received byte is. */
  ghost predicate Placed(f: Listen, received: seq<byte>) {
    match f.au
    case Idle => true
    case Http => f.open && f.lost == [] && f.staged + f.wire == received
    case Syncing =>
      && f.open && f.lost == []
      && exists h: nat :: h <= |received| && HeaderEnd(received, 0) == h && f.staged + f.wire == received[h..]
    case Play =>
      && f.staged == [] && (f.open ==> f.lost == [])
      && exists h: nat, off: nat ::
           StartsAt(received, h, off) && h + off <= |received|
           && f.committed + f.wire + f.lost == received[h + off..]
  }

  lemma PlayPlaced(f: Listen, in_: Slice, received: seq<byte>)
    requires Placed(f, received) && f.open && f.au.Play?
    ensures Placed(Wire(f, in_), received + in_.arrived)
  {
    hide ParseHeader, SyncFrom, HeaderEnd, StartsAt, Wire;
    var h: nat, off: nat :|
      StartsAt(received, h, off) && h + off <= |received| && f.committed + f.wire + f.lost == received[h + off..];
    StartStable(received, in_.arrived, h, off);
    assert (received + in_.arrived)[h + off..] == received[h + off..] + in_.arrived;
    assert f.committed + f.wire + [] == f.committed + f.wire;
    Regroup(f.committed, f.wire, in_.arrived,
            Min(|f.wire + in_.arrived|, in_.room + if in_.closed then in_.late else 0));
    CommitsOrLoses(f, in_);
  }

  /** Taking `n` more bytes off the wire moves bytes, and drops none. */
  lemma Regroup(committed: seq<byte>, wire: seq<byte>, arrived: seq<byte>, n: nat)
    requires n <= |wire + arrived|
    ensures committed + (wire + arrived)[..n] + (wire + arrived)[n..] == committed + wire + arrived
  {
    var w := wire + arrived;
    assert w == w[..n] + w[n..];
    assert committed + w[..n] + w[n..] == committed + w;
    assert committed + w == committed + wire + arrived;
  }

  lemma CommitsOrLoses(f: Listen, in_: Slice)
    requires f.open && f.au.Play? && f.lost == []
    ensures var g, w := Wire(f, in_), f.wire + in_.arrived;
            var n := Min(|w|, in_.room + if in_.closed then in_.late else 0);
            && g.au == Play && g.staged == f.staged && (g.open ==> g.lost == [])
            && g.committed + g.wire + g.lost == f.committed + w[..n] + w[n..]
  {
    hide Moved, HungUp;
    var g, w := Wire(f, in_), f.wire + in_.arrived;
    var room := in_.room + if in_.closed then in_.late else 0;
    if in_.closed { MovedTwice(f.(wire := w), in_.room, in_.late); }
    MovedInPlay(f.(wire := w), room);
    Closing(Moved(f.(wire := w), room));
    Last(g.committed, w[Min(|w|, room)..]);
  }

  lemma MovedInPlay(f: Listen, room: nat)
    requires f.au.Play?
    ensures var n, g := Min(|f.wire|, room), Moved(f, room);
            && g == f.(wire := g.wire, committed := g.committed)
            && g.wire == f.wire[n..] && g.committed == f.committed + f.wire[..n]
  {
  }

  lemma Closing(f: Listen)
    ensures f.au.Play? ==> HungUp(f) == f.(open := false, lost := f.wire, wire := [])
  {
  }

  lemma Last(committed: seq<byte>, rest: seq<byte>)
    ensures committed + rest + [] == committed + [] + rest == committed + rest
  {
  }

  /** Two drains are one with the room of both. */
  lemma MovedTwice(f: Listen, room: nat, late: nat)
    requires f.au.Play?
    ensures Moved(Moved(f, room), late) == Moved(f, room + late)
  {
    var w, n := f.wire, Min(|f.wire|, room);
    var m := Min(|w[n..]|, late);
    assert w[n..][m..] == w[n + m..];
    assert f.committed + w[..n] + w[n..][..m] == f.committed + w[..n + m];
  }

  lemma WirePlaced(f: Listen, in_: Slice, received: seq<byte>)
    requires Placed(f, received) && f.open
    ensures Placed(Wire(f, in_), received + in_.arrived)
  {
    hide ParseHeader, SyncFrom, HeaderEnd, StartsAt;
    if f.au.Play? {
      PlayPlaced(f, in_, received);
    } else {
      Regroup(f.staged, f.wire, in_.arrived, Min(|f.wire + in_.arrived|, STAGING - Min(|f.staged|, STAGING)));
      if f.au.Syncing? {
        var h: nat :| h <= |received| && HeaderEnd(received, 0) == h && f.staged + f.wire == received[h..];
        HeaderStable(received, in_.arrived, 0);
        assert (received + in_.arrived)[h..] == received[h..] + in_.arrived;
      }
    }
  }

  lemma StripPlaced(f: Listen, received: seq<byte>)
    requires Placed(f, received)
    ensures Placed(Strip(f), received)
  {
    hide ParseHeader, SyncFrom;
    HeaderEndInside(f.staged, 0);
    if f.au.Http? && |f.staged| >= 4 && HeaderEnd(f.staged, 0) >= 0 {
      var h := HeaderEnd(f.staged, 0);
      HeaderStable(f.staged, f.wire, 0);
      assert received[h..] == f.staged[h..] + f.wire;
    }
  }

  lemma SyncPlaced(f: Listen, received: seq<byte>)
    requires Placed(f, received)
    ensures Placed(SyncUp(f), received)
  {
    hide ParseHeader, SyncFrom, HeaderEnd;
    SyncInside(f.staged);
    if f.au.Syncing? && SyncFrom(f.staged, 0) >= 0 {
      var h: nat :| h <= |received| && HeaderEnd(received, 0) == h && f.staged + f.wire == received[h..];
      var off: nat := SyncFrom(f.staged, 0);
      SyncStable(f.staged, f.wire);
      assert received[h + off..] == received[h..][off..];
      assert (f.staged + f.wire)[off..] == f.staged[off..] + f.wire;
      assert StartsAt(received, h, off);
      var g := SyncUp(f);
      assert g.committed + g.wire + g.lost == received[h + off..];
    }
  }

  function Run(f: Listen, slices: seq<Slice>): Listen
    decreases |slices|
  {
    if slices == [] then f else Run(Service(f, slices[0]), slices[1..])
  }

  /** The bytes the server sent while the stream was open. */
  function Received(f: Listen, slices: seq<Slice>): seq<byte>
    decreases |slices|
  {
    if slices == [] || f.au.Idle? || !f.open then []
    else slices[0].arrived + Received(Service(f, slices[0]), slices[1..])
  }

  lemma ServicePlaced(f: Listen, in_: Slice, received: seq<byte>)
    requires Placed(f, received)
    ensures Placed(Service(f, in_), received + if f.au.Idle? || !f.open then [] else in_.arrived)
  {
    hide Placed, Strip, SyncUp;
    if f.au.Idle? {
      assert Placed(f, received + []) by { assert received + [] == received; }
    } else {
      var now := received + if !f.open then [] else in_.arrived;
      if f.open { WirePlaced(f, in_, received); } else { assert now == received; }
      var g := Wire(f, in_);
      StripPlaced(g, now);
      SyncPlaced(g, now);
      SyncPlaced(Strip(g), now);
    }
  }

  lemma {:induction false} RunPlaced(f: Listen, slices: seq<Slice>, received: seq<byte>)
    requires Placed(f, received)
    ensures Placed(Run(f, slices), received + Received(f, slices))
    decreases |slices|
  {
    hide Placed, Service;
    if slices == [] {
      assert received + [] == received;
    } else {
      ServicePlaced(f, slices[0], received);
      var g := Service(f, slices[0]);
      var now := received + if f.au.Idle? || !f.open then [] else slices[0].arrived;
      RunPlaced(g, slices[1..], now);
      Deaf(f, slices);
      assert now + Received(g, slices[1..]) == received + Received(f, slices);
    }
  }

  /** A closed or stopped listen hears nothing more. */
  lemma {:induction false} Deaf(f: Listen, slices: seq<Slice>)
    requires slices != []
    ensures f.au.Idle? || !f.open ==> Received(Service(f, slices[0]), slices[1..]) == []
  {
  }

  /**
   * End-to-end FIFO. For any chunking of the wire and any room in the ring at each slice:
   * once playing, the bytes committed, then those still buffered, then those dropped at the
   * close, are the received bytes from the first confirmed frame after the first CRLFCRLF on.
   */
  lemma HandoffExact(slices: seq<Slice>)
    requires Run(TUNING, slices).au.Play?
    ensures var f, received := Run(TUNING, slices), Received(TUNING, slices);
            && (f.open ==> f.lost == [])
            && exists h: nat, off: nat ::
                 StartsAt(received, h, off) && h + off <= |received|
                 && f.committed + f.wire + f.lost == received[h + off..]
  {
    hide Run, Received, StartsAt;
    RunPlaced(TUNING, slices, []);
    assert [] + Received(TUNING, slices) == Received(TUNING, slices);
  }

  /** Two listens that received the same bytes and both came to play, play the same bytes. */
  lemma PlaysIgnoreChunks(a: seq<Slice>, b: seq<Slice>)
    requires Run(TUNING, a).au.Play? && Run(TUNING, b).au.Play?
    requires Received(TUNING, a) == Received(TUNING, b)
    ensures var f, g := Run(TUNING, a), Run(TUNING, b);
            f.committed + f.wire + f.lost == g.committed + g.wire + g.lost
  {
    hide Run, Received, SyncFrom, HeaderEnd;
    HandoffExact(a);
    HandoffExact(b);
  }

  /** The slice that finds the stream closed loses exactly what does not fit in the ring by then. */
  lemma CloseLoses(f: Listen, in_: Slice)
    requires f.au.Play? && f.open && f.lost == [] && in_.closed
    ensures var g := Service(f, in_);
            && (g.lost == [] <==> |f.wire + in_.arrived| <= in_.room + in_.late)
            && g.wire == [] && g.committed + g.lost == f.committed + f.wire + in_.arrived
            && |g.lost| == Max(0, |f.wire + in_.arrived| - (in_.room + in_.late))
  {
    hide ParseHeader, SyncFrom, HeaderEnd;
    MovedTwice(f.(wire := f.wire + in_.arrived), in_.room, in_.late);
    Regroup(f.committed, f.wire, in_.arrived, Min(|f.wire + in_.arrived|, in_.room + in_.late));
  }

  /** Three bytes still buffered, one byte of room: two of them are never heard. */
  lemma CloseLosesTwo()
    ensures var f := Listen(Play, true, [], [7, 8], [], []);
            var g := Service(f, Slice([9], true, 1, 0));
            g.committed == [7] && g.lost == [8, 9] && !g.open
  {
    hide ParseHeader, SyncFrom, HeaderEnd;
    assert [7, 8] + [9] == [7, 8, 9];
    assert [7, 8, 9][1..] == [8, 9] && [7, 8, 9][..1] == [7];
    assert [8, 9][0..] == [8, 9] && [] + [7] == [7] && [7] + [8, 9][..0] == [7];
  }
}
