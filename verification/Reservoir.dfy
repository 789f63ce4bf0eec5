/**
 * The bit reservoir of the Layer III decoder (src/minimp3.h, `L3_restore_reservoir`,
 * `L3_save_reservoir`): 511 bytes that stand for the whole stream decoded so far.
 */
module Reservoir {
  import opened Bytes
  import opened Memory
  import opened Bits
  import opened Mp3
  import opened Minimp3
  import opened SideInfo
  import opened Decoder
  import opened FrameSelect

  const MAX_RESERVOIR: nat := 511
  const MAX_PAYLOAD: nat := 2304

  /** The last `n` bytes, or all if there are fewer. */
  function Last(s: seq<byte>, n: nat): (r: seq<byte>)
    ensures |r| == Min(|s|, n)
  {
    s[|s| - Min(|s|, n)..]
  }

  lemma LastOfLast(s: seq<byte>, n: nat, m: nat)
    requires m <= n
    ensures Last(Last(s, n), m) == Last(s, m)
  {
  }

  lemma LastAppend(s: seq<byte>, t: seq<byte>, n: nat)
    ensures Last(Last(s, n) + t, n) == Last(s + t, n)
  {
    var k := |s| - Min(|s|, n);
    assert s[k..] + t == (s + t)[k..];
  }

  lemma LastIs(s: seq<byte>, from: nat, n: nat, at: nat)
    requires from <= at <= |s| && at == Max(from, |s| - n)
    ensures Last(s[from..], n) == s[at..]
  {
  }

  /** Whole bytes that `bits` bits reach into. */
  function BytesFor(bits: nat): nat { (bits + 7) / 8 }

  class Store {
    const buf: array<byte>
    const mainData: array<byte>
    var reserv: nat
    var pos: nat
    var limit: nat

    ghost predicate Valid()
      reads this
    {
      && buf.Length == MAX_RESERVOIR && mainData.Length == MAX_RESERVOIR + MAX_PAYLOAD && buf != mainData
      && reserv <= MAX_RESERVOIR && limit % 8 == 0 && limit <= 8 * mainData.Length
    }

    ghost function Held(): seq<byte>
      requires Valid()
      reads this, buf
    {
      buf[..reserv]
    }

    /** The bytes one frame's granules are read from. */
    ghost function Window(): seq<byte>
      requires Valid()
      reads this, mainData
    {
      mainData[..limit / 8]
    }

    constructor ()
      ensures Valid() && Held() == []
    {
      buf := new byte[MAX_RESERVOIR];
      mainData := new byte[MAX_RESERVOIR + MAX_PAYLOAD];
      reserv, pos, limit := 0, 0, 0;
    }

    /** Puts the wanted end of the reservoir before the frame's own payload. */
    method Restore(payload: seq<byte>, main: nat) returns (ok: bool)
      requires Valid() && |payload| <= MAX_PAYLOAD && main <= MAX_RESERVOIR
      modifies this`pos, this`limit, mainData
      ensures Valid() && Held() == old(Held()) && pos == 0 && limit == 8 * |Window()|
      ensures Window() == Last(Held(), main) + payload
      ensures ok <==> main <= |Held()|
    {
      var have := Min(reserv, main);
      var from := Max(0, reserv - main);
      CopyBytes(buf, from, have, mainData, 0);
      ghost var kept := mainData[..have];
      assert kept == mainData[0..0 + have] == Last(Held(), main);
      PutBytes(payload, mainData, have);
      pos, limit := 0, 8 * (have + |payload|);
      assert Window() == mainData[..have] + mainData[have..have + |payload|] == kept + payload;
      ok := reserv >= main;
    }

    /** The granules of a frame: each ends at the position its length gives. */
    method Granules(lengths: seq<nat>)
      requires Valid() && pos + Sum(lengths) <= limit
      modifies this`pos
      ensures pos == old(pos) + Sum(lengths)
    {
      var i := 0;
      assert lengths[0..] == lengths;
      while i < |lengths|
        invariant i <= |lengths| && pos + Sum(lengths[i..]) == old(pos) + Sum(lengths)
        invariant pos <= limit
      {
        pos := pos + lengths[i];
        assert lengths[i..][1..] == lengths[i + 1..];
        i := i + 1;
      }
    }

    /** Keeps the unread end of the window, at most 511 bytes. */
    method Save()
      requires Valid() && pos <= limit
      modifies this`reserv, buf
      ensures Valid() && Held() == Last(Window()[BytesFor(pos)..], MAX_RESERVOIR)
    {
      ghost var window := Window();
      var at := (pos + 7) / 8;
      var remains := limit / 8 - at;
      if remains > MAX_RESERVOIR {
        at := at + (remains - MAX_RESERVOIR);
        remains := MAX_RESERVOIR;
      }
      LastIs(window, BytesFor(pos), MAX_RESERVOIR, at);
      assert window[at..] == mainData[at..at + remains];
      CopyBytes(mainData, at, remains, buf, 0);
      reserv := remains;
      assert Held() == buf[0..0 + remains];
    }

    /** The reservoir's part of decoding one selected frame. */
    method Frame(frame: seq<byte>) returns (ok: bool)
      requires Valid() && 4 <= |frame| <= MAX_PAYLOAD
      modifies this, buf, mainData
      ensures Valid() && Held() == Kept(old(Held()), frame)
      ensures ok <==> Fed(old(Held()), frame)
      ensures ok ==> Window() == WindowOf(old(Held()), Sided(frame).value)
    {
      hide SideOf;
      if Layer(At(frame, 0)) != 1 { return false; }
      var side := OpenFrame(frame);
      if side.None? { return false; }
      SideFits(frame);
      ok := Restore(side.value.payload, side.value.main);
      if ok { Granules(side.value.lengths); }
      Save();
    }
  }

  /** The side information of a Layer III frame; the other layers have none and leave the reservoir alone. */
  function Sided(frame: seq<byte>): Option<Side>
    requires |frame| >= 4
  {
    if Layer(At(frame, 0)) == 1 then SideOf(frame) else None
  }

  lemma SidedFits(frame: seq<byte>)
    requires |frame| >= 4 && Sided(frame).Some?
    ensures var s := Sided(frame).value;
            && Sided(frame) == SideOf(frame) && s.main <= 511 && Sum(s.lengths) <= 8 * (s.main + |s.payload|)
            && |s.payload| < |frame|
  {
    hide SideOf;
    SideFits(frame);
  }

  function WindowOf(held: seq<byte>, side: Side): seq<byte> {
    Last(held, side.main) + side.payload
  }

  /** The frame can be decoded: its side information holds and its main data is at hand. */
  predicate Fed(held: seq<byte>, frame: seq<byte>)
    requires |frame| >= 4
  {
    Sided(frame).Some? && Sided(frame).value.main <= |held|
  }

  /** What one frame leaves in the reservoir. */
  function Kept(held: seq<byte>, frame: seq<byte>): (r: seq<byte>)
    requires |frame| >= 4
    ensures |held| <= MAX_RESERVOIR ==> |r| <= MAX_RESERVOIR
  {
    if Sided(frame).None? then held
    else
      SidedFits(frame);
      var side := Sided(frame).value;
      var used := if Fed(held, frame) then BytesFor(Sum(side.lengths)) else 0;
      Last(WindowOf(held, side)[used..], MAX_RESERVOIR)
  }

  // ---- the stream without a bound -----------------------------------------------------------

  /** Every payload so far, and where in it the unused bytes begin. */
  datatype Stream = Stream(all: seq<byte>, free: nat)

  predicate Inside(s: Stream) { s.free <= |s.all| }

  /** The frame's main data lies in bytes no earlier frame has used. */
  predicate Reaches(s: Stream, frame: seq<byte>)
    requires |frame| >= 4 && Inside(s)
  {
    Sided(frame).Some? && Sided(frame).value.main <= |s.all| - s.free
  }

  function Extend(s: Stream, frame: seq<byte>): (r: Stream)
    requires |frame| >= 4 && Inside(s)
    ensures Inside(r)
  {
    if Sided(frame).None? then s
    else
      SidedFits(frame);
      var side := Sided(frame).value;
      Stream(s.all + side.payload,
             if Reaches(s, frame) then |s.all| - side.main + BytesFor(Sum(side.lengths)) else s.free)
  }

  /** The 511 bytes the decoder would need of the stream. */
  function HeldOf(s: Stream): seq<byte>
    requires Inside(s)
  {
    Last(s.all[s.free..], MAX_RESERVOIR)
  }

  predicate Framed(frames: seq<seq<byte>>) {
    forall k :: 0 <= k < |frames| ==> |frames[k]| >= 4
  }

  function HeldAfter(frames: seq<seq<byte>>): seq<byte>
    requires Framed(frames)
  {
    if frames == [] then [] else Kept(HeldAfter(frames[..|frames| - 1]), frames[|frames| - 1])
  }

  function StreamAfter(frames: seq<seq<byte>>): (s: Stream)
    requires Framed(frames)
    ensures Inside(s)
  {
    if frames == [] then Stream([], 0) else Extend(StreamAfter(frames[..|frames| - 1]), frames[|frames| - 1])
  }

  lemma OneFrame(s: Stream, frame: seq<byte>)
    requires |frame| >= 4 && Inside(s)
    ensures Fed(HeldOf(s), frame) <==> Reaches(s, frame)
    ensures Kept(HeldOf(s), frame) == HeldOf(Extend(s, frame))
    ensures Reaches(s, frame) ==>
              var side := Sided(frame).value;
              WindowOf(HeldOf(s), side) == s.all[|s.all| - side.main..] + side.payload
  {
    hide Sided, Sum, Last, WindowOf;
    if Sided(frame).Some? {
      SidedFits(frame);
      var side := Sided(frame).value;
      if Reaches(s, frame) {
        WindowReaches(s, side);
        Leftover(s, side, BytesFor(Sum(side.lengths)));
      } else {
        var window := WindowOf(HeldOf(s), side);
        assert window[0..] == window;
        NothingUsed(s, side);
      }
    }
  }

  lemma WindowReaches(s: Stream, side: Side)
    requires Inside(s) && side.main <= |s.all| - s.free && side.main <= MAX_RESERVOIR
    ensures WindowOf(HeldOf(s), side) == s.all[|s.all| - side.main..] + side.payload
  {
    var unread := s.all[s.free..];
    LastOfLast(unread, MAX_RESERVOIR, side.main);
    assert unread[|unread| - side.main..] == s.all[|s.all| - side.main..];
  }

  lemma Leftover(s: Stream, side: Side, used: nat)
    requires side.main <= |s.all| && used <= side.main + |side.payload|
    ensures (s.all[|s.all| - side.main..] + side.payload)[used..]
            == (s.all + side.payload)[|s.all| - side.main + used..]
  {
    var back := |s.all| - side.main;
    assert s.all[back..] + side.payload == (s.all + side.payload)[back..];
  }

  lemma NothingUsed(s: Stream, side: Side)
    requires Inside(s) && side.main > |HeldOf(s)|
    ensures Last(WindowOf(HeldOf(s), side), MAX_RESERVOIR)
            == Last((s.all + side.payload)[s.free..], MAX_RESERVOIR)
  {
    var unread := s.all[s.free..];
    LastAppend(unread, side.payload, MAX_RESERVOIR);
    assert unread + side.payload == (s.all + side.payload)[s.free..];
  }

  /**
   * The bounded reservoir stands for the unbounded stream, over every run of frames: what it
   * holds is the last 511 bytes of what no frame has used yet, a suffix of all the payloads.
   */
  lemma {:induction false} ReservoirRefines(frames: seq<seq<byte>>)
    requires Framed(frames)
    ensures HeldAfter(frames) == HeldOf(StreamAfter(frames))
    ensures var held, all := HeldAfter(frames), StreamAfter(frames).all;
            |held| <= MAX_RESERVOIR && |held| <= |all| && held == all[|all| - |held|..]
  {
    hide Sided, Kept, Extend;
    if frames != [] {
      ReservoirRefines(frames[..|frames| - 1]);
      OneFrame(StreamAfter(frames[..|frames| - 1]), frames[|frames| - 1]);
    }
  }

  /** All the payloads: every frame whose side information holds adds its own. */
  lemma {:induction false} StreamIsPayloads(frames: seq<seq<byte>>)
    requires Framed(frames)
    ensures StreamAfter(frames).all == Flat(seq(|frames|, k requires 0 <= k < |frames| => Payload(frames[k])))
  {
    hide Sided, Sum;
    if frames != [] {
      var init, last := frames[..|frames| - 1], frames[|frames| - 1];
      StreamIsPayloads(init);
      var parts := seq(|init|, k requires 0 <= k < |init| => Payload(init[k]));
      FlatSnoc(parts, Payload(last));
      assert seq(|frames|, k requires 0 <= k < |frames| => Payload(frames[k])) == parts + [Payload(last)];
    }
  }

  function Payload(frame: seq<byte>): seq<byte>
    requires |frame| >= 4
  {
    if Sided(frame).None? then [] else Sided(frame).value.payload
  }

  // ---- the decoder over a reservoir ----------------------------------------------------------

  /** Any signal arithmetic over the frames before, this frame and its main-data window. */
  type Synth = (seq<seq<byte>>, seq<byte>, seq<byte>) -> seq<byte>

  /** The decoder's arithmetic, with the two ways a Layer III frame can fail made concrete. */
  function Layer3(synth: Synth, others: Dsp): Dsp {
    (past, frame) =>
      if !Framed(past) || |frame| < 4 then BadSideInfo
      else if Layer(At(frame, 0)) != 1 then others(past, frame)
      else if Sided(frame).None? then BadSideInfo
      else if !Fed(HeldAfter(past), frame) then ShortReservoir
      else Pcm(synth(past, frame, WindowOf(HeldAfter(past), Sided(frame).value)))
  }

  /** What the arithmetic makes of a Layer III frame, in terms of the unbounded stream. */
  lemma Layer3Makes(synth: Synth, others: Dsp, past: seq<seq<byte>>, frame: seq<byte>)
    requires |frame| >= 4 && Layer(At(frame, 0)) == 1 && Framed(past)
    ensures var made, s := Layer3(synth, others)(past, frame), StreamAfter(past);
            made == if Sided(frame).None? then BadSideInfo
                    else if !Reaches(s, frame) then ShortReservoir
                    else
                      var side := Sided(frame).value;
                      Pcm(synth(past, frame, s.all[|s.all| - side.main..] + side.payload))
  {
    hide Sided, Kept, Extend, HeldOf, WindowOf, HeldAfter, StreamAfter;
    ReservoirRefines(past);
    OneFrame(StreamAfter(past), frame);
  }

  /**
   * A Layer III frame is heard exactly when its side information holds and its main data was not used
   * before; it is then decoded from the window that starts `main` bytes before its payload.
   */
  lemma HeardIffReached(synth: Synth, others: Dsp, d: Dec, frame: seq<byte>, consumed: nat)
    requires |frame| >= 4 && Layer(At(frame, 0)) == 1 && Framed(d.past)
    ensures var r, s := RunFrame(Layer3(synth, others), d, frame, consumed), StreamAfter(d.past);
            && (Layer3(synth, others)(d.past, frame).Pcm? <==> Reaches(s, frame))
            && (r.dec.header.b0 == frame[0] || r.dec.header.b0 == 0)
            && (Sided(frame).None? ==> r.dec.header.b0 == 0 && r.samples == 0 && r.pcm == [])
            && (Sided(frame).Some? && !Reaches(s, frame) ==> r.samples == 0 && r.pcm == [])
            && (Reaches(s, frame) ==>
                  var side := Sided(frame).value;
                  var window := s.all[|s.all| - side.main..] + side.payload;
                  r.pcm == FitTo(synth(d.past, frame, window), PcmBytes(At(frame, 0))))
  {
    hide Sided, Layer3, StreamAfter, FitTo;
    Layer3Makes(synth, others, d.past, frame);
  }
}
