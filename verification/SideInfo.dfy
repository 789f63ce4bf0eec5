/** Layer III side information (src/minimp3.h, `L3_read_side_info` and its caller). */
module SideInfo {
  import opened Arithmetic
  import opened Bytes
  import opened Bits
  import opened Mp3
  import opened Minimp3

  /** Where the main data begins, the granule lengths in bits, and the bytes that follow. */
  datatype Side = Side(main: nat, lengths: seq<nat>, payload: seq<byte>)

  predicate HasCrc(h: Hdr) { h.b1 % 2 == 0 }
  function Granules(h: Hdr): nat { if IsMpeg1(h) then 2 * Channels(h) else Channels(h) }

  /** Bits before the first granule, and bits of one granule. */
  function HeadBits(h: Hdr): nat { if IsMpeg1(h) then 16 + Granules(h) else 8 + Granules(h) }
  function GranuleBits(h: Hdr): nat { if IsMpeg1(h) then 59 else 63 }

  /** Section 2.4.1.7 of ISO/IEC 11172-3 and its half-rate extension: 32, 17, 17 or 9 bytes. */
  function SideBytes(h: Hdr): nat {
    if IsMpeg1(h) then (if Channels(h) == 1 then 17 else 32) else if Channels(h) == 1 then 9 else 17
  }

  lemma SideBytesAdd(h: Hdr)
    ensures HeadBits(h) + Granules(h) * GranuleBits(h) == 8 * SideBytes(h)
  {
    assert Granules(h) == 1 || Granules(h) == 2 || Granules(h) == 4;
  }

  /** The first bit of the window-switching field of a granule at `at`. */
  function SwitchAt(h: Hdr, at: nat): nat { at + if IsMpeg1(h) then 33 else 38 }

  /** More than 288 big values, or a switched window with the forbidden block type 0. */
  predicate BadGranule(h: Hdr, buf: seq<byte>, at: nat) {
    || Got(buf, at + 12, 9) > 288
    || (Got(buf, SwitchAt(h, at), 1) == 1 && Got(buf, SwitchAt(h, at) + 1, 2) == 0)
  }

  function GranuleAt(h: Hdr, start: nat, i: nat): nat {
    start + HeadBits(h) + i * GranuleBits(h)
  }

  function Lengths(h: Hdr, buf: seq<byte>, start: nat, n: nat): (r: seq<nat>)
    ensures |r| == n
  {
    seq(n, i requires 0 <= i < n => Got(buf, GranuleAt(h, start, i), 12))
  }

  predicate AnyBad(h: Hdr, buf: seq<byte>, start: nat, n: nat) {
    exists i :: 0 <= i < n && BadGranule(h, buf, GranuleAt(h, start, i))
  }

  function MainBits(h: Hdr): nat { if IsMpeg1(h) then 9 else 8 }

  /** What the side information of a whole frame says; none when the decoder gives the frame up. */
  function SideOf(frame: seq<byte>): Option<Side>
    requires |frame| >= 4
  {
    var h, buf := At(frame, 0), frame[4..];
    var start := if HasCrc(h) then 16 else 0;
    var end := start / 8 + SideBytes(h);
    if |buf| < end || AnyBad(h, buf, start, Granules(h)) then None
    else
      var main, lengths := Value(buf, start, MainBits(h)), Lengths(h, buf, start, Granules(h));
      if Sum(lengths) > 8 * (main + |buf| - end) then None
      else Some(Side(main, lengths, buf[end..]))
  }

  /** The main data starts at most 511 bytes back, and the granules end within what is at hand. */
  lemma SideFits(frame: seq<byte>)
    requires |frame| >= 4 && SideOf(frame).Some?
    ensures var s := SideOf(frame).value;
            && s.main <= 511 && Sum(s.lengths) <= 8 * (s.main + |s.payload|)
            && |s.payload| < |frame| && s.payload == frame[|frame| - |s.payload|..]
  {
    hide Value, BadGranule;
    var h, buf := At(frame, 0), frame[4..];
    ValueBound(buf, if HasCrc(h) then 16 else 0, MainBits(h));
    assert Pow2(4) == 16 && Pow2(6) == 64 && Pow2(8) == 256;
  }

  /** Reads one granule; the fields only the signal arithmetic uses are skipped over. */
  method ReadGranule(bs: BitReader, h: Hdr) returns (length: nat, bad: bool)
    modifies bs
    ensures length == Got(bs.buf, old(bs.pos), 12)
    ensures bad <==> BadGranule(h, bs.buf, old(bs.pos))
    ensures !bad ==> bs.pos == old(bs.pos) + GranuleBits(h)
  {
    hide Value, Got;
    length := bs.GetBits(12);
    var big := bs.GetBits(9);
    if big > 288 { return length, true; }
    var _ := bs.GetBits(8);
    var _ := bs.GetBits(if IsMpeg1(h) then 4 else 9);
    var switched := bs.GetBits(1);
    GotBit(bs.buf, SwitchAt(h, old(bs.pos)));
    if switched != 0 {
      var blockType := bs.GetBits(2);
      if blockType == 0 { return length, true; }
      var _ := bs.GetBits(1);
      var _ := bs.GetBits(10);
      var _ := bs.GetBits(3);
      var _ := bs.GetBits(3);
      var _ := bs.GetBits(3);
    } else {
      var _ := bs.GetBits(15);
      var _ := bs.GetBits(4);
      var _ := bs.GetBits(3);
    }
    if IsMpeg1(h) { var _ := bs.GetBits(1); }
    var _ := bs.GetBits(1);
    var _ := bs.GetBits(1);
    bad := false;
  }

  lemma GotBit(buf: seq<byte>, pos: nat)
    ensures Got(buf, pos, 1) <= 1
  {
    if pos + 1 <= 8 * |buf| { ValueBound(buf, pos, 1); }
  }

  /** What the reader returns before the caller has checked that the frame was long enough. */
  function ReadSpec(h: Hdr, buf: seq<byte>, start: nat): (main: int) {
    var n := Granules(h);
    var first := if IsMpeg1(h) then Got(buf, start, 9) else Got(buf, start, 8 + n) / Pow2(n);
    if AnyBad(h, buf, start, n) then -1
    else if Sum(Lengths(h, buf, start, n)) + start + 8 * SideBytes(h) > 8 * |buf| + 8 * first then -1
    else first
  }

  method ReadSideInfo(bs: BitReader, h: Hdr) returns (main: int, lengths: seq<nat>)
    modifies bs
    ensures main == ReadSpec(h, bs.buf, old(bs.pos))
    ensures main >= 0 ==> bs.pos == old(bs.pos) + 8 * SideBytes(h)
                          && lengths == Lengths(h, bs.buf, old(bs.pos), Granules(h))
  {
    hide Value, Got, BadGranule, Sum;
    ghost var start := bs.pos;
    var n := Granules(h);
    lengths := [];
    if IsMpeg1(h) {
      main := bs.GetBits(9);
      var _ := bs.GetBits(7 + n);
    } else {
      main := bs.GetBits(8 + n);
      main := main / Pow2(n);
    }
    ghost var first := main;
    var total: nat := 0;
    var i := 0;
    SumNothing();
    while i < n
      invariant i <= n && bs.pos == GranuleAt(h, start, i)
      invariant lengths == Lengths(h, bs.buf, start, i) && total == Sum(lengths)
      invariant !AnyBad(h, bs.buf, start, i)
    {
      var length, bad := ReadGranule(bs, h);
      if bad { return -1, lengths; }
      SumSnoc(lengths, length);
      total := total + length;
      lengths := lengths + [length];
      assert (i + 1) * GranuleBits(h) == i * GranuleBits(h) + GranuleBits(h);
      i := i + 1;
    }
    SideBytesAdd(h);
    if total + bs.pos > bs.Limit() + main * 8 { main := -1; }
  }

  lemma SumNothing()
    ensures Sum([]) == 0
  {
  }

  lemma {:induction false} SumSnoc(ns: seq<nat>, x: nat)
    ensures Sum(ns + [x]) == Sum(ns) + x
  {
    if ns == [] {
      assert [x][1..] == [];
    } else {
      SumSnoc(ns[1..], x);
      assert (ns + [x])[1..] == ns[1..] + [x];
    }
  }

  /** The caller: skip the checksum, read, and give up a frame too short for what it says. */
  method OpenFrame(frame: seq<byte>) returns (side: Option<Side>)
    requires |frame| >= 4
    ensures side == SideOf(frame)
  {
    hide Value, BadGranule, Sum;
    var h := At(frame, 0);
    var bs := new BitReader(frame[4..]);
    if HasCrc(h) { var _ := bs.GetBits(16); }
    ghost var start := bs.pos;
    var main, lengths := ReadSideInfo(bs, h);
    if main < 0 || bs.pos > bs.Limit() {
      if 8 * |bs.buf| >= start + 8 * SideBytes(h) { MainFits(h, bs.buf, start); }
      return None;
    }
    MainFits(h, bs.buf, start);
    side := Some(Side(main, lengths, bs.buf[bs.pos / 8..]));
  }

  lemma MainFits(h: Hdr, buf: seq<byte>, start: nat)
    requires start + 8 * SideBytes(h) <= 8 * |buf|
    ensures (if IsMpeg1(h) then Got(buf, start, 9) else Got(buf, start, 8 + Granules(h)) / Pow2(Granules(h)))
            == Value(buf, start, MainBits(h))
  {
    hide Value, Pow2;
    ValueShift(buf, start, 8, Granules(h));
  }
}
