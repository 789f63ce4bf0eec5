/**
 * The side information in raw bytes: where its fields lie in a whole frame, header and
 * checksum included (sections 2.4.1.4 and 2.4.1.7 of ISO/IEC 11172-3), and that the decoder
 * reads exactly those (src/minimp3.h, lines 484-607 and 1753-1766).
 */
module SideLayout {
  import opened Arithmetic
  import opened Bytes
  import opened Bits
  import opened Mp3
  import opened Minimp3
  import opened SideInfo

  /** Length of the side information, its first granule and the width of each, in bits, and their number. */
  datatype Table = Table(bytes: nat, first: nat, granules: nat, width: nat, switch: nat)

  /** By the version bit and the two mode bits of the header. */
  function TableOf(b1: byte, b3: byte): Table {
    if b1 / 8 % 2 == 1 then
      if b3 / 64 == 3 then Table(17, 18, 2, 59, 33) else Table(32, 20, 4, 59, 33)
    else
      if b3 / 64 == 3 then Table(9, 9, 1, 63, 38) else Table(17, 10, 2, 63, 38)
  }

  /** The side information starts behind the header, and behind two bytes of checksum if the last bit of byte 1 is 0. */
  function SideStart(b1: byte): nat {
    if b1 % 2 == 0 then 6 else 4
  }

  /** Bits `at` to `at + n` of the frame as a number. */
  function Field(frame: seq<byte>, at: nat, n: nat): nat {
    if at + n <= 8 * |frame| then Value(frame, at, n) else 0
  }

  predicate Refused(frame: seq<byte>, t: Table, at: nat) {
    Field(frame, at + 12, 9) > 288 || (Field(frame, at + t.switch, 1) == 1 && Field(frame, at + t.switch + 1, 2) == 0)
  }

  /** The first bit of granule `i`. */
  function GranuleBit(t: Table, start: nat, i: nat): nat {
    8 * start + t.first + i * t.width
  }

  predicate AnyRefused(frame: seq<byte>, t: Table, start: nat) {
    exists i: nat :: i < t.granules && Refused(frame, t, GranuleBit(t, start, i))
  }

  function GranuleLengths(frame: seq<byte>, t: Table, start: nat): seq<nat> {
    seq(t.granules, i requires 0 <= i < t.granules => Field(frame, GranuleBit(t, start, i), 12))
  }

  /** Nine bits from `start` on, or eight below MPEG 1. */
  function MainAt(frame: seq<byte>, start: nat): nat
    requires |frame| >= start + 2 && |frame| >= 4
  {
    if frame[1] / 8 % 2 == 1 then 2 * (frame[start] as nat) + (frame[start + 1] as nat) / 128 else frame[start]
  }

  /** What the bytes of a frame say. */
  function Layout(frame: seq<byte>): Option<Side>
    requires |frame| >= 4
  {
    var t, start := TableOf(frame[1], frame[3]), SideStart(frame[1]);
    if |frame| < start + t.bytes || AnyRefused(frame, t, start) then None
    else
      var main, lengths, payload := MainAt(frame, start), GranuleLengths(frame, t, start), frame[start + t.bytes..];
      if Sum(lengths) > 8 * (main + |payload|) then None else Some(Side(main, lengths, payload))
  }

  lemma {:induction false} ValueBehind(frame: seq<byte>, k: nat, at: nat, n: nat)
    requires k <= |frame| && at + n <= 8 * (|frame| - k)
    ensures Value(frame[k..], at, n) == Value(frame, 8 * k + at, n)
  {
    hide Bit;
    if n > 0 {
      ValueBehind(frame, k, at, n - 1);
      BitBehind(frame, k, at + n - 1);
    }
  }

  lemma BitBehind(frame: seq<byte>, k: nat, at: nat)
    requires k <= |frame| && at < 8 * (|frame| - k)
    ensures Bit(frame[k..], at) == Bit(frame, 8 * k + at)
  {
    hide Pow2;
    assert (8 * k + at) / 8 == k + at / 8 && (8 * k + at) % 8 == at % 8;
  }

  lemma GotIsField(frame: seq<byte>, at: nat, n: nat)
    requires |frame| >= 4
    ensures Got(frame[4..], at, n) == Field(frame, 32 + at, n)
  {
    hide Value;
    if at + n <= 8 * (|frame| - 4) { ValueBehind(frame, 4, at, n); }
  }

  lemma MainInBytes(frame: seq<byte>, at: nat)
    requires |frame| >= at + 2
    ensures Value(frame, 8 * at, 8) == frame[at] as nat
    ensures Value(frame, 8 * at, 9) == 2 * (frame[at] as nat) + (frame[at + 1] as nat) / 128
  {
    ByteIsValue(frame, at);
    HeadOfByte(frame, at + 1, 1);
    assert Pow2(4) == 16 && Pow2(6) == 64 && Pow2(7) == 128;
    ValueConcat(frame, 8 * at, 8, 1);
  }

  lemma SameTable(frame: seq<byte>)
    requires |frame| >= 4
    ensures var h, t := At(frame, 0), TableOf(frame[1], frame[3]);
            && t.granules == Granules(h) && t.bytes == SideBytes(h) && t.bytes >= 9
            && 4 + (if HasCrc(h) then 16 else 0) / 8 == SideStart(frame[1])
            && MainBits(h) == if frame[1] / 8 % 2 == 1 then 9 else 8
  {
  }

  lemma SameGranule(frame: seq<byte>, i: nat)
    requires |frame| >= 4
    ensures var h, t, at := At(frame, 0), TableOf(frame[1], frame[3]), SideStart(frame[1]);
            var g := GranuleAt(h, if HasCrc(h) then 16 else 0, i);
            && (BadGranule(h, frame[4..], g) <==> Refused(frame, t, GranuleBit(t, at, i)))
            && Got(frame[4..], g, 12) == Field(frame, GranuleBit(t, at, i), 12)
  {
    hide Got, Field;
    var h, t := At(frame, 0), TableOf(frame[1], frame[3]);
    var g := GranuleAt(h, if HasCrc(h) then 16 else 0, i);
    assert 32 + g == GranuleBit(t, SideStart(frame[1]), i);
    GotIsField(frame, g, 12);
    GotIsField(frame, g + 12, 9);
    GotIsField(frame, SwitchAt(h, g), 1);
    GotIsField(frame, SwitchAt(h, g) + 1, 2);
  }

  lemma SameRefusals(frame: seq<byte>)
    requires |frame| >= 4
    ensures var h, t, at := At(frame, 0), TableOf(frame[1], frame[3]), SideStart(frame[1]);
            var start := if HasCrc(h) then 16 else 0;
            && (AnyBad(h, frame[4..], start, Granules(h)) <==> AnyRefused(frame, t, at))
            && Lengths(h, frame[4..], start, Granules(h)) == GranuleLengths(frame, t, at)
  {
    hide BadGranule, Refused, Got, Field, Granules, GranuleAt, GranuleBit, TableOf;
    var h, t, at := At(frame, 0), TableOf(frame[1], frame[3]), SideStart(frame[1]);
    var start := if HasCrc(h) then 16 else 0;
    SameTable(frame);
    forall i: nat
      ensures BadGranule(h, frame[4..], GranuleAt(h, start, i)) <==> Refused(frame, t, GranuleBit(t, at, i))
      ensures Got(frame[4..], GranuleAt(h, start, i), 12) == Field(frame, GranuleBit(t, at, i), 12)
    {
      SameGranule(frame, i);
    }
  }

  /** The decoder's reading of a frame is what its bytes say. */
  lemma SideIsLayout(frame: seq<byte>)
    requires |frame| >= 4
    ensures SideOf(frame) == Layout(frame)
  {
    hide Value, AnyBad, AnyRefused, Lengths, GranuleLengths, Sum, Granules, SideBytes, TableOf;
    var h, t, at := At(frame, 0), TableOf(frame[1], frame[3]), SideStart(frame[1]);
    var start := if HasCrc(h) then 16 else 0;
    SameTable(frame);
    SameRefusals(frame);
    if |frame| >= at + t.bytes {
      MainInBytes(frame, at);
      ValueBehind(frame, 4, start, MainBits(h));
      assert frame[4..][start / 8 + t.bytes..] == frame[at + t.bytes..];
    }
  }

  /**
   * In short: the payload starts behind the header, two bytes of checksum exactly when byte 1
   * is even, and 32, 17, 17 or 9 bytes; and where the main data begins is the nine- or
   * eight-bit number right behind header and checksum.
   */
  lemma SideInBytes(frame: seq<byte>)
    requires |frame| >= 4 && SideOf(frame).Some?
    ensures var s := SideOf(frame).value;
            var c := if frame[1] % 2 == 0 then 2 else 0;
            var n := if frame[1] / 8 % 2 == 1 then (if frame[3] / 64 == 3 then 17 else 32)
                     else if frame[3] / 64 == 3 then 9 else 17;
            && 4 + c + n <= |frame| && s.payload == frame[4 + c + n..]
            && s.main == if frame[1] / 8 % 2 == 1 then 2 * (frame[4 + c] as nat) + (frame[5 + c] as nat) / 128
                         else frame[4 + c] as nat
  {
    hide SideOf, AnyRefused, GranuleLengths, Sum;
    SideIsLayout(frame);
  }

  // ---- two concrete frames --------------------------------------------------------------------------

  lemma {:induction false} ZerosSpellZero(frame: seq<byte>, from: nat, at: nat, n: nat)
    requires 8 * from <= at && at + n <= 8 * |frame| && forall k :: from <= k < |frame| ==> frame[k] == 0
    ensures Value(frame, at, n) == 0
  {
    hide Pow2;
    if n > 0 {
      ZerosSpellZero(frame, from, at, n - 1);
      assert frame[(at + n - 1) / 8] == 0;
    }
  }

  /** A frame whose granules all lie in zeros has none refused and none with any length. */
  lemma ZeroGranules(frame: seq<byte>, t: Table, start: nat)
    requires forall k :: start + 2 <= k < |frame| ==> frame[k] == 0
    requires t.first >= 16
    ensures !AnyRefused(frame, t, start)
    ensures GranuleLengths(frame, t, start) == seq(t.granules, _ => 0)
  {
    hide Value;
    forall i: nat | i < t.granules
      ensures !Refused(frame, t, GranuleBit(t, start, i)) && Field(frame, GranuleBit(t, start, i), 12) == 0
    {
      var g := GranuleBit(t, start, i);
      FieldInZeros(frame, start + 2, g, 12);
      FieldInZeros(frame, start + 2, g + 12, 9);
      FieldInZeros(frame, start + 2, g + t.switch, 1);
    }
  }

  lemma FieldInZeros(frame: seq<byte>, from: nat, at: nat, n: nat)
    requires 8 * from <= at && forall k :: from <= k < |frame| ==> frame[k] == 0
    ensures Field(frame, at, n) == 0
  {
    hide Value;
    if at + n <= 8 * |frame| { ZerosSpellZero(frame, from, at, n); }
  }

  lemma SumOfZeros()
    ensures Sum([0, 0, 0, 0]) == 0
  {
    assert [0, 0, 0, 0][1..] == [0, 0, 0] && [0, 0, 0][1..] == [0, 0] && [0, 0][1..] == [0] && [0][1..] == [];
  }

  /** Without a checksum: the two bytes behind the header say 257, and 381 bytes of payload follow. */
  lemma PlainFrame(frame: seq<byte>)
    requires frame == [0xFF, 0xFB, 0x90, 0x00, 0x80, 0x80] + seq(411, _ => 0)
    ensures SideOf(frame) == Some(Side(257, [0, 0, 0, 0], frame[36..]))
  {
    hide SideOf, AnyRefused, GranuleLengths, Sum;
    SideIsLayout(frame);
    ZeroGranules(frame, TableOf(frame[1], frame[3]), 4);
    SumOfZeros();
    assert seq(4, _ => 0) == [0, 0, 0, 0];
  }

  /** With one: the same two bytes behind it, and 379 bytes of payload. */
  lemma CheckedFrame(frame: seq<byte>)
    requires frame == [0xFF, 0xFA, 0x90, 0x00, 0x12, 0x34, 0x80, 0x80] + seq(409, _ => 0)
    ensures SideOf(frame) == Some(Side(257, [0, 0, 0, 0], frame[38..]))
  {
    hide SideOf, AnyRefused, GranuleLengths, Sum;
    SideIsLayout(frame);
    ZeroGranules(frame, TableOf(frame[1], frame[3]), 6);
    SumOfZeros();
    assert seq(4, _ => 0) == [0, 0, 0, 0];
  }
}
