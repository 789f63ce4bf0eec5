/**
 * Literal values: the texts, limits and formats the other modules name by constants, as they
 * stand in the program.
 */
module Samples {
  import opened Bytes
  import opened Cursors
  import opened Mp3
  import opened Minimp3
  import Adoption
  import Chunks
  import Codec
  import CodecLaws
  import Feed
  import Lists
  import Numbers
  import Pump
  import Reservoir
  import Rle
  import Sound
  import Transport

  /** ASCII text as bytes. */
  function Text(s: string): seq<byte> {
    seq(|s|, i requires 0 <= i < |s| => Ascii(s[i]))
  }

  function Ascii(c: char): byte {
    if c < '~' then c as int else 0
  }

  // ---- the lists of a document (src/cq_track.c:19-52, src/cq_reflist.c:19-48) -----------------------

  lemma Columns()
    ensures Lists.ITEM == Text("item") && Lists.URI == Text("uri") && Lists.TRACK == Text("track")
    ensures Lists.ARTIST == Text("artist") && Lists.ALBUM_ID == Text("album_id")
    ensures Lists.DURATION == Text("duration_ms") && Lists.ID == Text("id") && Lists.NAME == Text("name")
    ensures Text(".") == [46]
  {
  }

  /** The key of a cell in a track list: `item.<i>.<column>`. */
  function TrackKey(i: nat, column: string): seq<byte>
  {
    Text("item.") + Numbers.Decimal(i) + Text(".") + Text(column)
  }

  lemma TrackKeyIs(i: nat, column: string, suffix: seq<byte>)
    requires i < 0x1_0000_0000 && suffix == Text(column) && |column| <= 11
    ensures Lists.CutKey(Lists.ITEM, i, suffix, 64) == TrackKey(i, column)
  {
    hide Numbers.Decimal;
    Columns();
    Lists.IndexDigits(i);
    Lists.ShortKeyIsWhole(Lists.ITEM, i, suffix, 64);
    assert Text("item.") == Text("item") + [46];
  }

  /** Each column of a track comes from the field of its name. */
  lemma TrackColumns(fs: seq<Codec.Field>, i: nat)
    requires i < 0x1_0000_0000
    ensures Lists.TrackAt(fs, i)
            == if Codec.Lookup(fs, TrackKey(i, "uri")).None? then None
               else Some(Lists.TrackItem(
                 Codec.Lookup(fs, TrackKey(i, "uri")).value, Codec.Lookup(fs, TrackKey(i, "track")),
                 Codec.Lookup(fs, TrackKey(i, "artist")), Codec.Lookup(fs, TrackKey(i, "album_id")),
                 Numbers.LongLong(Codec.Lookup(fs, TrackKey(i, "duration_ms")))))
  {
    hide Lists.CutKey, TrackKey, Codec.Lookup, Numbers.LongLong, Text;
    Columns();
    TrackKeyIs(i, "uri", Lists.URI);
    TrackKeyIs(i, "track", Lists.TRACK);
    TrackKeyIs(i, "artist", Lists.ARTIST);
    TrackKeyIs(i, "album_id", Lists.ALBUM_ID);
    TrackKeyIs(i, "duration_ms", Lists.DURATION);
  }

  /** Each column of a reference, under a prefix that leaves its keys whole: `<prefix>.<i>.id` and `.name`. */
  lemma RefColumns(fs: seq<Codec.Field>, prefix: seq<byte>, i: nat)
    requires i < 0x1_0000_0000 && |prefix| <= 60
    ensures var id := Codec.Lookup(fs, prefix + Text(".") + Numbers.Decimal(i) + Text(".id"));
            var name := Codec.Lookup(fs, prefix + Text(".") + Numbers.Decimal(i) + Text(".name"));
            Lists.RefAt(fs, prefix, i) == if id.None? then None else Some(Lists.RefItem(id.value, name))
  {
    hide Codec.Lookup, Numbers.Decimal;
    Columns();
    Lists.IndexDigits(i);
    Lists.ShortKeyIsWhole(prefix, i, Lists.ID, 80);
    Lists.ShortKeyIsWhole(prefix, i, Lists.NAME, 80);
    assert Text(".id") == [46] + Text("id") && Text(".name") == [46] + Text("name");
    assert prefix + [46] + Numbers.Decimal(i) + ([46] + Text("id"))
        == prefix + [46] + (Numbers.Decimal(i) + ([46] + Text("id")));
    assert prefix + [46] + Numbers.Decimal(i) + ([46] + Text("name"))
        == prefix + [46] + (Numbers.Decimal(i) + ([46] + Text("name")));
  }

  /** 0 and 12 as printed; two blanks, -12 and what follows as read. */
  lemma Numerals()
    ensures Numbers.Decimal(0) == Text("0") && Numbers.Decimal(12) == Text("12")
    ensures Numbers.LongLong(Some(Text("  ") + Text("-12") + Text(" s"))) == -12
  {
    TwelveIs();
    ReadsTwelve();
  }

  /** Either sign, or none; every kind of blank; no field at all. */
  lemma SignsAndBlanks()
    ensures Numbers.LongLong(Some(Text("+12"))) == Numbers.LongLong(Some(Text("12"))) == 12
    ensures Numbers.LongLong(Some([9, 10, 11, 12, 13, 32] + Text("12"))) == 12
    ensures Numbers.LongLong(Some(Text("--12"))) == 0 && Numbers.LongLong(None) == 0
  {
    hide Numbers.Decimal, Numbers.Number;
    TwelveIs();
    var t := Text("12");
    Numbers.DigitsOf(Numbers.Decimal(12), []);
    assert t + [] == t && t[..2] == t;
    Numbers.NumberOfDecimal(12);
    assert Numbers.Blanks(t) == 0 && t[0..] == t && Text("+12")[0..] == Text("+12") && Text("+12")[1..] == t;
    var blanks: seq<byte> := [9, 10, 11, 12, 13, 32];
    Numbers.LongLongReadsBack(blanks, 12, []);
    assert blanks + t + [] == blanks + t;
    var twice := Text("--12");
    assert twice[0..] == twice && twice[1..][0] == 45 && Numbers.Digits(twice[1..]) == 0;
    assert twice[1..][..0] == [];
    NoDigits();
  }

  lemma NoDigits()
    ensures Numbers.Number([]) == 0
  {
  }

  lemma TwelveIs()
    ensures Numbers.Decimal(0) == Text("0") && Numbers.Decimal(12) == Text("12")
  {
    assert Numbers.Decimal(12) == Numbers.Decimal(1) + [50];
  }

  lemma ReadsTwelve()
    ensures Numbers.LongLong(Some(Text("  ") + Text("-12") + Text(" s"))) == -12
  {
    hide Numbers.LongLong, Numbers.Decimal;
    TwelveIs();
    assert Numbers.Signed(-12) == [45] + Text("12") == Text("-12");
    assert forall b :: b in Text("  ") ==> b == 32;
    Numbers.LongLongReadsBack(Text("  "), -12, Text(" s"));
  }

  // ---- sizes (src/cq_decring.h, os9/casquinha.c:1510-1545, src/minimp3.h) -----------------------------

  /** 64 KB of stage and of staging buffer, 256 KB of compressed ring, ten headers matched, 511 bytes kept. */
  lemma Sizes()
    ensures Pump.STAGE == 65536 && Feed.STAGING == 65536 && Feed.COMP_RING == 262144 && Pump.FRAME_ROOM == 4608
    ensures MAX_FRAME_SYNC_MATCHES == 10 && MAX_FREE_FORMAT_FRAME_SIZE == 2304 && Reservoir.MAX_RESERVOIR == 511
    ensures Transport.READ_CHUNK == 8192 && Transport.STREAM_HIWAT == 65536
  {
  }

  // ---- the size limits of a listen (os9/casquinha.c:1965, 2002) -------------------------------------

  function Nothing(n: nat): seq<byte> { seq(n, _ => 0) }

  /** 8192 bytes without a header end are looked through, one more stops the listen. */
  lemma HeaderLimit()
    ensures Feed.Service(Feed.TUNING, Feed.Slice(Nothing(8192), false, 0, 0)).au == Feed.Http
    ensures Feed.Service(Feed.TUNING, Feed.Slice(Nothing(8193), false, 0, 0)).au == Feed.Idle
  {
    hide SyncFrom, Feed.HeaderEnd, Feed.SyncUp;
    Chunks.FirstSlice(Nothing(8192));
    Chunks.FirstSlice(Nothing(8193));
    Chunks.ZerosHaveNone(Nothing(8192), 0);
    Chunks.ZerosHaveNone(Nothing(8193), 0);
    NothingToSync();
  }

  lemma NothingToSync()
    ensures forall f: Feed.Listen :: !f.au.Syncing? ==> Feed.SyncUp(f) == f
  {
  }

  lemma {:induction false} ZerosHoldNoFrame(x: seq<byte>, i: nat)
    requires forall b :: b in x ==> b == 0
    ensures SyncFrom(x, i) == -1
    decreases |x| - i
  {
    hide ParseHeader;
    ParseNeedsSyncByte(x, i);
    if i + 4 <= |x| {
      assert x[i] in x;
      ZerosHoldNoFrame(x, i + 1);
    }
  }

  /** 32768 bytes without a frame are looked through, one more stops the listen. */
  lemma SyncLimit(f: Feed.Listen)
    requires f.au == Feed.Syncing
    ensures Feed.SyncUp(f.(staged := Nothing(32768))).au == Feed.Syncing
    ensures Feed.SyncUp(f.(staged := Nothing(32769))).au == Feed.Idle
  {
    hide SyncFrom;
    ZerosHoldNoFrame(Nothing(32768), 0);
    ZerosHoldNoFrame(Nothing(32769), 0);
  }

  // ---- sound (os9/casquinha.c:1511, 1539-1540) --------------------------------------------------------

  /** A chunk is 32 KB; one byte less is silence while the wire is open, and the last sound when it is not. */
  lemma ChunkSize(queue: seq<byte>, less: seq<byte>)
    requires |queue| == 32768 && |less| == 32767
    ensures Sound.FireSpec(queue, 0, true) == Sound.Shot([], queue, 0)
    ensures Sound.FireSpec(less, 0, true) == Sound.Shot([], [], 32768)
    ensures Sound.FireSpec(less, 0, false) == Sound.Shot([], less, 1)
  {
    assert queue[0..] == queue && queue[..32768] == queue && less[0..] == less && less[..32767] == less;
  }

  /** No request at 768 KB, 256 KB and one byte past it. */
  lemma TrimLimits()
    ensures Sound.TrimRequest(786432) == 0 && Sound.TrimRequest(786433) == 262145
    ensures Sound.TrimRequest(0xFFFF_FFFF) == -524289
  {
  }

  // ---- frame lengths of every layer (src/minimp3.h:264-314) -------------------------------------------

  /** 288 kbps Layer I, 160 kbps Layer II and 128 kbps Layer III, at 44.1 kHz, without and with padding. */
  lemma LayerLengths()
    ensures HdrValid(Hdr(0xFF, 0xFF, 0x90, 0)) && FrameBytes(Hdr(0xFF, 0xFF, 0x90, 0), 0) == 312
    ensures HdrValid(Hdr(0xFF, 0xFD, 0x90, 0)) && FrameBytes(Hdr(0xFF, 0xFD, 0x90, 0), 0) == 522
    ensures HdrValid(Hdr(0xFF, 0xFB, 0x90, 0)) && FrameBytes(Hdr(0xFF, 0xFB, 0x90, 0), 0) == 417
    ensures Padding(Hdr(0xFF, 0xFF, 0x92, 0)) == 4 && Padding(Hdr(0xFF, 0xFD, 0x92, 0)) == 1
    ensures Padding(Hdr(0xFF, 0xFB, 0x90, 0)) == 0 && Padding(Hdr(0xFF, 0xFB, 0x92, 0)) == 1
    ensures FrameSamples(Hdr(0xFF, 0xFF, 0x90, 0)) == 384 && FrameSamples(Hdr(0xFF, 0xFD, 0x90, 0)) == 1152
    ensures FrameSamples(Hdr(0xFF, 0xFB, 0x90, 0)) == 1152 && FrameSamples(Hdr(0xFF, 0xF3, 0x90, 0)) == 576
  {
    assert 384 * 288 * 125 / 44100 == 313 && 1152 * 160 * 125 / 44100 == 522 && 1152 * 128 * 125 / 44100 == 417;
  }

  // ---- the icns encoder (tools/make_icns.py:33-48) ----------------------------------------------------

  /** Four equal bytes are a run, two different ones a literal. */
  lemma Packets()
    ensures Rle.Encode([7, 7, 7, 7], 0) == [129, 7]
    ensures Rle.Encode([1, 2], 0) == [1, 1, 2]
    ensures Rle.Decode([129, 7]) == Some([7, 7, 7, 7]) && Rle.Decode([1, 1, 2]) == Some([1, 2])
  {
    var run: seq<byte>, two: seq<byte> := [7, 7, 7, 7], [1, 2];
    assert Rle.RunAt(run, 0) && Rle.RunTo(run, 0, 3) == 4;
    assert Rle.Next(run, 0) == ([129, 7], 4);
    assert Rle.Encode(run, 4) == [] && [129, 7] + [] == [129, 7];
    assert !Rle.RunAt(two, 0) && !Rle.RunAt(two, 1);
    assert Rle.LiteralTo(two, 0, 0) == 2;
    assert two[0..2] == two && [1] + two == [1, 1, 2];
    assert Rle.Next(two, 0) == ([1, 1, 2], 2);
    assert Rle.Encode(two, 2) == [] && [1, 1, 2] + [] == [1, 1, 2];
    Rle.EncodeDecodes(run, 0);
    Rle.EncodeDecodes(two, 0);
    assert run[0..] == run && two[0..] == two;
  }

  // ---- the bar (src/cq_view.c:155-164) ------------------------------------------------------------------

  /** One second after adoption: playing on, paused, before the beginning, past the end, of unknown length. */
  lemma Bars(mark: int)
    ensures Adoption.Progress(Adoption.Shown(mark, Some(Adoption.Doc(5, true, 5000, 90000)), 0), 60) == 6000
    ensures Adoption.Progress(Adoption.Shown(mark, Some(Adoption.Doc(5, false, 5000, 90000)), 0), 60) == 5000
    ensures Adoption.Progress(Adoption.Shown(mark, Some(Adoption.Doc(5, false, -7, 90000)), 0), 60) == 0
    ensures Adoption.Progress(Adoption.Shown(mark, Some(Adoption.Doc(5, true, 89500, 90000)), 0), 60) == 90000
    ensures Adoption.Progress(Adoption.Shown(mark, Some(Adoption.Doc(5, true, 89500, 0)), 0), 60) == 90500
  {
    assert Adoption.Elapsed(0, 60) == 1000;
  }
}
