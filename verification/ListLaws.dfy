/** A list printed among the fields of a document is rebuilt by the scan that reads it. */
module ListLaws {
  import opened Bytes
  import opened Codec
  import opened CodecLaws
  import opened Numbers
  import opened Lists

  /** A row of a table: its cells, under their suffixes. */
  type Row = seq<Field>

  /**
   * The fields hold the table's cells under `prefix`, and under the wanted suffixes nothing
   * else; any other field may stand among them, in any order.
   */
  ghost predicate Presents(fs: seq<Field>, prefix: seq<byte>, rows: seq<Row>, wanted: set<seq<byte>>) {
    && Distinct(KeysOf(fs))
    && (forall k, c :: 0 <= k < |rows| && c in rows[k] ==> Field(FullKey(prefix, k, c.key), c.value) in fs)
    && (forall f, k: nat, s :: f in fs && s in wanted && f.key == FullKey(prefix, k, s) ==>
          k < |rows| && exists c :: c in rows[k] && c.key == s)
  }

  function CellOf(row: Row, suffix: seq<byte>): Option<seq<byte>> {
    Lookup(row, suffix)
  }

  lemma {:induction false} LookupOnly(fs: seq<Field>, f: Field)
    requires Distinct(KeysOf(fs)) && f in fs
    ensures Lookup(fs, f.key) == Some(f.value)
  {
    hide Lookup;
    LookupFinds(fs, f.key);
    var i :| 0 <= i < |fs| && fs[i] == f;
    OthersDiffer(fs, i);
  }

  /** Every lookup the scan makes answers what the table says. */
  lemma CellIsFound(fs: seq<Field>, prefix: seq<byte>, rows: seq<Row>, wanted: set<seq<byte>>, k: nat, s: seq<byte>)
    requires Presents(fs, prefix, rows, wanted) && s in wanted
    requires forall i :: 0 <= i < |rows| ==> Distinct(KeysOf(rows[i]))
    ensures Lookup(fs, FullKey(prefix, k, s)) == if k < |rows| then CellOf(rows[k], s) else None
  {
    hide Lookup, FullKey;
    var key := FullKey(prefix, k, s);
    LookupFinds(fs, key);
    if k < |rows| {
      LookupFinds(rows[k], s);
      if Lookup(rows[k], s).Some? {
        var c := Field(s, Lookup(rows[k], s).value);
        assert c in rows[k];
        LookupOnly(fs, Field(key, c.value));
      } else {
        NoCell(fs, prefix, rows, wanted, k, s);
      }
    } else {
      NoCell(fs, prefix, rows, wanted, k, s);
    }
  }

  lemma NoCell(fs: seq<Field>, prefix: seq<byte>, rows: seq<Row>, wanted: set<seq<byte>>, k: nat, s: seq<byte>)
    requires Presents(fs, prefix, rows, wanted) && s in wanted
    requires k < |rows| ==> forall i :: 0 <= i < |rows[k]| ==> rows[k][i].key != s
    ensures Lookup(fs, FullKey(prefix, k, s)) == None
  {
    hide Lookup, FullKey;
    LookupFinds(fs, FullKey(prefix, k, s));
    assert forall f :: f in fs ==> f.key != FullKey(prefix, k, s);
  }

  // ---- tracks -----------------------------------------------------------------------------------

  const TRACK_SUFFIXES: set<seq<byte>> := {URI, TRACK, ARTIST, ALBUM_ID, DURATION}
  const REF_SUFFIXES: set<seq<byte>> := {ID, NAME}

  function Given(suffix: seq<byte>, value: Option<seq<byte>>): Row {
    if value.Some? then [Field(suffix, value.value)] else []
  }

  function TrackRow(t: TrackItem): Row {
    [Field(URI, t.uri)] + Given(TRACK, t.track) + Given(ARTIST, t.artist) + Given(ALBUM_ID, t.albumId)
    + [Field(DURATION, Signed(t.durationMs))]
  }

  function TrackRows(ts: seq<TrackItem>): (rows: seq<Row>)
    ensures |rows| == |ts|
  {
    seq(|ts|, k requires 0 <= k < |ts| => TrackRow(ts[k]))
  }

  lemma SuffixesDiffer()
    ensures |{URI, TRACK, ARTIST, ALBUM_ID, DURATION}| == 5 && ID != NAME
    ensures URI != TRACK && URI != ARTIST && URI != ALBUM_ID && URI != DURATION && TRACK != ARTIST
    ensures TRACK != ALBUM_ID && TRACK != DURATION && ARTIST != ALBUM_ID && ARTIST != DURATION
    ensures ALBUM_ID != DURATION
  {
    assert |URI| == 3 && |TRACK| == 5 && |ARTIST| == 6 && |ALBUM_ID| == 8 && |DURATION| == 11;
    assert |ID| == 2 && |NAME| == 4;
  }

  lemma {:induction false} LookupAppend(a: Row, b: Row, key: seq<byte>)
    ensures Lookup(a + b, key) == if Lookup(a, key).Some? then Lookup(a, key) else Lookup(b, key)
  {
    if a == [] {
      assert a + b == b;
    } else {
      LookupAppend(a[1..], b, key);
      assert (a + b)[1..] == a[1..] + b && (a + b)[0] == a[0];
    }
  }

  lemma LookupGiven(suffix: seq<byte>, value: Option<seq<byte>>, key: seq<byte>)
    ensures Lookup(Given(suffix, value), key) == if key == suffix then value else None
  {
  }

  lemma LookupOne(suffix: seq<byte>, value: seq<byte>, key: seq<byte>)
    ensures Lookup([Field(suffix, value)], key) == if key == suffix then Some(value) else None
  {
    assert [Field(suffix, value)][1..] == [];
  }

  lemma TrackCells(t: TrackItem, key: seq<byte>)
    ensures CellOf(TrackRow(t), key)
            == if key == URI then Some(t.uri) else if key == TRACK then t.track
               else if key == ARTIST then t.artist else if key == ALBUM_ID then t.albumId
               else if key == DURATION then Some(Signed(t.durationMs)) else None
  {
    hide Lookup, Given, Signed;
    SuffixesDiffer();
    hide URI, TRACK, ARTIST, ALBUM_ID, DURATION;
    var a, b, c, d, e := [Field(URI, t.uri)], Given(TRACK, t.track), Given(ARTIST, t.artist),
      Given(ALBUM_ID, t.albumId), [Field(DURATION, Signed(t.durationMs))];
    LookupOne(URI, t.uri, key);
    LookupGiven(TRACK, t.track, key);
    LookupGiven(ARTIST, t.artist, key);
    LookupGiven(ALBUM_ID, t.albumId, key);
    LookupOne(DURATION, Signed(t.durationMs), key);
    LookupAppend(a, b, key);
    LookupAppend(a + b, c, key);
    LookupAppend(a + b + c, d, key);
    LookupAppend(a + b + c + d, e, key);
  }

  lemma TrackRowDistinct(t: TrackItem)
    ensures Distinct(KeysOf(TrackRow(t)))
  {
    SuffixesDiffer();
    hide URI, TRACK, ARTIST, ALBUM_ID, DURATION, Signed;
  }

  /** The track scan gives back every list of fewer than 2^32 tracks that the fields present. */
  lemma TracksRebuilt(fs: seq<Field>, ts: seq<TrackItem>)
    requires |ts| < MACHINE_COUNT && Presents(fs, ITEM, TrackRows(ts), TRACK_SUFFIXES)
    ensures IsScan(i => TrackAt(fs, i), ts)
  {
    hide Lookup, FullKey, CutKey, LongLong, TrackRow, CellOf;
    forall k: nat | k <= |ts| ensures TrackAt(fs, k) == if k < |ts| then Some(ts[k]) else None {
      TrackRebuilt(fs, ts, k);
    }
  }

  lemma TrackRebuilt(fs: seq<Field>, ts: seq<TrackItem>, k: nat)
    requires |ts| < MACHINE_COUNT && Presents(fs, ITEM, TrackRows(ts), TRACK_SUFFIXES) && k <= |ts|
    ensures TrackAt(fs, k) == if k < |ts| then Some(ts[k]) else None
  {
    hide Lookup, FullKey, CutKey, LongLong, TrackRow, CellOf, Presents;
    TrackFieldRebuilt(fs, ts, k, URI);
    TrackFieldRebuilt(fs, ts, k, TRACK);
    TrackFieldRebuilt(fs, ts, k, ARTIST);
    TrackFieldRebuilt(fs, ts, k, ALBUM_ID);
    TrackFieldRebuilt(fs, ts, k, DURATION);
    if k < |ts| {
      TrackCells(ts[k], URI);
      TrackCells(ts[k], TRACK);
      TrackCells(ts[k], ARTIST);
      TrackCells(ts[k], ALBUM_ID);
      TrackCells(ts[k], DURATION);
      SuffixesDiffer();
      DurationReads(ts[k].durationMs);
    }
  }

  lemma DurationReads(v: int)
    ensures LongLong(Some(Signed(v))) == v
  {
    hide LongLong, Signed;
    LongLongReadsBack([], v, []);
    assert [] + Signed(v) + [] == Signed(v);
  }

  lemma TrackFieldRebuilt(fs: seq<Field>, ts: seq<TrackItem>, k: nat, s: seq<byte>)
    requires |ts| < MACHINE_COUNT && Presents(fs, ITEM, TrackRows(ts), TRACK_SUFFIXES) && k <= |ts|
    requires s in TRACK_SUFFIXES
    ensures TrackField(fs, k, s) == if k < |ts| then CellOf(TrackRow(ts[k]), s) else None
  {
    hide Lookup, FullKey, CutKey, TrackRow, CellOf, Presents, Decimal;
    var rows := TrackRows(ts);
    forall i | 0 <= i < |rows| ensures Distinct(KeysOf(rows[i])) { TrackRowDistinct(ts[i]); }
    CellIsFound(fs, ITEM, rows, TRACK_SUFFIXES, k, s);
    IndexDigits(k);
    ShortKeyIsWhole(ITEM, k, s, TRACK_KEY);
  }

  // ---- references -------------------------------------------------------------------------------

  function RefRow(r: RefItem): Row {
    [Field(ID, r.id)] + Given(NAME, r.name)
  }

  function RefRows(rs: seq<RefItem>): (rows: seq<Row>)
    ensures |rows| == |rs|
  {
    seq(|rs|, k requires 0 <= k < |rs| => RefRow(rs[k]))
  }

  lemma RefCells(r: RefItem, key: seq<byte>)
    ensures CellOf(RefRow(r), key) == if key == ID then Some(r.id) else if key == NAME then r.name else None
    ensures Distinct(KeysOf(RefRow(r)))
  {
    SuffixesDiffer();
    hide Lookup, ID, NAME;
    LookupOne(ID, r.id, key);
    LookupGiven(NAME, r.name, key);
    LookupAppend([Field(ID, r.id)], Given(NAME, r.name), key);
  }

  /** The reference scan does too, for every prefix that leaves room for the whole keys. */
  lemma RefsRebuilt(fs: seq<Field>, prefix: seq<byte>, rs: seq<RefItem>)
    requires Presents(fs, prefix, RefRows(rs), REF_SUFFIXES)
    requires |prefix| + |Decimal(|rs|)| + |NAME| + 2 < REF_KEY
    ensures IsScan(i => RefAt(fs, prefix, i), rs)
  {
    hide Lookup, FullKey, CutKey, RefRow, CellOf, Decimal, Presents;
    forall k: nat | k <= |rs| ensures RefAt(fs, prefix, k) == if k < |rs| then Some(rs[k]) else None {
      RefFieldRebuilt(fs, prefix, rs, k, ID);
      RefFieldRebuilt(fs, prefix, rs, k, NAME);
      SuffixesDiffer();
      if k < |rs| {
        RefCells(rs[k], ID);
        RefCells(rs[k], NAME);
      }
    }
  }

  lemma RefFieldRebuilt(fs: seq<Field>, prefix: seq<byte>, rs: seq<RefItem>, k: nat, s: seq<byte>)
    requires Presents(fs, prefix, RefRows(rs), REF_SUFFIXES) && k <= |rs| && s in REF_SUFFIXES
    requires |prefix| + |Decimal(|rs|)| + |NAME| + 2 < REF_KEY
    ensures RefField(fs, prefix, k, s) == if k < |rs| then CellOf(RefRow(rs[k]), s) else None
  {
    hide Lookup, FullKey, CutKey, RefRow, CellOf, Presents, Decimal;
    var rows := RefRows(rs);
    forall i | 0 <= i < |rows| ensures Distinct(KeysOf(rows[i])) { RefCells(rs[i], ID); }
    CellIsFound(fs, prefix, rows, REF_SUFFIXES, k, s);
    FewerDigits(k, |rs|);
    ShortKeyIsWhole(prefix, k, s, REF_KEY);
  }

  // ---- printing ---------------------------------------------------------------------------------

  function RowFields(prefix: seq<byte>, k: nat, row: Row): (r: seq<Field>)
    ensures |r| == |row|
  {
    seq(|row|, i requires 0 <= i < |row| => Field(FullKey(prefix, k, row[i].key), row[i].value))
  }

  /** The table printed as fields. */
  function Laid(prefix: seq<byte>, rows: seq<Row>): seq<Field> {
    if rows == [] then []
    else Laid(prefix, rows[..|rows| - 1]) + RowFields(prefix, |rows| - 1, rows[|rows| - 1])
  }

  lemma {:induction false} LaidCells(prefix: seq<byte>, rows: seq<Row>)
    ensures forall f :: f in Laid(prefix, rows) <==>
              exists k: nat, c :: k < |rows| && c in rows[k] && f == Field(FullKey(prefix, k, c.key), c.value)
  {
    hide FullKey;
    if rows != [] {
      var init, last, n := rows[..|rows| - 1], rows[|rows| - 1], |rows| - 1;
      LaidCells(prefix, init);
      forall f ensures f in RowFields(prefix, n, last) <==>
                         exists c :: c in last && f == Field(FullKey(prefix, n, c.key), c.value)
      {
        if c: Field :| c in last && f == Field(FullKey(prefix, n, c.key), c.value) {
          var i :| 0 <= i < |last| && last[i] == c;
          assert RowFields(prefix, n, last)[i] == f;
        }
      }
      forall f | f in Laid(prefix, rows)
        ensures exists k: nat, c :: k < |rows| && c in rows[k] && f == Field(FullKey(prefix, k, c.key), c.value)
      {
        if f in Laid(prefix, init) {
          var k: nat, c: Field :| k < |init| && c in init[k] && f == Field(FullKey(prefix, k, c.key), c.value);
          assert c in rows[k];
        }
      }
      forall k: nat, c | k < |rows| && c in rows[k]
        ensures Field(FullKey(prefix, k, c.key), c.value) in Laid(prefix, rows)
      {
        if k < n { assert c in init[k]; }
      }
    }
  }

  lemma {:induction false} LaidDistinct(prefix: seq<byte>, rows: seq<Row>)
    requires forall k :: 0 <= k < |rows| ==> Distinct(KeysOf(rows[k]))
    ensures Distinct(KeysOf(Laid(prefix, rows)))
  {
    hide FullKey;
    if rows != [] {
      var init, last, n := rows[..|rows| - 1], rows[|rows| - 1], |rows| - 1;
      var a: seq<Field>, b: seq<Field> := Laid(prefix, init), RowFields(prefix, n, last);
      LaidDistinct(prefix, init);
      LaidCells(prefix, init);
      forall i, j | 0 <= i < j < |a + b| ensures (a + b)[i].key != (a + b)[j].key {
        if j < |a| {
          assert KeysOf(a)[i] != KeysOf(a)[j];
        } else {
          var s := last[j - |a|].key;
          if i < |a| {
            assert a[i] in a;
            var k: nat, c: Field :| k < |init| && c in init[k] && a[i] == Field(FullKey(prefix, k, c.key), c.value);
            if a[i].key == FullKey(prefix, n, s) { KeysAreInjective(prefix, k, c.key, n, s); }
          } else {
            assert KeysOf(last)[i - |a|] != KeysOf(last)[j - |a|];
            if FullKey(prefix, n, last[i - |a|].key) == FullKey(prefix, n, s) {
              KeysAreInjective(prefix, n, last[i - |a|].key, n, s);
            }
          }
        }
      }
    }
  }

  /** Every table can be printed, and any unrelated fields put before and after it. */
  lemma LaidIsPresented(
    prefix: seq<byte>, rows: seq<Row>, wanted: set<seq<byte>>, before: seq<Field>, after: seq<Field>)
    requires forall k :: 0 <= k < |rows| ==> Distinct(KeysOf(rows[k]))
    requires Distinct(KeysOf(before + after))
    requires forall f, k: nat, s :: f in before + after ==> f.key != FullKey(prefix, k, s)
    ensures Presents(before + Laid(prefix, rows) + after, prefix, rows, wanted)
  {
    hide FullKey, Laid;
    var mid := Laid(prefix, rows);
    var fs := before + mid + after;
    LaidDistinct(prefix, rows);
    LaidCells(prefix, rows);
    forall i, j | 0 <= i < j < |fs| ensures fs[i].key != fs[j].key {
      ApartInMiddle(before, mid, after, i, j);
    }
    forall f, k: nat, s | f in fs && s in wanted && f.key == FullKey(prefix, k, s)
      ensures k < |rows| && exists c :: c in rows[k] && c.key == s
    {
      assert f in before + after || f in mid;
      var n: nat, c: Field :| n < |rows| && c in rows[n] && f == Field(FullKey(prefix, n, c.key), c.value);
      KeysAreInjective(prefix, n, c.key, k, s);
    }
  }

  lemma ApartInMiddle(before: seq<Field>, mid: seq<Field>, after: seq<Field>, i: nat, j: nat)
    requires Distinct(KeysOf(mid)) && Distinct(KeysOf(before + after))
    requires forall f, g :: f in before + after && g in mid ==> f.key != g.key
    requires i < j < |before + mid + after|
    ensures (before + mid + after)[i].key != (before + mid + after)[j].key
  {
    var fs, rest := before + mid + after, before + after;
    var x, y := |before|, |before| + |mid|;
    if x <= i && j < y {
      assert KeysOf(mid)[i - x] != KeysOf(mid)[j - x];
    } else if x <= i < y {
      assert fs[i] in mid && fs[j] == rest[j - |mid|];
    } else if x <= j < y {
      assert fs[j] in mid && fs[i] == rest[i];
    } else {
      var p, q := if i < x then i else i - |mid|, if j < x then j else j - |mid|;
      assert KeysOf(rest)[p] != KeysOf(rest)[q];
    }
  }

  /** Through the codec: a legal document that presents the tracks, read back, yields them. */
  lemma DocumentRebuildsTracks(fs: seq<Field>, ts: seq<TrackItem>)
    requires Legal(fs) && |ts| < MACHINE_COUNT && Presents(fs, ITEM, TrackRows(ts), TRACK_SUFFIXES)
    ensures IsScan(i => TrackAt(Parsed([], Printed(fs)), i), ts)
  {
    hide Parsed, Printed, TrackAt, Presents, LegalPair, FullKey;
    LegalIsPlain(fs);
    RoundTripIffLegal(fs);
    TracksRebuilt(fs, ts);
  }

  /**
   * And the appending loop itself, with memory for the list: whatever it returns from fields
   * that present a list of tracks is that list.
   */
  lemma TracksRead(fs: seq<Field>, ts: seq<TrackItem>, items: seq<TrackItem>, cap: nat, most: nat)
    requires |fs| < MACHINE_COUNT && most >= 2 * |fs| + 8
    requires |ts| < MACHINE_COUNT && Presents(fs, ITEM, TrackRows(ts), TRACK_SUFFIXES)
    requires forall k :: 0 <= k < |items| ==> TrackAt(fs, k) == Some(items[k])
    requires TrackAt(fs, |items|) == None || (cap == |items| && Grown(cap) > most)
    ensures items == ts
  {
    hide TrackAt, Presents, TrackRows;
    TrackScanStops(fs, items, cap, most);
    TracksRebuilt(fs, ts);
    ScanIsUnique(i => TrackAt(fs, i), items, ts);
  }

  lemma LegalIsPlain(fs: seq<Field>)
    requires Legal(fs)
    ensures CStrings(fs)
  {
    assert forall f :: f in fs ==> LegalPair(Pair(f.key, f.value));
  }
}
