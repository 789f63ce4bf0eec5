/** Indexed lists among the fields of a document (src/cq_track.c, src/cq_reflist.c). */
module Lists {
  import opened Bytes
  import opened Codec
  import opened CodecLaws
  import opened Numbers

  const DOT: byte := 46

  // "item", and the suffixes "uri", "track", "artist", "album_id", "duration_ms", "id", "name".
  const ITEM: seq<byte> := [105, 116, 101, 109]
  const URI: seq<byte> := [117, 114, 105]
  const TRACK: seq<byte> := [116, 114, 97, 99, 107]
  const ARTIST: seq<byte> := [97, 114, 116, 105, 115, 116]
  const ALBUM_ID: seq<byte> := [97, 108, 98, 117, 109, 95, 105, 100]
  const DURATION: seq<byte> := [100, 117, 114, 97, 116, 105, 111, 110, 95, 109, 115]
  const ID: seq<byte> := [105, 100]
  const NAME: seq<byte> := [110, 97, 109, 101]

  const TRACK_KEY: nat := 64
  const REF_KEY: nat := 80
  const MACHINE_COUNT: nat := 0x1_0000_0000

  // ---- keys -----------------------------------------------------------------------------------

  function FullKey(prefix: seq<byte>, i: nat, suffix: seq<byte>): seq<byte> {
    prefix + [DOT] + (Decimal(i) + ([DOT] + suffix))
  }

  /** `snprintf` into a buffer of `size` bytes: what does not fit before the NUL is cut. */
  function CutKey(prefix: seq<byte>, i: nat, suffix: seq<byte>, size: nat): seq<byte>
    requires size >= 1
  {
    var full := FullKey(prefix, i, suffix);
    full[..Min(|full|, size - 1)]
  }

  /** The index is the run of digits after the prefix. */
  lemma IndexOfKey(i: nat, j: nat, s: seq<byte>, t: seq<byte>)
    requires (s == [] || s[0] == DOT) && (t == [] || t[0] == DOT)
    requires Decimal(i) + s == Decimal(j) + t
    ensures i == j && s == t
  {
    hide Decimal, Digits;
    DigitsOf(Decimal(i), s);
    DigitsOf(Decimal(j), t);
    assert (Decimal(i) + s)[..|Decimal(i)|] == Decimal(i) && (Decimal(j) + t)[..|Decimal(j)|] == Decimal(j);
    DecimalInjective(i, j);
    assert (Decimal(i) + s)[|Decimal(i)|..] == s && (Decimal(j) + t)[|Decimal(j)|..] == t;
  }

  /** Whole keys are different for different cells. */
  lemma KeysAreInjective(prefix: seq<byte>, i: nat, s: seq<byte>, j: nat, t: seq<byte>)
    requires FullKey(prefix, i, s) == FullKey(prefix, j, t)
    ensures i == j && s == t
  {
    hide Decimal;
    var n := |prefix + [DOT]|;
    assert FullKey(prefix, i, s)[n..] == Decimal(i) + ([DOT] + s);
    assert FullKey(prefix, j, t)[n..] == Decimal(j) + ([DOT] + t);
    IndexOfKey(i, j, [DOT] + s, [DOT] + t);
    assert ([DOT] + s)[1..] == s && ([DOT] + t)[1..] == t;
  }

  /** Cut keys still are, as long as the digits of both indexes fit. */
  lemma CutKeysAreInjective(prefix: seq<byte>, i: nat, j: nat, suffix: seq<byte>, size: nat)
    requires |prefix| + 1 + |Decimal(i)| < size && |prefix| + 1 + |Decimal(j)| < size
    requires CutKey(prefix, i, suffix, size) == CutKey(prefix, j, suffix, size)
    ensures i == j
  {
    hide Decimal;
    var s := CutTail(prefix, i, suffix, size);
    var t := CutTail(prefix, j, suffix, size);
    IndexOfKey(i, j, s, t);
  }

  lemma CutTail(prefix: seq<byte>, i: nat, suffix: seq<byte>, size: nat) returns (s: seq<byte>)
    requires |prefix| + 1 + |Decimal(i)| < size
    ensures s == [] || s[0] == DOT
    ensures |prefix| + 1 <= |CutKey(prefix, i, suffix, size)|
    ensures CutKey(prefix, i, suffix, size)[|prefix| + 1..] == Decimal(i) + s
  {
    hide Decimal;
    var full, n := FullKey(prefix, i, suffix), |prefix| + 1 + |Decimal(i)|;
    var end := Min(|full|, size - 1);
    s := ([DOT] + suffix)[..end - n];
    assert full[..end] == prefix + [DOT] + (Decimal(i) + s);
  }

  /** The longest index below 2^32 has ten digits. */
  lemma IndexDigits(i: nat)
    requires i <= MACHINE_COUNT
    ensures |Decimal(i)| <= 10
  {
    DecimalLength(i, 10);
    assert Pow10(5) == 100000 && Pow10(10) == 10_000_000_000;
  }

  lemma ShortKeyIsWhole(prefix: seq<byte>, i: nat, suffix: seq<byte>, size: nat)
    requires |prefix| + |Decimal(i)| + |suffix| + 2 < size
    ensures CutKey(prefix, i, suffix, size) == FullKey(prefix, i, suffix)
  {
  }

  // ---- the scan --------------------------------------------------------------------------------

  datatype TrackItem = TrackItem(
    uri: seq<byte>, track: Option<seq<byte>>, artist: Option<seq<byte>>, albumId: Option<seq<byte>>, durationMs: int)

  datatype RefItem = RefItem(id: seq<byte>, name: Option<seq<byte>>)

  function TrackField(fs: seq<Field>, i: nat, suffix: seq<byte>): Option<seq<byte>> {
    Lookup(fs, CutKey(ITEM, i, suffix, TRACK_KEY))
  }

  function TrackAt(fs: seq<Field>, i: nat): Option<TrackItem> {
    var uri := TrackField(fs, i, URI);
    if uri.None? then None
    else Some(TrackItem(uri.value, TrackField(fs, i, TRACK), TrackField(fs, i, ARTIST),
                        TrackField(fs, i, ALBUM_ID), LongLong(TrackField(fs, i, DURATION))))
  }

  function RefField(fs: seq<Field>, prefix: seq<byte>, i: nat, suffix: seq<byte>): Option<seq<byte>> {
    Lookup(fs, CutKey(prefix, i, suffix, REF_KEY))
  }

  function RefAt(fs: seq<Field>, prefix: seq<byte>, i: nat): Option<RefItem> {
    var id := RefField(fs, prefix, i, ID);
    if id.None? then None else Some(RefItem(id.value, RefField(fs, prefix, i, NAME)))
  }

  /** `l` is everything up to the first gap. */
  ghost predicate IsScan<T(!new)>(at: nat -> Option<T>, l: seq<T>) {
    (forall k :: 0 <= k < |l| ==> at(k) == Some(l[k])) && at(|l|) == None
  }

  lemma ScanIsUnique<T(!new)>(at: nat -> Option<T>, a: seq<T>, b: seq<T>)
    requires IsScan(at, a) && IsScan(at, b)
    ensures a == b
  {
    assert forall k :: 0 <= k < |a| ==> at(k) != None;
    assert forall k :: 0 <= k < |b| ==> at(k) != None;
    assert at(|a|) == None && at(|b|) == None;
    assert forall k :: 0 <= k < |a| && k < |b| ==> Some(a[k]) == at(k) == Some(b[k]);
  }

  /** The array doubles; the allocator grants at most `most` items. */
  function Grown(cap: nat): nat { if cap > 0 then cap * 2 else 8 }

  class TrackList {
    var items: seq<TrackItem>
    var cap: nat

    constructor ()
      ensures items == [] && cap == 0
    {
      items, cap := [], 0;
    }

    method FromFields(f: Fields, most: nat)
      modifies this
      ensures forall k :: 0 <= k < |items| ==> TrackAt(f.items, k) == Some(items[k])
      ensures TrackAt(f.items, |items|) == None || (cap == |items| && Grown(cap) > most)
    {
      hide CutKey, Lookup, LongLong;
      items, cap := [], 0;
      var i := 0;
      while true
        invariant i == |items| <= cap && (cap == 0 || cap <= most)
        invariant forall k :: 0 <= k < |items| ==> TrackAt(f.items, k) == Some(items[k])
        decreases most - |items|
      {
        var uri := FieldFor(f, i, URI);
        if uri.None? { break; }
        if |items| == cap {
          var ncap := if cap > 0 then cap * 2 else 8;
          if ncap > most { break; }
          cap := ncap;
        }
        var track := FieldFor(f, i, TRACK);
        var artist := FieldFor(f, i, ARTIST);
        var albumId := FieldFor(f, i, ALBUM_ID);
        var duration := FieldFor(f, i, DURATION);
        var ms := ParseLongLong(duration);
        items := items + [TrackItem(uri.value, track, artist, albumId, ms)];
        i := i + 1;
      }
    }

    method FieldFor(f: Fields, i: nat, suffix: seq<byte>) returns (r: Option<seq<byte>>)
      ensures r == TrackField(f.items, i, suffix)
    {
      r := f.Get(CutKey(ITEM, i, suffix, TRACK_KEY));
    }
  }

  class RefList {
    var items: seq<RefItem>
    var cap: nat

    constructor ()
      ensures items == [] && cap == 0
    {
      items, cap := [], 0;
    }

    method FromFields(f: Fields, prefix: seq<byte>, most: nat)
      modifies this
      ensures forall k :: 0 <= k < |items| ==> RefAt(f.items, prefix, k) == Some(items[k])
      ensures RefAt(f.items, prefix, |items|) == None || (cap == |items| && Grown(cap) > most)
    {
      hide CutKey, Lookup;
      items, cap := [], 0;
      var i := 0;
      while true
        invariant i == |items| <= cap && (cap == 0 || cap <= most)
        invariant forall k :: 0 <= k < |items| ==> RefAt(f.items, prefix, k) == Some(items[k])
        decreases most - |items|
      {
        var id := FieldFor(f, prefix, i, ID);
        if id.None? { break; }
        if |items| == cap {
          var ncap := if cap > 0 then cap * 2 else 8;
          if ncap > most { break; }
          cap := ncap;
        }
        var name := FieldFor(f, prefix, i, NAME);
        items := items + [RefItem(id.value, name)];
        i := i + 1;
      }
    }

    method FieldFor(f: Fields, prefix: seq<byte>, i: nat, suffix: seq<byte>) returns (r: Option<seq<byte>>)
      ensures r == RefField(f.items, prefix, i, suffix)
    {
      r := f.Get(CutKey(prefix, i, suffix, REF_KEY));
    }
  }

  // ---- termination ------------------------------------------------------------------------------

  lemma {:induction false} Pigeonhole<T>(ks: seq<T>, hs: seq<T>)
    requires Distinct(ks) && forall k :: k in ks ==> k in hs
    ensures |ks| <= |hs|
  {
    if ks != [] {
      var last, rest := ks[|ks| - 1], ks[..|ks| - 1];
      assert last in ks;
      var i :| 0 <= i < |hs| && hs[i] == last;
      forall k | k in rest ensures k in hs[..i] + hs[i + 1..] {
        assert k in ks;
        var j :| 0 <= j < |hs| && hs[j] == k;
        assert if j < i then (hs[..i] + hs[i + 1..])[j] == k else (hs[..i] + hs[i + 1..])[j - 1] == k;
      }
      Pigeonhole(rest, hs[..i] + hs[i + 1..]);
    }
  }

  /** Keys that stay different are found for at most as many indexes as there are fields. */
  lemma KeysRunOut(fs: seq<Field>, prefix: seq<byte>, suffix: seq<byte>, size: nat, n: nat)
    requires |prefix| + 1 + |Decimal(n)| < size
    requires forall k: nat :: k < n ==> Lookup(fs, CutKey(prefix, k, suffix, size)).Some?
    ensures n <= |fs|
  {
    hide CutKey, Lookup, Decimal;
    var ks := seq(n, k requires 0 <= k < n => CutKey(prefix, k, suffix, size));
    forall i, j | 0 <= i < j < n ensures ks[i] != ks[j] {
      FewerDigits(i, n);
      FewerDigits(j, n);
      if ks[i] == ks[j] { CutKeysAreInjective(prefix, i, j, suffix, size); }
    }
    forall key | key in ks ensures key in KeysOf(fs) {
      var k: nat :| k < n && ks[k] == key;
      LookupFinds(fs, key);
      var i :| 0 <= i < |fs| && fs[i] == Field(key, Lookup(fs, key).value);
      assert KeysOf(fs)[i] == key;
    }
    Pigeonhole(ks, KeysOf(fs));
  }

  lemma FewerDigits(m: nat, n: nat)
    requires m <= n
    ensures |Decimal(m)| <= |Decimal(n)|
  {
    hide Decimal;
    DecimalLength(n, |Decimal(n)|);
    DecimalLength(m, |Decimal(n)|);
  }

  /** The open-ended track scan meets a gap after at most `count` items, and memory is enough. */
  lemma TrackScanStops(fs: seq<Field>, items: seq<TrackItem>, cap: nat, most: nat)
    requires |fs| < MACHINE_COUNT && most >= 2 * |fs| + 8
    requires forall k :: 0 <= k < |items| ==> TrackAt(fs, k) == Some(items[k])
    requires TrackAt(fs, |items|) == None || (cap == |items| && Grown(cap) > most)
    ensures |items| <= |fs| && IsScan(i => TrackAt(fs, i), items)
  {
    hide CutKey, Lookup, LongLong, Decimal;
    var n := Min(|items|, |fs| + 1);
    IndexDigits(n);
    forall k: nat | k < n ensures Lookup(fs, CutKey(ITEM, k, URI, TRACK_KEY)).Some? {
      assert TrackAt(fs, k).Some?;
    }
    KeysRunOut(fs, ITEM, URI, TRACK_KEY, n);
  }

  /** Digits of the index that a reference key has room for. */
  function Room(prefix: seq<byte>): nat { Max(0, REF_KEY - 2 - |prefix|) }

  /** The same for references, when the key has room for the digits of the field count. */
  lemma RefScanStops(fs: seq<Field>, prefix: seq<byte>, items: seq<RefItem>, cap: nat, most: nat)
    requires |Decimal(|fs| + 1)| <= Room(prefix) && most >= 2 * |fs| + 8
    requires forall k :: 0 <= k < |items| ==> RefAt(fs, prefix, k) == Some(items[k])
    requires RefAt(fs, prefix, |items|) == None || (cap == |items| && Grown(cap) > most)
    ensures |items| <= |fs| && IsScan(i => RefAt(fs, prefix, i), items)
  {
    hide CutKey, Lookup, Decimal;
    var n := Min(|items|, |fs| + 1);
    FewerDigits(n, |fs| + 1);
    forall k: nat | k < n ensures Lookup(fs, CutKey(prefix, k, ID, REF_KEY)).Some? {
      assert RefAt(fs, prefix, k).Some?;
    }
    KeysRunOut(fs, prefix, ID, REF_KEY, n);
  }

  /** The index a longer one is cut to. */
  function Lead(i: nat, room: nat): (j: nat)
    ensures j < Pow10(room)
  {
    if i < Pow10(room) then i else Lead(i / 10, room)
  }

  lemma CutAtHead(prefix: seq<byte>, i: nat, suffix: seq<byte>, size: nat)
    requires size >= 1 && |prefix| + 1 + |Decimal(i)| >= size - 1
    ensures CutKey(prefix, i, suffix, size) == (prefix + [DOT] + Decimal(i))[..size - 1]
  {
    hide Decimal;
    assert FullKey(prefix, i, suffix) == prefix + [DOT] + Decimal(i) + ([DOT] + suffix);
  }

  /** Past its room, a key no longer tells indexes apart. */
  lemma {:induction false} LeadHasSameKey(prefix: seq<byte>, i: nat)
    ensures CutKey(prefix, i, ID, REF_KEY) == CutKey(prefix, Lead(i, Room(prefix)), ID, REF_KEY)
  {
    hide CutKey;
    var room := Room(prefix);
    if i >= Pow10(room) {
      LeadHasSameKey(prefix, i / 10);
      if room > 0 { DecimalLength(i, room); }
      CutAtHead(prefix, i, ID, REF_KEY);
      CutAtHead(prefix, i / 10, ID, REF_KEY);
      OneDigitLess(prefix, i);
    }
  }

  lemma OneDigitLess(prefix: seq<byte>, i: nat)
    requires |prefix| + 1 + |Decimal(i)| >= REF_KEY && |prefix| + 1 + |Decimal(i / 10)| >= REF_KEY - 1
    ensures (prefix + [DOT] + Decimal(i))[..REF_KEY - 1] == (prefix + [DOT] + Decimal(i / 10))[..REF_KEY - 1]
  {
    if i >= 10 {
      assert prefix + [DOT] + Decimal(i) == prefix + [DOT] + Decimal(i / 10) + [ZERO + i % 10];
    } else {
      assert |Decimal(i)| == 1 && |Decimal(i / 10)| == 1;
      assert forall k: nat :: k < 10 ==>
          (prefix + [DOT] + Decimal(k))[..REF_KEY - 1] == (prefix + [DOT])[..REF_KEY - 1];
    }
  }

  /** The reference scan meets a gap exactly when one of the keys it can form at all is missing. */
  lemma RefScanStopsIff(fs: seq<Field>, prefix: seq<byte>)
    ensures (exists i: nat :: RefAt(fs, prefix, i) == None)
            <==> (exists i: nat :: i < Pow10(Room(prefix)) && RefAt(fs, prefix, i) == None)
  {
    hide CutKey, Lookup, Lead, Pow10;
    if i: nat :| RefAt(fs, prefix, i) == None {
      LeadHasSameKey(prefix, i);
      assert RefAt(fs, prefix, Lead(i, Room(prefix))) == None;
    }
  }

  /** A prefix that fills the key buffer, present as a key itself, is found at every index. */
  lemma LongPrefixNeverStops(prefix: seq<byte>, value: seq<byte>, i: nat)
    requires |prefix| == REF_KEY - 1
    ensures RefAt([Field(prefix, value)], prefix, i) == Some(RefItem(value, Some(value)))
  {
    hide Decimal;
    CutAtHead(prefix, i, ID, REF_KEY);
    CutAtHead(prefix, i, NAME, REF_KEY);
    assert (prefix + [DOT] + Decimal(i))[..REF_KEY - 1] == prefix;
  }
}
