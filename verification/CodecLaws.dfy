/** What reading a tab-separated document means: order, last value, and the way back. */
module CodecLaws {
  import opened Bytes
  import opened Codec

  // ---- documents in parts ---------------------------------------------------------------------

  lemma LinesCut(s: seq<byte>, line: seq<byte>, rest: seq<byte>)
    requires s == line + [LF] + rest && LF !in line
    ensures Lines(s) == [line] + Lines(rest)
  {
    FindIs(s, LF, |line|);
    assert s[..|line|] == line && s[|line| + 1..] == rest;
  }

  lemma FirstCut(s: seq<byte>) returns (line: seq<byte>, rest: seq<byte>)
    requires LF in s
    ensures s == line + [LF] + rest && LF !in line
  {
    var e := Find(s, LF, 0);
    line, rest := s[..e], s[e + 1..];
  }

  lemma WholeLine(s: seq<byte>)
    requires LF !in s
    ensures Lines(s) == [s]
  {
  }

  lemma {:induction false} LinesAppend(a: seq<byte>, b: seq<byte>)
    ensures Lines(a + [LF] + b) == Lines(a) + Lines(b)
    decreases |a|
  {
    hide Lines, Find;
    if LF in a {
      var line, rest := FirstCut(a);
      LinesAppend(rest, b);
      LinesCut(a, line, rest);
      Regrouped(line, rest, b);
      LinesCut(a + [LF] + b, line, rest + [LF] + b);
      assert [line] + Lines(rest) + Lines(b) == [line] + (Lines(rest) + Lines(b));
    } else {
      WholeLine(a);
      LinesCut(a + [LF] + b, a, b);
    }
  }

  lemma Regrouped(line: seq<byte>, rest: seq<byte>, b: seq<byte>)
    ensures line + [LF] + rest + [LF] + b == line + [LF] + (rest + [LF] + b)
  {
  }

  /** Reading `a LF b` is reading `b` into what reading `a` left. */
  lemma ParseInParts(items: seq<Field>, a: seq<byte>, b: seq<byte>)
    ensures Parsed(items, a + [LF] + b) == Parsed(Parsed(items, a), b)
  {
    hide Lines, PairOf, Put;
    LinesAppend(a, b);
    PairsAppend(Lines(a), Lines(b));
    PutAllAppend(items, Pairs(Lines(a)), Pairs(Lines(b)));
  }

  // ---- last value wins, in first-seen order ----------------------------------------------------

  function FirstSeen(ps: seq<Pair>): seq<seq<byte>> {
    if ps == [] then []
    else
      var ks, k := FirstSeen(ps[..|ps| - 1]), ps[|ps| - 1].key;
      if k in ks then ks else ks + [k]
  }

  function LastValue(ps: seq<Pair>, key: seq<byte>): Option<seq<byte>> {
    if ps == [] then None
    else if ps[|ps| - 1].key == key then Some(ps[|ps| - 1].value)
    else LastValue(ps[..|ps| - 1], key)
  }

  predicate Plain(ps: seq<Pair>) {
    forall p :: p in ps ==> NUL !in p.key && NUL !in p.value
  }

  predicate Distinct<T(==)>(s: seq<T>) {
    forall i, j :: 0 <= i < j < |s| ==> s[i] != s[j]
  }

  function KeysOf(items: seq<Field>): (ks: seq<seq<byte>>)
    ensures |ks| == |items|
  {
    seq(|items|, i requires 0 <= i < |items| => items[i].key)
  }

  lemma {:induction false} SeenOnce(ps: seq<Pair>, key: seq<byte>)
    ensures Distinct(FirstSeen(ps)) && (key in FirstSeen(ps) <==> LastValue(ps, key).Some?)
  {
    if ps != [] {
      SeenOnce(ps[..|ps| - 1], key);
    }
  }

  lemma PutSnoc(items: seq<Field>, ps: seq<Pair>)
    requires ps != []
    ensures PutAll(items, ps) == Put(PutAll(items, ps[..|ps| - 1]), ps[|ps| - 1])
  {
    var init, last := ps[..|ps| - 1], ps[|ps| - 1];
    assert ps == init + [last];
    PutAllAppend(items, init, [last]);
    assert [last][1..] == [];
  }

  /** The table of fields is the first-seen keys, each with the last value put under it. */
  lemma {:induction false} FieldsAreLastWins(ps: seq<Pair>)
    requires Plain(ps)
    ensures var items, ks := PutAll([], ps), FirstSeen(ps);
            && KeysOf(items) == ks && Distinct(ks)
            && forall i :: 0 <= i < |items| ==> LastValue(ps, items[i].key) == Some(items[i].value)
  {
    hide Put, CStr;
    if ps != [] {
      var init, last := ps[..|ps| - 1], ps[|ps| - 1];
      FieldsAreLastWins(init);
      PutSnoc([], ps);
      SeenOnce(ps, last.key);
      var was, ks := PutAll([], init), FirstSeen(init);
      assert last.key == CStr(last.key) && last.value == CStr(last.value);
      if last.key in ks {
        var i :| 0 <= i < |ks| && ks[i] == last.key;
        assert was[i].key == KeysOf(was)[i];
        OthersDiffer(was, i);
        PutAt(was, last, i);
      } else {
        assert forall j :: 0 <= j < |was| ==> was[j].key == KeysOf(was)[j];
        PutAt(was, last, |was|);
      }
    }
  }

  lemma OthersDiffer(items: seq<Field>, i: nat)
    requires Distinct(KeysOf(items)) && i < |items|
    ensures forall j :: 0 <= j < |items| && j != i ==> items[j].key != items[i].key
  {
    assert forall j :: 0 <= j < |items| ==> items[j].key == KeysOf(items)[j];
  }

  lemma {:induction false} LookupFinds(items: seq<Field>, key: seq<byte>)
    ensures match Lookup(items, key)
            case None => forall i :: 0 <= i < |items| ==> items[i].key != key
            case Some(v) => exists i :: 0 <= i < |items| && items[i] == Field(key, v)
  {
    if items != [] && items[0].key != key {
      LookupFinds(items[1..], key);
      if Lookup(items, key).Some? {
        var i :| 0 <= i < |items[1..]| && items[1..][i] == Field(key, Lookup(items, key).value);
        assert items[i + 1] == Field(key, Lookup(items, key).value);
      } else {
        assert forall i :: 0 < i < |items| ==> items[i] == items[1..][i - 1];
      }
    }
  }

  /** On a document without NUL, a lookup finds the last value given, and finds every key. */
  lemma GetIsLastValue(data: seq<byte>, key: seq<byte>)
    requires NUL !in data
    ensures Lookup(Parsed([], data), key) == LastValue(Pairs(Lines(data)), key)
  {
    hide Lines, PairOf, Put, Lookup;
    PlainDocument(data);
    var ps := Pairs(Lines(data));
    var items := PutAll([], ps);
    FieldsAreLastWins(ps);
    SeenOnce(ps, key);
    LookupFinds(items, key);
    if Lookup(items, key).None? {
      assert forall i :: 0 <= i < |items| ==> KeysOf(items)[i] == items[i].key;
      assert key !in KeysOf(items);
    }
  }

  // ---- what a document can say ----------------------------------------------------------------

  predicate LegalPair(p: Pair) {
    && p.key != [] && NUL !in p.key && TAB !in p.key && LF !in p.key
    && NUL !in p.value && LF !in p.value
  }

  lemma {:induction false} LinesAreClean(s: seq<byte>)
    requires NUL !in s
    ensures forall l :: l in Lines(s) ==> NUL !in l && LF !in l
    decreases |s|
  {
    var e := Find(s, LF, 0);
    if e < |s| { LinesAreClean(s[e + 1..]); }
  }

  lemma {:induction false} PairsAreLegal(lines: seq<seq<byte>>)
    requires forall l :: l in lines ==> NUL !in l && LF !in l
    ensures forall p :: p in Pairs(lines) ==> LegalPair(p)
  {
    if lines != [] {
      PairsAreLegal(lines[1..]);
      var l := DropCr(lines[0]);
      assert lines[0] in lines;
      assert forall b :: b in l ==> b in lines[0];
    }
  }

  lemma PlainDocument(data: seq<byte>)
    requires NUL !in data
    ensures Plain(Pairs(Lines(data))) && forall p :: p in Pairs(Lines(data)) ==> LegalPair(p)
  {
    hide Lines, PairOf;
    LinesAreClean(data);
    PairsAreLegal(Lines(data));
  }

  // ---- the way back ---------------------------------------------------------------------------

  function Printed(items: seq<Field>): seq<byte> {
    if items == [] then []
    else items[0].key + [TAB] + items[0].value + [CR] + [LF] + Printed(items[1..])
  }

  predicate CStrings(items: seq<Field>) {
    forall f :: f in items ==> NUL !in f.key && NUL !in f.value
  }

  predicate Legal(items: seq<Field>) {
    && (forall f :: f in items ==> LegalPair(Pair(f.key, f.value)))
    && Distinct(KeysOf(items))
  }

  function PairsOf(items: seq<Field>): seq<Pair> {
    if items == [] then [] else [Pair(items[0].key, items[0].value)] + PairsOf(items[1..])
  }

  lemma {:induction false} PrintedLines(items: seq<Field>)
    requires forall f :: f in items ==> LegalPair(Pair(f.key, f.value))
    ensures Pairs(Lines(Printed(items))) == PairsOf(items)
  {
    if items == [] {
      assert Lines([]) == [[]] && PairOf([]) == [] && Pairs([[]][1..]) == [];
    } else {
      PrintedLines(items[1..]);
      var f := items[0];
      assert f in items;
      var line := f.key + [TAB] + f.value + [CR];
      OneLine(f);
      LinesAppend(line, Printed(items[1..]));
      PairsAppend([line], Lines(Printed(items[1..])));
      assert Pairs([line]) == PairOf(line) + Pairs([line][1..]) == PairOf(line);
    }
  }

  lemma OneLine(f: Field)
    requires LegalPair(Pair(f.key, f.value))
    ensures var line := f.key + [TAB] + f.value + [CR];
            Lines(line) == [line] && PairOf(line) == [Pair(f.key, f.value)]
  {
    var line := f.key + [TAB] + f.value + [CR];
    FindIs(line, LF, |line|);
    var l := f.key + [TAB] + f.value;
    assert DropCr(line) == l;
    FindIs(l, TAB, |f.key|);
    assert l[..|f.key|] == f.key && l[|f.key| + 1..] == f.value;
  }

  lemma {:induction false} PutDistinct(done: seq<Field>, items: seq<Field>)
    requires CStrings(items) && Distinct(KeysOf(done + items))
    ensures PutAll(done, PairsOf(items)) == done + items
    decreases |items|
  {
    hide Put, CStr;
    if items == [] {
      assert done + items == done;
    } else {
      var f := items[0];
      assert f in items && CStr(f.key) == f.key && CStr(f.value) == f.value;
      assert done + items == done + [f] + items[1..];
      OthersDiffer(done + items, |done|);
      forall j | 0 <= j < |done| ensures done[j].key != f.key { assert done[j] == (done + items)[j]; }
      PutAt(done, Pair(f.key, f.value), |done|);
      PutDistinct(done + [f], items[1..]);
    }
  }

  lemma {:induction false} PrintedIsPlain(items: seq<Field>)
    requires CStrings(items)
    ensures NUL !in Printed(items)
  {
    if items != [] {
      assert items[0] in items;
      PrintedIsPlain(items[1..]);
    }
  }

  /** Printing fields as CRLF lines and reading them gives them back exactly when they are legal. */
  lemma RoundTripIffLegal(items: seq<Field>)
    requires CStrings(items)
    ensures Parsed([], Printed(items)) == items <==> Legal(items)
  {
    hide Lines, PairOf, Put, Printed, LegalPair, Pairs, LastValue, FirstSeen, PutAll, CStr;
    var data := Printed(items);
    PrintedIsPlain(items);
    PlainDocument(data);
    var ps := Pairs(Lines(data));
    var back := PutAll([], ps);
    FieldsAreLastWins(ps);
    if Legal(items) {
      PrintedLines(items);
      assert [] + items == items;
      PutDistinct([], items);
    }
    if back == items {
      forall f | f in items ensures LegalPair(Pair(f.key, f.value)) {
        var i :| 0 <= i < |items| && items[i] == f;
        PutFromPair(ps, f.key);
      }
    }
  }

  lemma {:induction false} PutFromPair(ps: seq<Pair>, key: seq<byte>)
    requires LastValue(ps, key).Some?
    ensures Pair(key, LastValue(ps, key).value) in ps
  {
    if ps[|ps| - 1].key != key {
      PutFromPair(ps[..|ps| - 1], key);
    }
  }

  // ---- NUL bytes ------------------------------------------------------------------------------

  /** A put keeps the keys apart unless its key has a NUL and its head is already a key. */
  lemma PutKeepsDistinct(items: seq<Field>, p: Pair)
    requires Distinct(KeysOf(items)) && CStrings(items)
    ensures Distinct(KeysOf(Put(items, p))) <==> NUL !in p.key || CStr(p.key) !in KeysOf(items)
  {
    hide Put, CStr;
    var ks := KeysOf(items);
    assert forall j :: 0 <= j < |items| ==> items[j].key == ks[j];
    if p.key in ks {
      var i :| 0 <= i < |ks| && ks[i] == p.key;
      assert items[i] in items;
      OthersDiffer(items, i);
      PutAt(items, p, i);
      assert KeysOf(Put(items, p)) == ks;
    } else {
      PutAt(items, p, |items|);
      assert KeysOf(Put(items, p)) == ks + [CStr(p.key)];
      if CStr(p.key) in ks {
        var i :| 0 <= i < |ks| && ks[i] == CStr(p.key);
        assert (ks + [CStr(p.key)])[i] == (ks + [CStr(p.key)])[|ks|];
      }
    }
  }

  /**
   * A get after a put: other keys are untouched; the put key gives the new value, unless a NUL
   * in it hides that its head was a key already, and then the old value stays in front.
   */
  lemma {:induction false} GetAfterPut(items: seq<Field>, p: Pair, key: seq<byte>)
    requires CStrings(items)
    ensures Lookup(Put(items, p), key)
            == if key == CStr(p.key) && (NUL !in p.key || Lookup(items, key).None?) then Some(CStr(p.value))
               else Lookup(items, key)
  {
    hide CStr;
    if items == [] {
      var one := Put(items, p);
      assert one[1..] == [];
    } else {
      assert items[0] in items;
      GetAfterPut(items[1..], p, key);
      var put := Put(items, p);
      if items[0].key == p.key {
        assert p.key == CStr(p.key);
        assert put[1..] == items[1..];
      } else {
        assert put[1..] == Put(items[1..], p) && put[0] == items[0];
      }
    }
  }

  /** Two lines under the key `a NUL`: two fields under `a`, and a lookup finds the first value. */
  lemma NulKeyKeepsOldValue()
    ensures var data: seq<byte> := [97, NUL, TAB, 49, LF, 97, NUL, TAB, 50];
            && Parsed([], data) == [Field([97], [49]), Field([97], [50])]
            && Lookup(Parsed([], data), [97]) == Some([49])
            && LastValue(Pairs(Lines(data)), [97, NUL]) == Some([50])
  {
    hide Lines, PairOf, Pairs, Put, PutAll, Lookup, LastValue, CStr, Find;
    var x: seq<byte>, y: seq<byte> := [97, NUL, TAB, 49], [97, NUL, TAB, 50];
    var data: seq<byte> := [97, NUL, TAB, 49, LF, 97, NUL, TAB, 50];
    assert data == x + [LF] + y;
    LinesCut(data, x, y);
    WholeLine(y);
    NulPair(49);
    NulPair(50);
    TwoPairs(data, x, y, Pair([97, NUL], [49]), Pair([97, NUL], [50]));
    PutTwo();
  }

  lemma NulPair(b: byte)
    requires b != NUL && b != CR
    ensures PairOf([97, NUL, TAB, b]) == [Pair([97, NUL], [b])]
  {
    hide Find;
    var l: seq<byte> := [97, NUL, TAB, b];
    FindIs(l, TAB, 2);
    assert l[..2] == [97, NUL] && l[3..] == [b];
  }

  lemma PutTwo()
    ensures var items := PutAll([], [Pair([97, NUL], [49]), Pair([97, NUL], [50])]);
            items == [Field([97], [49]), Field([97], [50])] && Lookup(items, [97]) == Some([49])
  {
    hide CStr;
    var p, q := Pair([97, NUL], [49]), Pair([97, NUL], [50]);
    CutAtNul(49);
    CutAtNul(50);
    var one := Put([], p);
    PutAt(one, q, 1);
    assert [p, q][1..] == [q] && [q][1..] == [];
    assert PutAll(one, [q]) == PutAll(Put(one, q), []);
  }

  lemma TwoPairs(data: seq<byte>, x: seq<byte>, y: seq<byte>, p: Pair, q: Pair)
    requires Lines(data) == [x] + [y] && PairOf(x) == [p] && PairOf(y) == [q]
    ensures Pairs(Lines(data)) == [p, q] && LastValue(Pairs(Lines(data)), q.key) == Some(q.value)
  {
    hide PairOf, Lines;
    assert ([x] + [y])[1..] == [y] && [y][1..] == [];
    assert Pairs([y]) == [q] + Pairs([]) == [q];
  }

  lemma CutAtNul(b: byte)
    requires b != NUL
    ensures CStr([97, NUL]) == [97] && CStr([b]) == [b]
  {
    assert [97, NUL][1..] == [NUL] && CStr([NUL]) == [];
  }
}
