/** The tab-separated key-value codec of src/cq_codec.c. */
module Codec {
  import opened Bytes

  const NUL: byte := 0
  const TAB: byte := 9
  const LF: byte := 10
  const CR: byte := 13

  datatype Field = Field(key: seq<byte>, value: seq<byte>)

  /** The C string a copied range reads as. */
  function CStr(s: seq<byte>): (r: seq<byte>)
    ensures |r| <= |s| && r == s[..|r|] && NUL !in r
    ensures NUL !in s ==> r == s
  {
    if s == [] || s[0] == NUL then [] else [s[0]] + CStr(s[1..])
  }

  /** First offset of `b` at or after `i`, or the length. */
  function Find(s: seq<byte>, b: byte, i: nat): (r: nat)
    requires i <= |s|
    ensures i <= r <= |s| && (r < |s| ==> s[r] == b)
    ensures forall j :: i <= j < r ==> s[j] != b
    decreases |s| - i
  {
    if i == |s| || s[i] == b then i else Find(s, b, i + 1)
  }

  function Lines(s: seq<byte>): (r: seq<seq<byte>>)
    ensures |r| >= 1
    decreases |s|
  {
    var e := Find(s, LF, 0);
    if e == |s| then [s] else [s[..e]] + Lines(s[e + 1..])
  }

  /** Exactly one trailing CR goes. */
  function DropCr(line: seq<byte>): seq<byte> {
    if line != [] && line[|line| - 1] == CR then line[..|line| - 1] else line
  }

  datatype Pair = Pair(key: seq<byte>, value: seq<byte>)

  /** What a line says: nothing, unless a nonempty key stands before its first TAB. */
  function PairOf(line: seq<byte>): seq<Pair> {
    var l := DropCr(line);
    var t := Find(l, TAB, 0);
    if 0 < t < |l| then [Pair(l[..t], l[t + 1..])] else []
  }

  function Pairs(lines: seq<seq<byte>>): seq<Pair> {
    if lines == [] then [] else PairOf(lines[0]) + Pairs(lines[1..])
  }

  function Put(items: seq<Field>, p: Pair): seq<Field> {
    if items == [] then [Field(CStr(p.key), CStr(p.value))]
    else if items[0].key == p.key then [Field(items[0].key, CStr(p.value))] + items[1..]
    else [items[0]] + Put(items[1..], p)
  }

  function PutAll(items: seq<Field>, ps: seq<Pair>): seq<Field>
    decreases |ps|
  {
    if ps == [] then items else PutAll(Put(items, ps[0]), ps[1..])
  }

  /** The document read into fields that may already hold some. */
  function Parsed(items: seq<Field>, data: seq<byte>): seq<Field> {
    PutAll(items, Pairs(Lines(data)))
  }

  function Lookup(items: seq<Field>, key: seq<byte>): Option<seq<byte>> {
    if items == [] then None
    else if items[0].key == key then Some(items[0].value)
    else Lookup(items[1..], key)
  }

  class Fields {
    var items: seq<Field>

    constructor ()
      ensures items == []
    {
      items := [];
    }

    method FieldsPut(k: seq<byte>, v: seq<byte>)
      modifies this
      ensures items == Put(old(items), Pair(k, v))
    {
      hide Put, CStr;
      var i := 0;
      while i < |items|
        invariant i <= |items| && items == old(items)
        invariant forall j :: 0 <= j < i ==> items[j].key != k
      {
        if |items[i].key| == |k| && items[i].key == k {
          PutAt(items, Pair(k, v), i);
          items := items[i := items[i].(value := CStr(v))];
          return;
        }
        i := i + 1;
      }
      PutAt(items, Pair(k, v), i);
      items := items + [Field(CStr(k), CStr(v))];
    }

    method Parse(data: seq<byte>)
      modifies this
      ensures items == Parsed(old(items), data)
    {
      hide Put, PairOf, Find, Lines, Pairs, PutAll;
      if |data| == 0 { EmptyDocument(items); return; }
      ghost var goal := Parsed(items, data);
      assert data[0..] == data;
      var start := 0;
      while start <= |data|
        invariant start <= |data| && Parsed(items, data[start..]) == goal
      {
        var end := start;
        while end < |data| && data[end] != LF
          invariant start <= end <= |data|
          invariant forall j :: start <= j < end ==> data[j] != LF
        {
          end := end + 1;
        }
        LineAt(data, start, end);
        ghost var before, line := items, data[start..end];
        ParseLine(data, start, end);
        if end >= |data| { LastLine(before, line); return; }
        FirstLine(before, line, data[end + 1..]);
        start := end + 1;
      }
    }

    /** One turn of the parser's loop: the line between `start` and `end`. */
    method ParseLine(data: seq<byte>, start: nat, end: nat)
      requires start <= end <= |data|
      modifies this
      ensures items == PutAll(old(items), PairOf(data[start..end]))
    {
      hide Put, PairOf;
      var lineLen := end - start;
      if lineLen > 0 && data[start + lineLen - 1] == CR { lineLen := lineLen - 1; }
      var found, tab, i := false, 0, 0;
      while i < lineLen && !found
        invariant i <= lineLen && (found ==> tab < lineLen && data[start + tab] == TAB)
        invariant forall j :: start <= j < start + (if found then tab else i) ==> data[j] != TAB
      {
        if data[start + i] == TAB { tab, found := i, true; }
        i := i + 1;
      }
      LineSays(data, start, end, lineLen, if found then tab else lineLen);
      if found && tab > 0 {
        FieldsPut(data[start..start + tab], data[start + tab + 1..start + lineLen]);
      }
    }

    method Get(key: seq<byte>) returns (r: Option<seq<byte>>)
      ensures r == Lookup(items, key)
    {
      var i := 0;
      assert items[0..] == items;
      while i < |items|
        invariant i <= |items| && Lookup(items[i..], key) == Lookup(items, key)
      {
        if items[i].key == key { return Some(items[i].value); }
        assert items[i..][1..] == items[i + 1..];
        i := i + 1;
      }
      return None;
    }
  }

  lemma {:induction false} PutAt(items: seq<Field>, p: Pair, i: nat)
    requires i <= |items| && forall j :: 0 <= j < i ==> items[j].key != p.key
    ensures i == |items| ==> Put(items, p) == items + [Field(CStr(p.key), CStr(p.value))]
    ensures i < |items| && items[i].key == p.key ==> Put(items, p) == items[i := items[i].(value := CStr(p.value))]
  {
    hide CStr;
    if i > 0 {
      PutAt(items[1..], p, i - 1);
    }
  }

  lemma LineSays(data: seq<byte>, start: nat, end: nat, n: nat, t: nat)
    requires start <= end <= |data| && t <= n <= end - start
    requires n == if end > start && data[end - 1] == CR then end - start - 1 else end - start
    requires forall j :: start <= j < start + t ==> data[j] != TAB
    requires t < n ==> data[start + t] == TAB
    ensures PairOf(data[start..end])
            == if 0 < t < n then [Pair(data[start..start + t], data[start + t + 1..start + n])] else []
  {
    hide Find, DropCr;
    var line := data[start..start + n];
    DropsCr(data, start, end, n);
    FindInside(data, start, n, TAB, t);
    if 0 < t < n {
      SliceOf(data, start, n, 0, t);
      SliceOf(data, start, n, t + 1, n);
    }
  }

  lemma DropsCr(data: seq<byte>, start: nat, end: nat, n: nat)
    requires start <= end <= |data| && start + n <= |data|
    requires n == if end > start && data[end - 1] == CR then end - start - 1 else end - start
    ensures DropCr(data[start..end]) == data[start..start + n]
  {
    var line := data[start..end];
    if end > start { assert line[|line| - 1] == data[end - 1]; }
    assert n <= |line| && line[..n] == data[start..start + n];
  }

  lemma FindInside(data: seq<byte>, start: nat, n: nat, b: byte, t: nat)
    requires start + n <= |data| && t <= n && (t < n ==> data[start + t] == b)
    requires forall j :: start <= j < start + t ==> data[j] != b
    ensures Find(data[start..start + n], b, 0) == t
  {
    hide Find;
    var line := data[start..start + n];
    forall j | 0 <= j < t ensures line[j] != b { assert line[j] == data[start + j]; }
    FindIs(line, b, t);
  }

  lemma SliceOf(data: seq<byte>, start: nat, n: nat, lo: nat, hi: nat)
    requires start + n <= |data| && lo <= hi <= n
    ensures data[start..start + n][lo..hi] == data[start + lo..start + hi]
  {
    var part := data[start..start + n];
    var l, r := part[lo..hi], data[start + lo..start + hi];
    forall j | 0 <= j < hi - lo ensures l[j] == r[j] { assert l[j] == part[lo + j] == data[start + (lo + j)]; }
    assert l == r;
  }

  lemma EmptyDocument(items: seq<Field>)
    ensures Parsed(items, []) == items
  {
    assert Lines([]) == [[]] && PairOf([]) == [] && Pairs([[]][1..]) == [];
  }

  lemma FindIs(s: seq<byte>, b: byte, e: nat)
    requires e <= |s| && (e < |s| ==> s[e] == b) && forall j :: 0 <= j < e ==> s[j] != b
    ensures Find(s, b, 0) == e
  {
  }

  lemma LineAt(data: seq<byte>, start: nat, end: nat)
    requires start <= end <= |data| && (end < |data| ==> data[end] == LF)
    requires forall j :: start <= j < end ==> data[j] != LF
    ensures Lines(data[start..])
            == if end == |data| then [data[start..end]] else [data[start..end]] + Lines(data[end + 1..])
  {
    var s := data[start..];
    FindIs(s, LF, end - start);
    if end == |data| {
      assert s == data[start..end];
    } else {
      assert s[..end - start] == data[start..end] && s[end - start + 1..] == data[end + 1..];
    }
  }

  lemma {:induction false} PairsAppend(a: seq<seq<byte>>, b: seq<seq<byte>>)
    ensures Pairs(a + b) == Pairs(a) + Pairs(b)
  {
    hide PairOf;
    if a == [] {
      assert a + b == b;
    } else {
      PairsAppend(a[1..], b);
      assert (a + b)[1..] == a[1..] + b && (a + b)[0] == a[0];
    }
  }

  lemma {:induction false} PutAllAppend(items: seq<Field>, a: seq<Pair>, b: seq<Pair>)
    ensures PutAll(items, a + b) == PutAll(PutAll(items, a), b)
    decreases |a|
  {
    hide Put;
    if a == [] {
      assert a + b == b;
    } else {
      PutAllAppend(Put(items, a[0]), a[1..], b);
      assert (a + b)[1..] == a[1..] + b && (a + b)[0] == a[0];
    }
  }

  lemma LastLine(items: seq<Field>, line: seq<byte>)
    ensures PutAll(items, Pairs([line])) == PutAll(items, PairOf(line))
  {
    hide PairOf, Put;
    assert Pairs([line]) == PairOf(line) + Pairs([line][1..]);
    assert PairOf(line) + [] == PairOf(line);
  }

  lemma FirstLine(items: seq<Field>, line: seq<byte>, rest: seq<byte>)
    ensures PutAll(items, Pairs([line] + Lines(rest))) == Parsed(PutAll(items, PairOf(line)), rest)
  {
    hide PairOf, Put;
    PairsAppend([line], Lines(rest));
    PutAllAppend(items, Pairs([line]), Pairs(Lines(rest)));
    LastLine(items, line);
  }
}
