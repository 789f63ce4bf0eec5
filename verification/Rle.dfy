/** The icns run-length encoder (tools/make_icns.py, `icns_rle`) and the rule that decodes it. */
module Rle {
  import opened Bytes

  const MAX_RUN: nat := 130
  const MAX_LITERAL: nat := 128

  function Repeat(b: byte, n: nat): (r: seq<byte>)
    ensures |r| == n
  {
    seq(n, i requires 0 <= i < n => b)
  }

  /** The bytes of the first packet of a nonempty code: a control byte and what it governs. */
  function PacketSize(code: seq<byte>): (n: nat)
    requires code != []
    ensures n >= 2
  {
    if code[0] >= 0x80 then 2 else code[0] + 2
  }

  /** A control byte from 128 on repeats the next byte; a smaller one copies the bytes after it. */
  function Says(code: seq<byte>): seq<byte>
    requires code != [] && PacketSize(code) <= |code|
  {
    if code[0] >= 0x80 then Repeat(code[1], code[0] - 0x80 + 3) else code[1..PacketSize(code)]
  }

  function Decode(code: seq<byte>): Option<seq<byte>>
    decreases |code|
  {
    if code == [] then Some([])
    else if PacketSize(code) > |code| then None
    else
      var rest := Decode(code[PacketSize(code)..]);
      if rest.None? then None else Some(Says(code) + rest.value)
  }

  lemma FirstPacket(a: seq<byte>, b: seq<byte>)
    requires a != [] && PacketSize(a) <= |a|
    ensures PacketSize(a + b) == PacketSize(a) && Says(a + b) == Says(a)
    ensures (a + b)[PacketSize(a)..] == a[PacketSize(a)..] + b
  {
    assert (a + b)[1..PacketSize(a)] == a[1..PacketSize(a)];
  }

  /** Codes decode independently, so one may follow another: the three colour planes do. */
  lemma {:induction false} DecodeAppend(a: seq<byte>, b: seq<byte>)
    requires Decode(a).Some? && Decode(b).Some?
    ensures Decode(a + b) == Some(Decode(a).value + Decode(b).value)
    decreases |a|
  {
    hide PacketSize, Says;
    if a == [] {
      assert a + b == b;
      assert [] + Decode(b).value == Decode(b).value;
    } else {
      var rest := a[PacketSize(a)..];
      DecodeAppend(rest, b);
      FirstPacket(a, b);
      assert Says(a) + Decode(rest).value + Decode(b).value == Says(a) + (Decode(rest).value + Decode(b).value);
    }
  }

  lemma OnePacket(code: seq<byte>)
    requires code != [] && PacketSize(code) == |code|
    ensures Decode(code) == Some(Says(code))
  {
    assert code[|code|..] == [];
    assert Says(code) + [] == Says(code);
  }

  lemma RunDecodes(b: byte, n: nat)
    requires 3 <= n <= MAX_RUN
    ensures Decode(RunPacket(b, n)) == Some(Repeat(b, n))
  {
    OnePacket(RunPacket(b, n));
  }

  lemma LiteralDecodes(lit: seq<byte>)
    requires 1 <= |lit| <= MAX_LITERAL
    ensures Decode(LiteralPacket(lit)) == Some(lit)
  {
    hide Decode, Repeat;
    var code := LiteralPacket(lit);
    assert PacketSize(code) == |code|;
    assert Says(code) == code[1..|code|] == lit;
    OnePacket(code);
  }

  // ---- the encoding ---------------------------------------------------------------------------

  /** Three equal bytes start at `i`. */
  predicate RunAt(data: seq<byte>, i: nat) {
    i + 3 <= |data| && data[i] == data[i + 1] == data[i + 2]
  }

  /** The end of the run that `i` and `j` are in, at most 130 bytes long. */
  function RunTo(data: seq<byte>, i: nat, j: nat): (e: nat)
    requires i <= j <= |data| && i < |data| && j - i <= MAX_RUN
    ensures j <= e <= |data| && e - i <= MAX_RUN
    ensures forall k :: j <= k < e ==> data[k] == data[i]
    ensures e == |data| || e - i == MAX_RUN || data[e] != data[i]
    decreases |data| - j
  {
    if j < |data| && data[j] == data[i] && j - i < MAX_RUN then RunTo(data, i, j + 1) else j
  }

  /** The end of the literal: the next run of three, the end, or 128 bytes. */
  function LiteralTo(data: seq<byte>, i: nat, j: nat): (e: nat)
    requires i <= j <= |data| && j - i <= MAX_LITERAL
    ensures j <= e <= |data| && e - i <= MAX_LITERAL
    ensures forall k :: j <= k < e ==> !RunAt(data, k)
    ensures e == |data| || e - i == MAX_LITERAL || RunAt(data, e)
    decreases |data| - j
  {
    if j < |data| && j - i < MAX_LITERAL && !RunAt(data, j) then LiteralTo(data, i, j + 1) else j
  }

  function RunPacket(b: byte, n: nat): seq<byte>
    requires 3 <= n <= MAX_RUN
  {
    [0x80 + n - 3, b]
  }

  function LiteralPacket(lit: seq<byte>): seq<byte>
    requires 1 <= |lit| <= MAX_LITERAL
  {
    [|lit| - 1] + lit
  }

  /** The packet for the bytes at `i`, and where the next one starts. */
  function Next(data: seq<byte>, i: nat): (r: (seq<byte>, nat))
    requires i < |data|
    ensures i < r.1 <= |data| && |r.0| >= 2 && r.0[1] == data[i]
    ensures r.0[0] >= 0x80 <==> RunAt(data, i)
  {
    if RunAt(data, i) then
      var e := RunTo(data, i, i + 3);
      (RunPacket(data[i], e - i), e)
    else
      var e := LiteralTo(data, i, i + 1);
      (LiteralPacket(data[i..e]), e)
  }

  function Encode(data: seq<byte>, i: nat): seq<byte>
    requires i <= |data|
    decreases |data| - i
  {
    if i == |data| then [] else Next(data, i).0 + Encode(data, Next(data, i).1)
  }

  lemma NextDecodes(data: seq<byte>, i: nat)
    requires i < |data|
    ensures Decode(Next(data, i).0) == Some(data[i..Next(data, i).1])
  {
    hide Decode, RunPacket, LiteralPacket, RunTo, LiteralTo;
    var e := Next(data, i).1;
    if RunAt(data, i) {
      assert data[i..e] == Repeat(data[i], e - i);
      RunDecodes(data[i], e - i);
    } else {
      LiteralDecodes(data[i..e]);
    }
  }

  /** The encoding loses nothing. */
  lemma {:induction false} EncodeDecodes(data: seq<byte>, i: nat)
    requires i <= |data|
    ensures Decode(Encode(data, i)) == Some(data[i..])
    decreases |data| - i
  {
    hide Decode, Next;
    if i == |data| {
      NothingDecodes();
      assert data[i..] == [];
    } else {
      var e := Next(data, i).1;
      EncodeDecodes(data, e);
      NextDecodes(data, i);
      DecodeAppend(Next(data, i).0, Encode(data, e));
      assert data[i..] == data[i..e] + data[e..];
    }
  }

  lemma NothingDecodes()
    ensures Decode([]) == Some([])
  {
  }

  /**
   * 128 bytes never cost more than one control byte beyond themselves, and only data that
   * does not start with a run owes one control byte more.
   */
  lemma {:induction false} EncodeIsShort(data: seq<byte>, i: nat)
    requires i <= |data|
    ensures 128 * |Encode(data, i)| <= 129 * (|data| - i) + if i == |data| || RunAt(data, i) then 0 else 128
    decreases |data| - i
  {
    hide RunAt, RunTo, LiteralTo;
    if i < |data| {
      EncodeIsShort(data, Next(data, i).1);
    }
  }

  /** No literal holds three equal bytes in a row, and no run could have been longer. */
  predicate Tight(code: seq<byte>)
    decreases |code|
  {
    code == []
    || (PacketSize(code) <= |code|
        && var rest := code[PacketSize(code)..];
           Tight(rest)
           && (if code[0] >= 0x80 then code[0] == 0xFF || !StartsWith(rest, code[1])
               else (forall k :: 0 <= k < |Says(code)| ==> !RunAt(Says(code), k))
                    && (rest == [] || code[0] == 0x7F || rest[0] >= 0x80)))
  }

  /** The first byte the code decodes to. */
  predicate StartsWith(code: seq<byte>, b: byte) {
    |code| >= 2 && code[1] == b
  }

  lemma {:induction false} EncodeIsTight(data: seq<byte>, i: nat)
    requires i <= |data|
    ensures Tight(Encode(data, i))
    decreases |data| - i
  {
    hide RunTo, LiteralTo, Tight, Encode, RunPacket, LiteralPacket;
    EncodeUnfolds(data, i);
    if i < |data| {
      var e := Next(data, i).1;
      EncodeIsTight(data, e);
      EncodeUnfolds(data, e);
      if RunAt(data, i) {
        RunIsTight(data[i], e - i, Encode(data, e));
      } else {
        var lit := data[i..e];
        assert forall k :: 0 <= k < |lit| && RunAt(lit, k) ==> RunAt(data, i + k);
        LiteralIsTight(lit, Encode(data, e));
      }
    } else {
      NothingIsTight();
    }
  }

  lemma NothingIsTight()
    ensures Tight([])
  {
  }

  lemma EncodeUnfolds(data: seq<byte>, i: nat)
    requires i <= |data|
    ensures var code := Encode(data, i);
            if i == |data| then code == []
            else code == Next(data, i).0 + Encode(data, Next(data, i).1)
                 && |code| >= 2 && code[1] == data[i] && (code[0] >= 0x80 <==> RunAt(data, i))
  {
    hide Next, RunAt;
  }

  lemma RunIsTight(b: byte, n: nat, rest: seq<byte>)
    requires 3 <= n <= MAX_RUN && Tight(rest) && (n == MAX_RUN || !StartsWith(rest, b))
    ensures Tight(RunPacket(b, n) + rest)
  {
    var code := RunPacket(b, n) + rest;
    assert code[2..] == rest;
  }

  lemma LiteralIsTight(lit: seq<byte>, rest: seq<byte>)
    requires 1 <= |lit| <= MAX_LITERAL && Tight(rest)
    requires forall k :: 0 <= k < |lit| ==> !RunAt(lit, k)
    requires rest == [] || |lit| == MAX_LITERAL || rest[0] >= 0x80
    ensures Tight(LiteralPacket(lit) + rest)
  {
    hide RunAt;
    var code := LiteralPacket(lit) + rest;
    assert code[|lit| + 1..] == rest && code[1..|lit| + 1] == lit;
  }

  // ---- the encoder ----------------------------------------------------------------------------

  method IcnsRle(data: seq<byte>) returns (out: seq<byte>)
    ensures out == Encode(data, 0)
    ensures Decode(out) == Some(data) && Tight(out) && |out| <= |data| + |data| / 128 + 1
  {
    hide Decode, Next, Tight, RunAt;
    out := [];
    var i := 0;
    assert out + Encode(data, 0) == Encode(data, 0);
    while i < |data|
      invariant i <= |data| && out + Encode(data, i) == Encode(data, 0)
    {
      var packet, j := PacketAt(data, i);
      assert out + (packet + Encode(data, j)) == out + packet + Encode(data, j);
      out, i := out + packet, j;
    }
    EncodeDecodes(data, 0);
    EncodeIsShort(data, 0);
    EncodeIsTight(data, 0);
    assert data[0..] == data && out + [] == out;
  }

  /** One turn of the encoder's loop. */
  method PacketAt(data: seq<byte>, i: nat) returns (packet: seq<byte>, j: nat)
    requires i < |data|
    ensures (packet, j) == Next(data, i)
  {
    hide RunAt, RunTo, LiteralTo, RunPacket, LiteralPacket;
    j := i;
    while j < |data| && data[j] == data[i] && j - i < MAX_RUN
      invariant i <= j <= |data| && j - i <= MAX_RUN
      invariant RunTo(data, i, j) == RunTo(data, i, i)
      invariant forall k :: i <= k < j ==> data[k] == data[i]
    {
      RunGoesOn(data, i, j);
      j := j + 1;
    }
    RunFound(data, i, j);
    if j - i >= 3 {
      packet := RunPacket(data[i], j - i);
    } else {
      var lit;
      lit, j := Literal(data, i);
      packet := LiteralPacket(lit);
    }
  }

  lemma RunGoesOn(data: seq<byte>, i: nat, j: nat)
    requires i <= j < |data| && data[j] == data[i] && j - i < MAX_RUN
    ensures RunTo(data, i, j) == RunTo(data, i, j + 1)
  {
  }

  lemma RunFound(data: seq<byte>, i: nat, j: nat)
    requires i <= j <= |data| && i < |data| && j - i <= MAX_RUN
    requires forall k :: i <= k < j ==> data[k] == data[i]
    requires j == |data| || data[j] != data[i] || j - i == MAX_RUN
    requires RunTo(data, i, j) == RunTo(data, i, i)
    ensures j - i >= 1 && (j - i >= 3 <==> RunAt(data, i))
    ensures RunAt(data, i) ==> j == RunTo(data, i, i + 3)
  {
    if RunAt(data, i) {
      RunGoesOn(data, i, i);
      RunGoesOn(data, i, i + 1);
      RunGoesOn(data, i, i + 2);
    }
  }

  method Literal(data: seq<byte>, i: nat) returns (lit: seq<byte>, j: nat)
    requires i < |data| && !RunAt(data, i)
    ensures i < j <= |data| && j == LiteralTo(data, i, i + 1) && lit == data[i..j] && |lit| <= MAX_LITERAL
  {
    lit, j := [], i;
    while j < |data| && |lit| < MAX_LITERAL
      invariant i <= j <= |data| && lit == data[i..j] && |lit| <= MAX_LITERAL
      invariant j > i ==> LiteralTo(data, i, j) == LiteralTo(data, i, i + 1)
    {
      var k := j;
      while k < |data| && data[k] == data[j] && k - j < 3
        invariant j <= k <= |data| && k - j <= 3
        invariant forall x :: j <= x < k ==> data[x] == data[j]
      {
        k := k + 1;
      }
      if k - j >= 3 { break; }
      lit := lit + [data[j]];
      j := j + 1;
    }
  }

  /** The three planes of an image, encoded one after the other, decode to the planes. */
  method RgbRle(r: seq<byte>, g: seq<byte>, b: seq<byte>) returns (out: seq<byte>)
    ensures out == Encode(r, 0) + Encode(g, 0) + Encode(b, 0)
    ensures Decode(out) == Some(r + g + b)
  {
    hide Decode, Encode;
    var x := IcnsRle(r);
    var y := IcnsRle(g);
    var z := IcnsRle(b);
    DecodeAppend(x, y);
    DecodeAppend(x + y, z);
    out := x + y + z;
  }
}
