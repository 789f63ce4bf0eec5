/**
 * When the way a stream is chunked decides whether it is heard at all: the two size limits
 * of the listen (os9/casquinha.c, lines 1965 and 2002).
 */
module Chunks {
  import opened Bytes
  import opened Mp3
  import opened Pump
  import opened Feed

  /** The bytes of an open wire, slice by slice. */
  function Arrived(slices: seq<Slice>): seq<byte> {
    if slices == [] then [] else slices[0].arrived + Arrived(slices[1..])
  }

  /** A chunking of `all` on a wire that stays open. */
  predicate Chunking(slices: seq<Slice>, all: seq<byte>) {
    Arrived(slices) == all && forall in_ :: in_ in slices ==> !in_.closed
  }

  /** The header ends early enough, and the first confirmed frame follows early enough. */
  predicate InLimits(all: seq<byte>) {
    HeaderEndInside(all, 0);
    var h := HeaderEnd(all, 0);
    && (|all| <= HEADER_LIMIT || HeaderEnd(all[..HEADER_LIMIT + 1], 0) >= 0)
    && (h >= 0 ==> |all| - h <= SYNC_LIMIT || SyncFrom(all[h..][..SYNC_LIMIT + 1], 0) >= 0)
  }

  /** The four bytes at `i` are CR, LF, CR, LF. */
  predicate EndsAt(buf: seq<byte>, i: nat) {
    i + 4 <= |buf| && buf[i..i + 4] == [13, 10, 13, 10]
  }

  /** The header ends behind the first of them. */
  lemma {:induction false} HeaderEndIsFirst(buf: seq<byte>, from: nat, i: nat)
    requires from <= i
    ensures HeaderEnd(buf, from) == i + 4 <==> EndsAt(buf, i) && forall j: nat :: from <= j < i ==> !EndsAt(buf, j)
    ensures HeaderEnd(buf, from) < 0 ==> !EndsAt(buf, i)
    decreases i - from
  {
    EndsIsEnd(buf, from);
    EndsIsEnd(buf, i);
    NotBehind(buf, from + 1);
    if from < i && from + 4 <= |buf| && !EndsAt(buf, from) { HeaderEndIsFirst(buf, from + 1, i); }
  }

  lemma EndsIsEnd(buf: seq<byte>, i: nat)
    ensures EndsAt(buf, i) <==> HeaderEndsAt(buf, i)
  {
    if i + 4 <= |buf| {
      var four := buf[i..i + 4];
      assert four == [buf[i], buf[i + 1], buf[i + 2], buf[i + 3]];
    }
  }

  lemma {:induction false} NotBehind(buf: seq<byte>, i: nat)
    ensures HeaderEnd(buf, i) >= 0 ==> HeaderEnd(buf, i) >= i + 4
    decreases |buf| - i
  {
    if i + 4 <= |buf| && !HeaderEndsAt(buf, i) { NotBehind(buf, i + 1); }
  }

  lemma {:induction false} HeaderEndPrefix(buf: seq<byte>, n: nat, i: nat)
    requires n <= |buf| && 0 <= HeaderEnd(buf, i) <= n
    ensures HeaderEnd(buf[..n], i) == HeaderEnd(buf, i)
    decreases |buf| - i
  {
    if !HeaderEndsAt(buf, i) {
      HeaderEndPrefix(buf, n, i + 1);
    } else {
      assert HeaderEndsAt(buf[..n], i);
    }
  }

  /** What is decided on a prefix stays decided. */
  lemma HeaderOfPrefix(part: seq<byte>, all: seq<byte>)
    requires part <= all && HeaderEnd(part, 0) >= 0
    ensures HeaderEnd(all, 0) == HeaderEnd(part, 0) <= |part|
  {
    assert all == part + all[|part|..];
    HeaderStable(part, all[|part|..], 0);
    HeaderEndInside(part, 0);
  }

  lemma SyncOfPrefix(part: seq<byte>, all: seq<byte>)
    requires part <= all && SyncFrom(part, 0) >= 0
    ensures SyncFrom(all, 0) == SyncFrom(part, 0)
  {
    hide SyncFrom;
    assert all == part + all[|part|..];
    SyncStable(part, all[|part|..]);
  }

  /** Within the limits, what has arrived so far is too. */
  lemma PartInLimits(part: seq<byte>, all: seq<byte>)
    requires part <= all && InLimits(all)
    ensures InLimits(part)
  {
    hide SyncFrom, HeaderEnd;
    if |part| > HEADER_LIMIT { assert part[..HEADER_LIMIT + 1] == all[..HEADER_LIMIT + 1]; }
    if HeaderEnd(part, 0) >= 0 {
      HeaderOfPrefix(part, all);
      var h := HeaderEnd(part, 0);
      var s, t := part[h..], all[h..];
      if |s| > SYNC_LIMIT { assert s[..SYNC_LIMIT + 1] == t[..SYNC_LIMIT + 1]; }
    }
  }

  /** Where the header can end, within the limits. */
  lemma HeaderEndsEarly(all: seq<byte>)
    requires InLimits(all) && HeaderEnd(all, 0) >= 0
    ensures HeaderEnd(all, 0) <= HEADER_LIMIT + 1
  {
    hide SyncFrom, HeaderEnd;
    HeaderEndInside(all, 0);
    if |all| > HEADER_LIMIT { HeaderOfPrefix(all[..HEADER_LIMIT + 1], all); }
  }

  /** The listen while every received byte could still be part of what is looked for. */
  ghost predicate Looking(f: Listen, received: seq<byte>) {
    && f.open && f.lost == []
    && match f.au
       case Idle => false
       case Http => f.wire == [] && f.staged == received && HeaderEnd(received, 0) < 0 && |received| <= HEADER_LIMIT
       case Syncing =>
         && f.wire == [] && 0 <= HeaderEnd(received, 0) <= |received| && f.staged == received[HeaderEnd(received, 0)..]
         && SyncFrom(f.staged, 0) < 0 && |f.staged| <= SYNC_LIMIT
       case Play =>
         && 0 <= HeaderEnd(received, 0) <= |received| && SyncFrom(received[HeaderEnd(received, 0)..], 0) >= 0
  }

  /** A listen about to look for the first frame in `s`, of which it has staged a part. */
  lemma SyncDecides(g: Listen, s: seq<byte>)
    requires g.au == Syncing && g.staged <= s && g.open && g.lost == []
    requires |s| <= SYNC_LIMIT || SyncFrom(s[..SYNC_LIMIT + 1], 0) >= 0
    requires g.staged == s || |g.staged| > SYNC_LIMIT
    ensures var k := SyncUp(g);
            && k.open && k.lost == [] && k.wire == g.wire
            && (if SyncFrom(s, 0) >= 0 then k.au == Play
                else k == g && g.staged == s && |g.staged| <= SYNC_LIMIT)
  {
    hide SyncFrom;
    SyncInside(g.staged);
    if |s| > SYNC_LIMIT {
      SyncOfPrefix(s[..SYNC_LIMIT + 1], s);
      if |g.staged| > SYNC_LIMIT {
        assert s[..SYNC_LIMIT + 1] <= g.staged;
        SyncOfPrefix(s[..SYNC_LIMIT + 1], g.staged);
      }
    }
  }

  /** A listen about to look for the end of the header in `r`, of which it has staged a part. */
  lemma StripDecides(g: Listen, r: seq<byte>)
    requires g.au == Http && g.open && g.lost == [] && InLimits(r)
    requires g.staged <= r && (g.staged == r || |g.staged| == STAGING)
    ensures var k := Strip(g);
            && k.open && k.lost == [] && k.wire == g.wire
            && (if HeaderEnd(r, 0) >= 0 then
                  && HeaderEnd(r, 0) <= |g.staged|
                  && k == g.(au := Syncing, staged := g.staged[HeaderEnd(r, 0)..])
                else k == g && g.staged == r && |r| <= HEADER_LIMIT)
  {
    hide SyncFrom, HeaderEnd;
    var p := g.staged;
    HeaderEndInside(p, 0);
    HeaderEndInside(r, 0);
    ShortHasNone(p);
    if |r| > HEADER_LIMIT {
      var q := r[..HEADER_LIMIT + 1];
      assert q <= p;
      HeaderOfPrefix(q, p);
      HeaderOfPrefix(p, r);
    }
  }

  lemma ShortHasNone(p: seq<byte>)
    ensures |p| < 4 ==> HeaderEnd(p, 0) < 0
  {
  }

  /** One slice of an open wire within the limits keeps the listen looking, or playing. */
  lemma SliceKeepsLooking(f: Listen, in_: Slice, r: seq<byte>)
    requires Looking(f, r) && !in_.closed && InLimits(r + in_.arrived)
    ensures Looking(Service(f, in_), r + in_.arrived)
  {
    hide SyncFrom, HeaderEnd, InLimits, Strip, SyncUp;
    var r2 := r + in_.arrived;
    if f.au.Play? {
      PlayGoesOn(f, in_, r);
    } else {
      var w := f.wire + in_.arrived;
      assert w == in_.arrived;
      var n := Min(|w|, STAGING - |f.staged|);
      var g := Wire(f, in_);
      assert g == f.(wire := w[n..], staged := f.staged + w[..n]);
      if f.au.Http? { HttpSlice(f, g, n, r, in_.arrived); } else { SyncSlice(f, g, n, r, in_.arrived); }
    }
  }

  lemma PlayGoesOn(f: Listen, in_: Slice, r: seq<byte>)
    requires Looking(f, r) && f.au.Play? && !in_.closed
    ensures Looking(Service(f, in_), r + in_.arrived)
  {
    hide SyncFrom, HeaderEnd;
    var h := HeaderEnd(r, 0);
    HeaderOfPrefix(r, r + in_.arrived);
    assert (r + in_.arrived)[h..] == r[h..] + in_.arrived;
    SyncOfPrefix(r[h..], (r + in_.arrived)[h..]);
  }

  lemma HttpSlice(f: Listen, g: Listen, n: nat, r: seq<byte>, arrived: seq<byte>)
    requires Looking(f, r) && f.au.Http? && InLimits(r + arrived)
    requires n == Min(|arrived|, STAGING - |r|) && g == f.(wire := arrived[n..], staged := r + arrived[..n])
    ensures Looking(Head(g), r + arrived)
  {
    hide SyncFrom, HeaderEnd, InLimits, Strip, SyncUp;
    var r2 := r + arrived;
    assert g.staged == r2[..|r| + n];
    StripDecides(g, r2);
    var k, h := Strip(g), HeaderEnd(r2, 0);
    if h >= 0 {
      HeaderEndsEarly(r2);
      HeaderEndInside(r2, 0);
      assert k.staged == r2[h..][..|r| + n - h];
      Limits(r2);
      if |r| + n == |r2| { assert k.staged == r2[h..] && arrived[n..] == []; }
      SyncDecides(k, r2[h..]);
      StagedAll(k, r2, h, |r| + n);
    } else {
      assert n == |arrived| && arrived[n..] == [];
      OnlySyncing(g);
    }
  }

  lemma OnlySyncing(f: Listen)
    requires !f.au.Syncing?
    ensures SyncUp(f) == f
  {
  }

  lemma Limits(all: seq<byte>)
    requires InLimits(all)
    ensures HeaderEnd(all, 0) <= |all|
    ensures HeaderEnd(all, 0) >= 0 ==>
              var s := all[HeaderEnd(all, 0)..];
              |s| <= SYNC_LIMIT || SyncFrom(s[..SYNC_LIMIT + 1], 0) >= 0
  {
    hide SyncFrom, HeaderEnd;
    HeaderEndInside(all, 0);
  }

  lemma StagedAll(k: Listen, all: seq<byte>, h: nat, n: nat)
    requires h <= n <= |all| && k.staged == all[h..][..n - h]
    ensures k.staged == all[h..] ==> n == |all|
  {
  }

  lemma SyncSlice(f: Listen, g: Listen, n: nat, r: seq<byte>, arrived: seq<byte>)
    requires Looking(f, r) && f.au.Syncing? && InLimits(r + arrived)
    requires n == Min(|arrived|, STAGING - |f.staged|)
    requires g == f.(wire := arrived[n..], staged := f.staged + arrived[..n])
    ensures Looking(Head(g), r + arrived)
  {
    hide SyncFrom, HeaderEnd, InLimits, SyncUp;
    var r2, h := r + arrived, HeaderEnd(r, 0);
    HeaderOfPrefix(r, r2);
    var s := r2[h..];
    assert s == f.staged + arrived;
    assert g.staged == s[..|f.staged| + n];
    Limits(r2);
    if n == |arrived| { assert g.staged == s && arrived[n..] == []; }
    SyncDecides(g, s);
  }

  lemma {:induction false} RunKeepsLooking(f: Listen, slices: seq<Slice>, r: seq<byte>)
    requires Looking(f, r) && InLimits(r + Arrived(slices)) && forall in_ :: in_ in slices ==> !in_.closed
    ensures Looking(Run(f, slices), r + Arrived(slices))
    decreases |slices|
  {
    hide Looking, InLimits, Service;
    if slices == [] {
      assert r + [] == r;
    } else {
      var in_, rest := slices[0], slices[1..];
      assert in_ in slices && forall x :: x in rest ==> x in slices;
      assert r + Arrived(slices) == r + in_.arrived + Arrived(rest);
      assert (r + in_.arrived + Arrived(rest))[..|r + in_.arrived|] == r + in_.arrived;
      PartInLimits(r + in_.arrived, r + Arrived(slices));
      SliceKeepsLooking(f, in_, r);
      RunKeepsLooking(Service(f, in_), rest, r + in_.arrived);
    }
  }

  lemma TuningLooks()
    ensures Looking(TUNING, [])
  {
  }

  // ---- chunkings that stop a listen --------------------------------------------------------------

  lemma {:induction false} StoppedStays(f: Listen, slices: seq<Slice>)
    requires f.au.Idle?
    ensures Run(f, slices) == f
    decreases |slices|
  {
    hide Wire, Head;
    if slices != [] { StoppedStays(f, slices[1..]); }
  }

  /** The bytes in two slices, cut at `n`. */
  function TwoSlices(all: seq<byte>, n: nat): seq<Slice>
    requires n <= |all|
  {
    [Slice(all[..n], false, 0, 0), Slice(all[n..], false, 0, 0)]
  }

  lemma TwoSlicesChunk(all: seq<byte>, n: nat)
    requires n <= |all|
    ensures Chunking(TwoSlices(all, n), all)
  {
    var a, b := all[..n], all[n..];
    var s := TwoSlices(all, n);
    assert s[1..][1..] == [] && Arrived(s[1..]) == b + Arrived(s[1..][1..]) == b;
    assert Arrived(s) == a + b == all;
  }

  lemma FirstStops(all: seq<byte>, n: nat)
    requires n <= |all| && Service(TUNING, Slice(all[..n], false, 0, 0)).au.Idle?
    ensures Run(TUNING, TwoSlices(all, n)).au.Idle?
  {
    hide Service;
    var s := TwoSlices(all, n);
    StoppedStays(Service(TUNING, s[0]), s[1..]);
    assert Run(TUNING, s) == Run(Service(TUNING, s[0]), s[1..]);
  }

  /** What the first slice of a listen comes to. */
  lemma FirstSlice(part: seq<byte>)
    requires |part| <= STAGING
    ensures Service(TUNING, Slice(part, false, 0, 0)) == Head(TUNING.(staged := part))
  {
    hide Head;
    assert [] + part == part && part[..|part|] == part && part[|part|..] == [] && [] + part[..|part|] == part;
  }

  lemma LateHeaderStops(all: seq<byte>)
    requires |all| > HEADER_LIMIT && HeaderEnd(all[..HEADER_LIMIT + 1], 0) < 0
    ensures Run(TUNING, TwoSlices(all, HEADER_LIMIT + 1)).au.Idle?
  {
    hide SyncFrom, HeaderEnd, SyncUp;
    FirstSlice(all[..HEADER_LIMIT + 1]);
    FirstStops(all, HEADER_LIMIT + 1);
  }

  lemma LateFrameStops(all: seq<byte>, h: nat)
    requires HeaderEnd(all, 0) == h <= HEADER_LIMIT + 1 && |all| - h > SYNC_LIMIT
    requires SyncFrom(all[h..][..SYNC_LIMIT + 1], 0) < 0
    ensures Run(TUNING, TwoSlices(all, h + SYNC_LIMIT + 1)).au.Idle?
  {
    hide SyncFrom, HeaderEnd;
    var n := h + SYNC_LIMIT + 1;
    var part := all[..n];
    HeaderEndPrefix(all, n, 0);
    assert part[h..] == all[h..][..SYNC_LIMIT + 1];
    SyncInside(part[h..]);
    FirstSlice(part);
    FirstStops(all, n);
  }

  /**
   * No chunking of the received bytes is ever stopped, on a wire that stays open, if and only
   * if they are within the limits: a header that ends in the first 8193 bytes, if there are
   * so many, and then a confirmed frame in the first 32769 after it, if there are so many.
   */
  lemma NeverStoppedIff(all: seq<byte>)
    ensures (forall slices :: Chunking(slices, all) ==> !Run(TUNING, slices).au.Idle?) <==> InLimits(all)
  {
    hide SyncFrom, HeaderEnd, Run, Chunking, Looking, InLimits;
    if InLimits(all) {
      forall slices | Chunking(slices, all) ensures !Run(TUNING, slices).au.Idle? {
        ChunkingLooks(slices, all);
      }
    } else {
      var n := StopsAt(all);
      TwoSlicesChunk(all, n);
    }
  }

  lemma StopsAt(all: seq<byte>) returns (n: nat)
    requires !InLimits(all)
    ensures n <= |all| && Run(TUNING, TwoSlices(all, n)).au.Idle?
  {
    hide SyncFrom, HeaderEnd, Run;
    HeaderEndInside(all, 0);
    if |all| > HEADER_LIMIT && HeaderEnd(all[..HEADER_LIMIT + 1], 0) < 0 {
      n := HEADER_LIMIT + 1;
      LateHeaderStops(all);
    } else {
      var h := HeaderEnd(all, 0);
      if |all| > HEADER_LIMIT { HeaderOfPrefix(all[..HEADER_LIMIT + 1], all); }
      n := h + SYNC_LIMIT + 1;
      LateFrameStops(all, h);
    }
  }

  lemma ChunkingLooks(slices: seq<Slice>, all: seq<byte>)
    requires Chunking(slices, all) && InLimits(all)
    ensures Looking(Run(TUNING, slices), all) && !Run(TUNING, slices).au.Idle?
  {
    hide Run, Looking, InLimits;
    TuningLooks();
    assert [] + Arrived(slices) == all;
    RunKeepsLooking(TUNING, slices, []);
    LookingIsLive(Run(TUNING, slices), all);
  }

  lemma LookingIsLive(f: Listen, r: seq<byte>)
    requires Looking(f, r)
    ensures !f.au.Idle? && f.open && f.lost == []
    ensures f.au.Play? <==> 0 <= HeaderEnd(r, 0) <= |r| && SyncFrom(r[HeaderEnd(r, 0)..], 0) >= 0
  {
    hide SyncFrom, HeaderEnd;
    HeaderEndInside(r, 0);
  }

  lemma {:induction false} OpenReceivesAll(f: Listen, slices: seq<Slice>, r: seq<byte>)
    requires Looking(f, r) && InLimits(r + Arrived(slices)) && forall in_ :: in_ in slices ==> !in_.closed
    ensures Received(f, slices) == Arrived(slices)
    decreases |slices|
  {
    hide Looking, InLimits, Service;
    LookingIsLive(f, r);
    if slices != [] {
      var in_, rest := slices[0], slices[1..];
      assert in_ in slices && forall x :: x in rest ==> x in slices;
      assert r + Arrived(slices) == r + in_.arrived + Arrived(rest);
      assert (r + in_.arrived + Arrived(rest))[..|r + in_.arrived|] == r + in_.arrived;
      PartInLimits(r + in_.arrived, r + Arrived(slices));
      SliceKeepsLooking(f, in_, r);
      OpenReceivesAll(Service(f, in_), rest, r + in_.arrived);
    }
  }

  /**
   * Within the limits, every chunking reaches play exactly when the bytes hold a confirmed
   * frame after the header, and then plays the bytes from that frame on.
   */
  lemma PlaysIffConfirmed(slices: seq<Slice>, all: seq<byte>)
    requires Chunking(slices, all) && InLimits(all)
    ensures var f, h := Run(TUNING, slices), HeaderEnd(all, 0);
            && (f.au.Play? <==> 0 <= h <= |all| && SyncFrom(all[h..], 0) >= 0)
            && (f.au.Play? ==>
                  0 <= h + SyncFrom(all[h..], 0) <= |all| && f.committed + f.wire == all[h + SyncFrom(all[h..], 0)..])
  {
    hide SyncFrom, HeaderEnd, Run, Looking, InLimits, Received;
    ChunkingLooks(slices, all);
    var f := Run(TUNING, slices);
    LookingIsLive(f, all);
    TuningLooks();
    assert [] + Arrived(slices) == all;
    OpenReceivesAll(TUNING, slices, []);
    if f.au.Play? {
      HandoffExact(slices);
      assert f.committed + f.wire + [] == f.committed + f.wire;
    }
  }

  /** So, within the limits, chunking is not heard. */
  lemma HandoffIgnoresChunks(a: seq<Slice>, b: seq<Slice>, all: seq<byte>)
    requires Chunking(a, all) && Chunking(b, all) && InLimits(all)
    ensures var f, g := Run(TUNING, a), Run(TUNING, b);
            && (f.au.Play? <==> g.au.Play?)
            && (f.au.Play? ==> f.committed + f.wire == g.committed + g.wire)
  {
    hide SyncFrom, HeaderEnd, Run, InLimits, Chunking;
    PlaysIffConfirmed(a, all);
    PlaysIffConfirmed(b, all);
  }

  /** Beyond them it is: the same 9004 bytes stop one listen and start another. */
  lemma ChunkingDecides()
    ensures var x: seq<byte>, y: seq<byte> := seq(9000, _ => 0), [13, 10, 13, 10];
            && Run(TUNING, [Slice(x, false, 0, 0), Slice(y, false, 0, 0)]).au == Idle
            && Run(TUNING, [Slice(x + y, false, 0, 0)]).au == Syncing
  {
    hide SyncFrom, HeaderEnd;
    var x: seq<byte>, y: seq<byte> := seq(9000, _ => 0), [13, 10, 13, 10];
    ZerosHaveNone(x, 0);
    FirstSlice(x);
    var two := [Slice(x, false, 0, 0), Slice(y, false, 0, 0)];
    assert Service(TUNING, two[0]).au == Idle by { HeadStops(x); }
    StoppedStays(Service(TUNING, two[0]), two[1..]);
    assert Run(TUNING, two) == Run(Service(TUNING, two[0]), two[1..]);
    ZerosThenEnd(x, y, 0);
    FirstSlice(x + y);
    var one := [Slice(x + y, false, 0, 0)];
    assert one[1..] == [] && Run(TUNING, one) == Run(Service(TUNING, one[0]), []) == Service(TUNING, one[0]);
    assert (x + y)[9004..] == [];
    assert SyncFrom([], 0) == -1 by { NothingSyncs(); }
  }

  lemma NothingSyncs()
    ensures SyncFrom([], 0) == -1
  {
  }

  lemma HeadStops(x: seq<byte>)
    requires |x| > HEADER_LIMIT && HeaderEnd(x, 0) < 0
    ensures Head(TUNING.(staged := x)).au == Idle
  {
    hide SyncFrom, HeaderEnd, SyncUp;
  }

  lemma {:induction false} ZerosHaveNone(x: seq<byte>, i: nat)
    requires forall b :: b in x ==> b == 0
    ensures HeaderEnd(x, i) == -1
    decreases |x| - i
  {
    if i + 4 <= |x| {
      assert x[i] in x;
      ZerosHaveNone(x, i + 1);
    }
  }

  lemma {:induction false} ZerosThenEnd(x: seq<byte>, y: seq<byte>, i: nat)
    requires (forall b :: b in x ==> b == 0) && y == [13, 10, 13, 10] && i <= |x|
    ensures HeaderEnd(x + y, i) == |x| + 4
    decreases |x| - i
  {
    var s := x + y;
    if i < |x| {
      assert x[i] in x && s[i] == x[i];
      ZerosThenEnd(x, y, i + 1);
    } else {
      assert HeaderEndsAt(s, i);
    }
  }
}
