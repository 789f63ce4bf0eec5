/**
 * Which `/now` replies are shown, and the progress bar between them
 * (src/cq_guard.c, os9/casquinha.c lines 741-795, src/cq_view.c lines 155-164).
 */
module Adoption {
  import opened Bytes
  import opened Cursors

  /** What of a reply the guard and the bar look at. */
  datatype Doc = Doc(ts: int, playing: bool, position: int, duration: int)

  /** The guard's mark, the shown snapshot, and the tick it was adopted at. */
  datatype Shown = Shown(mark: int, snap: Option<Doc>, anchor: cursor)

  datatype Event = Reply(doc: Doc, tick: cursor) | Reset

  const START: Shown := Shown(0, None, 0)

  predicate Accepts(mark: int, ts: int) {
    ts <= 0 || mark <= 0 || ts >= mark
  }

  function AfterReply(s: Shown, doc: Doc, tick: cursor): Shown {
    if !Accepts(s.mark, doc.ts) then s
    else
      var same := s.snap.Some? && doc.ts > 0 && doc.ts == s.snap.value.ts;
      Shown(if doc.ts > 0 then doc.ts else s.mark, Some(doc), if same then s.anchor else tick)
  }

  function After(s: Shown, e: Event): Shown {
    match e
    case Reply(doc, tick) => AfterReply(s, doc, tick)
    case Reset => s.(mark := 0)
  }

  /** Whole milliseconds of ticks of 1/60 s since adoption; the counter is 32 bits wide. */
  function Elapsed(anchor: cursor, now: cursor): nat {
    Sub(now, anchor) * 1000 / 60
  }

  function Progress(s: Shown, now: cursor): int
    requires s.snap.Some?
  {
    var d := s.snap.value;
    var pos := if d.playing then d.position + Elapsed(s.anchor, now) else d.position;
    var low := if pos < 0 then 0 else pos;
    if d.duration > 0 && low > d.duration then d.duration else low
  }

  class Player {
    var lastTs: int
    var haveSnap: bool
    var snap: Doc
    var snapTick: cursor

    constructor ()
      ensures State() == START
    {
      lastTs, haveSnap, snap, snapTick := 0, false, Doc(0, false, 0, 0), 0;
    }

    function State(): Shown
      reads this
    {
      Shown(lastTs, if haveSnap then Some(snap) else None, snapTick)
    }

    method AcceptTs(ts: int) returns (ok: bool)
      modifies this`lastTs
      ensures ok == Accepts(old(lastTs), ts)
      ensures lastTs == if ok && ts > 0 then ts else old(lastTs)
    {
      if ts <= 0 { return true; }
      if lastTs > 0 && ts < lastTs { return false; }
      lastTs := ts;
      return true;
    }

    method ResetGuard()
      modifies this`lastTs
      ensures State() == After(old(State()), Reset)
    {
      lastTs := 0;
    }

    method AdoptReply(tmp: Doc, tick: cursor)
      modifies this
      ensures State() == After(old(State()), Reply(tmp, tick))
    {
      var ok := AcceptTs(tmp.ts);
      if ok {
        var sameTs := haveSnap && tmp.ts > 0 && tmp.ts == snap.ts;
        snap := tmp;
        haveSnap := true;
        if !sameTs { snapTick := tick; }
      }
    }

    method Render(now: cursor) returns (show: bool, pos: int)
      ensures haveSnap ==> pos == Progress(State(), now) && show == (snap.duration > 0)
      ensures haveSnap ==> 0 <= pos && (show ==> pos <= snap.duration)
      ensures !haveSnap ==> !show && pos == 0
    {
      show, pos := false, 0;
      if haveSnap {
        pos := snap.position;
        if snap.playing { pos := pos + Sub(now, snapTick) * 1000 / 60; }
        if pos < 0 { pos := 0; }
        if snap.duration > 0 && pos > snap.duration { pos := snap.duration; }
        show := snap.duration > 0;
      }
    }
  }

  // ---- runs -----------------------------------------------------------------------------------

  function Run(s: Shown, es: seq<Event>): Shown
    decreases |es|
  {
    if es == [] then s else Run(After(s, es[0]), es[1..])
  }

  /** The known timestamps adopted along a run, in order. */
  function Adopted(s: Shown, es: seq<Event>): seq<int>
    decreases |es|
  {
    if es == [] then []
    else
      var rest := Adopted(After(s, es[0]), es[1..]);
      if es[0].Reply? && es[0].doc.ts > 0 && Accepts(s.mark, es[0].doc.ts) then [es[0].doc.ts] + rest else rest
  }

  predicate NoReset(es: seq<Event>) {
    forall e :: e in es ==> e.Reply?
  }

  /** Between resets, however the replies are ordered, the adopted timestamps never decrease. */
  lemma {:induction false} AdoptedNeverDecrease(s: Shown, es: seq<Event>)
    requires NoReset(es)
    ensures var ts := Adopted(s, es);
            && (forall i, j :: 0 <= i < j < |ts| ==> ts[i] <= ts[j])
            && (forall i :: 0 <= i < |ts| ==> ts[i] >= s.mark && ts[i] > 0)
            && Run(s, es).mark == if ts == [] then s.mark else ts[|ts| - 1]
    decreases |es|
  {
    if es != [] {
      assert es[0] in es;
      AdoptedNeverDecrease(After(s, es[0]), es[1..]);
    }
  }

  /** A reply is dropped exactly when a later known timestamp was adopted since the reset. */
  lemma DroppedIffStale(s: Shown, es: seq<Event>, doc: Doc)
    requires NoReset(es) && s.mark == 0
    ensures !Accepts(Run(s, es).mark, doc.ts)
            <==> doc.ts > 0 && exists i :: 0 <= i < |Adopted(s, es)| && Adopted(s, es)[i] > doc.ts
  {
    hide Adopted, Run;
    AdoptedNeverDecrease(s, es);
    var ts := Adopted(s, es);
    if ts != [] {
      assert forall i :: 0 <= i < |ts| ==> ts[i] <= ts[|ts| - 1];
    }
  }

  /** The shown snapshot is the document of the adopted mark. */
  predicate Showing(s: Shown, d: Doc) {
    s.snap == Some(d) && s.mark == d.ts && d.ts > 0
  }

  /** Replies after tick `from`; those that carry the shown timestamp re-serve the document. */
  predicate Reserves(es: seq<Event>, d: Doc, from: cursor) {
    forall e :: e in es ==> e.Reply? && e.tick > from && (e.doc.ts == d.ts ==> e.doc == d)
  }

  /** Every reply is the shown document again, or one the guard drops. */
  predicate Steady(es: seq<Event>, d: Doc) {
    forall e :: e in es ==> e.Reply? && 0 < e.doc.ts <= d.ts
  }

  /** Once moved, the anchor stays past where it was. */
  lemma {:induction false} AnchorStaysPast(s: Shown, es: seq<Event>, from: cursor)
    requires s.anchor > from && forall e :: e in es ==> e.Reply? && e.tick > from
    ensures Run(s, es).anchor > from
    decreases |es|
  {
    if es != [] {
      assert es[0] in es;
      AnchorStaysPast(After(s, es[0]), es[1..], from);
    }
  }

  /**
   * The progress anchor stays where it is exactly when no reply has an unknown or a newer
   * timestamp: re-serving the same document any number of times does not move it.
   */
  lemma {:induction false} AnchorHoldsIff(s: Shown, d: Doc, es: seq<Event>)
    requires Showing(s, d) && Reserves(es, d, s.anchor)
    ensures Run(s, es).anchor == s.anchor <==> Steady(es, d)
    ensures Steady(es, d) ==> Run(s, es) == s
    decreases |es|
  {
    if es != [] {
      assert es[0] in es;
      if 0 < es[0].doc.ts <= d.ts {
        assert After(s, es[0]) == s;
        AnchorHoldsIff(s, d, es[1..]);
        assert Steady(es, d) <==> Steady(es[1..], d) by {
          assert forall e :: e in es <==> e == es[0] || e in es[1..];
        }
      } else {
        AnchorStaysPast(After(s, es[0]), es[1..], s.anchor);
      }
    }
  }

  lemma ElapsedGrows(anchor: cursor, earlier: cursor, later: cursor)
    requires anchor <= earlier <= later
    ensures Elapsed(anchor, earlier) <= Elapsed(anchor, later)
  {
    assert Sub(earlier, anchor) == earlier - anchor && Sub(later, anchor) == later - anchor;
    if earlier < later { ElapsedGrowsStrictly(earlier - anchor, later - anchor); }
  }

  /** Under one timestamp, with the tick counter not wrapping, progress never moves back. */
  lemma ProgressNeverMovesBack(s: Shown, d: Doc, es: seq<Event>, earlier: cursor, later: cursor)
    requires Showing(s, d) && Reserves(es, d, s.anchor) && Steady(es, d)
    requires s.anchor <= earlier <= later
    ensures Run(s, es).snap == Some(d)
    ensures 0 <= Progress(s, earlier) <= Progress(Run(s, es), later)
    ensures d.duration > 0 ==> Progress(Run(s, es), later) <= d.duration
  {
    hide Elapsed, Run;
    AnchorHoldsIff(s, d, es);
    ElapsedGrows(s.anchor, earlier, later);
  }

  lemma ElapsedGrowsStrictly(a: nat, b: nat)
    requires a < b
    ensures a * 1000 / 60 < b * 1000 / 60
  {
    assert b * 1000 >= a * 1000 + 1000;
  }

  /** The bar of one document from a later anchor: behind, unless it stands still or is at its end either way. */
  lemma LaterAnchorRewindsIff(s: Shown, t: Shown, d: Doc, now: cursor)
    requires s.snap == t.snap == Some(d) && s.anchor < t.anchor <= now
    ensures Progress(t, now) >= Progress(s, now) <==>
              || !d.playing
              || (d.duration > 0 && d.position + Elapsed(t.anchor, now) >= d.duration)
              || d.position + Elapsed(s.anchor, now) <= 0
  {
    assert Sub(now, s.anchor) == now - s.anchor && Sub(now, t.anchor) == now - t.anchor;
    ElapsedGrowsStrictly(now - t.anchor, now - s.anchor);
  }

  /**
   * When the same document is shown again after any replies, the bar has not moved back if and
   * only if every one of them re-served it or was dropped, or it was not playing, or it is
   * at its end all the same (or not yet at its beginning).
   */
  lemma BarHoldsIff(s: Shown, d: Doc, es: seq<Event>, now: cursor)
    requires Showing(s, d) && Reserves(es, d, s.anchor) && Run(s, es).snap == Some(d)
    requires Run(s, es).anchor <= now
    ensures Progress(Run(s, es), now) >= Progress(s, now) <==>
              || Steady(es, d)
              || !d.playing
              || (d.duration > 0 && d.position + Elapsed(Run(s, es).anchor, now) >= d.duration)
              || d.position + Elapsed(s.anchor, now) <= 0
  {
    hide Progress, Elapsed, Run;
    AnchorHoldsIff(s, d, es);
    if !Steady(es, d) {
      AnchorMovesOn(s, d, es);
      LaterAnchorRewindsIff(s, Run(s, es), d, now);
    }
  }

  /** The anchor moves only forward. */
  lemma {:induction false} AnchorMovesOn(s: Shown, d: Doc, es: seq<Event>)
    requires Showing(s, d) && Reserves(es, d, s.anchor)
    ensures Run(s, es).anchor >= s.anchor
    decreases |es|
  {
    if es != [] {
      assert es[0] in es;
      if 0 < es[0].doc.ts <= d.ts {
        assert After(s, es[0]) == s;
        AnchorMovesOn(s, d, es[1..]);
      } else {
        AnchorStaysPast(After(s, es[0]), es[1..], s.anchor);
      }
    }
  }

  /** One reply without a timestamp in between, and the same document shows less progress. */
  lemma UnknownReplyRewinds()
    ensures var d := Doc(5, true, 0, 0);
            var s := After(START, Reply(d, 0));
            var t := Run(s, [Reply(Doc(0, true, 0, 0), 60), Reply(d, 120)]);
            && s.snap == t.snap == Some(d) && Progress(s, 120) == 2000 && Progress(t, 120) == 0
  {
    var d := Doc(5, true, 0, 0);
    var s := After(START, Reply(d, 0));
    var a, b := Reply(Doc(0, true, 0, 0), 60), Reply(d, 120);
    assert [a, b][1..] == [b] && [b][1..] == [];
    assert After(After(s, a), b) == Shown(5, Some(d), 120);
    assert Run(s, [a, b]) == Run(After(s, a), [b]) == After(After(s, a), b);
  }
}
