/**
 * What is on the display, told from the replies alone: which the guard accepted, which
 * document is shown and since when (src/cq_guard.c, os9/casquinha.c lines 741-795, 2541).
 */
module Display {
  import opened Bytes
  import opened Cursors
  import opened Adoption

  /** Between `j` and `i` the guard was reset. */
  ghost predicate ResetBetween(es: seq<Event>, j: nat, i: nat) {
    exists r: nat :: j < r < i && r < |es| && es[r].Reset?
  }

  /** Reply `i` is accepted: its timestamp is unknown, or no later one came since the last reset. */
  ghost predicate AcceptedAt(es: seq<Event>, i: nat) {
    && i < |es| && es[i].Reply?
    && (es[i].doc.ts > 0 ==>
          forall j: nat :: j < i && es[j].Reply? && es[j].doc.ts > es[i].doc.ts ==> ResetBetween(es, j, i))
  }

  ghost predicate LastAccepted(es: seq<Event>, last: nat) {
    AcceptedAt(es, last) && forall k: nat :: last < k ==> !AcceptedAt(es, k)
  }

  /** The accepted reply right before `i`. */
  ghost predicate Previous(es: seq<Event>, k: nat, i: nat) {
    k < i && AcceptedAt(es, k) && forall m: nat :: k < m < i ==> !AcceptedAt(es, m)
  }

  /** The first of the accepted replies in a row, up to `last`, that carry its known timestamp. */
  ghost predicate FirstInRow(es: seq<Event>, first: nat, last: nat)
    requires last < |es| && es[last].Reply?
  {
    && first <= last && AcceptedAt(es, first)
    && if es[last].doc.ts <= 0 then first == last
       else
         && (forall k: nat :: first <= k <= last && AcceptedAt(es, k) ==> es[k].doc.ts == es[last].doc.ts)
         && (forall k: nat :: Previous(es, k, first) ==> es[k].doc.ts != es[last].doc.ts)
  }

  /** A known timestamp since the last reset. */
  ghost predicate Known(es: seq<Event>, j: nat) {
    j < |es| && es[j].Reply? && es[j].doc.ts > 0 && !ResetBetween(es, j, |es|)
  }

  /** The latest of them, 0 if there is none. */
  ghost predicate LatestKnown(es: seq<Event>, mark: int) {
    && (forall j: nat :: Known(es, j) ==> es[j].doc.ts <= mark)
    && (mark == 0 || exists j: nat :: Known(es, j) && es[j].doc.ts == mark)
  }

  lemma {:induction false} RunSnoc(s: Shown, es: seq<Event>, e: Event)
    ensures Run(s, es + [e]) == After(Run(s, es), e)
    decreases |es|
  {
    hide After;
    if es == [] {
      assert ([] + [e])[1..] == [];
    } else {
      RunSnoc(After(s, es[0]), es[1..], e);
      assert (es + [e])[0] == es[0] && (es + [e])[1..] == es[1..] + [e];
    }
  }

  /** What comes later does not change what was accepted. */
  lemma AcceptedBefore(es: seq<Event>, e: Event, i: nat)
    requires i < |es|
    ensures AcceptedAt(es + [e], i) <==> AcceptedAt(es, i)
  {
    var fs := es + [e];
    forall j: nat | j < i ensures ResetBetween(fs, j, i) <==> ResetBetween(es, j, i) {
      if r: nat :| j < r < i && es[r].Reset? { assert fs[r].Reset?; }
      if r: nat :| j < r < i && fs[r].Reset? { assert es[r].Reset?; }
    }
  }

  lemma KnownOnward(es: seq<Event>, e: Event, j: nat)
    ensures e.Reset? ==> !Known(es + [e], j)
    ensures e.Reply? && j < |es| ==> (Known(es + [e], j) <==> Known(es, j))
    ensures e.Reply? ==> (Known(es + [e], |es|) <==> e.doc.ts > 0)
  {
    var fs := es + [e];
    assert fs[|es|] == e;
    if j < |es| {
      if r: nat :| j < r < |fs| && fs[r].Reset? { assert r == |es| || es[r].Reset?; }
      if r: nat :| j < r < |es| && es[r].Reset? { assert fs[r].Reset?; }
    }
  }

  lemma LaterIsCut(es: seq<Event>, mark: int, j: nat)
    requires LatestKnown(es, mark) && j < |es| && es[j].Reply? && es[j].doc.ts > Max(mark, 0)
    ensures ResetBetween(es, j, |es|)
  {
    hide ResetBetween;
    var _ := Known(es, j);
  }

  /** The guard accepts by its mark exactly what the list accepts. */
  lemma AcceptsIff(es: seq<Event>, e: Event, mark: int)
    requires LatestKnown(es, mark) && e.Reply?
    ensures AcceptedAt(es + [e], |es|) <==> Accepts(mark, e.doc.ts)
  {
    var fs, n := es + [e], |es|;
    forall j: nat | j < n ensures ResetBetween(fs, j, n) <==> ResetBetween(es, j, n) {
      if r: nat :| j < r < n && es[r].Reset? { assert fs[r].Reset?; }
      if r: nat :| j < r < n && fs[r].Reset? { assert es[r].Reset?; }
    }
    if e.doc.ts > 0 && mark > e.doc.ts {
      var j: nat :| Known(es, j) && es[j].doc.ts == mark;
      assert fs[j].Reply? && fs[j].doc.ts > e.doc.ts && !ResetBetween(fs, j, n);
    } else if e.doc.ts > 0 {
      forall j: nat | j < n && fs[j].Reply? && fs[j].doc.ts > e.doc.ts ensures ResetBetween(fs, j, n) {
        assert es[j] == fs[j];
        LaterIsCut(es, mark, j);
      }
    }
  }

  lemma MarkOnward(es: seq<Event>, e: Event, mark: int)
    requires LatestKnown(es, mark) && mark >= 0
    ensures LatestKnown(es + [e], After(Shown(mark, None, 0), e).mark) && After(Shown(mark, None, 0), e).mark >= 0
  {
    var fs, m := es + [e], After(Shown(mark, None, 0), e).mark;
    forall j: nat ensures Known(fs, j) ==> fs[j].doc.ts <= m {
      KnownOnward(es, e, j);
      if j < |es| { assert fs[j] == es[j]; }
    }
    if m != 0 {
      if m == mark && !(e.Reply? && e.doc.ts == mark) {
        var j: nat :| Known(es, j) && es[j].doc.ts == mark;
        KnownOnward(es, e, j);
        assert Known(fs, j) && fs[j].doc.ts == m;
      } else {
        KnownOnward(es, e, |es|);
        assert Known(fs, |es|) && fs[|es|].doc.ts == m;
      }
    }
  }

  /** The display after the replies `es`. */
  ghost predicate Displays(es: seq<Event>, s: Shown, first: int, last: int) {
    && LatestKnown(es, s.mark) && s.mark >= 0
    && if last < 0 then s.snap == None && s.anchor == 0 && forall k: nat :: !AcceptedAt(es, k)
       else
         && LastAccepted(es, last) && s.snap == Some(es[last].doc)
         && first >= 0 && FirstInRow(es, first, last) && s.anchor == es[first].tick
  }

  lemma DropOnward(es: seq<Event>, e: Event, s: Shown, first: int, last: int)
    requires Displays(es, s, first, last) && !AcceptedAt(es + [e], |es|)
    requires e.Reply? ==> !Accepts(s.mark, e.doc.ts)
    ensures Displays(es + [e], After(s, e), first, last)
  {
    hide AcceptedAt, LatestKnown;
    var fs := es + [e];
    MarkOnward(es, e, s.mark);
    forall k: nat ensures AcceptedAt(fs, k) <==> AcceptedAt(es, k) { SameAccepted(es, e, k); }
    if last >= 0 { AcceptedInside(es, last); RowKept(es, fs, first, last); }
  }

  lemma AcceptedInside(es: seq<Event>, i: nat)
    ensures AcceptedAt(es, i) ==> i < |es| && es[i].Reply?
  {
  }

  lemma SameAccepted(es: seq<Event>, e: Event, k: nat)
    ensures k != |es| ==> (AcceptedAt(es + [e], k) <==> AcceptedAt(es, k))
    ensures !AcceptedAt(es, |es|)
  {
    hide ResetBetween;
    if k < |es| { AcceptedBefore(es, e, k); }
  }

  lemma RowKept(es: seq<Event>, fs: seq<Event>, first: nat, last: nat)
    requires last < |es| && es <= fs && es[last].Reply? && FirstInRow(es, first, last)
    requires forall k: nat :: k <= last ==> (AcceptedAt(fs, k) <==> AcceptedAt(es, k))
    ensures FirstInRow(fs, first, last)
  {
    hide AcceptedAt;
    forall k: nat ensures k <= last ==> fs[k] == es[k] { }
    forall k: nat | Previous(fs, k, first)
      ensures fs[k].Reply? && (es[last].doc.ts > 0 ==> fs[k].doc.ts != fs[last].doc.ts)
    {
      assert Previous(es, k, first);
      AcceptedInside(es, k);
    }
    forall k: nat | k <= last && AcceptedAt(fs, k) ensures fs[k].Reply? { AcceptedInside(es, k); }
  }

  /** An accepted reply becomes the last one; its row goes on, or a new one begins. */
  lemma AcceptOnward(es: seq<Event>, e: Event, s: Shown, first: int, last: int)
    requires Displays(es, s, first, last) && e.Reply? && Accepts(s.mark, e.doc.ts) && AcceptedAt(es + [e], |es|)
    ensures var same := s.snap.Some? && e.doc.ts > 0 && e.doc.ts == s.snap.value.ts;
            Displays(es + [e], After(s, e), if same then first else |es|, |es|)
  {
    hide AcceptedAt, LatestKnown;
    var fs, n := es + [e], |es|;
    MarkOnward(es, e, s.mark);
    assert After(s, e).mark == After(Shown(s.mark, None, 0), e).mark;
    forall k: nat | k != n ensures AcceptedAt(fs, k) <==> AcceptedAt(es, k) { SameAccepted(es, e, k); }
    forall k: nat | k > n ensures !AcceptedAt(fs, k) { AcceptedInside(fs, k); }
    if last >= 0 {
      AcceptedInside(es, last);
      AcceptedInside(es, first);
      if e.doc.ts > 0 && e.doc.ts == s.snap.value.ts {
        RowGoesOn(es, e, first, last);
      } else {
        RowBegins(es, e, last);
      }
    } else {
      RowAlone(fs, n);
    }
  }

  lemma RowAlone(fs: seq<Event>, n: nat)
    requires n < |fs| && fs[n].Reply? && AcceptedAt(fs, n) && forall k: nat :: k < n ==> !AcceptedAt(fs, k)
    ensures FirstInRow(fs, n, n)
  {
    hide AcceptedAt;
  }

  lemma RowGoesOn(es: seq<Event>, e: Event, first: nat, last: nat)
    requires LastAccepted(es, last) && last < |es| && es[last].Reply? && FirstInRow(es, first, last)
    requires e.Reply? && e.doc.ts > 0 && e.doc.ts == es[last].doc.ts && AcceptedAt(es + [e], |es|)
    requires forall k: nat :: k != |es| ==> (AcceptedAt(es + [e], k) <==> AcceptedAt(es, k))
    ensures FirstInRow(es + [e], first, |es|)
  {
    hide AcceptedAt;
    var fs := es + [e];
    assert fs[|es|] == e;
    forall k: nat | k < |es| ensures fs[k] == es[k] { }
    forall k: nat | first <= k <= |es| && AcceptedAt(fs, k) ensures fs[k].Reply? && fs[k].doc.ts == e.doc.ts {
      if k < |es| { AcceptedInside(es, k); }
    }
    forall k: nat | Previous(fs, k, first) ensures fs[k].Reply? && fs[k].doc.ts != e.doc.ts {
      assert Previous(es, k, first);
      AcceptedInside(es, k);
    }
  }

  lemma RowBegins(es: seq<Event>, e: Event, last: nat)
    requires LastAccepted(es, last) && last < |es| && es[last].Reply?
    requires e.Reply? && !(e.doc.ts > 0 && e.doc.ts == es[last].doc.ts) && AcceptedAt(es + [e], |es|)
    requires forall k: nat :: k != |es| ==> (AcceptedAt(es + [e], k) <==> AcceptedAt(es, k))
    ensures FirstInRow(es + [e], |es|, |es|)
  {
    hide AcceptedAt;
    var fs := es + [e];
    assert fs[|es|] == e && fs[last] == es[last];
    forall k: nat | Previous(fs, k, |es|) ensures fs[k].Reply? && (e.doc.ts > 0 ==> fs[k].doc.ts != e.doc.ts) {
      assert AcceptedAt(fs, last) && k == last;
    }
  }

  /**
   * After any replies and resets: the document shown is that of the last reply accepted,
   * none if there was none; it has been shown since the first of the accepted replies in a
   * row that carry its known timestamp; and the guard's mark is the latest timestamp known
   * since the last reset.
   */
  lemma {:induction false} WhatIsShown(es: seq<Event>) returns (first: int, last: int)
    ensures Displays(es, Run(START, es), first, last)
    decreases |es|
  {
    hide AcceptedAt, LatestKnown, After;
    if es == [] {
      first, last := -1, -1;
      NothingShown();
    } else {
      var pre, e := es[..|es| - 1], es[|es| - 1];
      first, last := WhatIsShown(pre);
      assert es == pre + [e];
      RunSnoc(START, pre, e);
      var s := Run(START, pre);
      if e.Reply? {
        AcceptsIff(pre, e, s.mark);
        if Accepts(s.mark, e.doc.ts) {
          AcceptOnward(pre, e, s, first, last);
          first, last := if s.snap.Some? && e.doc.ts > 0 && e.doc.ts == s.snap.value.ts then first else |pre|, |pre|;
        } else {
          DropOnward(pre, e, s, first, last);
        }
      } else {
        AcceptedInside(es, |pre|);
        DropOnward(pre, e, s, first, last);
      }
    }
  }

  lemma NothingShown()
    ensures Displays([], START, -1, -1)
  {
  }

  /** There is one last accepted reply, and one first of its row. */
  lemma RowIsOne(es: seq<Event>, first: nat, last: nat, first': nat, last': nat)
    requires LastAccepted(es, last) && LastAccepted(es, last') && last < |es| && es[last].Reply?
    requires last' < |es| && es[last'].Reply? && FirstInRow(es, first, last) && FirstInRow(es, first', last')
    ensures last == last' && first == first'
  {
    hide AcceptedAt;
    assert last == last';
    RowStarts(es, first, first', last);
    RowStarts(es, first', first, last);
  }

  lemma RowStarts(es: seq<Event>, first: nat, first': nat, last: nat)
    requires last < |es| && es[last].Reply? && FirstInRow(es, first, last) && FirstInRow(es, first', last)
    ensures first <= first'
  {
    hide AcceptedAt;
    if first' < first {
      var k := Before(es, first', first);
    }
  }

  /** The accepted reply right before `i`, if one came at `from` or later. */
  lemma {:induction false} Before(es: seq<Event>, from: nat, i: nat) returns (k: nat)
    requires AcceptedAt(es, from) && from < i
    ensures from <= k < i && Previous(es, k, i)
    decreases i - from
  {
    hide AcceptedAt;
    if m: nat :| from < m < i && AcceptedAt(es, m) {
      k := Before(es, m, i);
    } else {
      k := from;
    }
  }

  /** A newer reply is shown at once, and a reset lets an older one in. */
  lemma NewerIsShown(a: Doc, b: Doc, t: cursor, u: cursor)
    requires 0 < a.ts < b.ts
    ensures Run(START, [Reply(a, t), Reply(b, u)]) == Shown(b.ts, Some(b), u)
    ensures Run(START, [Reply(b, t), Reply(a, u)]) == Shown(b.ts, Some(b), t)
    ensures Run(START, [Reply(b, t), Reset, Reply(a, u)]) == Shown(a.ts, Some(a), u)
  {
    ThreeRun(Reply(a, t), Reply(b, u), Reset);
    ThreeRun(Reply(b, t), Reply(a, u), Reset);
    ThreeRun(Reply(b, t), Reset, Reply(a, u));
  }

  lemma ThreeRun(a: Event, b: Event, c: Event)
    ensures Run(START, [a, b]) == After(After(START, a), b)
    ensures Run(START, [a, b, c]) == After(After(After(START, a), b), c)
  {
    hide After;
    assert [] + [a] == [a] && [a] + [b] == [a, b] && [a, b] + [c] == [a, b, c];
    RunSnoc(START, [], a);
    RunSnoc(START, [a], b);
    RunSnoc(START, [a, b], c);
  }
}
