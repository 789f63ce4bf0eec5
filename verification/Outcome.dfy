/**
 * How a transaction ends, in terms of what Open Transport answers
 * (src/cq_transport_ot.c, lines 288-479).
 */
module Outcome {
  import opened Bytes
  import opened Transport

  // ---- receiving ------------------------------------------------------------------------------------

  predicate Brings(r: RcvResult) {
    r.Got? && r.bytes != []
  }

  /** An orderly release, and a connection that is gone. */
  predicate Released(r: RcvResult) {
    r == LookErr(TOrdRel)
  }

  predicate Gone(r: RcvResult) {
    r == RcvError || r == LookErr(TDisconnect) || r == Got([])
  }

  /** What one read brings, at most 8 KB. */
  function Piece(r: RcvResult): seq<byte> {
    if Brings(r) then r.bytes[..Min(|r.bytes|, 8192)] else []
  }

  /** The bytes of the first `k` reads. */
  function Brought(rcv: seq<RcvResult>, k: nat): seq<byte>
    requires k <= |rcv|
    decreases k
  {
    if k == 0 then [] else Brought(rcv, k - 1) + Piece(rcv[k - 1])
  }

  /** A stream stops reading at 64 KB. */
  predicate Full(t: Tx, rcv: seq<RcvResult>, k: nat)
    requires k <= |rcv|
  {
    t.streaming && |t.data| + |Brought(rcv, k)| >= 65536
  }

  /** The reads of a poll: the first `k` bring bytes, and the one after them is not made or brings none. */
  ghost predicate ReadsStop(t: Tx, rcv: seq<RcvResult>, k: nat) {
    && k <= |rcv|
    && (forall i: nat :: i < k ==> Brings(rcv[i]) && !Full(t, rcv, i))
    && (k == |rcv| || Full(t, rcv, k) || !Brings(rcv[k]))
  }

  lemma ReadsStopOnce(t: Tx, rcv: seq<RcvResult>, k: nat, k': nat)
    requires ReadsStop(t, rcv, k) && ReadsStop(t, rcv, k')
    ensures k == k'
  {
  }

  /** The answer a poll ends its reads on, if it gets one. */
  function Last(t: Tx, rcv: seq<RcvResult>, k: nat): RcvResult
    requires k <= |rcv|
  {
    if k == |rcv| || Full(t, rcv, k) then NoData else rcv[k]
  }

  /** What a transaction becomes by its reads. */
  function Received(t: Tx, rcv: seq<RcvResult>, k: nat): Tx
    requires k <= |rcv|
  {
    var u, r := t.(data := t.data + Brought(rcv, k)), Last(t, rcv, k);
    if Released(r) || (Gone(r) && u.data != []) then u.(status := Finished, st := Done, ep := false)
    else if Gone(r) then u.(status := Broken, st := Failed, ep := false)
    else u
  }

  lemma {:induction false} BroughtShift(rcv: seq<RcvResult>, k: nat)
    requires k + 1 <= |rcv|
    ensures Brought(rcv, k + 1) == Piece(rcv[0]) + Brought(rcv[1..], k)
    decreases k
  {
    hide Piece;
    if k == 0 {
      assert Brought(rcv, 0) == [] && [] + Piece(rcv[0]) == Piece(rcv[0]) == Piece(rcv[0]) + [];
    } else {
      BroughtShift(rcv, k - 1);
      var a, b, c := Piece(rcv[0]), Brought(rcv[1..], k - 1), Piece(rcv[k]);
      assert rcv[1..][k - 1] == rcv[k];
      assert a + b + c == a + (b + c);
    }
  }

  lemma StopShift(t: Tx, u: Tx, rcv: seq<RcvResult>, m: nat)
    requires rcv != [] && Brings(rcv[0]) && !Full(t, rcv, 0) && u == t.(data := t.data + Piece(rcv[0]))
    requires ReadsStop(u, rcv[1..], m)
    ensures ReadsStop(t, rcv, m + 1) && Received(u, rcv[1..], m) == Received(t, rcv, m + 1)
  {
    hide Piece, Brings, Brought;
    forall i: nat | i <= m ensures Full(u, rcv[1..], i) == Full(t, rcv, i + 1) { BroughtShift(rcv, i); }
    forall i: nat | i < m + 1 ensures Brings(rcv[i]) && !Full(t, rcv, i) {
      if i > 0 { assert Brings(rcv[1..][i - 1]) && !Full(u, rcv[1..], i - 1); }
    }
    BroughtShift(rcv, m);
    assert t.data + (Piece(rcv[0]) + Brought(rcv[1..], m)) == u.data + Brought(rcv[1..], m);
  }

  lemma RecvStep(t: Tx, rcv: seq<RcvResult>)
    ensures if rcv != [] && Brings(rcv[0]) && !Full(t, rcv, 0) then
              PumpRecv(t, rcv).0 == PumpRecv(t.(data := t.data + Piece(rcv[0])), rcv[1..]).0
            else ReadsStop(t, rcv, 0) && PumpRecv(t, rcv).0 == Received(t, rcv, 0)
  {
    assert t.data + [] == t.data;
  }

  /** The receive slice reads until it must stop, keeps all it read, and ends as its last answer says. */
  lemma {:induction false} ReceiveEnds(t: Tx, rcv: seq<RcvResult>) returns (k: nat)
    ensures ReadsStop(t, rcv, k) && PumpRecv(t, rcv).0 == Received(t, rcv, k)
    decreases |rcv|
  {
    hide PumpRecv, ReadsStop, Received, Full, Piece, Brings;
    RecvStep(t, rcv);
    if rcv != [] && Brings(rcv[0]) && !Full(t, rcv, 0) {
      var u := t.(data := t.data + Piece(rcv[0]));
      var m := ReceiveEnds(u, rcv[1..]);
      StopShift(t, u, rcv, m);
      k := m + 1;
    } else {
      k := 0;
    }
  }

  // ---- sending --------------------------------------------------------------------------------------

  /** Bytes the first `k` sends took. */
  function Carried(snd: seq<SndResult>, k: nat): nat
    requires k <= |snd|
    decreases k
  {
    if k == 0 then 0 else Carried(snd, k - 1) + if snd[k - 1].Took? then snd[k - 1].n else 0
  }

  predicate AllSent(t: Tx, snd: seq<SndResult>, k: nat)
    requires k <= |snd|
  {
    t.reqoff + Carried(snd, k) >= |t.req|
  }

  ghost predicate SendsStop(t: Tx, snd: seq<SndResult>, k: nat) {
    && k <= |snd|
    && (forall i: nat :: i < k ==> snd[i].Took? && !AllSent(t, snd, i))
    && (k == |snd| || AllSent(t, snd, k) || !snd[k].Took?)
  }

  lemma SendsStopOnce(t: Tx, snd: seq<SndResult>, k: nat, k': nat)
    requires SendsStop(t, snd, k) && SendsStop(t, snd, k')
    ensures k == k'
  {
  }

  /** What a transaction becomes by its sends. */
  function Sent(t: Tx, snd: seq<SndResult>, k: nat): Tx
    requires k <= |snd| && t.reqoff <= |t.req|
  {
    var u := t.(reqoff := Min(|t.req|, t.reqoff + Carried(snd, k)));
    if AllSent(t, snd, k) then u.(st := Receiving)
    else if k < |snd| && snd[k] == SndError then u.(status := Broken, st := Failed, ep := false)
    else u
  }

  lemma {:induction false} CarriedShift(snd: seq<SndResult>, k: nat)
    requires k + 1 <= |snd|
    ensures Carried(snd, k + 1) == (if snd[0].Took? then snd[0].n else 0) + Carried(snd[1..], k)
    decreases k
  {
    if k > 0 {
      CarriedShift(snd, k - 1);
      assert snd[1..][k - 1] == snd[k];
    } else {
      assert Carried(snd, 0) == 0;
    }
  }

  lemma SendsShift(t: Tx, u: Tx, snd: seq<SndResult>, m: nat)
    requires t.reqoff <= |t.req| && snd != [] && snd[0].Took? && !AllSent(t, snd, 0)
    requires u == t.(reqoff := t.reqoff + Min(snd[0].n, |t.req| - t.reqoff)) && SendsStop(u, snd[1..], m)
    ensures SendsStop(t, snd, m + 1) && Sent(u, snd[1..], m) == Sent(t, snd, m + 1)
  {
    hide Carried;
    CarriedNone(snd);
    forall i: nat | i <= m
      ensures AllSent(u, snd[1..], i) == AllSent(t, snd, i + 1)
      ensures Min(|u.req|, u.reqoff + Carried(snd[1..], i)) == Min(|t.req|, t.reqoff + Carried(snd, i + 1))
    {
      CarriedShift(snd, i);
    }
    forall i: nat | i < m + 1 ensures snd[i].Took? && !AllSent(t, snd, i) {
      if i > 0 { assert snd[1..][i - 1].Took? && !AllSent(u, snd[1..], i - 1); }
    }
  }

  lemma CarriedNone(snd: seq<SndResult>)
    ensures Carried(snd, 0) == 0
  {
  }

  lemma SendStep(t: Tx, snd: seq<SndResult>)
    requires t.reqoff <= |t.req|
    ensures if snd != [] && snd[0].Took? && !AllSent(t, snd, 0) then
              PumpSend(t, snd).0 == PumpSend(t.(reqoff := t.reqoff + Min(snd[0].n, |t.req| - t.reqoff)), snd[1..]).0
            else SendsStop(t, snd, 0) && PumpSend(t, snd).0 == Sent(t, snd, 0)
  {
    CarriedNone(snd);
  }

  /** The send slice hands over until it must stop. */
  lemma {:induction false} SendEnds(t: Tx, snd: seq<SndResult>) returns (k: nat)
    requires t.reqoff <= |t.req|
    ensures SendsStop(t, snd, k) && PumpSend(t, snd).0 == Sent(t, snd, k)
    decreases |snd|
  {
    hide PumpSend, SendsStop, Sent, AllSent;
    SendStep(t, snd);
    if snd != [] && snd[0].Took? && !AllSent(t, snd, 0) {
      var u := t.(reqoff := t.reqoff + Min(snd[0].n, |t.req| - t.reqoff));
      var m := SendEnds(u, snd[1..]);
      SendsShift(t, u, snd, m);
      k := m + 1;
    } else {
      k := 0;
    }
  }

  // ---- one poll ---------------------------------------------------------------------------------------

  /** The connect event of a poll: what the look shows, or what the notifier left. */
  function Shown(t: Tx, ot: Ot): Look {
    if ot.look in {TConnect, TDisconnect} then ot.look
    else if ot.notified in {TConnect, TDisconnect} then ot.notified
    else t.connEvent
  }

  /** The answers of a poll by which the transaction fails. */
  ghost predicate Fails(t: Tx, ot: Ot) {
    match t.st
    case Init => !(ot.up && ot.open && ot.bind && ot.resolve) || ot.connect == Refused
    case Connecting => Shown(t, ot) == TDisconnect || (Shown(t, ot) == TConnect && !ot.rcvConnect)
    case Sending =>
      exists k: nat :: SendsStop(t, ot.snd, k) && !AllSent(t, ot.snd, k) && k < |ot.snd| && ot.snd[k] == SndError
    case Receiving =>
      exists k: nat ::
        ReadsStop(t, ot.rcv, k) && Gone(Last(t, ot.rcv, k)) && t.data + Brought(ot.rcv, k) == []
    case _ => false
  }

  /** The answers by which it is complete: an orderly release, or a broken connection with bytes at hand. */
  ghost predicate Completes(t: Tx, ot: Ot) {
    && t.st.Receiving?
    && exists k: nat :: ReadsStop(t, ot.rcv, k)
                   && (Released(Last(t, ot.rcv, k))
                       || (Gone(Last(t, ot.rcv, k)) && t.data + Brought(ot.rcv, k) != []))
  }

  /** The stage good answers lead to. */
  ghost function StageAfter(t: Tx, ot: Ot): Stage {
    match t.st
    case Init => if ot.notifier || ot.connect == InProgress then Connecting else Sending
    case Connecting => if Shown(t, ot) == TConnect then Sending else Connecting
    case Sending => if exists k: nat :: SendsStop(t, ot.snd, k) && AllSent(t, ot.snd, k) then Receiving else Sending
    case st => st
  }

  /** Two seconds to connect, five for everything, and no end for a stream that receives. */
  predicate Late(st: Stage, streaming: bool, ticks: int) {
    (st.Connecting? && ticks > 120) || (ticks > 300 && !(streaming && st.Receiving?))
  }

  predicate Underway(t: Tx) {
    t.status == Running && !t.cancelled && t.st !in {Done, Failed} && t.reqoff <= |t.req|
  }

  function Noted(t: Tx, ot: Ot): Tx {
    t.(connEvent := if ot.notified in {TConnect, TDisconnect} then ot.notified else t.connEvent)
  }

  /** What a slice comes to, by its answers alone. */
  ghost predicate Answered(t: Tx, ot: Ot, u: Tx) {
    && !(Fails(t, ot) && Completes(t, ot))
    && u == t.(connEvent := u.connEvent, async := u.async, ep := u.ep, status := u.status, st := u.st,
               reqoff := u.reqoff, data := u.data)
    && (u.status == Finished <==> Completes(t, ot)) && (u.status == Broken <==> Fails(t, ot))
    && (u.status == Running ==> u.st == StageAfter(t, ot))
  }

  lemma SendAnswered(t: Tx, ot: Ot)
    requires Underway(t) && t.st.Sending?
    ensures Answered(t, ot, PumpSend(Noted(t, ot), ot.snd).0)
  {
    hide PumpSend, SendsStop, AllSent, Carried;
    var w := Noted(t, ot);
    var k := SendEnds(w, ot.snd);
    SendsAlike(t, w, ot.snd, k);
    assert SendsStop(t, ot.snd, k) && k <= |ot.snd| by { SendsInside(t, ot.snd, k); }
    forall j: nat | SendsStop(t, ot.snd, j) ensures j == k { SendsStopOnce(t, ot.snd, j, k); }
  }

  lemma SendsInside(t: Tx, snd: seq<SndResult>, k: nat)
    requires SendsStop(t, snd, k)
    ensures k <= |snd|
  {
  }

  lemma ReceiveAnswered(t: Tx, ot: Ot)
    requires Underway(t) && t.st.Receiving?
    ensures Answered(t, ot, PumpRecv(Noted(t, ot), ot.rcv).0)
  {
    hide PumpRecv, ReadsStop, Last, Brought;
    var w := Noted(t, ot);
    var k := ReceiveEnds(w, ot.rcv);
    ReadsAlike(t, w, ot.rcv, k);
    assert ReadsStop(t, ot.rcv, k) && k <= |ot.rcv| by { ReadsInside(t, ot.rcv, k); }
    forall j: nat | ReadsStop(t, ot.rcv, j) ensures j == k { ReadsStopOnce(t, ot.rcv, j, k); }
  }

  lemma ReadsInside(t: Tx, rcv: seq<RcvResult>, k: nat)
    requires ReadsStop(t, rcv, k)
    ensures k <= |rcv|
  {
  }

  lemma OpenAnswered(t: Tx, ot: Ot)
    requires Underway(t) && (t.st.Init? || t.st.Connecting?)
    ensures Answered(t, ot, Slice(Noted(t, ot), ot).0)
  {
  }

  /** The slice of a poll. */
  lemma SliceEnds(t: Tx, ot: Ot)
    requires Underway(t)
    ensures Answered(t, ot, Slice(Noted(t, ot), ot).0)
  {
    hide PumpSend, PumpRecv, Answered;
    if t.st.Sending? { SendAnswered(t, ot); }
    else if t.st.Receiving? { ReceiveAnswered(t, ot); }
    else { OpenAnswered(t, ot); }
  }

  lemma SendsAlike(t: Tx, w: Tx, snd: seq<SndResult>, k: nat)
    requires w == t.(connEvent := w.connEvent)
    ensures SendsStop(t, snd, k) <==> SendsStop(w, snd, k)
    ensures k <= |snd| ==> AllSent(t, snd, k) == AllSent(w, snd, k)
  {
    hide Carried;
    forall i: nat | i <= |snd| ensures AllSent(t, snd, i) == AllSent(w, snd, i) { }
  }

  lemma ReadsAlike(t: Tx, w: Tx, rcv: seq<RcvResult>, k: nat)
    requires w == t.(connEvent := w.connEvent)
    ensures ReadsStop(t, rcv, k) <==> ReadsStop(w, rcv, k)
    ensures k <= |rcv| ==> Last(t, rcv, k) == Last(w, rcv, k)
  {
    hide Brought, Brings;
    forall i: nat | i <= |rcv| ensures Full(t, rcv, i) == Full(w, rcv, i) { }
  }

  /**
   * A poll: complete if and only if its answers complete it, failed if and only if they fail
   * it or it is late in the stage they lead to, and else in that stage.
   */
  lemma PollEnds(t: Tx, ot: Ot)
    requires Underway(t)
    ensures var u := PollSpec(t, ot).0;
            && (u.status == Finished <==> Completes(t, ot))
            && (u.status == Broken <==>
                  Fails(t, ot) || (!Completes(t, ot) && Late(StageAfter(t, ot), t.streaming, ot.now - t.startTick)))
            && (u.status == Running ==> u.st == StageAfter(t, ot))
            && u.cancelled == t.cancelled
  {
    hide Slice, Fails, Completes, StageAfter;
    SliceEnds(t, ot);
    assert Noted(t, ot) == if ot.notified in {TConnect, TDisconnect} then t.(connEvent := ot.notified) else t;
  }

  // ---- every run --------------------------------------------------------------------------------------

  /** The poll at `i` completes the transaction. */
  ghost predicate CompletesAt(l: Life, ops: seq<Op>, i: nat) {
    && i < |ops| && ops[i].Poll?
    && var t := Run(l, ops[..i]).tx;
    && t.status == Running && !t.cancelled && Completes(t, ops[i].ot)
  }

  /** The poll at `i` fails it, by its answers or by the clock. */
  ghost predicate FailsAt(l: Life, ops: seq<Op>, i: nat) {
    && i < |ops| && ops[i].Poll?
    && var t, ot := Run(l, ops[..i]).tx, ops[i].ot;
    && t.status == Running && !t.cancelled
    && (Fails(t, ot) || (!Completes(t, ot) && Late(StageAfter(t, ot), t.streaming, ot.now - t.startTick)))
  }

  lemma SaneIsUnderway(l: Life)
    requires Sane(l) && l.tx.status == Running && !l.tx.cancelled
    ensures Underway(l.tx)
  {
    hide Ordered, Opens, Closes, SentBytes, ReceivedBytes;
  }

  lemma DoSane(l: Life, op: Op)
    requires Sane(l)
    ensures Sane(Do(l, op))
  {
    hide Sane, PollSpec, DrainSpec, CancelSpec;
    match op {
      case Poll(ot) => PollSane(l, ot);
      case Cancel => CancelSane(l);
      case Drain(cap) => DrainSane(l, cap);
    }
  }

  /** Only a poll of a running transaction changes its status. */
  lemma OnlyPolls(l: Life, op: Op)
    ensures !(op.Poll? && l.tx.status == Running && !l.tx.cancelled) ==> Do(l, op).tx.status == l.tx.status
    ensures op.Poll? ==> Do(l, op).tx == PollSpec(l.tx, op.ot).0
  {
    hide Slice;
  }

  lemma {:induction false} OverStaysOver(l: Life, ops: seq<Op>)
    requires l.tx.status != Running
    ensures Run(l, ops).tx.status == l.tx.status
    decreases |ops|
  {
    hide Do;
    if ops != [] {
      OnlyPolls(l, ops[0]);
      OverStaysOver(Do(l, ops[0]), ops[1..]);
    }
  }

  lemma RunHead(l: Life, ops: seq<Op>, i: nat)
    requires 0 < i <= |ops|
    ensures Run(l, ops[..i]) == Run(Do(l, ops[0]), ops[1..][..i - 1])
  {
    hide Do;
    assert ops[..i][0] == ops[0] && ops[..i][1..] == ops[1..][..i - 1];
  }

  lemma {:induction false} EndsAsAnswered(l: Life, ops: seq<Op>)
    requires Sane(l) && l.tx.status == Running
    ensures Run(l, ops).tx.status == Finished <==> exists i: nat :: CompletesAt(l, ops, i)
    ensures Run(l, ops).tx.status == Broken <==> exists i: nat :: FailsAt(l, ops, i)
    decreases |ops|
  {
    hide Do, Sane, Completes, Fails, StageAfter, Late, PollSpec;
    if ops != [] {
      DoSane(l, ops[0]);
      OnlyPolls(l, ops[0]);
      var m, rest := Do(l, ops[0]), ops[1..];
      if ops[0].Poll? && !l.tx.cancelled {
        SaneIsUnderway(l);
        PollEnds(l.tx, ops[0].ot);
      }
      assert ops[..0] == [] && Run(l, []) == l;
      assert CompletesAt(l, ops, 0) <==> m.tx.status == Finished;
      assert FailsAt(l, ops, 0) <==> m.tx.status == Broken;
      forall i: nat | 0 < i
        ensures CompletesAt(l, ops, i) <==> CompletesAt(m, rest, i - 1)
        ensures FailsAt(l, ops, i) <==> FailsAt(m, rest, i - 1)
      {
        if i < |ops| { RunHead(l, ops, i); }
      }
      if m.tx.status == Running {
        EndsAsAnswered(m, rest);
        Shifted(l, m, ops, rest);
      } else {
        OverStaysOver(m, rest);
        forall i: nat ensures !CompletesAt(m, rest, i) && !FailsAt(m, rest, i) {
          if i < |rest| { OverStaysOver(m, rest[..i]); }
        }
        Shifted(l, m, ops, rest);
      }
    }
  }

  lemma Shifted(l: Life, m: Life, ops: seq<Op>, rest: seq<Op>)
    requires forall i: nat :: 0 < i ==> (CompletesAt(l, ops, i) <==> CompletesAt(m, rest, i - 1))
    requires forall i: nat :: 0 < i ==> (FailsAt(l, ops, i) <==> FailsAt(m, rest, i - 1))
    ensures (exists i: nat :: CompletesAt(l, ops, i))
            <==> CompletesAt(l, ops, 0) || exists i: nat :: CompletesAt(m, rest, i)
    ensures (exists i: nat :: FailsAt(l, ops, i)) <==> FailsAt(l, ops, 0) || exists i: nat :: FailsAt(m, rest, i)
  {
    hide CompletesAt, FailsAt;
    if i: nat :| CompletesAt(m, rest, i) { assert CompletesAt(l, ops, i + 1); }
    if i: nat :| FailsAt(m, rest, i) { assert FailsAt(l, ops, i + 1); }
  }

  /**
   * Over every sequence of polls, drains and cancels: a transaction is finished if and only
   * if some poll, while it was receiving, met an orderly release, or a broken connection with
   * bytes at hand; and it has failed if and only if some poll met a refused step, a broken
   * connection with nothing received, or a deadline.
   */
  lemma EveryEnd(selector: seq<byte>, streaming: bool, now: nat, ops: seq<Op>)
    ensures var b := Born(selector, streaming, now);
            && (Run(b, ops).tx.status == Finished <==> exists i: nat :: CompletesAt(b, ops, i))
            && (Run(b, ops).tx.status == Broken <==> exists i: nat :: FailsAt(b, ops, i))
  {
    hide CompletesAt, FailsAt, Run;
    BornSane(selector, streaming, now);
    EndsAsAnswered(Born(selector, streaming, now), ops);
  }

  // ---- a reply, from the first poll to the last -------------------------------------------------------

  function Reads(chunks: seq<seq<byte>>): seq<RcvResult> {
    seq(|chunks|, i requires 0 <= i < |chunks| => Got(chunks[i])) + [LookErr(TOrdRel)]
  }

  lemma {:induction false} BroughtIsFlat(chunks: seq<seq<byte>>, k: nat)
    requires k <= |chunks| && forall i | 0 <= i < |chunks| :: 0 < |chunks[i]| <= 8192
    ensures Brought(Reads(chunks), k) == Flat(chunks[..k])
    decreases k
  {
    hide Flat;
    if k > 0 {
      BroughtIsFlat(chunks, k - 1);
      FlatSnoc(chunks[..k - 1], chunks[k - 1]);
      assert chunks[..k] == chunks[..k - 1] + [chunks[k - 1]];
    } else {
      assert Flat(chunks[..0]) == [] by { assert chunks[..0] == []; FlatNothing(); }
    }
  }

  lemma FlatNothing()
    ensures Flat([]) == []
  {
  }

  /** The whole reply, then the release. */
  lemma ReplyRead(t: Tx, chunks: seq<seq<byte>>)
    requires !t.streaming && forall i | 0 <= i < |chunks| :: 0 < |chunks[i]| <= 8192
    ensures PumpRecv(t, Reads(chunks)).0
            == t.(data := t.data + Flat(chunks), status := Finished, st := Done, ep := false)
  {
    hide PumpRecv, Flat;
    var rcv := Reads(chunks);
    var k := ReceiveEnds(t, rcv);
    assert ReadsStop(t, rcv, |chunks|) by {
      forall i: nat | i < |chunks| ensures Brings(rcv[i]) && !Full(t, rcv, i) { }
    }
    ReadsStopOnce(t, rcv, k, |chunks|);
    BroughtIsFlat(chunks, |chunks|);
    assert chunks[..|chunks|] == chunks;
  }

  /** An answer to every question, in time: the endpoint opens, connects, takes the request. */
  predicate Opening(a: Ot, now: nat) {
    && a.up && a.open && a.bind && a.resolve && a.notifier && !a.connect.Refused?
    && a.notified == Nothing && now <= a.now <= now + 120
  }

  predicate Connected(b: Ot, now: nat) {
    b.look == TConnect && b.rcvConnect && now <= b.now <= now + 300
  }

  predicate Taking(c: Ot, selector: seq<byte>, now: nat) {
    |c.snd| == 1 && c.snd[0].Took? && c.snd[0].n >= |selector| + 2 && now <= c.now <= now + 300
  }

  /**
   * Four polls with good answers, each in time, take a transaction from its start to its end:
   * finished, not failed, and holding the whole reply.
   */
  lemma GoodReply(
    selector: seq<byte>, now: nat, a: Ot, b: Ot, c: Ot, e: Ot, chunks: seq<seq<byte>>)
    requires Opening(a, now) && Connected(b, now) && Taking(c, selector, now)
    requires e.rcv == Reads(chunks) && forall i | 0 <= i < |chunks| :: 0 < |chunks[i]| <= 8192
    ensures var t := Run(Born(selector, false, now), [Poll(a), Poll(b), Poll(c), Poll(e)]).tx;
            && t.status == Finished && t.st == Done && !t.ep && t.data == Flat(chunks)
            && t.req == selector + [13, 10] && t.reqoff == |selector| + 2
  {
    hide Flat, PumpRecv, After;
    var l0 := Born(selector, false, now);
    var l1 := Do(l0, Poll(a));
    var l2 := Do(l1, Poll(b));
    var l3 := Do(l2, Poll(c));
    var l4 := Do(l3, Poll(e));
    AfterIs();
    assert l1.tx == l0.tx.(ep := true, async := true, st := Connecting);
    assert l2.tx.st == Sending && l2.tx == l1.tx.(connEvent := l2.tx.connEvent, async := false, st := Sending);
    SentAtOnce(l2.tx, c);
    assert l3.tx.st == Receiving && l3.tx.data == [] && l3.tx.reqoff == |selector| + 2;
    ReplyRead(l3.tx, chunks);
    ReplyRead(l3.tx.(connEvent := e.notified), chunks);
    assert [] + Flat(chunks) == Flat(chunks);
    var ops := [Poll(a), Poll(b), Poll(c), Poll(e)];
    FourDone(l0, Poll(a), Poll(b), Poll(c), Poll(e));
  }

  lemma AfterIs()
    ensures forall first, x: Effect :: After(first, x).0 == x.0
  {
  }

  lemma SentAtOnce(t: Tx, c: Ot)
    requires t.status == Running && !t.cancelled && t.st == Sending && t.reqoff == 0 && |c.snd| == 1
    requires c.snd[0].Took? && c.snd[0].n >= |t.req| > 0 && t.startTick <= c.now <= t.startTick + 300
    ensures var u := PollSpec(t, c).0; u == t.(connEvent := u.connEvent, reqoff := |t.req|, st := Receiving)
  {
    hide PumpSend;
    TakesAll(Noted(t, c), c.snd);
    TakesAll(t, c.snd);
  }

  lemma TakesAll(t: Tx, snd: seq<SndResult>)
    requires t.reqoff == 0 < |t.req| && |snd| == 1 && snd[0].Took? && snd[0].n >= |t.req|
    ensures PumpSend(t, snd).0 == t.(reqoff := |t.req|, st := Receiving)
  {
    hide PumpSend;
    CarriedNone(snd);
    SendStep(t, snd);
    SendStep(t.(reqoff := |t.req|), snd[1..]);
    CarriedNone(snd[1..]);
  }

  lemma FourDone(l: Life, a: Op, b: Op, c: Op, e: Op)
    ensures Run(l, [a, b, c, e]) == Do(Do(Do(Do(l, a), b), c), e)
  {
    hide Do;
    assert [a, b, c, e][1..] == [b, c, e] && [b, c, e][1..] == [c, e] && [c, e][1..] == [e] && [e][1..] == [];
    assert Run(Do(Do(Do(l, a), b), c), [e]) == Run(Do(Do(Do(Do(l, a), b), c), e), []);
    assert Run(Do(Do(l, a), b), [c, e]) == Run(Do(Do(Do(l, a), b), c), [e]);
    assert Run(Do(l, a), [b, c, e]) == Run(Do(Do(l, a), b), [c, e]);
  }
}
