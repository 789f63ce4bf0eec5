/**
 * The Open Transport transaction of src/cq_transport_ot.c: one object advanced a slice per
 * poll. Open Transport and the clock are inputs: each poll is given what every call it may
 * make would return. What the object does to its endpoint is recorded as a list of events.
 */
module Transport {
  import opened Bytes
  import opened Memory

  const READ_CHUNK: nat := 8192
  const STREAM_HIWAT: nat := 64 * 1024
  const DEADLINE_TICKS: int := 120
  const WATCHDOG_TICKS: int := 300

  datatype Stage = Init | Connecting | Sending | Receiving | Done | Failed
  datatype Status = Running | Finished | Broken
  datatype Look = Nothing | TConnect | TDisconnect | TOrdRel
  datatype ConnectResult = Accepted | InProgress | Refused
  datatype SndResult = Took(n: nat) | Flow | SndError
  /** `Got([])` stands for a result of 0, which the source treats like an error. */
  datatype RcvResult = Got(bytes: seq<byte>) | NoData | LookErr(look: Look) | RcvError

  /** What Open Transport answers during one poll; a list that ends means "nothing right now". */
  datatype Ot = Ot(
    now: nat, up: bool, open: bool, bind: bool, resolve: bool, notifier: bool,
    connect: ConnectResult, notified: Look, look: Look, rcvConnect: bool,
    snd: seq<SndResult>, rcv: seq<RcvResult>)

  datatype Event = Opened | Closed | Sent(bytes: seq<byte>, async: bool) | Received(bytes: seq<byte>, async: bool)

  datatype Tx = Tx(
    req: seq<byte>, streaming: bool, startTick: nat,
    st: Stage, status: Status, cancelled: bool, ep: bool, async: bool, connEvent: Look,
    reqoff: nat, data: seq<byte>)

  function Request(selector: seq<byte>): seq<byte> {
    selector + [13, 10]
  }

  function New(selector: seq<byte>, streaming: bool, now: nat): Tx {
    Tx(Request(selector), streaming, now, Init, Running, false, false, false, Nothing, 0, [])
  }

  // ---- one poll, on values -----------------------------------------------------------------

  type Effect = (Tx, seq<Event>)

  function Teardown(t: Tx): Effect {
    if t.ep then (t.(ep := false), [Closed]) else (t, [])
  }

  function Fail(t: Tx): Effect {
    Teardown(t.(status := Broken, st := Failed))
  }

  function Finish(t: Tx): Effect {
    Teardown(t.(status := Finished, st := Done))
  }

  function After(first: seq<Event>, e: Effect): (r: Effect)
    ensures first == [] ==> r == e
    ensures e.1 == [] ==> r.1 == first
  {
    var all := first + e.1;
    assert first == [] ==> all == e.1;
    (e.0, all)
  }

  function OpenAndConnect(t: Tx, ot: Ot): Effect {
    if !ot.up || !ot.open then Fail(t)
    else
      var u := t.(ep := true);
      if !ot.bind || !ot.resolve then After([Opened], Fail(u))
      else
        var w := u.(connEvent := Nothing, async := ot.notifier);
        if ot.connect.Refused? then After([Opened], Fail(w))
        else if w.async || ot.connect.InProgress? then (w.(st := Connecting), [Opened])
        else (w.(st := Sending), [Opened])
  }

  function PumpConnect(t: Tx, ot: Ot): Effect {
    var look := if ot.look in {TConnect, TDisconnect} then ot.look else t.connEvent;
    match look
    case TConnect => if ot.rcvConnect then (t.(async := false, st := Sending), []) else Fail(t)
    case TDisconnect => Fail(t)
    case _ => (t, [])
  }

  function PumpSend(t: Tx, snd: seq<SndResult>): Effect
    decreases |snd|
  {
    if t.reqoff >= |t.req| then (t.(st := Receiving), [])
    else if snd == [] then (t, [])
    else
      match snd[0]
      case Took(n) =>
        var k := Min(n, |t.req| - t.reqoff);
        After([Sent(t.req[t.reqoff..t.reqoff + k], t.async)], PumpSend(t.(reqoff := t.reqoff + k), snd[1..]))
      case Flow => (t, [])
      case SndError => Fail(t)
  }

  function PumpRecv(t: Tx, rcv: seq<RcvResult>): Effect
    decreases |rcv|
  {
    if (t.streaming && |t.data| >= STREAM_HIWAT) || rcv == [] then (t, [])
    else
      match rcv[0]
      case Got(bytes) =>
        var got := bytes[..Min(|bytes|, READ_CHUNK)];
        if got == [] then BrokenOff(t)
        else After([Received(got, t.async)], PumpRecv(t.(data := t.data + got), rcv[1..]))
      case NoData => (t, [])
      case LookErr(look) =>
        if look.TOrdRel? then Finish(t)
        else if look.TDisconnect? then BrokenOff(t)
        else (t, [])
      case RcvError => BrokenOff(t)
  }

  /** The connection is gone: bytes already received are delivered. */
  function BrokenOff(t: Tx): Effect {
    if t.data != [] then Finish(t) else Fail(t)
  }

  function Overdue(t: Tx, now: nat): bool {
    || (t.st.Connecting? && now - t.startTick > DEADLINE_TICKS)
    || (!(t.streaming && t.st.Receiving?) && now - t.startTick > WATCHDOG_TICKS)
  }

  function Slice(t: Tx, ot: Ot): Effect {
    match t.st
    case Init => OpenAndConnect(t, ot)
    case Connecting => PumpConnect(t, ot)
    case Sending => PumpSend(t, ot.snd)
    case Receiving => PumpRecv(t, ot.rcv)
    case _ => (t, [])
  }

  function PollSpec(t: Tx, ot: Ot): Effect {
    if t.cancelled || t.status != Running then (t, [])
    else
      var u := if ot.notified in {TConnect, TDisconnect} then t.(connEvent := ot.notified) else t;
      var e := Slice(u, ot);
      if e.0.status == Running && Overdue(e.0, ot.now) then After(e.1, Fail(e.0)) else e
  }

  function CancelSpec(t: Tx): Effect {
    Teardown(t.(cancelled := true))
  }

  function DrainSpec(t: Tx, cap: nat): (Tx, seq<byte>) {
    var n := Min(|t.data|, cap);
    (t.(data := t.data[n..]), t.data[..n])
  }

  // ---- every run -----------------------------------------------------------------------------

  function Opens(tr: seq<Event>): nat {
    if tr == [] then 0 else Opens(tr[..|tr| - 1]) + if tr[|tr| - 1].Opened? then 1 else 0
  }

  function Closes(tr: seq<Event>): nat {
    if tr == [] then 0 else Closes(tr[..|tr| - 1]) + if tr[|tr| - 1].Closed? then 1 else 0
  }

  function SentBytes(tr: seq<Event>): seq<byte> {
    if tr == [] then []
    else SentBytes(tr[..|tr| - 1]) + if tr[|tr| - 1].Sent? then tr[|tr| - 1].bytes else []
  }

  function ReceivedBytes(tr: seq<Event>): seq<byte> {
    if tr == [] then []
    else ReceivedBytes(tr[..|tr| - 1]) + if tr[|tr| - 1].Received? then tr[|tr| - 1].bytes else []
  }

  /** In the order things happened: the endpoint opens first, everything is sent before anything arrives. */
  predicate Ordered(tr: seq<Event>, req: seq<byte>) {
    tr == [] || (
      var before, e := tr[..|tr| - 1], tr[|tr| - 1];
      && Ordered(before, req)
      && match e
         case Opened => before == []
         case Closed => Opens(before) == 1 && Closes(before) == 0
         case Sent(_, async) => !async && Opens(before) == 1 && Closes(before) == 0
         case Received(_, async) =>
           !async && Opens(before) == 1 && Closes(before) == 0 && SentBytes(before) == req)
  }

  /** A run so far: its events, and the bytes drained from it. */
  datatype Life = Life(tx: Tx, events: seq<Event>, drained: seq<byte>)

  ghost predicate Sane(l: Life) {
    var t, tr := l.tx, l.events;
    && Ordered(tr, t.req)
    && Opens(tr) <= 1 && Opens(tr) - Closes(tr) == (if t.ep then 1 else 0)
    && (t.st.Init? ==> tr == [])
    && (t.status != Running || t.cancelled ==> !t.ep)
    && (t.status == Running && !t.cancelled ==> t.ep == !t.st.Init?)
    && (t.status == Running <==> t.st !in {Done, Failed})
    && (t.status == Finished <==> t.st.Done?)
    && t.reqoff <= |t.req| && SentBytes(tr) == t.req[..t.reqoff]
    && (t.st in {Receiving, Done} ==> t.reqoff == |t.req|)
    && (t.st in {Sending, Receiving} ==> !t.async)
    && l.drained + t.data == ReceivedBytes(tr)
    && (t.streaming ==> |t.data| < STREAM_HIWAT + READ_CHUNK)
  }

  function Then(l: Life, e: Effect): Life {
    Life(e.0, l.events + e.1, l.drained)
  }

  lemma Snoc(tr: seq<Event>, e: Event)
    ensures (tr + [e])[..|tr + [e]| - 1] == tr
  {
  }

  lemma ThenAfter(l: Life, t: Tx, e: Event, rest: Effect)
    ensures Then(l, After([e], rest)) == Then(Then(l, (t, [e])), rest)
  {
    assert l.events + ([e] + rest.1) == l.events + [e] + rest.1;
  }

  lemma NoEvents(l: Life)
    ensures l.events + [] == l.events
  {
  }

  lemma TeardownSane(l: Life, t: Tx)
    requires Sane(l) && t == l.tx.(status := t.status, st := t.st, cancelled := t.cancelled)
    requires (t.status == Running <==> t.st !in {Done, Failed}) && (t.status == Finished <==> t.st.Done?)
    requires t.st.Done? ==> t.reqoff == |t.req|
    requires t.status != Running || t.cancelled
    requires t.st in {Done, Failed} || t.st == l.tx.st
    ensures Sane(Then(l, Teardown(t)))
  {
    Snoc(l.events, Closed);
    NoEvents(l);
  }

  lemma SentSane(l: Life, k: nat)
    requires Sane(l) && l.tx.st.Sending? && !l.tx.cancelled && l.tx.reqoff + k <= |l.tx.req|
    ensures var t := l.tx;
            Sane(Then(l, (t.(reqoff := t.reqoff + k), [Sent(t.req[t.reqoff..t.reqoff + k], t.async)])))
  {
    var t := l.tx;
    var e := Sent(t.req[t.reqoff..t.reqoff + k], t.async);
    Snoc(l.events, e);
    assert t.req[..t.reqoff + k] == t.req[..t.reqoff] + e.bytes;
    assert ReceivedBytes(l.events) + [] == ReceivedBytes(l.events);
  }

  lemma {:induction false} SendSane(l: Life, snd: seq<SndResult>)
    requires Sane(l) && l.tx.st.Sending? && !l.tx.cancelled
    ensures Sane(Then(l, PumpSend(l.tx, snd)))
    decreases |snd|
  {
    hide Ordered, Opens, Closes, SentBytes, ReceivedBytes;
    var t := l.tx;
    NoEvents(l);
    if t.reqoff < |t.req| && snd != [] {
      match snd[0] {
        case Took(n) =>
          var k := Min(n, |t.req| - t.reqoff);
          var e, u := Sent(t.req[t.reqoff..t.reqoff + k], t.async), t.(reqoff := t.reqoff + k);
          SentSane(l, k);
          SendSane(Then(l, (u, [e])), snd[1..]);
          ThenAfter(l, u, e, PumpSend(u, snd[1..]));
        case Flow =>
        case SndError => TeardownSane(l, t.(status := Broken, st := Failed));
      }
    }
  }

  lemma ReceivedSane(l: Life, got: seq<byte>)
    requires Sane(l) && l.tx.st.Receiving? && !l.tx.cancelled
    requires |got| <= READ_CHUNK && (l.tx.streaming ==> |l.tx.data| < STREAM_HIWAT)
    ensures Sane(Then(l, (l.tx.(data := l.tx.data + got), [Received(got, l.tx.async)])))
  {
    var t := l.tx;
    Snoc(l.events, Received(got, t.async));
    assert SentBytes(l.events) + [] == SentBytes(l.events) == t.req;
    assert l.drained + (t.data + got) == l.drained + t.data + got;
  }

  lemma {:induction false} RecvSane(l: Life, rcv: seq<RcvResult>)
    requires Sane(l) && l.tx.st.Receiving? && !l.tx.cancelled
    ensures Sane(Then(l, PumpRecv(l.tx, rcv)))
    decreases |rcv|
  {
    hide Ordered, Opens, Closes, SentBytes, ReceivedBytes;
    var t := l.tx;
    NoEvents(l);
    TeardownSane(l, t.(status := Broken, st := Failed));
    TeardownSane(l, t.(status := Finished, st := Done));
    if !(t.streaming && |t.data| >= STREAM_HIWAT) && rcv != [] && rcv[0].Got? {
      var got := rcv[0].bytes[..Min(|rcv[0].bytes|, READ_CHUNK)];
      if got != [] {
        var e, u := Received(got, t.async), t.(data := t.data + got);
        ReceivedSane(l, got);
        RecvSane(Then(l, (u, [e])), rcv[1..]);
        ThenAfter(l, u, e, PumpRecv(u, rcv[1..]));
      }
    }
  }

  /** Just opened, whatever the endpoint's mode. */
  lemma OpenedSane(l: Life, w: Tx, st: Stage)
    requires Sane(l) && l.tx.st.Init? && l.tx.status == Running && !l.tx.cancelled
    requires w == l.tx.(ep := true, async := w.async, connEvent := w.connEvent)
    requires st.Connecting? || (st.Sending? && !w.async)
    ensures Sane(Then(l, (w.(st := st), [Opened])))
  {
    Snoc([], Opened);
    assert l.events == [] && [] + [Opened] == [Opened];
  }

  lemma OpenFailedSane(l: Life, w: Tx)
    requires Sane(l) && l.tx.st.Init? && l.tx.status == Running && !l.tx.cancelled
    requires w == l.tx.(ep := true, async := w.async, connEvent := w.connEvent)
    ensures Sane(Then(l, After([Opened], Fail(w))))
  {
    hide Ordered, Opens, Closes, SentBytes, ReceivedBytes;
    OpenedSane(l, w, Connecting);
    TeardownSane(Then(l, (w.(st := Connecting), [Opened])), w.(status := Broken, st := Failed));
    ThenAfter(l, w.(st := Connecting), Opened, Fail(w));
  }

  lemma OpenSane(l: Life, ot: Ot)
    requires Sane(l) && l.tx.st.Init? && l.tx.status == Running && !l.tx.cancelled
    ensures Sane(Then(l, OpenAndConnect(l.tx, ot)))
  {
    hide Sane, After, Fail, Then;
    var t := l.tx;
    if !ot.up || !ot.open {
      NeverOpenedSane(l);
    } else if !ot.bind || !ot.resolve {
      OpenFailedSane(l, t.(ep := true));
    } else {
      var w := t.(ep := true, connEvent := Nothing, async := ot.notifier);
      if ot.connect.Refused? {
        OpenFailedSane(l, w);
      } else {
        OpenedSane(l, w, if w.async || ot.connect.InProgress? then Connecting else Sending);
      }
    }
  }

  lemma NeverOpenedSane(l: Life)
    requires Sane(l) && l.tx.st.Init? && l.tx.status == Running && !l.tx.cancelled
    ensures Sane(Then(l, Fail(l.tx)))
  {
    hide Ordered, Opens, Closes, SentBytes, ReceivedBytes;
    NoEvents(l);
    TeardownSane(l, l.tx.(status := Broken, st := Failed));
  }

  lemma SliceSane(l: Life, ot: Ot)
    requires Sane(l) && l.tx.status == Running && !l.tx.cancelled
    ensures Sane(Then(l, Slice(l.tx, ot)))
  {
    hide Ordered, Opens, Closes, SentBytes, ReceivedBytes, PumpSend, PumpRecv, PumpConnect, OpenAndConnect;
    match l.tx.st {
      case Init => OpenSane(l, ot);
      case Connecting => ConnectSane(l, ot);
      case Sending => SendSane(l, ot.snd);
      case Receiving => RecvSane(l, ot.rcv);
      case _ => NoEvents(l);
    }
  }

  lemma PollSane(l: Life, ot: Ot)
    requires Sane(l)
    ensures Sane(Then(l, PollSpec(l.tx, ot)))
  {
    hide Ordered, Opens, Closes, SentBytes, ReceivedBytes, Slice;
    NoEvents(l);
    if !l.tx.cancelled && l.tx.status == Running {
      var u := if ot.notified in {TConnect, TDisconnect} then l.tx.(connEvent := ot.notified) else l.tx;
      var m := l.(tx := u);
      assert Sane(m);
      SliceSane(m, ot);
      var e := Slice(u, ot);
      var n := Then(m, e);
      if e.0.status == Running && Overdue(e.0, ot.now) {
        TeardownSane(n, e.0.(status := Broken, st := Failed));
        assert l.events + (e.1 + Fail(e.0).1) == l.events + e.1 + Fail(e.0).1;
      }
    }
  }

  lemma ConnectSane(l: Life, ot: Ot)
    requires Sane(l) && l.tx.st.Connecting? && l.tx.status == Running && !l.tx.cancelled
    ensures Sane(Then(l, PumpConnect(l.tx, ot)))
  {
    NoEvents(l);
    TeardownSane(l, l.tx.(status := Broken, st := Failed));
  }

  datatype Op = Poll(ot: Ot) | Drain(cap: nat) | Cancel

  function Do(l: Life, op: Op): Life {
    match op
    case Poll(ot) => Then(l, PollSpec(l.tx, ot))
    case Cancel => Then(l, CancelSpec(l.tx))
    case Drain(cap) =>
      var r := DrainSpec(l.tx, cap);
      l.(tx := r.0, drained := l.drained + r.1)
  }

  function Run(l: Life, ops: seq<Op>): Life
    decreases |ops|
  {
    if ops == [] then l else Run(Do(l, ops[0]), ops[1..])
  }

  lemma DrainSane(l: Life, cap: nat)
    requires Sane(l)
    ensures Sane(Do(l, Drain(cap)))
  {
    hide Ordered, Opens, Closes, SentBytes, ReceivedBytes;
    var r := DrainSpec(l.tx, cap);
    assert l.drained + r.1 + r.0.data == l.drained + (r.1 + r.0.data);
    assert r.1 + r.0.data == l.tx.data;
  }

  lemma CancelSane(l: Life)
    requires Sane(l)
    ensures Sane(Do(l, Cancel))
  {
    hide Ordered, Opens, Closes, SentBytes, ReceivedBytes;
    TeardownSane(l, l.tx.(cancelled := true));
  }

  lemma {:induction false} RunSane(l: Life, ops: seq<Op>)
    requires Sane(l)
    ensures Sane(Run(l, ops))
    decreases |ops|
  {
    hide Sane, PollSpec, DrainSpec, CancelSpec;
    if ops != [] {
      match ops[0] {
        case Poll(ot) => PollSane(l, ot);
        case Cancel => CancelSane(l);
        case Drain(cap) => DrainSane(l, cap);
      }
      RunSane(Do(l, ops[0]), ops[1..]);
    }
  }

  function Born(selector: seq<byte>, streaming: bool, now: nat): Life {
    Life(New(selector, streaming, now), [], [])
  }

  /**
   * Every sequence of polls, drains and cancels, whatever Open Transport answers: the
   * endpoint is opened at most once; once the transaction is over, cancelled or freed it has
   * been closed exactly as often as opened; what was sent is a prefix of selector and CRLF,
   * nothing arrives before all of it is sent, and neither happens in async mode.
   */
  lemma Lifecycle(selector: seq<byte>, streaming: bool, now: nat, ops: seq<Op>)
    ensures var l := Run(Born(selector, streaming, now), ops);
            var freed := l.events + Teardown(l.tx).1;
            && Ordered(l.events, Request(selector)) && Opens(l.events) <= 1
            && SentBytes(l.events) <= Request(selector)
            && (l.tx.status != Running || l.tx.cancelled ==> Closes(l.events) == Opens(l.events))
            && Closes(freed) == Opens(freed) == Opens(l.events)
  {
    hide Ordered, PollSpec;
    var b := Born(selector, streaming, now);
    assert Sane(b) by { BornSane(selector, streaming, now); }
    RunSane(b, ops);
    RequestKept(b, ops);
    var l := Run(b, ops);
    Snoc(l.events, Closed);
    NoEvents(l);
  }

  lemma BornSane(selector: seq<byte>, streaming: bool, now: nat)
    ensures Sane(Born(selector, streaming, now))
  {
  }

  /**
   * Stream buffer conservation: drained bytes, then buffered bytes, are the received bytes
   * in order, and a streaming buffer stays below the high-water mark plus one read.
   */
  lemma BufferConserves(selector: seq<byte>, streaming: bool, now: nat, ops: seq<Op>)
    ensures var l := Run(Born(selector, streaming, now), ops);
            && l.drained + l.tx.data == ReceivedBytes(l.events)
            && (streaming ==> |l.tx.data| < STREAM_HIWAT + READ_CHUNK)
  {
    hide Ordered, PollSpec;
    var b := Born(selector, streaming, now);
    assert Sane(b) by { BornSane(selector, streaming, now); }
    RunSane(b, ops);
    RequestKept(b, ops);
  }

  lemma {:induction false} SendKeeps(t: Tx, snd: seq<SndResult>)
    ensures var u := PumpSend(t, snd).0; u.req == t.req && u.streaming == t.streaming
    decreases |snd|
  {
    if t.reqoff < |t.req| && snd != [] && snd[0].Took? {
      SendKeeps(t.(reqoff := t.reqoff + Min(snd[0].n, |t.req| - t.reqoff)), snd[1..]);
    }
  }

  lemma {:induction false} RecvKeeps(t: Tx, rcv: seq<RcvResult>)
    ensures var u := PumpRecv(t, rcv).0; u.req == t.req && u.streaming == t.streaming
    decreases |rcv|
  {
    if rcv != [] && rcv[0].Got? {
      RecvKeeps(t.(data := t.data + rcv[0].bytes[..Min(|rcv[0].bytes|, READ_CHUNK)]), rcv[1..]);
    }
  }

  lemma {:induction false} RecvAppends(t: Tx, rcv: seq<RcvResult>)
    ensures t.data <= PumpRecv(t, rcv).0.data
    decreases |rcv|
  {
    if rcv != [] && rcv[0].Got? {
      RecvAppends(t.(data := t.data + rcv[0].bytes[..Min(|rcv[0].bytes|, READ_CHUNK)]), rcv[1..]);
    }
  }

  lemma {:induction false} SendKeepsData(t: Tx, snd: seq<SndResult>)
    ensures PumpSend(t, snd).0.data == t.data
    decreases |snd|
  {
    if t.reqoff < |t.req| && snd != [] && snd[0].Took? {
      SendKeepsData(t.(reqoff := t.reqoff + Min(snd[0].n, |t.req| - t.reqoff)), snd[1..]);
    }
  }

  lemma SliceAppends(t: Tx, ot: Ot)
    ensures t.data <= Slice(t, ot).0.data
  {
    hide PumpSend, PumpRecv;
    SendKeepsData(t, ot.snd);
    RecvAppends(t, ot.rcv);
  }

  /** A poll only ever adds to the buffered bytes. */
  lemma PollAppends(t: Tx, ot: Ot)
    ensures t.data <= PollSpec(t, ot).0.data
  {
    hide Slice;
    SliceAppends(t, ot);
    SliceAppends(t.(connEvent := ot.notified), ot);
  }

  /**
   * After a poll at `now` a transaction still runs only within its deadlines, and a stream
   * that has reached the receive state has none: there only the wire or a cancel ends it.
   */
  lemma DeadlinesHold(t: Tx, ot: Ot)
    requires t.status == Running && !t.cancelled
    ensures var u := PollSpec(t, ot).0;
            u.status == Running ==>
              && (u.st.Connecting? ==> ot.now - u.startTick <= DEADLINE_TICKS)
              && (ot.now - u.startTick <= WATCHDOG_TICKS || (u.streaming && u.st.Receiving?))
    ensures t.streaming && t.st.Receiving? ==>
              PollSpec(t, ot) == PollSpec(t, ot.(now := 0))
  {
    hide PumpSend, PumpRecv, PumpConnect, OpenAndConnect;
    if t.st.Receiving? {
      StagesAfterReceiving(t, ot.rcv);
      StagesAfterReceiving(t.(connEvent := ot.notified), ot.rcv);
    }
  }

  lemma {:induction false} StagesAfterReceiving(t: Tx, rcv: seq<RcvResult>)
    requires t.st.Receiving? && t.status == Running
    ensures var u := PumpRecv(t, rcv).0;
            u.streaming == t.streaming && (u.status == Running ==> u.st.Receiving?)
    decreases |rcv|
  {
    if rcv != [] && rcv[0].Got? {
      StagesAfterReceiving(t.(data := t.data + rcv[0].bytes[..Min(|rcv[0].bytes|, READ_CHUNK)]), rcv[1..]);
    }
  }

  predicate SameRequest(t: Tx, u: Tx) {
    u.req == t.req && u.streaming == t.streaming
  }

  lemma SliceKeeps(t: Tx, ot: Ot)
    ensures SameRequest(t, Slice(t, ot).0)
  {
    hide PumpSend, PumpRecv;
    SendKeeps(t, ot.snd);
    RecvKeeps(t, ot.rcv);
  }

  lemma PollKeeps(t: Tx, ot: Ot)
    ensures SameRequest(t, PollSpec(t, ot).0)
  {
    hide Slice;
    SliceKeeps(t, ot);
    SliceKeeps(t.(connEvent := ot.notified), ot);
  }

  lemma {:induction false} RequestKept(l: Life, ops: seq<Op>)
    ensures Run(l, ops).tx.req == l.tx.req && Run(l, ops).tx.streaming == l.tx.streaming
    decreases |ops|
  {
    hide PollSpec;
    if ops != [] {
      if ops[0].Poll? { PollKeeps(l.tx, ops[0].ot); }
      RequestKept(Do(l, ops[0]), ops[1..]);
    }
  }

  // ---- the object --------------------------------------------------------------------------------

  /** The capacity a buffer grows to: doubled, from one read's worth, until `need` fits. */
  function Grown(cap: nat, need: nat): (r: nat)
    requires cap > 0
    ensures r >= need && r >= cap && (r > cap ==> r < 2 * need)
    decreases need - cap
  {
    if cap >= need then cap else Grown(2 * cap, need)
  }

  /** The send loop's next turn. */
  lemma SendTurn(t: Tx, snd: seq<SndResult>, k: nat)
    requires k <= |snd|
    ensures t.reqoff >= |t.req| ==> PumpSend(t, snd[k..]) == (t.(st := Receiving), [])
    ensures t.reqoff < |t.req| && (k == |snd| || snd[k].Flow?) ==> PumpSend(t, snd[k..]) == (t, [])
    ensures t.reqoff < |t.req| && k < |snd| && snd[k].SndError? ==> PumpSend(t, snd[k..]) == Fail(t)
    ensures t.reqoff < |t.req| && k < |snd| && snd[k].Took? ==>
              var m := Min(snd[k].n, |t.req| - t.reqoff);
              && snd[k..][1..] == snd[k + 1..]
              && PumpSend(t, snd[k..])
                 == After([Sent(t.req[t.reqoff..t.reqoff + m], t.async)],
                          PumpSend(t.(reqoff := t.reqoff + m), snd[k + 1..]))
  {
    hide Fail, After;
    if k < |snd| { assert snd[k..][0] == snd[k] && snd[k..][1..] == snd[k + 1..]; }
  }

  lemma AfterNothing(e: Effect)
    ensures After([], e) == e
  {
  }

  lemma AfterStop(ev: seq<Event>, t: Tx)
    ensures After(ev, (t, [])) == (t, ev)
  {
  }

  lemma AfterEffect(ev: seq<Event>, e: Effect)
    ensures After(ev, e) == (e.0, ev + e.1)
  {
  }

  class Transaction {
    const req: seq<byte>
    const streaming: bool
    var startTick: nat
    var st: Stage
    var status: Status
    var cancelled: bool
    var ep: bool
    var async: bool
    var connEvent: Look
    var reqoff: nat
    var data: array<byte>
    var len: nat

    ghost predicate Valid()
      reads this
    {
      len <= data.Length && reqoff <= |req|
    }

    /** The abstract transaction; `data.Length` is the source's `cap`. */
    ghost function State(): Tx
      requires Valid()
      reads this, data
    {
      Tx(req, streaming, startTick, st, status, cancelled, ep, async, connEvent, reqoff, data[..len])
    }

    constructor (selector: seq<byte>, streaming: bool, now: nat)
      ensures Valid() && State() == New(selector, streaming, now) && fresh(data)
    {
      req, this.streaming, startTick := Request(selector), streaming, now;
      st, status, cancelled, ep, async, connEvent, reqoff := Init, Running, false, false, false, Nothing, 0;
      data, len := new byte[0], 0;
    }

    /** Makes room: the buffer doubles, from one read's worth, until `need` bytes fit. */
    method Reserve(need: nat)
      requires Valid()
      modifies this`data
      ensures Valid() && (data == old(data) || fresh(data)) && need <= data.Length && State() == old(State())
      ensures data.Length == if need <= old(data.Length) then old(data.Length)
                             else Grown(if old(data.Length) > 0 then old(data.Length) else READ_CHUNK, need)
    {
      if need > data.Length {
        var ncap := if data.Length > 0 then data.Length else READ_CHUNK;
        ghost var goal := Grown(ncap, need);
        while ncap < need
          invariant ncap > 0 && Grown(ncap, need) == goal
          decreases need - ncap
        {
          ncap := ncap * 2;
        }
        var nd := new byte[ncap](_ => 0);
        CopyBytes(data, 0, len, nd, 0);
        assert nd[..len] == nd[0..0 + len] == data[..len];
        data := nd;
      }
    }

    /** Grows the buffer by doubling and copies the bytes in. */
    method Append(buf: seq<byte>)
      requires Valid()
      modifies this`data, this`len, data
      ensures Valid() && (data == old(data) || fresh(data))
      ensures State() == old(State()).(data := old(State()).data + buf)
      ensures data.Length == if old(len) + |buf| <= old(data.Length) then old(data.Length)
                             else Grown(if old(data.Length) > 0 then old(data.Length) else READ_CHUNK, old(len) + |buf|)
    {
      hide Grown;
      ghost var was := data[..len];
      Reserve(len + |buf|);
      assert data[..len] == State().data == was;
      PutBytes(buf, data, len);
      len := len + |buf|;
      assert data[..len] == was + buf;
    }

    /** Moves up to `cap` buffered bytes out and compacts. */
    method DrainInto(dst: array<byte>, at: nat, cap: nat) returns (n: nat)
      requires Valid() && at + cap <= dst.Length && dst != data
      modifies this`len, data, dst
      ensures Valid()
      ensures n == Min(|old(State()).data|, cap)
      ensures (State(), dst[at..at + n]) == DrainSpec(old(State()), cap)
      ensures dst[..at] == old(dst[..at]) && dst[at + n..] == old(dst[at + n..])
    {
      ghost var was := data[..len];
      n := Min(len, cap);
      CopyBytes(data, 0, n, dst, at);
      assert dst[at..at + n] == was[..n];
      len := len - n;
      MoveToFront(data, n, len);
      assert data[..len] == was[n..];
    }

    method CloseEndpoint() returns (ev: seq<Event>)
      requires Valid()
      modifies this`ep
      ensures Valid() && (State(), ev) == Teardown(old(State()))
    {
      ev := [];
      if ep { ep, ev := false, [Closed]; }
    }

    method FailNow() returns (ev: seq<Event>)
      requires Valid()
      modifies this`ep, this`status, this`st
      ensures Valid() && (State(), ev) == Fail(old(State()))
    {
      status, st := Broken, Failed;
      ev := CloseEndpoint();
    }

    method FinishNow() returns (ev: seq<Event>)
      requires Valid()
      modifies this`ep, this`status, this`st
      ensures Valid() && (State(), ev) == Finish(old(State()))
    {
      status, st := Finished, Done;
      ev := CloseEndpoint();
    }

    method Connect(ot: Ot) returns (ev: seq<Event>)
      requires Valid()
      modifies this`ep, this`status, this`st, this`async, this`connEvent
      ensures Valid() && (State(), ev) == OpenAndConnect(old(State()), ot)
    {
      if !ot.up { ev := FailNow(); return; }
      if !ot.open { ev := FailNow(); return; }
      ep := true;
      if !ot.bind || !ot.resolve {
        ev := FailNow();
        ev := [Opened] + ev;
        return;
      }
      connEvent := Nothing;
      async := ot.notifier;
      if ot.connect.Refused? {
        ev := FailNow();
        ev := [Opened] + ev;
      } else {
        st := if async || ot.connect.InProgress? then Connecting else Sending;
        ev := [Opened];
      }
    }

    method AwaitConnect(ot: Ot) returns (ev: seq<Event>)
      requires Valid()
      modifies this`ep, this`status, this`st, this`async
      ensures Valid() && (State(), ev) == PumpConnect(old(State()), ot)
    {
      var look := ot.look;
      if look != TConnect && look != TDisconnect { look := connEvent; }
      ev := [];
      if look == TConnect {
        if ot.rcvConnect {
          async, st := false, Sending;
        } else {
          ev := FailNow();
        }
      } else if look == TDisconnect {
        ev := FailNow();
      }
    }

    method Send(snd: seq<SndResult>) returns (ev: seq<Event>)
      requires Valid()
      modifies this`ep, this`status, this`st, this`reqoff
      ensures Valid() && (State(), ev) == PumpSend(old(State()), snd)
    {
      hide Fail, PumpSend, After;
      ev := [];
      var k := 0;
      assert snd[0..] == snd;
      AfterNothing(PumpSend(State(), snd));
      while reqoff < |req|
        invariant k <= |snd| && reqoff <= |req| && Valid() && State() == old(State()).(reqoff := reqoff)
        invariant PumpSend(old(State()), snd) == After(ev, PumpSend(State(), snd[k..]))
        decreases |snd| - k
      {
        SendTurn(State(), snd, k);
        if k == |snd| { AfterStop(ev, State()); return; }
        match snd[k] {
          case Took(n) =>
            var m := Min(n, |req| - reqoff);
            AfterAfter(ev, [Sent(req[reqoff..reqoff + m], async)],
                       PumpSend(State().(reqoff := reqoff + m), snd[k + 1..]));
            ev := ev + [Sent(req[reqoff..reqoff + m], async)];
            reqoff := reqoff + m;
          case Flow => AfterStop(ev, State()); return;
          case SndError =>
            AfterEffect(ev, Fail(State()));
            var closed := FailNow();
            ev := ev + closed;
            return;
        }
        k := k + 1;
      }
      SendTurn(State(), snd, k);
      st := Receiving;
      AfterStop(ev, State());
    }

    method Receive(rcv: seq<RcvResult>) returns (ev: seq<Event>)
      requires Valid()
      modifies this`ep, this`status, this`st, this`data, this`len, data
      ensures Valid() && (data == old(data) || fresh(data))
      ensures (State(), ev) == PumpRecv(old(State()), rcv)
    {
      hide Fail, Finish, BrokenOff;
      ev := [];
      var k := 0;
      assert rcv[0..] == rcv;
      while true
        invariant k <= |rcv| && Valid() && (data == old(data) || fresh(data))
        invariant State() == old(State()).(data := State().data)
        invariant PumpRecv(old(State()), rcv) == After(ev, PumpRecv(State(), rcv[k..]))
        decreases |rcv| - k
      {
        if streaming && len >= STREAM_HIWAT { return; }
        if k == |rcv| { return; }
        match rcv[k] {
          case Got(bytes) =>
            var got := bytes[..Min(|bytes|, READ_CHUNK)];
            if got == [] {
              var closed := Cut();
              ev := ev + closed;
              return;
            }
            AfterAfter(ev, [Event.Received(got, async)],
                       PumpRecv(State().(data := State().data + got), rcv[k..][1..]));
            assert rcv[k..][1..] == rcv[k + 1..];
            Append(got);
            ev := ev + [Event.Received(got, async)];
          case NoData => return;
          case LookErr(look) =>
            if look == TOrdRel {
              var closed := FinishNow();
              ev := ev + closed;
            } else if look == TDisconnect {
              var closed := Cut();
              ev := ev + closed;
            }
            return;
          case RcvError =>
            var closed := Cut();
            ev := ev + closed;
            return;
        }
        k := k + 1;
      }
    }

    method Cut() returns (ev: seq<Event>)
      requires Valid()
      modifies this`ep, this`status, this`st
      ensures Valid() && (State(), ev) == BrokenOff(old(State()))
    {
      if len > 0 { ev := FinishNow(); } else { ev := FailNow(); }
    }

    method Advance(ot: Ot) returns (ev: seq<Event>)
      requires Valid()
      modifies this, data
      ensures Valid() && (data == old(data) || fresh(data))
      ensures (State(), ev) == Slice(old(State()), ot)
    {
      hide PumpSend, PumpRecv, PumpConnect, OpenAndConnect;
      match st {
        case Init => ev := Connect(ot);
        case Connecting => ev := AwaitConnect(ot);
        case Sending => ev := Send(ot.snd);
        case Receiving => ev := Receive(ot.rcv);
        case _ => ev := [];
      }
    }

    /** `cq_tx_poll`: the event list is what was done to the endpoint. */
    method PollOnce(ot: Ot) returns (ev: seq<Event>)
      requires Valid()
      modifies this, data
      ensures Valid() && (data == old(data) || fresh(data))
      ensures (State(), ev) == PollSpec(old(State()), ot)
    {
      hide Slice, Fail;
      if cancelled || status != Running { return []; }
      if ot.notified == TConnect || ot.notified == TDisconnect { connEvent := ot.notified; }
      ev := Advance(ot);
      if status == Running {
        var late := st == Connecting && ot.now - startTick > DEADLINE_TICKS;
        if late || (!(streaming && st == Receiving) && ot.now - startTick > WATCHDOG_TICKS) {
          var closed := FailNow();
          ev := ev + closed;
        }
      }
    }

    method CancelNow() returns (ev: seq<Event>)
      requires Valid()
      modifies this`cancelled, this`ep
      ensures Valid() && (State(), ev) == CancelSpec(old(State()))
    {
      cancelled := true;
      ev := CloseEndpoint();
    }
  }

  lemma AfterAfter(a: seq<Event>, b: seq<Event>, e: Effect)
    ensures After(a, After(b, e)) == After(a + b, e)
  {
    assert a + (b + e.1) == a + b + e.1;
  }
}
