/**
 * The interrupt side of the PCM ring and the latency trim
 * (os9/casquinha.c `AudioDoubleBack`, lines 1626-1662, and lines 2052-2063).
 */
module Sound {
  import opened Bytes
  import opened Cursors
  import opened Rings

  const CHUNK: nat := 32 * 1024
  const RING_TARGET: nat := 512 * 1024
  const TRIM_SLACK: nat := 256 * 1024

  /** One firing: what was trimmed, what was served, and how much silence followed it. */
  datatype Shot = Shot(trimmed: seq<byte>, served: seq<byte>, silence: nat)

  /** How much a firing trims: what a positive request asks for, as far as it is there. */
  function Trimmed(skip: int, have: nat): nat {
    if skip > 0 then Min(skip, have) else 0
  }

  function FireSpec(queue: seq<byte>, skip: int, open: bool): Shot {
    var s := Trimmed(skip, |queue|);
    var rest := queue[s..];
    var take := if |rest| >= CHUNK then CHUNK else if !open then |rest| else 0;
    Shot(queue[..s], rest[..take], CHUNK - take)
  }

  /** A firing in the program's steps: cut, take, serve, fill up with silence. */
  lemma FireIs(queue: seq<byte>, skip: int, open: bool)
    ensures var s, left := FireSpec(queue, skip, open), queue[Trimmed(skip, |queue|)..];
            var take := if |left| >= CHUNK then CHUNK else if !open then |left| else 0;
            && s.served == left[..take] && s.silence == CHUNK - take && (s.served == [] <==> take == 0)
            && queue == s.trimmed + s.served + left[take..]
  {
    var n := Trimmed(skip, |queue|);
    var left := queue[n..];
    assert queue == queue[..n] + left;
    forall take | 0 <= take <= |left| ensures queue == queue[..n] + left[..take] + left[take..] {
      assert left == left[..take] + left[take..];
      assert queue[..n] + (left[..take] + left[take..]) == queue[..n] + left[..take] + left[take..];
    }
  }

  function Zeros(n: nat): (z: seq<byte>)
    ensures |z| == n
  {
    seq(n, _ => 0)
  }

  /** The bytes one hardware buffer holds after a firing. */
  function Heard(s: Shot): seq<byte> {
    s.served + Zeros(s.silence)
  }

  /**
   * A firing fills a whole buffer from the head of the queue: bytes leave the queue
   * only by being trimmed or served, in order, and while the wire is open a buffer
   * is all music or all silence.
   */
  lemma FireConserves(queue: seq<byte>, skip: int, open: bool)
    ensures var s := FireSpec(queue, skip, open);
            && |Heard(s)| == CHUNK
            && s.trimmed + s.served <= queue
            && |s.trimmed| == Trimmed(skip, |queue|)
            && (open ==> s.silence == 0 || s.served == [])
            && (s.served == [] ==> |queue| - |s.trimmed| < CHUNK)
  {
    var n := Trimmed(skip, |queue|);
    assert queue == queue[..n] + queue[n..];
  }

  const HALF: nat := 0x8000_0000

  /** A 32-bit word as the signed `long` of the machine. */
  function Long(word: cursor): int {
    if word < HALF then word else word - WRAP
  }

  /** The request the event loop makes for a backlog of `fill` bytes, 0 for none. */
  function TrimRequest(fill: cursor): int {
    if fill > RING_TARGET + TRIM_SLACK then Long(fill - RING_TARGET) else 0
  }

  /** A reading is a request from 768 KB on, and a negative one from 2 GB past the target on. */
  lemma RequestSign(fill: cursor)
    ensures TrimRequest(fill) != 0 <==> fill > RING_TARGET + TRIM_SLACK
    ensures TrimRequest(fill) < 0 <==> fill >= HALF + RING_TARGET
  {
  }

  /**
   * The firing that applies a request made for a backlog of `fill` leaves at least the
   * target queued before it serves exactly when the backlog has not shrunk below `fill`
   * since; then the same firing serves a whole chunk.
   */
  lemma TrimKeepsTarget(queue: seq<byte>, fill: cursor, open: bool)
    requires TrimRequest(fill) > 0
    ensures var s := FireSpec(queue, TrimRequest(fill), open);
            && (|queue| - |s.trimmed| >= RING_TARGET <==> |queue| >= fill)
            && (|queue| >= fill ==> |s.trimmed| == fill - RING_TARGET && |s.served| == CHUNK)
  {
  }

  /** The output side: the ring, its two cursors, the request and the hardware buffer. */
  class SoundOut {
    const ring: array<byte>
    var wr: cursor
    var rd: cursor
    var skip: int
    var fires: nat
    var silences: nat

    ghost predicate Valid()
      reads this
    {
      RingSize(ring.Length) && Sub(wr, rd) <= ring.Length
    }

    ghost function Queue(): seq<byte>
      requires Valid()
      reads this, ring
    {
      Unread(ring[..], rd, Sub(wr, rd))
    }

    constructor (ring: array<byte>)
      requires RingSize(ring.Length)
      ensures Valid() && this.ring == ring && Queue() == [] && skip == 0
    {
      this.ring := ring;
      wr, rd, skip, fires, silences := 0, 0, 0, 0, 0;
    }

    method AudioDoubleBack(db: array<byte>, open: bool)
      requires Valid() && db.Length == CHUNK <= ring.Length && db != ring
      modifies this`rd, this`skip, this`fires, this`silences, db
      ensures Valid() && fires == old(fires) + 1 && skip == Min(old(skip), 0)
      ensures var s := FireSpec(old(Queue()), old(skip), open);
              && db[..] == Heard(s)
              && old(Queue()) == s.trimmed + s.served + Queue()
              && silences == old(silences) + (if s.served == [] then 1 else 0)
    {
      hide Unread, Sub, Plus, Zeros, RingSize, FireSpec;
      FireIs(Queue(), skip, open);
      fires := fires + 1;
      Trim();
      var avail := Sub(wr, rd);
      var take := if avail >= CHUNK then CHUNK else if !open then avail else 0;
      Serve(db, take);
      if take == 0 { silences := silences + 1; }
    }

    /** The jump-cut a positive request asks for. */
    method Trim()
      requires Valid()
      modifies this`rd, this`skip
      ensures Valid() && skip == Min(old(skip), 0)
      ensures Queue() == old(Queue())[Trimmed(old(skip), |old(Queue())|)..]
    {
      hide Unread, Sub, Plus, RingSize;
      if skip > 0 {
        var have := Sub(wr, rd);
        var s := if skip > have then have else skip;
        Advance(s);
        skip := 0;
      } else {
        assert Queue()[0..] == Queue();
      }
    }

    /** Copies `take` bytes to the hardware buffer and silence after them. */
    method Serve(db: array<byte>, take: nat)
      requires Valid() && db.Length == CHUNK <= ring.Length && db != ring
      requires take <= CHUNK && take <= |Queue()|
      modifies this`rd, db
      ensures Valid() && Queue() == old(Queue())[take..]
      ensures db[..] == old(Queue())[..take] + Zeros(CHUNK - take)
    {
      if take > 0 {
        UnreadDrop(ring[..], rd, take, Sub(wr, rd));
        CopyOut(ring, rd, take, db, 0);
        assert db[..take] == db[0..0 + take];
        Advance(take);
      }
      forall i | take <= i < CHUNK { db[i] := 0; }
      assert db[..take] == old(Queue())[..take];
      assert db[..] == db[..take] + db[take..];
      assert db[take..] == Zeros(CHUNK - take);
    }

    /** Moves the read cursor past `n` queued bytes. */
    method Advance(n: nat)
      requires Valid() && n <= |Queue()|
      modifies this`rd
      ensures Valid() && Queue() == old(Queue())[n..]
    {
      UnreadDrop(ring[..], rd, n, Sub(wr, rd));
      SubOfSum(wr, rd, n);
      rd := Plus(rd, n);
    }

    /**
     * The event loop's trim: asks only while playing and when no request is pending. The two
     * cursors were loaded one after the other and may have moved since, each on its own.
     */
    method AskTrim(playing: bool, seenWr: cursor, seenRd: cursor) returns (asked: bool)
      requires Valid()
      modifies this`skip
      ensures !playing || old(skip) != 0 ==> skip == old(skip) && !asked
      ensures playing && old(skip) == 0 ==> skip == TrimRequest(Sub(seenWr, seenRd)) && (asked <==> skip != 0)
      ensures playing && old(skip) == 0 && seenWr == wr && seenRd == rd ==> skip == TrimRequest(|Queue()|)
    {
      asked := false;
      if playing && skip == 0 {
        var fill := Sub(seenWr, seenRd);
        if fill > RING_TARGET + TRIM_SLACK {
          skip, asked := Long(fill - RING_TARGET), true;
        }
      }
    }
  }
}
