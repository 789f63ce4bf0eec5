/** From the bytes of the wire to the PCM the ear gets: the handoff and the pipeline together. */
module EndToEnd {
  import opened Bytes
  import opened Mp3
  import opened FrameSelect
  import opened TailGate
  import opened Decoder
  import opened Pipeline
  import opened Schedule
  import opened StreamEnd
  import Feed

  /** The place the audio starts at is determined by the bytes. */
  lemma OneStart(received: seq<byte>, h: nat, off: nat, h': nat, off': nat)
    requires Feed.StartsAt(received, h, off) && Feed.StartsAt(received, h', off')
    ensures h == h' && off == off'
  {
    hide SyncFrom, Feed.HeaderEnd;
  }

  /** A listen that played, and committed exactly the audio it received. */
  ghost predicate Handed(slices: seq<Feed.Slice>, audio: seq<byte>) {
    var f := Feed.Run(Feed.TUNING, slices);
    && f.au.Play? && f.wire == [] && f.lost == []
    && AudioOf(Feed.Received(Feed.TUNING, slices), audio)
  }

  /** Received past the header, from the first confirmed frame on. */
  ghost predicate AudioOf(received: seq<byte>, audio: seq<byte>) {
    exists h: nat, off: nat :: Feed.StartsAt(received, h, off) && h + off <= |received| && received[h + off..] == audio
  }

  lemma OneAudio(received: seq<byte>, a: seq<byte>, b: seq<byte>)
    requires AudioOf(received, a) && AudioOf(received, b)
    ensures a == b
  {
    hide Feed.StartsAt;
    var h: nat, off: nat :| Feed.StartsAt(received, h, off) && h + off <= |received| && received[h + off..] == a;
    var h': nat, off': nat :|
      Feed.StartsAt(received, h', off') && h' + off' <= |received| && received[h' + off'..] == b;
    OneStart(received, h, off, h', off');
  }

  /** What a playing listen has of the audio, in its three places. */
  lemma PlayedIsAudio(slices: seq<Feed.Slice>)
    requires Feed.Run(Feed.TUNING, slices).au.Play?
    ensures var f := Feed.Run(Feed.TUNING, slices);
            AudioOf(Feed.Received(Feed.TUNING, slices), f.committed + f.wire + f.lost)
  {
    hide Feed.Run, Feed.Received, Feed.StartsAt;
    Feed.HandoffExact(slices);
  }

  lemma HandedIsCommitted(slices: seq<Feed.Slice>, audio: seq<byte>)
    requires Handed(slices, audio)
    ensures Feed.Run(Feed.TUNING, slices).committed == audio
  {
    hide Feed.Run, Feed.Received, AudioOf;
    var f := Feed.Run(Feed.TUNING, slices);
    PlayedIsAudio(slices);
    OneAudio(Feed.Received(Feed.TUNING, slices), audio, f.committed + f.wire + f.lost);
    assert f.committed + [] + [] == f.committed;
  }

  /**
   * However the wire was sliced and the three contexts interleaved: when every received byte
   * of audio was committed, declared ended and settled, and no decision cut a frame, the PCM
   * made is that of one flat decode of the whole frames received after the header, from the
   * first confirmed one on; and the output can be played out exactly when the wire did not
   * stop inside a frame.
   */
  lemma WireToPcm(
    dsp: Dsp, slices: seq<Feed.Slice>, fs: seq<seq<byte>>, end: seq<byte>, f0: Frame,
    d: Dec, comp: seq<byte>, pcm: seq<byte>, steps: seq<Step>) returns (s: Sys, flat: Total)
    requires Handed(slices, Flat(fs) + end) && IsStream(fs, end, f0) && d.header.b0 != 0xFF
    requires comp != [] && pcm != [] && Safe(Start(comp, pcm, d))
    requires PlaysAll(dsp, Feed.Run(Feed.TUNING, slices).committed, Start(comp, pcm, d), steps)
    ensures s == Run(dsp, Start(comp, pcm, d), steps)
    ensures flat == FlatFrom(dsp, Total(d, 0, [], []), Flat(fs))
    ensures Clean(dsp, Start(comp, pcm, d), steps) && s.eof && Settled(dsp, s) ==>
              && s.decoded == flat.pcm && s.pass.frames == flat.frames
              && s.pcm.rd <= |s.pcm.sent| && Gone(s.shots) + s.pcm.sent[s.pcm.rd..] == flat.pcm
              && (Idle(s) <==> end == [])
  {
    hide Handed, Run, PlaysAll, Clean, Settled, IsStream, FlatFrom, Flat, Gone, Safe;
    HandedIsCommitted(slices, Flat(fs) + end);
    ScheduleIndependence(dsp, d, fs, end, f0, comp, pcm, steps);
    s := Run(dsp, Start(comp, pcm, d), steps);
    flat := FlatFrom(dsp, Total(d, 0, [], []), Flat(fs));
  }
}
