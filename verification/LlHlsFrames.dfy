/** The frames that go into the packager come out in its parts: none lost, none twice, in order,
and the decode clock accounts for every millisecond. */
module LlHlsFrames {
  import opened Bytes
  import opened Options
  import opened Fmp4
  import opened Seqs
  import opened LlHls
  import opened LlHlsRuns

  datatype Frame = Frame(ts: U32, nalu: seq<Byte>, key: bool)

  predicate Configured(events: seq<Event>)
  {
    events != [] && (events[|events| - 1].VideoConfig? || Configured(events[..|events| - 1]))
  }

  /** The video frames that arrive once the packager knows the video configuration. */
  function Accepted(events: seq<Event>): seq<Frame>
  {
    if events == [] then []
    else
      var before, e := events[..|events| - 1], events[|events| - 1];
      Accepted(before) + if e.Video? && Configured(before) then [Frame(e.ts, e.nalu, e.key)] else []
  }

  function Nalus(fs: seq<Frame>): (r: seq<seq<Byte>>)
    ensures |r| == |fs|
  {
    seq(|fs|, (i: int) requires 0 <= i < |fs| => fs[i].nalu)
  }

  /** The timestamp before frame `i`; 0 before the first. */
  function Previous(fs: seq<Frame>, i: nat): U32
    requires i <= |fs|
  {
    if i == 0 then 0 else fs[i - 1].ts
  }

  function Durations(fs: seq<Frame>): (r: seq<U32>)
    ensures |r| == |fs|
  {
    seq(|fs|, (i: int) requires 0 <= i < |fs| => FrameDuration(Previous(fs, i), fs[i].ts))
  }

  function FlushedNalus(fl: seq<Flush>): seq<seq<Byte>>
  {
    if fl == [] then [] else FlushedNalus(fl[..|fl| - 1]) + fl[|fl| - 1].nalus
  }

  function FlushedDurations(fl: seq<Flush>): seq<U32>
  {
    if fl == [] then [] else FlushedDurations(fl[..|fl| - 1]) + fl[|fl| - 1].durations
  }

  // ---------- conservation ----------

  ghost predicate Conserved(b: Room, fl: seq<Flush>, fs: seq<Frame>)
  {
    && FlushedNalus(fl) + b.pendingNalus == Nalus(fs)
    && FlushedDurations(fl) + b.pendingDurations == Durations(fs)
    && b.lastTs == Previous(fs, |fs|)
  }

  lemma {:induction false} FramesSnoc(fs: seq<Frame>, f: Frame)
    ensures Nalus(fs + [f]) == Nalus(fs) + [f.nalu]
    ensures Durations(fs + [f]) == Durations(fs) + [FrameDuration(Previous(fs, |fs|), f.ts)]
  {
    hide FrameDuration;
    var gs := fs + [f];
    assert forall i :: 0 <= i < |fs| ==> Previous(gs, i) == Previous(fs, i);
  }

  lemma {:induction false} FlushedSnoc(fl: seq<Flush>, f: Flush)
    ensures FlushedNalus(fl + [f]) == FlushedNalus(fl) + f.nalus
    ensures FlushedDurations(fl + [f]) == FlushedDurations(fl) + f.durations
  {
    assert (fl + [f])[..|fl|] == fl;
  }

  lemma {:induction false} AcceptConserves(b: Room, fl: seq<Flush>, fs: seq<Frame>, ts: U32, nalu: seq<Byte>, key: bool)
    requires Conserved(b, fl, fs)
    ensures Conserved(Accept(b, ts, nalu), fl, fs + [Frame(ts, nalu, key)])
  {
    hide FlushedNalus, FlushedDurations, Nalus, Durations, FrameDuration;
    FramesSnoc(fs, Frame(ts, nalu, key));
    ConcatAssoc(FlushedNalus(fl), b.pendingNalus, [nalu]);
    ConcatAssoc(FlushedDurations(fl), b.pendingDurations, [FrameDuration(b.lastTs, ts)]);
  }

  /** Closing a part moves the pending frames into it, or leaves them. */
  lemma {:induction false} ClosePartConserves(p: Params, b: Room, fl: seq<Flush>, fs: seq<Frame>, key: bool)
    requires Conserved(b, fl, fs)
    ensures var o := ClosePart(p, b, key); Conserved(o.room, fl + o.parts, fs)
  {
    hide FlushedNalus, FlushedDurations, Nalus, Durations, FlushBytes, SumU32;
    var o := ClosePart(p, b, key);
    EmptyConcat(fl);
    if o.parts != [] {
      FlushedSnoc(fl, NextFlush(b, key));
      EmptyConcat(FlushedNalus(fl + o.parts));
      EmptyConcat(FlushedDurations(fl + o.parts));
    }
  }

  lemma {:induction false} StepConserves(p: Params, b: Room, fl: seq<Flush>, fs: seq<Frame>, e: Event)
    requires Conserved(b, fl, fs)
    ensures var o := Step(p, b, e);
            Conserved(o.room, fl + o.parts, fs + if e.Video? && b.configured then [Frame(e.ts, e.nalu, e.key)] else [])
  {
    hide FlushedNalus, FlushedDurations, Nalus, Durations, FlushBytes, SumU32, ClosePart, Accept;
    EmptyConcat(fl);
    EmptyConcat(fs);
    if e.Video? && b.configured {
      AcceptConserves(b, fl, fs, e.ts, e.nalu, e.key);
      ClosePartConserves(p, Accept(b, e.ts, e.nalu), fl, fs + [Frame(e.ts, e.nalu, e.key)], e.key);
    }
  }

  lemma {:induction false} StepConfigures(p: Params, b: Room, e: Event)
    ensures Step(p, b, e).room.configured == (b.configured || e.VideoConfig?)
  {
    hide FlushBytes, SumU32, Concat;
  }

  /** In every run: the NALUs of all parts followed by the pending ones are
  the accepted NALUs in order, each with the duration its timestamp gives it. */
  lemma {:induction false} FramesConserved(p: Params, events: seq<Event>)
    ensures var t := Run(p, events);
            Conserved(t.room, t.parts, Accepted(events)) && t.room.configured == Configured(events)
  {
    if events == [] {
      assert Nalus([]) == [] && Durations([]) == [];
    } else {
      hide Conserved, Step;
      var before, e := events[..|events| - 1], events[|events| - 1];
      var t := Run(p, before);
      FramesConserved(p, before);
      StepConserves(p, t.room, t.parts, Accepted(before), e);
      StepConfigures(p, t.room, e);
      EmptyConcat(Accepted(before));
    }
  }

  // ---------- audio ----------

  /** The sample rate is known after the first audio configuration. */
  predicate AudioKnown(events: seq<Event>)
  {
    events != [] && (events[|events| - 1].AudioConfig? || AudioKnown(events[..|events| - 1]))
  }

  /** The sample rate of the latest audio configuration. */
  function LatestRate(events: seq<Event>): Option<U32>
  {
    if events == [] then None
    else if events[|events| - 1].AudioConfig? then Some(events[|events| - 1].rate)
    else LatestRate(events[..|events| - 1])
  }

  lemma {:induction false} RateIsLatest(p: Params, events: seq<Event>)
    ensures Run(p, events).room.sampleRate == LatestRate(events)
  {
    if events != [] {
      hide Step;
      var before := events[..|events| - 1];
      RateIsLatest(p, before);
      StepRate(p, Run(p, before).room, events[|events| - 1]);
    }
  }

  lemma {:induction false} StepRate(p: Params, b: Room, e: Event)
    ensures Step(p, b, e).room.sampleRate == if e.AudioConfig? then Some(e.rate) else b.sampleRate
  {
    hide FlushBytes, SumU32, Concat;
  }

  /** The audio frames that arrive once both configurations are known. */
  function AcceptedAudio(events: seq<Event>): seq<AacFrame>
  {
    if events == [] then []
    else
      var before, e := events[..|events| - 1], events[|events| - 1];
      AcceptedAudio(before) + if e.Audio? && Configured(before) && AudioKnown(before) then [e.frame] else []
  }

  function FlushedAudio(fl: seq<Flush>): seq<AacFrame>
  {
    if fl == [] then [] else FlushedAudio(fl[..|fl| - 1]) + fl[|fl| - 1].frames
  }

  /** Audio frames that left the pending list together: into a part, or for good. */
  datatype Batch = Sent(frames: seq<AacFrame>) | Dropped(frames: seq<AacFrame>)

  /** How long the frames last in milliseconds, each rounded down. */
  function AudioMillis(frames: seq<AacFrame>, rate: U32): nat
    requires rate > 0
  {
    if frames == [] then 0
    else AudioMillis(frames[..|frames| - 1], rate) + frames[|frames| - 1].samples * 1000 / rate % 0x1_0000_0000
  }

  lemma {:induction false} MillisAdded(frames: seq<AacFrame>, rate: U32)
    requires rate > 0
    ensures Sum(FrameMillis(frames, rate)) == AudioMillis(frames, rate)
  {
    if frames != [] {
      var init := frames[..|frames| - 1];
      MillisAdded(init, rate);
      assert FrameMillis(frames, rate)[..|frames| - 1] == FrameMillis(init, rate);
    } else {
      assert FrameMillis(frames, rate) == [];
    }
  }

  /** With this frame the audio has waited four part targets without any video. */
  predicate GivenUp(p: Params, b: Room, frame: AacFrame)
  {
    && b.configured && b.sampleRate.Some? && b.pendingNalus == []
    && AudioMillis(b.pendingAudio + [frame], if b.sampleRate.value == 0 then 1 else b.sampleRate.value) % 0x1_0000_0000
       >= 4 * p.partTarget % 0x1_0000_0000
  }

  /** What becomes of the audio in one step. */
  function StepBatches(p: Params, b: Room, e: Event): seq<Batch>
  {
    var o := Step(p, b, e);
    if o.parts != [] then [Sent(o.parts[0].frames)]
    else if e.Audio? && GivenUp(p, b, e.frame) then [Dropped(b.pendingAudio + [e.frame])]
    else []
  }

  function Batches(p: Params, events: seq<Event>): seq<Batch>
  {
    if events == [] then []
    else
      var before := events[..|events| - 1];
      Batches(p, before) + StepBatches(p, Run(p, before).room, events[|events| - 1])
  }

  function AllFrames(bs: seq<Batch>): seq<AacFrame>
  {
    if bs == [] then [] else AllFrames(bs[..|bs| - 1]) + bs[|bs| - 1].frames
  }

  function SentFrames(bs: seq<Batch>): seq<AacFrame>
  {
    if bs == [] then []
    else SentFrames(bs[..|bs| - 1]) + if bs[|bs| - 1].Sent? then bs[|bs| - 1].frames else []
  }

  lemma {:induction false} BatchesSnoc(bs: seq<Batch>, x: Batch)
    ensures AllFrames(bs + [x]) == AllFrames(bs) + x.frames
    ensures SentFrames(bs + [x]) == SentFrames(bs) + if x.Sent? then x.frames else []
  {
    assert (bs + [x])[..|bs|] == bs;
  }

  lemma {:induction false} FlushedAudioSnoc(fl: seq<Flush>, f: Flush)
    ensures FlushedAudio(fl + [f]) == FlushedAudio(fl) + f.frames
  {
    assert (fl + [f])[..|fl|] == fl;
  }

  lemma {:induction false} OneBatch(x: Batch)
    ensures AllFrames([x]) == x.frames && SentFrames([x]) == if x.Sent? then x.frames else []
  {
    assert [x][..0] == [];
  }

  lemma {:induction false} OneFlush(f: Flush)
    ensures FlushedAudio([f]) == f.frames
  {
    assert [f][..0] == [];
  }

  /** A video frame takes all pending audio into its part, or none. */
  lemma {:induction false} PartsTakeAudio(p: Params, b: Room, e: Event)
    requires e.Video?
    ensures var o := Step(p, b, e);
            if o.parts == [] then o.room.pendingAudio == b.pendingAudio
            else |o.parts| == 1 && o.parts[0].frames == b.pendingAudio && o.room.pendingAudio == []
  {
    hide FlushBytes, SumU32, FrameDuration, Concat;
  }

  /** What `IngestAudio` does to the pending audio. */
  lemma {:induction false} AudioWaits(p: Params, b: Room, frame: AacFrame)
    ensures IngestAudio(p, b, frame) == b.(pendingAudio :=
              if !b.configured || b.sampleRate.None? then b.pendingAudio
              else if GivenUp(p, b, frame) then []
              else b.pendingAudio + [frame])
    ensures GivenUp(p, b, frame) ==> b.configured && b.sampleRate.Some?
  {
    hide Sum, FrameMillis, AudioMillis;
    if b.sampleRate.Some? {
      MillisAdded(b.pendingAudio + [frame], Max(b.sampleRate.value, 1));
    }
  }

  /** In one step: the batches take what they hold from the front of the pending audio, to which an
  accepted frame was added. */
  lemma {:induction false} StepAudio(p: Params, b: Room, e: Event)
    ensures var o, bs := Step(p, b, e), StepBatches(p, b, e);
            var arrived := if e.Audio? && b.configured && b.sampleRate.Some? then [e.frame] else [];
            && |bs| <= 1 && AllFrames(bs) + o.room.pendingAudio == b.pendingAudio + arrived
            && SentFrames(bs) == FlushedAudio(o.parts)
  {
    hide AllFrames, SentFrames, FlushedAudio, IngestVideo, IngestAudio, GivenUp;
    if e.Audio? {
      AudioWaits(p, b, e.frame);
    }
    var o, bs := Step(p, b, e), StepBatches(p, b, e);
    EmptyConcat(b.pendingAudio);
    NothingTaken();
    if e.Video? {
      PartsTakeAudio(p, b, e);
    }
    if bs != [] {
      OneBatch(bs[0]);
      EmptyConcat(bs[0].frames);
    } else {
      EmptyConcat(o.room.pendingAudio);
    }
    if o.parts != [] {
      OneFlush(o.parts[0]);
      assert o.parts == [o.parts[0]];
    }
  }

  lemma {:induction false} NothingTaken()
    ensures AllFrames([]) == [] && SentFrames([]) == [] && FlushedAudio([]) == []
  {}

  lemma {:induction false} StepAudioKnown(p: Params, b: Room, e: Event)
    ensures Step(p, b, e).room.sampleRate.Some? == (b.sampleRate.Some? || e.AudioConfig?)
  {
    hide FlushBytes, SumU32, Concat;
  }

  /** What was sent is what is in order, with some left out. */
  lemma {:induction false} SentInOrder(bs: seq<Batch>)
    ensures Subsequence(SentFrames(bs), AllFrames(bs))
  {
    if bs != [] {
      hide Subsequence;
      SentInOrder(bs[..|bs| - 1]);
      TakeAllOrNone(SentFrames(bs[..|bs| - 1]), AllFrames(bs[..|bs| - 1]), bs[|bs| - 1].frames);
      EmptyConcat(SentFrames(bs[..|bs| - 1]));
    }
  }

  lemma {:induction false} NextBatches(bs: seq<Batch>, more: seq<Batch>)
    requires |more| <= 1
    ensures AllFrames(bs + more) == AllFrames(bs) + AllFrames(more) && SentFrames(bs + more) == SentFrames(bs) + SentFrames(more)
  {
    if more == [] {
      EmptyConcat(bs);
    } else {
      assert more == [more[0]];
      BatchesSnoc(bs, more[0]);
      BatchesSnoc([], more[0]);
      assert [] + [more[0]] == [more[0]];
    }
  }

  lemma {:induction false} NextParts(fl: seq<Flush>, more: seq<Flush>)
    requires |more| <= 1
    ensures FlushedAudio(fl + more) == FlushedAudio(fl) + FlushedAudio(more)
  {
    if more == [] {
      EmptyConcat(fl);
    } else {
      assert more == [more[0]];
      FlushedAudioSnoc(fl, more[0]);
      FlushedAudioSnoc([], more[0]);
      assert [] + [more[0]] == [more[0]];
    }
  }

  lemma {:induction false} OnePart(p: Params, b: Room, e: Event)
    ensures |Step(p, b, e).parts| <= 1
  {
    hide FlushBytes, SumU32, Concat;
  }

  /** In every run: the accepted audio frames, in their order, are those that left the pending list
  and then the pending ones. What left it went into the parts, but for the batches given up after
  four part targets without video. */
  lemma {:induction false} AudioConserved(p: Params, events: seq<Event>)
    ensures var t, bs := Run(p, events), Batches(p, events);
            && AllFrames(bs) + t.room.pendingAudio == AcceptedAudio(events)
            && SentFrames(bs) == FlushedAudio(t.parts)
            && Subsequence(FlushedAudio(t.parts) + t.room.pendingAudio, AcceptedAudio(events))
            && t.room.sampleRate.Some? == AudioKnown(events)
  {
    if events == [] {
      assert AcceptedAudio(events) == [];
    } else {
      hide Step, StepBatches, Subsequence;
      var before, e := events[..|events| - 1], events[|events| - 1];
      var t, bs := Run(p, before), Batches(p, before);
      var o, more := Step(p, t.room, e), StepBatches(p, t.room, e);
      AudioConserved(p, before);
      FramesConserved(p, before);
      StepAudio(p, t.room, e);
      StepAudioKnown(p, t.room, e);
      OnePart(p, t.room, e);
      NextBatches(bs, more);
      NextParts(t.parts, o.parts);
      Regroup(AllFrames(bs), t.room.pendingAudio, AllFrames(more), o.room.pendingAudio,
              AcceptedAudio(events)[|AcceptedAudio(before)|..]);
      SentInOrder(bs + more);
      TakeAllOrNone(SentFrames(bs + more), AllFrames(bs + more), o.room.pendingAudio);
    }
  }

  lemma {:induction false} Regroup<T>(done: seq<T>, pending: seq<T>, moved: seq<T>, left: seq<T>, arrived: seq<T>)
    requires moved + left == pending + arrived
    ensures done + moved + left == done + pending + arrived
  {
    ConcatAssoc(done, moved, left);
    ConcatAssoc(done, pending, arrived);
  }

  // ---------- keyframes close parts ----------

  /** How many NALUs the first `k` parts hold. */
  function NalusBefore(fl: seq<Flush>, k: nat): nat
    requires k <= |fl|
  {
    |FlushedNalus(fl[..k])|
  }

  /** A part is marked independent exactly when its last NALU is a keyframe; it is the last NALU,
  not the first, that the mark speaks of. */
  predicate MarkedAt(fl: seq<Flush>, fs: seq<Frame>, k: nat)
    requires k < |fl|
  {
    var n := NalusBefore(fl, k + 1);
    0 < n <= |fs| && fl[k].independent == fs[n - 1].key
  }

  ghost predicate Marked(fl: seq<Flush>, fs: seq<Frame>)
  {
    forall k :: 0 <= k < |fl| ==> MarkedAt(fl, fs, k)
  }

  lemma {:induction false} NalusBeforeSnoc(fl: seq<Flush>, f: Flush, k: nat)
    requires k <= |fl| + 1
    ensures NalusBefore(fl + [f], k) == if k <= |fl| then NalusBefore(fl, k) else |FlushedNalus(fl + [f])|
  {
    assert k <= |fl| ==> (fl + [f])[..k] == fl[..k];
    assert k > |fl| ==> (fl + [f])[..k] == fl + [f];
  }

  lemma {:induction false} MarkedGrows(fl: seq<Flush>, fs: seq<Frame>, more: seq<Frame>)
    requires Marked(fl, fs)
    ensures Marked(fl, fs + more)
  {
    hide FlushedNalus;
    forall k | 0 <= k < |fl| ensures MarkedAt(fl, fs + more, k) {
      assert MarkedAt(fl, fs, k);
    }
  }

  lemma {:induction false} MarkedSnoc(fl: seq<Flush>, f: Flush, fs: seq<Frame>)
    requires Marked(fl, fs) && fs != [] && |FlushedNalus(fl + [f])| == |fs| && f.independent == fs[|fs| - 1].key
    ensures Marked(fl + [f], fs)
  {
    hide FlushedNalus;
    forall k | 0 <= k < |fl + [f]| ensures MarkedAt(fl + [f], fs, k) {
      NalusBeforeSnoc(fl, f, k + 1);
      assert k < |fl| ==> MarkedAt(fl, fs, k);
    }
  }

  lemma {:induction false} StepMarks(p: Params, b: Room, fl: seq<Flush>, fs: seq<Frame>, e: Event)
    requires Conserved(b, fl, fs) && Marked(fl, fs)
    ensures Marked(fl + Step(p, b, e).parts, fs + if e.Video? && b.configured then [Frame(e.ts, e.nalu, e.key)] else [])
  {
    hide FlushedNalus, FlushedDurations, FlushBytes, SumU32, Durations, Marked;
    EmptyConcat(fl);
    EmptyConcat(fs);
    if e.Video? && b.configured {
      var a, gs := Accept(b, e.ts, e.nalu), fs + [Frame(e.ts, e.nalu, e.key)];
      MarkedGrows(fl, fs, [Frame(e.ts, e.nalu, e.key)]);
      AcceptConserves(b, fl, fs, e.ts, e.nalu, e.key);
      if ClosePart(p, a, e.key).parts != [] {
        FlushedSnoc(fl, NextFlush(a, e.key));
        MarkedSnoc(fl, NextFlush(a, e.key), gs);
      }
    }
  }

  lemma {:induction false} PartsMarked(p: Params, events: seq<Event>)
    ensures Marked(Run(p, events).parts, Accepted(events))
  {
    if events != [] {
      hide Conserved, Step, Marked;
      var before, e := events[..|events| - 1], events[|events| - 1];
      var t := Run(p, before);
      PartsMarked(p, before);
      FramesConserved(p, before);
      StepMarks(p, t.room, t.parts, Accepted(before), e);
      EmptyConcat(Accepted(before));
    }
  }

  /** Every completed segment lasts at least the target duration and ends with a keyframe. */
  lemma {:induction false} CompletedSegments(p: Params, events: seq<Event>, m: nat) returns (k: nat)
    requires m < Run(p, events).room.currentMsn
    ensures var fl := Run(p, events).parts;
            && k < |fl| && fl[k].msn == m && (k + 1 < |fl| ==> fl[k + 1].msn == m + 1)
            && SumU32(PartDurations(PartsOf(fl, m))) >= p.target
            && 0 < NalusBefore(fl, k + 1) <= |Accepted(events)|
            && Accepted(events)[NalusBefore(fl, k + 1) - 1].key
  {
    hide Run, PartsOf, SumU32, Concat, NalusBefore, Accepted, Numbered, Timed, AllWhole, Windowed;
    var fl := Run(p, events).parts;
    RunKeeps(p, events);
    PartsMarked(p, events);
    assert Complete(p, PartsOf(fl, m));
    k := LastPart(fl, m);
    assert MarkedAt(fl, Accepted(events), k);
  }

  /** The last part of a segment that has parts. */
  lemma {:induction false} LastPart(fl: seq<Flush>, m: nat) returns (k: nat)
    requires Numbered(fl) && PartsOf(fl, m) != []
    ensures k < |fl| && fl[k].msn == m && (k + 1 < |fl| ==> fl[k + 1].msn == m + 1)
    ensures PartsOf(fl, m)[|PartsOf(fl, m)| - 1] == PartOf(fl[k])
  {
    hide PartOf, NextSlot;
    k := |fl| - 1;
    var front := fl[..k];
    if fl[k].msn != m {
      EmptyConcat(PartsOf(front, m));
      NumberedPrefix(fl, k);
      var j := LastPart(front, m);
      if j + 1 == k {
        Neighbours(fl, j);
      }
      k := j;
    }
  }

  lemma {:induction false} NumberedPrefix(fl: seq<Flush>, n: nat)
    requires Numbered(fl) && n <= |fl|
    ensures Numbered(fl[..n])
  {
    hide PartsOf, NextSlot;
    forall k | 0 <= k < n
      ensures var g := fl[..n][k]; NextSlot(fl[..n][..k], g.msn, g.index) && g.index == |PartsOf(fl[..n][..k], g.msn)|
    {
      assert fl[..n][..k] == fl[..k];
    }
  }

  // ---------- the clock ----------

  /** Milliseconds by which the frames run ahead of their timestamps: a frame whose timestamp does
  not rise still lasts 1 ms, and a timestamp that falls back does not turn the clock back. */
  function Excess(fs: seq<Frame>): nat
  {
    if fs == [] then 0
    else
      var before, n := fs[..|fs| - 1], |fs| - 1;
      Excess(before) + if fs[n].ts <= Previous(fs, n) then 1 + Previous(fs, n) - fs[n].ts else 0
  }

  lemma {:induction false} TotalDuration(fs: seq<Frame>)
    ensures Sum(Durations(fs)) == Previous(fs, |fs|) + Excess(fs)
  {
    if fs != [] {
      var before, f := fs[..|fs| - 1], fs[|fs| - 1];
      TotalDuration(before);
      assert fs == before + [f];
      FramesSnoc(before, f);
      SumSnoc(Durations(before), FrameDuration(Previous(before, |before|), f.ts));
      assert Previous(fs, |fs| - 1) == Previous(before, |before|);
    } else {
      assert Durations(fs) == [];
    }
  }

  /** No part is so long that its 32-bit duration wraps. */
  ghost predicate NoWrap(fl: seq<Flush>)
  {
    forall k :: 0 <= k < |fl| ==> Sum(fl[k].durations) < TWO32
  }

  /** The decode clock loses time exactly when a part's duration wraps. */
  lemma {:induction false} VideoTimeExact(fl: seq<Flush>)
    ensures VideoTime(fl) <= Sum(FlushedDurations(fl))
    ensures VideoTime(fl) == Sum(FlushedDurations(fl)) <==> NoWrap(fl)
  {
    if fl != [] {
      var front, f := fl[..|fl| - 1], fl[|fl| - 1];
      VideoTimeExact(front);
      SumConcat(FlushedDurations(front), f.durations);
      NoWrapSnoc(front, f);
      assert fl == front + [f];
      ModBelow(Sum(f.durations));
    }
  }

  lemma {:induction false} NoWrapSnoc(fl: seq<Flush>, f: Flush)
    ensures NoWrap(fl + [f]) <==> NoWrap(fl) && Sum(f.durations) < TWO32
  {
    hide Sum;
    var gl := fl + [f];
    assert gl[|fl|] == f && forall k :: 0 <= k < |fl| ==> gl[k] == fl[k];
  }

  lemma {:induction false} ModBelow(n: nat)
    ensures n % TWO32 <= n && (n % TWO32 == n <==> n < TWO32)
  {}

  /** After any run the decode clock plus the pending durations equals the last timestamp plus the
  excess, if and only if no part's duration wrapped. */
  lemma {:induction false} ClockIsExact(p: Params, events: seq<Event>)
    ensures var t, fs := Run(p, events), Accepted(events);
            t.room.nextDecode + Sum(t.room.pendingDurations) == t.room.lastTs + Excess(fs) <==> NoWrap(t.parts)
  {
    hide Run, Accepted, Sum, FlushedNalus, FlushedDurations, Excess, Durations, NoWrap, VideoTime;
    var t, fs := Run(p, events), Accepted(events);
    FramesConserved(p, events);
    RunKeeps(p, events);
    VideoTimeExact(t.parts);
    TotalDuration(fs);
    SumConcat(FlushedDurations(t.parts), t.room.pendingDurations);
  }

  // ---------- pending time ----------

  /** After a video frame less than a part's worth of video is pending. */
  lemma {:induction false} PendingBelowTarget(p: Params, b: Room, ts: U32, nalu: seq<Byte>, key: bool)
    requires p.partTarget > 0 && b.configured
    ensures SumU32(Step(p, b, Video(ts, nalu, key)).room.pendingDurations) < p.partTarget
  {
    hide FlushBytes, Concat;
    assert SumU32([]) == 0;
  }

  /** No timestamp jumps ahead so far that a part of it would last 2^32 ms. */
  ghost predicate Steady(p: Params, fs: seq<Frame>)
  {
    forall i :: 0 <= i < |fs| ==> Durations(fs)[i] < TWO32 - p.partTarget
  }

  /** The pending time between two frames is real, not wrapped. */
  ghost predicate Rested(p: Params, b: Room, fl: seq<Flush>)
  {
    Sum(b.pendingDurations) < p.partTarget && NoWrap(fl)
  }

  lemma {:induction false} StepRests(p: Params, b: Room, fl: seq<Flush>, e: Event)
    requires p.partTarget > 0 && Rested(p, b, fl)
    requires e.Video? && b.configured ==> FrameDuration(b.lastTs, e.ts) < TWO32 - p.partTarget
    ensures var o := Step(p, b, e); Rested(p, o.room, fl + o.parts)
  {
    hide FlushBytes, Concat, FrameDuration, NoWrap;
    EmptyConcat(fl);
    if e.Video? && b.configured {
      var a := Accept(b, e.ts, e.nalu);
      SumSnoc(b.pendingDurations, FrameDuration(b.lastTs, e.ts));
      ModBelow(Sum(a.pendingDurations));
      NoWrapSnoc(fl, NextFlush(a, e.key));
      assert Sum([]) == 0;
    }
  }

  lemma {:induction false} SteadyPrefix(p: Params, fs: seq<Frame>, f: Frame)
    requires Steady(p, fs + [f])
    ensures Steady(p, fs) && FrameDuration(Previous(fs, |fs|), f.ts) < TWO32 - p.partTarget
  {
    hide FrameDuration;
    FramesSnoc(fs, f);
    var d := Durations(fs + [f]);
    assert d[|fs|] == FrameDuration(Previous(fs, |fs|), f.ts);
    assert forall i :: 0 <= i < |fs| ==> d[i] == Durations(fs)[i];
  }

  /** When no timestamp jumps too far, the pending time is at every moment less
  than a part's worth, and no part's duration wraps: the clock is exact. */
  lemma {:induction false} SteadyRuns(p: Params, events: seq<Event>)
    requires p.partTarget > 0 && Steady(p, Accepted(events))
    ensures var t := Run(p, events);
            && Sum(t.room.pendingDurations) < p.partTarget && NoWrap(t.parts)
            && t.room.nextDecode + Sum(t.room.pendingDurations) == t.room.lastTs + Excess(Accepted(events))
  {
    ClockIsExact(p, events);
    if events != [] {
      hide Step, Steady, Conserved, NoWrap, Excess, Sum, FrameDuration, Durations;
      var before, e := events[..|events| - 1], events[|events| - 1];
      var t := Run(p, before);
      FramesConserved(p, before);
      LastTimestamp(t.room, t.parts, Accepted(before));
      EmptyConcat(Accepted(before));
      if e.Video? && Configured(before) {
        SteadyPrefix(p, Accepted(before), Frame(e.ts, e.nalu, e.key));
      }
      SteadyRuns(p, before);
      StepRests(p, t.room, t.parts, e);
    }
  }

  lemma {:induction false} LastTimestamp(b: Room, fl: seq<Flush>, fs: seq<Frame>)
    requires Conserved(b, fl, fs)
    ensures b.lastTs == Previous(fs, |fs|)
  {}
}
