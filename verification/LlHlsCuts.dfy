/** Where the packager cuts: which frames end a part and which parts end a segment, over every run. */
module LlHlsCuts {
  import opened Bytes
  import opened Options
  import opened Division
  import opened Fmp4
  import opened Seqs
  import opened LlHls
  import opened LlHlsRuns
  import opened LlHlsFrames

  // ---------- segments ----------

  /** Milliseconds of the segment of part `k` up to and including it, in wrapping 32-bit arithmetic. */
  function SegmentMillis(fl: seq<Flush>, k: nat): U32
    requires k < |fl|
  {
    if fl[k].index == 0 || k == 0 then Sum(fl[k].durations) % TWO32
    else (SegmentMillis(fl, k - 1) + Sum(fl[k].durations)) % TWO32
  }

  /** Part `k` completes its segment: a keyframe closed it, it is not the first part, and with it the
  segment reaches the target duration. */
  predicate Completes(p: Params, fl: seq<Flush>, k: nat)
    requires k < |fl|
  {
    fl[k].index >= 1 && fl[k].independent && SegmentMillis(fl, k) >= p.target
  }

  /** The segment number in force after part `k`. */
  function MsnAfter(b: Room, fl: seq<Flush>, k: nat): nat
    requires k < |fl|
  {
    if k + 1 < |fl| then fl[k + 1].msn else b.currentMsn
  }

  predicate CutAt(p: Params, b: Room, fl: seq<Flush>, k: nat)
    requires k < |fl|
  {
    MsnAfter(b, fl, k) == fl[k].msn + if Completes(p, fl, k) then 1 else 0
  }

  ghost predicate SegmentsCut(p: Params, b: Room, fl: seq<Flush>)
  {
    && (fl == [] ==> b.currentMsn == 0)
    && forall k :: 0 <= k < |fl| ==> CutAt(p, b, fl, k)
  }

  lemma {:induction false} MillisSnoc(fl: seq<Flush>, f: Flush, k: nat)
    requires k < |fl|
    ensures SegmentMillis(fl + [f], k) == SegmentMillis(fl, k)
  {
    if k > 0 && fl[k].index != 0 {
      MillisSnoc(fl, f, k - 1);
    }
  }

  /** The milliseconds are those of the segment's parts so far. */
  lemma {:induction false} MillisOfParts(fl: seq<Flush>, k: nat)
    requires Numbered(fl) && k < |fl|
    ensures SegmentMillis(fl, k) == SumU32(PartDurations(PartsOf(fl[..k + 1], fl[k].msn)))
  {
    hide Sum, NextSlot, PartsOf, PartDurations, PartOf, SumU32;
    var f, before := fl[k], PartsOf(fl[..k], fl[k].msn);
    assert fl[..k + 1] == fl[..k] + [f];
    PartsSnoc(fl[..k], f, f.msn);
    OneMoreMillis(before, f);
    if f.index != 0 {
      assert k > 0 by { FirstHasIndex0(fl); }
      Neighbours(fl, k - 1);
      MillisOfParts(fl, k - 1);
    }
  }

  lemma {:induction false} OneMoreMillis(before: seq<Part>, f: Flush)
    ensures SumU32(PartDurations(before + [PartOf(f)])) == (SumU32(PartDurations(before)) + Sum(f.durations)) % TWO32
    ensures before == [] ==> SumU32(PartDurations(before)) == 0
  {
    hide Sum, FlushBytes;
    DurationsSnoc(before, PartOf(f));
    ModAdd(Sum(PartDurations(before)), PartOf(f).duration, TWO32);
    WrapBoth(SumU32(PartDurations(before)), Sum(f.durations));
    NoDuration();
  }

  lemma {:induction false} NoDuration()
    ensures Sum(PartDurations([])) == 0
  {
    assert PartDurations([]) == [];
  }

  lemma {:induction false} WrapBoth(a: nat, b: nat)
    ensures (a + b % TWO32) % TWO32 == (a + b) % TWO32
  {
    ModAdd(b, a, TWO32);
  }

  lemma {:induction false} FirstHasIndex0(fl: seq<Flush>)
    requires Numbered(fl) && fl != []
    ensures fl[0].index == 0
  {
    hide PartsOf;
    assert NextSlot(fl[..0], fl[0].msn, fl[0].index);
  }

  lemma {:induction false} DurationsSnoc(parts: seq<Part>, part: Part)
    ensures PartDurations(parts + [part]) == PartDurations(parts) + [part.duration]
    ensures Sum(PartDurations(parts + [part])) == Sum(PartDurations(parts)) + part.duration
  {
    SumSnoc(PartDurations(parts), part.duration);
  }

  /** A new part in a room that the earlier parts were cut for. */
  lemma {:induction false} NewPartCut(p: Params, b: Room, c: Room, fl: seq<Flush>, f: Flush)
    requires SegmentsCut(p, b, fl) && f.msn == b.currentMsn
    requires c.currentMsn == f.msn + if Completes(p, fl + [f], |fl|) then 1 else 0
    ensures SegmentsCut(p, c, fl + [f])
  {
    hide SegmentMillis;
    var gl := fl + [f];
    forall k | 0 <= k < |gl| ensures CutAt(p, c, gl, k) {
      if k < |fl| {
        assert CutAt(p, b, fl, k);
        MillisSnoc(fl, f, k);
      }
    }
  }

  lemma {:induction false} VideoCut(p: Params, b: Room, fl: seq<Flush>, ts: U32, nalu: seq<Byte>, key: bool)
    requires Inv(p, b, fl) && SegmentsCut(p, b, fl) && b.configured
    ensures var o := IngestVideo(p, b, ts, nalu, key); SegmentsCut(p, o.room, fl + o.parts)
  {
    hide Sum, FlushBytes, SegmentMillis, FrameDuration, Concat, SegmentsCut;
    var a := Accept(b, ts, nalu);
    var o, c := IngestVideo(p, b, ts, nalu, key), ClosePart(p, a, key);
    if c.parts == [] {
      EmptyConcat(fl);
      SameCut(p, b, o.room, fl);
    } else {
      var f := NextFlush(a, key);
      InvFrame(p, b, a, fl);
      ClosePartKeeps(p, a, fl, key);
      LastOfParts(p, c.room, fl, f);
      NewPartCut(p, b, o.room, fl, f);
    }
  }

  lemma {:induction false} SameCut(p: Params, b: Room, c: Room, fl: seq<Flush>)
    requires SegmentsCut(p, b, fl) && c.currentMsn == b.currentMsn
    ensures SegmentsCut(p, c, fl)
  {
    hide SegmentMillis;
    forall k | 0 <= k < |fl| ensures CutAt(p, c, fl, k) {
      assert CutAt(p, b, fl, k);
    }
  }

  /** The segment in progress lasts as long as its parts. */
  lemma {:induction false} LastOfParts(p: Params, c: Room, fl: seq<Flush>, f: Flush)
    requires Inv(p, c, fl + [f]) && c.currentMsn == f.msn
    ensures SegmentMillis(fl + [f], |fl|) == SumU32(PartDurations(c.currentParts))
  {
    hide Sum, SegmentMillis, PartsOf, Numbered, Timed, AllWhole, AllComplete, Windowed, Clocks;
    MillisOfParts(fl + [f], |fl|);
    assert (fl + [f])[..|fl| + 1] == fl + [f];
  }

  /** In every run: the segment number rises by one after each part that completes its segment, and after
  no other. */
  lemma {:induction false} SegmentsAreCut(p: Params, events: seq<Event>)
    ensures var t := Run(p, events); SegmentsCut(p, t.room, t.parts)
  {
    if events != [] {
      hide Inv, SegmentsCut, IngestVideo, IngestAudio;
      var before, e := events[..|events| - 1], events[|events| - 1];
      var t := Run(p, before);
      RunKeeps(p, before);
      SegmentsAreCut(p, before);
      EmptyConcat(t.parts);
      if e.Video? && t.room.configured {
        VideoCut(p, t.room, t.parts, e.ts, e.nalu, e.key);
      } else {
        NumberStays(p, t.room, e);
        SameCut(p, t.room, Run(p, events).room, t.parts);
      }
    }
  }

  lemma {:induction false} NumberStays(p: Params, b: Room, e: Event)
    requires !(e.Video? && b.configured)
    ensures Step(p, b, e).room.currentMsn == b.currentMsn && Step(p, b, e).parts == []
  {
    hide SumU32, FrameMillis;
  }

  // ---------- parts ----------

  /** Frame `j` ends the part that begins with frame `a`: the part is long enough, or the frame is a
  keyframe and the segment already has a part. */
  predicate Ripe(p: Params, fs: seq<Frame>, a: nat, j: nat, index: nat)
    requires a <= j < |fs|
  {
    Sum(Durations(fs)[a..j + 1]) % TWO32 >= p.partTarget || (fs[j].key && index >= 1)
  }

  /** No frame of a stretch ends the part that begins with it. */
  ghost predicate Unripe(p: Params, fs: seq<Frame>, a: nat, e: nat, index: nat)
    requires a <= e <= |fs|
  {
    forall j :: a <= j < e ==> !Ripe(p, fs, a, j, index)
  }

  /** Part `k` holds the frames `a` to `e`, and `e - 1` is the first of them that ends a part. */
  ghost predicate CutPart(p: Params, fl: seq<Flush>, fs: seq<Frame>, k: nat)
    requires k < |fl|
  {
    var a, e := NalusBefore(fl, k), NalusBefore(fl, k + 1);
    && a < e <= |fs| && fl[k].nalus == Nalus(fs)[a..e] && fl[k].durations == Durations(fs)[a..e]
    && Unripe(p, fs, a, e - 1, fl[k].index) && Ripe(p, fs, a, e - 1, fl[k].index)
  }

  ghost predicate PartsCut(p: Params, b: Room, fl: seq<Flush>, fs: seq<Frame>)
  {
    var a := NalusBefore(fl, |fl|);
    && (forall k :: 0 <= k < |fl| ==> CutPart(p, fl, fs, k))
    && a <= |fs| && b.pendingDurations == Durations(fs)[a..] && b.pendingNalus == Nalus(fs)[a..]
    && Unripe(p, fs, a, |fs|, |b.currentParts|)
  }

  lemma {:induction false} RipeGrows(p: Params, fs: seq<Frame>, f: Frame, a: nat, j: nat, index: nat)
    requires a <= j < |fs|
    ensures Ripe(p, fs + [f], a, j, index) <==> Ripe(p, fs, a, j, index)
  {
    hide Sum, FrameDuration, Durations;
    FramesSnoc(fs, f);
    assert Durations(fs + [f])[a..j + 1] == Durations(fs)[a..j + 1];
  }

  lemma {:induction false} UnripeGrows(p: Params, fs: seq<Frame>, f: Frame, a: nat, e: nat, index: nat)
    requires a <= e <= |fs|
    ensures Unripe(p, fs + [f], a, e, index) <==> Unripe(p, fs, a, e, index)
  {
    hide Ripe;
    forall j | a <= j < e ensures Ripe(p, fs + [f], a, j, index) <==> Ripe(p, fs, a, j, index) {
      RipeGrows(p, fs, f, a, j, index);
    }
  }

  lemma {:induction false} CutPartGrows(p: Params, fl: seq<Flush>, fs: seq<Frame>, f: Frame, k: nat)
    requires k < |fl| && CutPart(p, fl, fs, k)
    ensures CutPart(p, fl, fs + [f], k)
  {
    hide Ripe, Unripe, NalusBefore, Durations, Nalus, FrameDuration;
    var a, e := NalusBefore(fl, k), NalusBefore(fl, k + 1);
    FramesSnoc(fs, f);
    UnripeGrows(p, fs, f, a, e - 1, fl[k].index);
    RipeGrows(p, fs, f, a, e - 1, fl[k].index);
    assert (Nalus(fs) + [f.nalu])[a..e] == Nalus(fs)[a..e];
    assert Durations(fs + [f])[a..e] == Durations(fs)[a..e];
  }

  /** One more frame that does not end the part. */
  lemma {:induction false} FramePends(p: Params, b: Room, c: Room, fl: seq<Flush>, fs: seq<Frame>, f: Frame)
    requires PartsCut(p, b, fl, fs) && c.currentParts == b.currentParts
    requires c.pendingDurations == b.pendingDurations + [FrameDuration(Previous(fs, |fs|), f.ts)]
    requires c.pendingNalus == b.pendingNalus + [f.nalu]
    requires !(SumU32(c.pendingDurations) >= p.partTarget || (f.key && c.currentParts != []))
    ensures PartsCut(p, c, fl, fs + [f])
  {
    hide NalusBefore, Sum, Durations, Nalus, FrameDuration, CutPart;
    var a, gs := NalusBefore(fl, |fl|), fs + [f];
    FramesSnoc(fs, f);
    forall k | 0 <= k < |fl| ensures CutPart(p, fl, gs, k) {
      CutPartGrows(p, fl, fs, f, k);
    }
    assert Durations(gs)[a..] == c.pendingDurations && Nalus(gs)[a..] == c.pendingNalus;
    UnripeGrows(p, fs, f, a, |fs|, |b.currentParts|);
    assert Durations(gs)[a..|fs| + 1] == c.pendingDurations;
  }

  /** One that ends it. */
  lemma {:induction false} FrameCloses(p: Params, b: Room, a0: Room, c: Room, fl: seq<Flush>, fs: seq<Frame>, f: Frame, part: Flush)
    requires PartsCut(p, b, fl, fs) && a0.currentParts == b.currentParts
    requires a0.pendingDurations == b.pendingDurations + [FrameDuration(Previous(fs, |fs|), f.ts)]
    requires a0.pendingNalus == b.pendingNalus + [f.nalu]
    requires SumU32(a0.pendingDurations) >= p.partTarget || (f.key && a0.currentParts != [])
    requires part.nalus == a0.pendingNalus && part.durations == a0.pendingDurations && part.index == |b.currentParts|
    requires c.pendingDurations == [] && c.pendingNalus == []
    ensures PartsCut(p, c, fl + [part], fs + [f])
  {
    hide Sum, Durations, Nalus, FrameDuration, CutPart, Ripe, FlushedNalus;
    var a, gs, gl := NalusBefore(fl, |fl|), fs + [f], fl + [part];
    FramesSnoc(fs, f);
    NalusBeforeSnoc(fl, part, |fl|);
    NalusBeforeSnoc(fl, part, |fl| + 1);
    FlushedSnoc(fl, part);
    assert fl[..|fl|] == fl && gl[..|gl|] == gl;
    forall k | 0 <= k < |gl| ensures CutPart(p, gl, gs, k) {
      if k < |fl| {
        CutPartGrows(p, fl, fs, f, k);
        CutPartKept(p, fl, part, gs, k);
      } else {
        UnripeGrows(p, fs, f, a, |fs|, part.index);
        LastCut(p, gs, a, part);
        NewCut(p, gl, gs, a, k);
      }
    }
    assert Durations(gs)[|gs|..] == [] && Nalus(gs)[|gs|..] == [];
  }

  lemma {:induction false} LastCut(p: Params, gs: seq<Frame>, a: nat, part: Flush)
    requires a < |gs| && part.durations == Durations(gs)[a..]
    requires SumU32(part.durations) >= p.partTarget || (gs[|gs| - 1].key && part.index >= 1)
    ensures Ripe(p, gs, a, |gs| - 1, part.index)
  {
    hide Sum, Durations;
    assert Durations(gs)[a..|gs| - 1 + 1] == Durations(gs)[a..];
  }

  lemma {:induction false} NewCut(p: Params, gl: seq<Flush>, gs: seq<Frame>, a: nat, k: nat)
    requires k == |gl| - 1 && NalusBefore(gl, k) == a < |gs| == NalusBefore(gl, k + 1)
    requires gl[k].nalus == Nalus(gs)[a..] && gl[k].durations == Durations(gs)[a..]
    requires Unripe(p, gs, a, |gs| - 1, gl[k].index) && Ripe(p, gs, a, |gs| - 1, gl[k].index)
    ensures CutPart(p, gl, gs, k)
  {
    hide NalusBefore, Durations, Nalus, Ripe, Unripe;
    assert Nalus(gs)[a..|gs|] == Nalus(gs)[a..] && Durations(gs)[a..|gs|] == Durations(gs)[a..];
  }

  lemma {:induction false} CutPartKept(p: Params, fl: seq<Flush>, part: Flush, fs: seq<Frame>, k: nat)
    requires k < |fl| && CutPart(p, fl, fs, k)
    ensures CutPart(p, fl + [part], fs, k)
  {
    hide NalusBefore, Ripe, Unripe, Durations, Nalus;
    NalusBeforeSnoc(fl, part, k);
    NalusBeforeSnoc(fl, part, k + 1);
  }

  lemma {:induction false} VideoCutsParts(p: Params, b: Room, fl: seq<Flush>, fs: seq<Frame>, ts: U32, nalu: seq<Byte>, key: bool)
    requires b.configured && PartsCut(p, b, fl, fs) && b.lastTs == Previous(fs, |fs|)
    ensures var o := IngestVideo(p, b, ts, nalu, key);
            PartsCut(p, o.room, fl + o.parts, fs + [Frame(ts, nalu, key)])
  {
    hide Sum, FlushBytes, FrameDuration, Concat, PartsCut, PartDurations;
    var a, o := Accept(b, ts, nalu), IngestVideo(p, b, ts, nalu, key);
    EmptyConcat(fl);
    if o.parts == [] {
      FramePends(p, b, o.room, fl, fs, Frame(ts, nalu, key));
    } else {
      FrameCloses(p, b, a, o.room, fl, fs, Frame(ts, nalu, key), NextFlush(a, key));
    }
  }

  lemma {:induction false} OtherCutsNothing(p: Params, b: Room, fl: seq<Flush>, fs: seq<Frame>, e: Event)
    requires PartsCut(p, b, fl, fs) && !(e.Video? && b.configured)
    ensures PartsCut(p, Step(p, b, e).room, fl, fs)
  {
    hide CutPart, Unripe, NalusBefore, Durations, Nalus, SumU32, FrameMillis;
  }

  /** In every run: each part holds the accepted frames from where the part before it ended, up to the first
  frame with which it is long enough or that is a keyframe behind the first part of the segment; and none
  of the pending frames is such a frame. */
  lemma {:induction false} PartsAreCut(p: Params, events: seq<Event>)
    ensures var t := Run(p, events); PartsCut(p, t.room, t.parts, Accepted(events))
  {
    if events == [] {
      NothingCut(p);
    } else {
      hide PartsCut, IngestVideo, IngestAudio, Conserved;
      var before, e := events[..|events| - 1], events[|events| - 1];
      var t, fs := Run(p, before), Accepted(before);
      FramesConserved(p, before);
      LastTimestamp(t.room, t.parts, fs);
      PartsAreCut(p, before);
      EmptyConcat(t.parts);
      EmptyConcat(fs);
      if e.Video? && t.room.configured {
        VideoCutsParts(p, t.room, t.parts, fs, e.ts, e.nalu, e.key);
      } else {
        OtherCutsNothing(p, t.room, t.parts, fs, e);
        NumberStays(p, t.room, e);
      }
    }
  }

  lemma {:induction false} NothingCut(p: Params)
    ensures PartsCut(p, EMPTY_ROOM, [], [])
  {
    var none: seq<Flush> := [];
    assert none[..0] == [] && Durations([]) == [] && Nalus([]) == [];
  }
}
