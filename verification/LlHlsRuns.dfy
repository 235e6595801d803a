/** What holds over every run of the packager: numbering, decode times, the segment window, and
conservation of the frames that went in. */
module LlHlsRuns {
  import opened Bytes
  import opened Options
  import opened Fmp4
  import opened Seqs
  import opened LlHls

  // ---------- runs ----------

  /** The room after a run and every part the run produced. */
  datatype Trace = Trace(room: Room, parts: seq<Flush>)

  function Run(p: Params, events: seq<Event>): Trace
  {
    if events == [] then Trace(EMPTY_ROOM, [])
    else
      var t := Run(p, events[..|events| - 1]);
      var o := Step(p, t.room, events[|events| - 1]);
      Trace(o.room, t.parts + o.parts)
  }

  /** The parts of segment `msn`, in the order they were produced. */
  function PartsOf(fl: seq<Flush>, msn: nat): seq<Part>
  {
    if fl == [] then []
    else
      var f := fl[|fl| - 1];
      PartsOf(fl[..|fl| - 1], msn) + if f.msn == msn then [PartOf(f)] else []
  }

  /** A segment as it should be: its parts, their bytes one after the other, their total duration. */
  function SegmentOf(fl: seq<Flush>, msn: nat): SegmentEntry
  {
    var parts := PartsOf(fl, msn);
    SegmentEntry(msn, Concat(PartBytesOf(parts)), SumU32(PartDurations(parts)), parts)
  }

  /** The decode time after the parts `fl`: the sum of their durations. */
  function VideoTime(fl: seq<Flush>): nat
  {
    if fl == [] then 0 else VideoTime(fl[..|fl| - 1]) + SumU32(fl[|fl| - 1].durations)
  }

  function AudioTime(fl: seq<Flush>): nat
  {
    if fl == [] then 0 else AudioTime(fl[..|fl| - 1]) + SumU32(SampleCounts(fl[|fl| - 1].frames))
  }

  // ---------- the invariant of the produced parts ----------

  /** Slot `(msn, index)` comes right after part `f`. */
  predicate Follows(f: Flush, msn: nat, index: nat)
  {
    (msn == f.msn && index == f.index + 1) || (msn == f.msn + 1 && index == 0)
  }

  /** Slot `(msn, index)` comes right after all of `fl`. */
  predicate NextSlot(fl: seq<Flush>, msn: nat, index: nat)
  {
    if fl == [] then msn == 0 && index == 0 else Follows(fl[|fl| - 1], msn, index)
  }

  ghost predicate Numbered(fl: seq<Flush>)
  {
    forall k :: 0 <= k < |fl| ==>
      NextSlot(fl[..k], fl[k].msn, fl[k].index) && fl[k].index == |PartsOf(fl[..k], fl[k].msn)|
  }

  ghost predicate Timed(fl: seq<Flush>)
  {
    forall k :: 0 <= k < |fl| ==> fl[k].videoTime == VideoTime(fl[..k]) && fl[k].audioTime == AudioTime(fl[..k])
  }

  /** A part is long enough or was closed by a keyframe. */
  predicate Whole(p: Params, f: Flush)
  {
    && f.nalus != []
    && (SumU32(f.durations) >= p.partTarget || f.independent)
  }

  ghost predicate AllWhole(p: Params, fl: seq<Flush>)
  {
    forall k :: 0 <= k < |fl| ==> Whole(p, fl[k])
  }

  /** A completed segment is long enough and its last part was closed by a keyframe. */
  predicate Complete(p: Params, parts: seq<Part>)
  {
    parts != [] && parts[|parts| - 1].independent && SumU32(PartDurations(parts)) >= p.target
  }

  ghost predicate AllComplete(p: Params, fl: seq<Flush>, current: nat)
  {
    forall m :: 0 <= m < current ==> Complete(p, PartsOf(fl, m))
  }

  /** The window holds the latest segments. */
  ghost predicate Windowed(p: Params, b: Room, fl: seq<Flush>)
  {
    && |b.segments| == Min(p.window, b.currentMsn)
    && forall i :: 0 <= i < |b.segments| ==> b.segments[i] == SegmentOf(fl, b.currentMsn - |b.segments| + i)
  }

  ghost predicate Current(b: Room, fl: seq<Flush>)
  {
    && b.currentParts == PartsOf(fl, b.currentMsn)
    && NextSlot(fl, b.currentMsn, |b.currentParts|)
    && forall k :: 0 <= k < |fl| ==> fl[k].msn <= b.currentMsn
  }

  ghost predicate Clocks(b: Room, fl: seq<Flush>)
  {
    b.nextDecode == VideoTime(fl) && b.nextAudio == AudioTime(fl)
  }

  ghost predicate Inv(p: Params, b: Room, fl: seq<Flush>)
  {
    && Numbered(fl) && Timed(fl) && AllWhole(p, fl) && AllComplete(p, fl, b.currentMsn)
    && Windowed(p, b, fl) && Current(b, fl) && Clocks(b, fl)
  }

  lemma {:induction false} PartsSnoc(fl: seq<Flush>, f: Flush, msn: nat)
    ensures PartsOf(fl + [f], msn) == PartsOf(fl, msn) + if f.msn == msn then [PartOf(f)] else []
  {
    assert (fl + [f])[..|fl|] == fl;
  }

  lemma {:induction false} NoParts(fl: seq<Flush>, msn: nat)
    requires forall k :: 0 <= k < |fl| ==> fl[k].msn != msn
    ensures PartsOf(fl, msn) == []
  {
    if fl != [] {
      NoParts(fl[..|fl| - 1], msn);
    }
  }

  lemma {:induction false} SnocSlices(fl: seq<Flush>, f: Flush)
    ensures (fl + [f])[..|fl|] == fl && forall k :: 0 <= k <= |fl| ==> (fl + [f])[..k] == fl[..k]
  {}

  // ---------- what a new part keeps ----------

  lemma {:induction false} SnocNumbered(fl: seq<Flush>, f: Flush)
    requires Numbered(fl) && NextSlot(fl, f.msn, f.index) && f.index == |PartsOf(fl, f.msn)|
    ensures Numbered(fl + [f])
  {
    hide PartsOf, NextSlot;
    SnocSlices(fl, f);
    forall k | 0 <= k < |fl + [f]|
      ensures var g := (fl + [f])[k]; NextSlot((fl + [f])[..k], g.msn, g.index) && g.index == |PartsOf((fl + [f])[..k], g.msn)|
    {
      assert (fl + [f])[..k] == fl[..k];
      if k == |fl| {
        assert fl[..k] == fl;
      }
    }
  }

  lemma {:induction false} SnocTimed(fl: seq<Flush>, f: Flush)
    requires Timed(fl) && f.videoTime == VideoTime(fl) && f.audioTime == AudioTime(fl)
    ensures Timed(fl + [f])
    ensures VideoTime(fl + [f]) == VideoTime(fl) + SumU32(f.durations)
    ensures AudioTime(fl + [f]) == AudioTime(fl) + SumU32(SampleCounts(f.frames))
  {
    hide SumU32;
    SnocSlices(fl, f);
    forall k | 0 <= k < |fl + [f]|
      ensures var g := (fl + [f])[k]; g.videoTime == VideoTime((fl + [f])[..k]) && g.audioTime == AudioTime((fl + [f])[..k])
    {
      assert (fl + [f])[..k] == fl[..k];
      if k == |fl| {
        assert fl[..k] == fl;
      }
    }
  }

  lemma {:induction false} SnocComplete(p: Params, fl: seq<Flush>, f: Flush)
    requires AllComplete(p, fl, f.msn)
    ensures AllComplete(p, fl + [f], f.msn)
  {
    hide PartsOf, Complete;
    forall m | 0 <= m < f.msn ensures Complete(p, PartsOf(fl + [f], m)) {
      PartsSnoc(fl, f, m);
      EmptyConcat(PartsOf(fl, m));
    }
  }

  lemma {:induction false} SnocWindowed(p: Params, b: Room, c: Room, fl: seq<Flush>, f: Flush)
    requires Windowed(p, b, fl) && c.segments == b.segments && c.currentMsn == b.currentMsn == f.msn
    ensures Windowed(p, c, fl + [f])
  {
    hide PartsOf;
    forall i | 0 <= i < |c.segments|
      ensures c.segments[i] == SegmentOf(fl + [f], c.currentMsn - |c.segments| + i)
    {
      var m := c.currentMsn - |c.segments| + i;
      PartsSnoc(fl, f, m);
      EmptyConcat(PartsOf(fl, m));
    }
  }

  lemma {:induction false} FlushKeeps(p: Params, b: Room, fl: seq<Flush>, key: bool)
    requires Inv(p, b, fl) && Whole(p, NextFlush(b, key))
    ensures var f := NextFlush(b, key); Inv(p, FlushedRoom(b, PartOf(f)), fl + [f])
  {
    hide PartsOf, VideoTime, AudioTime, SumU32, FlushBytes, Numbered, Timed, Complete, AllComplete, Windowed;
    var f := NextFlush(b, key);
    var c := FlushedRoom(b, PartOf(f));
    PartsSnoc(fl, f, f.msn);
    SnocNumbered(fl, f);
    SnocTimed(fl, f);
    SnocComplete(p, fl, f);
    SnocWindowed(p, b, c, fl, f);
  }

  // ---------- what a completed segment keeps ----------

  lemma {:induction false} SegmentWindowed(p: Params, b: Room, fl: seq<Flush>)
    requires Windowed(p, b, fl) && b.currentParts == PartsOf(fl, b.currentMsn)
    ensures Windowed(p, FlushSegment(p, b), fl)
  {
    hide PartsOf, SumU32, Concat;
    var c := FlushSegment(p, b);
    assert CurrentSegment(b) == SegmentOf(fl, b.currentMsn);
    forall i | 0 <= i < |c.segments|
      ensures c.segments[i] == SegmentOf(fl, c.currentMsn - |c.segments| + i)
    {
    }
  }

  lemma {:induction false} SegmentCurrent(p: Params, b: Room, fl: seq<Flush>)
    requires Current(b, fl) && b.currentParts != []
    ensures Current(FlushSegment(p, b), fl)
  {
    hide SumU32, Concat, PartsOf;
    NoParts(fl, b.currentMsn + 1);
    if fl == [] {
      NoParts(fl, b.currentMsn);
    }
  }

  lemma {:induction false} SegmentKeeps(p: Params, b: Room, fl: seq<Flush>)
    requires Inv(p, b, fl) && Complete(p, b.currentParts)
    ensures Inv(p, FlushSegment(p, b), fl)
  {
    hide PartsOf, VideoTime, AudioTime, Numbered, Timed, Complete, Windowed, AllWhole, SumU32;
    SegmentWindowed(p, b, fl);
    if b.currentParts == [] {
      NotComplete(p);
    }
    SegmentCurrent(p, b, fl);
  }

  lemma {:induction false} NotComplete(p: Params)
    ensures !Complete(p, [])
  {}

  // ---------- one step ----------

  /** The invariant speaks of these fields only. */
  lemma {:induction false} InvFrame(p: Params, b: Room, c: Room, fl: seq<Flush>)
    requires Inv(p, b, fl) && c.segments == b.segments && c.currentMsn == b.currentMsn && c.currentParts == b.currentParts
    requires c.nextDecode == b.nextDecode && c.nextAudio == b.nextAudio
    ensures Inv(p, c, fl)
  {
    hide PartsOf, VideoTime, AudioTime, Numbered, Timed, Complete, AllComplete, AllWhole, SegmentOf;
  }

  lemma {:induction false} ClosePartKeeps(p: Params, b: Room, fl: seq<Flush>, key: bool)
    requires Inv(p, b, fl) && b.pendingNalus != []
    ensures var o := ClosePart(p, b, key); Inv(p, o.room, fl + o.parts)
    ensures var o := ClosePart(p, b, key);
            o.parts != [] ==> o.room.currentParts != [] && o.room.currentParts[|o.room.currentParts| - 1].independent == key
  {
    hide Inv, SumU32, FlushBytes;
    var o := ClosePart(p, b, key);
    EmptyConcat(fl);
    if o.parts != [] {
      FlushKeeps(p, b, fl, key);
    } else {
      InvFrame(p, b, o.room, fl);
    }
  }

  lemma {:induction false} VideoKeeps(p: Params, b: Room, fl: seq<Flush>, ts: U32, nalu: seq<Byte>, key: bool)
    requires Inv(p, b, fl)
    ensures var o := IngestVideo(p, b, ts, nalu, key); Inv(p, o.room, fl + o.parts)
  {
    hide Inv, SumU32, FlushBytes, FlushSegment, FrameDuration;
    EmptyConcat(fl);
    if b.configured {
      var a := Accept(b, ts, nalu);
      InvFrame(p, b, a, fl);
      ClosePartKeeps(p, a, fl, key);
      var o := ClosePart(p, a, key);
      if key && b.currentParts != [] && SumU32(PartDurations(o.room.currentParts)) >= p.target {
        SegmentKeeps(p, o.room, fl + o.parts);
      }
    }
  }

  lemma {:induction false} StepKeeps(p: Params, b: Room, fl: seq<Flush>, e: Event)
    requires Inv(p, b, fl)
    ensures var o := Step(p, b, e); Inv(p, o.room, fl + o.parts)
  {
    hide Inv, IngestVideo, SumU32;
    EmptyConcat(fl);
    if e.Video? {
      VideoKeeps(p, b, fl, e.ts, e.nalu, e.key);
    } else {
      InvFrame(p, b, Step(p, b, e).room, fl);
    }
  }

  lemma {:induction false} RunKeeps(p: Params, events: seq<Event>)
    ensures var t := Run(p, events); Inv(p, t.room, t.parts)
  {
    if events == [] {
    } else {
      hide Inv, Step;
      var t := Run(p, events[..|events| - 1]);
      RunKeeps(p, events[..|events| - 1]);
      StepKeeps(p, t.room, t.parts, events[|events| - 1]);
    }
  }

  // ---------- decode times and numbers ----------

  /** Each part's tfdt is the sum of the durations of all parts before it. */
  lemma {:induction false} DecodeTimes(p: Params, events: seq<Event>, k: nat)
    requires k < |Run(p, events).parts|
    ensures var fl := Run(p, events).parts;
            fl[k].videoTime == VideoTime(fl[..k]) && fl[k].audioTime == AudioTime(fl[..k])
  {
    hide Run;
    RunKeeps(p, events);
  }

  ghost predicate Rising(fl: seq<Flush>)
  {
    forall j, k :: 0 <= j < k < |fl| ==> SequenceNumber(fl[j]) < SequenceNumber(fl[k])
  }

  /** Every segment but the one in progress has at most 1000 parts. */
  ghost predicate ShortSegments(fl: seq<Flush>)
  {
    forall k :: 0 <= k < |fl| && fl[k].msn < fl[|fl| - 1].msn ==> |PartsOf(fl, fl[k].msn)| <= 1000
  }

  /** No number needs more than the 32 bits of its field. */
  ghost predicate Numberable(fl: seq<Flush>)
  {
    forall k :: 0 <= k < |fl| ==> Number(fl[k].msn, fl[k].index) < TWO32
  }

  /** The sequence numbers in the mfhd boxes rise from part to part if and only if no completed
  segment with a successor has more than 1000 parts and no number outgrows 32 bits. */
  lemma {:induction false} NumbersRise(p: Params, events: seq<Event>)
    ensures var fl := Run(p, events).parts; Rising(fl) <==> ShortSegments(fl) && Numberable(fl)
  {
    hide Run, Rising, ShortSegments, Numberable;
    RunKeeps(p, events);
    RisingIffShort(Run(p, events).parts);
  }

  lemma {:induction false} RisingIffShort(fl: seq<Flush>)
    requires Numbered(fl)
    ensures Rising(fl) <==> ShortSegments(fl) && Numberable(fl)
  {
    hide Number, PartsOf, Numbered;
    if ShortSegments(fl) && Numberable(fl) {
      forall j, k | 0 <= j < k < |fl| ensures SequenceNumber(fl[j]) < SequenceNumber(fl[k]) {
        ShortSegmentsRise(fl, j, k);
      }
    } else if Rising(fl) {
      forall k | 0 <= k < |fl| ensures Number(fl[k].msn, fl[k].index) < TWO32 {
        RisingFits(fl, k);
      }
      assert !ShortSegments(fl);
      var k :| 0 <= k < |fl| && fl[k].msn < fl[|fl| - 1].msn && |PartsOf(fl, fl[k].msn)| > 1000;
      LongSegmentRepeats(fl, k);
    }
  }

  /** From one part to the next the number rises by at most 1000, so the first one that outgrows 32
  bits would be written as less than the one before. */
  lemma {:induction false} RisingFits(fl: seq<Flush>, k: nat)
    requires Numbered(fl) && Rising(fl) && k < |fl|
    ensures Number(fl[k].msn, fl[k].index) < TWO32
    decreases k
  {
    hide Numbered, Number, Follows;
    if k == 0 {
      FirstNumber(fl);
    } else {
      RisingFits(fl, k - 1);
      Neighbours(fl, k - 1);
      assert SequenceNumber(fl[k - 1]) < SequenceNumber(fl[k]);
      NextFits(fl[k - 1], fl[k]);
    }
  }

  lemma {:induction false} FirstNumber(fl: seq<Flush>)
    requires Numbered(fl) && fl != []
    ensures Number(fl[0].msn, fl[0].index) == 1
  {
    hide PartsOf;
    assert NextSlot(fl[..0], fl[0].msn, fl[0].index);
  }

  lemma {:induction false} NextFits(f: Flush, g: Flush)
    requires Follows(f, g.msn, g.index) && Number(f.msn, f.index) < TWO32 && SequenceNumber(f) < SequenceNumber(g)
    ensures Number(g.msn, g.index) < TWO32
  {
    var m, n := Number(f.msn, f.index), Number(g.msn, g.index);
    assert n <= m + 1000;
  }

  lemma {:induction false} Counted(fl: seq<Flush>, k: nat)
    requires Numbered(fl) && k < |fl|
    ensures |PartsOf(fl[..k + 1], fl[k].msn)| == fl[k].index + 1
  {
    hide PartsOf, NextSlot;
    assert fl[..k + 1] == fl[..k] + [fl[k]];
    PartsSnoc(fl[..k], fl[k], fl[k].msn);
  }

  lemma {:induction false} MsnRises(fl: seq<Flush>, j: nat, k: nat)
    requires Numbered(fl) && j <= k < |fl|
    ensures fl[j].msn <= fl[k].msn
    decreases k
  {
    hide Numbered;
    if j < k {
      MsnRises(fl, j, k - 1);
      Neighbours(fl, k - 1);
    }
  }

  lemma {:induction false} LaterSegmentsAddNothing(fl: seq<Flush>, k: nat, n: nat, m: nat)
    requires k <= n <= |fl| && forall j :: k <= j < n ==> fl[j].msn != m
    ensures PartsOf(fl[..n], m) == PartsOf(fl[..k], m)
    decreases n
  {
    hide PartsOf;
    if k < n {
      LaterSegmentsAddNothing(fl, k, n - 1, m);
      assert fl[..n] == fl[..n - 1] + [fl[n - 1]];
      PartsSnoc(fl[..n - 1], fl[n - 1], m);
      EmptyConcat(PartsOf(fl[..n - 1], m));
    }
  }

  /** Where a segment ends: the index of its last part is one less than its part count. */
  lemma {:induction false} SegmentEnd(fl: seq<Flush>, k: nat)
    requires Numbered(fl) && k + 1 < |fl| && fl[k].msn < fl[k + 1].msn
    ensures fl[k + 1].msn == fl[k].msn + 1 && fl[k + 1].index == 0
    ensures |PartsOf(fl, fl[k].msn)| == fl[k].index + 1 && fl[k].msn < fl[|fl| - 1].msn
  {
    hide PartsOf, Numbered;
    Counted(fl, k);
    Neighbours(fl, k);
    forall j | k + 1 <= j < |fl| ensures fl[j].msn > fl[k].msn {
      MsnRises(fl, k + 1, j);
    }
    assert fl[..|fl|] == fl;
    LaterSegmentsAddNothing(fl, k + 1, |fl|, fl[k].msn);
  }

  lemma {:induction false} Neighbours(fl: seq<Flush>, k: nat)
    requires Numbered(fl) && k + 1 < |fl|
    ensures Follows(fl[k], fl[k + 1].msn, fl[k + 1].index)
  {
    hide PartsOf;
    assert NextSlot(fl[..k + 1], fl[k + 1].msn, fl[k + 1].index);
    assert fl[..k + 1][|fl[..k + 1]| - 1] == fl[k];
  }

  lemma {:induction false} ShortSegmentsRise(fl: seq<Flush>, j: nat, k: nat)
    requires Numbered(fl) && j < k < |fl|
    requires ShortSegments(fl)
    ensures Number(fl[j].msn, fl[j].index) < Number(fl[k].msn, fl[k].index)
    decreases k
  {
    hide PartsOf, Numbered;
    Neighbours(fl, k - 1);
    if fl[k - 1].msn < fl[k].msn {
      SegmentEnd(fl, k - 1);
    }
    if j < k - 1 {
      ShortSegmentsRise(fl, j, k - 1);
    }
  }

  /** The 1001st part of a segment has the number of the first part of the next. */
  lemma {:induction false} LongSegmentRepeats(fl: seq<Flush>, k: nat)
    requires Numbered(fl) && k < |fl| && fl[k].msn < fl[|fl| - 1].msn && |PartsOf(fl, fl[k].msn)| > 1000
    requires Numberable(fl)
    ensures !Rising(fl)
  {
    hide PartsOf, Numbered;
    var e := EndOf(fl, k);
    SegmentEnd(fl, e);
    assert SequenceNumber(fl[e]) >= SequenceNumber(fl[e + 1]);
  }

  lemma {:induction false} EndOf(fl: seq<Flush>, k: nat) returns (e: nat)
    requires Numbered(fl) && k < |fl| && fl[k].msn < fl[|fl| - 1].msn
    ensures k <= e && e + 1 < |fl| && fl[e].msn == fl[k].msn && fl[e + 1].msn > fl[e].msn
    decreases |fl| - k
  {
    hide Numbered;
    Neighbours(fl, k);
    if fl[k + 1].msn > fl[k].msn {
      e := k;
    } else {
      e := EndOf(fl, k + 1);
    }
  }
}
