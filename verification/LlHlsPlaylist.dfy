/** What a player may rely on: whatever the playlist names can be fetched, the preload hint names
the next part, and a blocking reload that would return keeps returning. */
module LlHlsPlaylist {
  import opened Bytes
  import opened Options
  import opened Fmp4
  import opened Seqs
  import opened LlHls
  import opened LlHlsRuns
  import opened LlHlsFrames

  /** The oldest segment number the room still serves. */
  function Oldest(b: Room): nat { Max(b.currentMsn - |b.segments|, 0) }

  // ---------- finding segments and parts ----------

  lemma {:induction false} FindAt(segments: seq<SegmentEntry>, first: nat, i: nat)
    requires i < |segments| && forall j :: 0 <= j < |segments| ==> segments[j].msn == first + j
    ensures FindSegment(segments, first + i) == Some(segments[i])
  {
    assert segments[0].msn == first;
    if i > 0 {
      assert segments[i].msn == first + i;
      FindAt(segments[1..], first + 1, i - 1);
    }
  }

  lemma {:induction false} FindNone(segments: seq<SegmentEntry>, msn: nat)
    requires forall j :: 0 <= j < |segments| ==> segments[j].msn != msn
    ensures FindSegment(segments, msn) == None
  {
    if segments != [] {
      FindNone(segments[1..], msn);
    }
  }

  /** The segments of the window are found under their numbers, and no others. */
  lemma {:induction false} FindInWindow(p: Params, b: Room, fl: seq<Flush>, msn: nat)
    requires Windowed(p, b, fl)
    ensures Oldest(b) <= msn < b.currentMsn ==> FindSegment(b.segments, msn) == Some(SegmentOf(fl, msn))
    ensures msn < Oldest(b) || msn >= b.currentMsn ==> FindSegment(b.segments, msn) == None
  {
    hide FindSegment, PartsOf, Concat, SumU32;
    assert forall j :: 0 <= j < |b.segments| ==> b.segments[j].msn == Oldest(b) + j;
    if Oldest(b) <= msn < b.currentMsn {
      FindAt(b.segments, Oldest(b), msn - Oldest(b));
    } else {
      FindNone(b.segments, msn);
    }
  }

  lemma {:induction false} PrefixParts(fl: seq<Flush>, k: nat, n: nat, m: nat)
    requires k <= n <= |fl|
    ensures PartsOf(fl[..k], m) <= PartsOf(fl[..n], m)
    decreases n
  {
    hide PartOf;
    if k < n {
      PrefixParts(fl, k, n - 1, m);
      assert fl[..n][..|fl[..n]| - 1] == fl[..n - 1];
    }
  }

  /** Part `k` of the run is the part its name says. */
  lemma {:induction false} PartUnderItsName(fl: seq<Flush>, k: nat)
    requires Numbered(fl) && k < |fl|
    ensures var parts := PartsOf(fl, fl[k].msn); fl[k].index < |parts| && parts[fl[k].index] == PartOf(fl[k])
  {
    hide PartsOf, PartOf, NextSlot;
    var f := fl[k];
    assert fl[..k + 1] == fl[..k] + [f];
    PartsSnoc(fl[..k], f, f.msn);
    PrefixParts(fl, k + 1, |fl|, f.msn);
    assert fl[..|fl|] == fl;
  }

  /** Every listed part of a segment is a part of the run. */
  lemma {:induction false} PartOfRun(fl: seq<Flush>, m: nat, i: nat) returns (k: nat)
    requires Numbered(fl) && i < |PartsOf(fl, m)|
    ensures k < |fl| && fl[k].msn == m && fl[k].index == i && PartsOf(fl, m)[i] == PartOf(fl[k])
  {
    hide PartOf, NextSlot;
    var n := |fl| - 1;
    var front, f := fl[..n], fl[n];
    if f.msn == m && i == |PartsOf(front, m)| {
      k := n;
    } else {
      NumberedFront(fl);
      k := PartOfRun(front, m, i);
    }
  }

  lemma {:induction false} NumberedFront(fl: seq<Flush>)
    requires Numbered(fl) && fl != []
    ensures Numbered(fl[..|fl| - 1])
  {
    hide PartsOf, NextSlot;
    var front := fl[..|fl| - 1];
    forall k | 0 <= k < |front|
      ensures NextSlot(front[..k], front[k].msn, front[k].index) && front[k].index == |PartsOf(front[..k], front[k].msn)|
    {
      assert front[..k] == fl[..k];
    }
  }

  /** A part can be fetched exactly as long as its segment is in progress or in the window, and what
  is fetched is what was built; nothing else can be fetched. */
  lemma {:induction false} PartsFetched(p: Params, b: Room, fl: seq<Flush>, m: nat, i: nat)
    requires Inv(p, b, fl)
    ensures Oldest(b) <= m <= b.currentMsn && i < |PartsOf(fl, m)| ==> FetchPart(b, m, i) == Some(PartsOf(fl, m)[i].bytes)
    ensures !(Oldest(b) <= m <= b.currentMsn && i < |PartsOf(fl, m)|) ==> FetchPart(b, m, i) == None
  {
    hide PartsOf, FindSegment, Numbered, Timed, AllWhole, AllComplete, Windowed;
    FindInWindow(p, b, fl, m);
  }

  /** In every run: `fetch_part` under the name of part `k` returns the bytes built for it, if and
  only if its segment is not yet evicted. */
  lemma {:induction false} EveryPartIsFetched(p: Params, events: seq<Event>, k: nat)
    requires k < |Run(p, events).parts|
    ensures var t := Run(p, events);
            var f := t.parts[k];
            && (FetchPart(t.room, f.msn, f.index) == Some(FlushBytes(f)) <==> f.msn >= Oldest(t.room))
            && (FetchPart(t.room, f.msn, f.index) == None <==> f.msn < Oldest(t.room))
  {
    hide Run, PartsOf, FetchPart, Numbered, Timed, FlushBytes, AllComplete, Windowed;
    var t := Run(p, events);
    var f := t.parts[k];
    RunKeeps(p, events);
    PartUnderItsName(t.parts, k);
    PartsFetched(p, t.room, t.parts, f.msn, f.index);
    assert Whole(p, f);
  }

  /** The window: consecutive numbers that end just before the segment in progress, as many as the
  window allows, each the concatenation of its parts. */
  lemma {:induction false} WindowIsLatest(p: Params, events: seq<Event>)
    ensures var t := Run(p, events);
            && |t.room.segments| == Min(p.window, t.room.currentMsn)
            && (forall i :: 0 <= i < |t.room.segments| ==>
                  t.room.segments[i] == SegmentOf(t.parts, t.room.currentMsn - |t.room.segments| + i))
            && (forall m :: Oldest(t.room) <= m < t.room.currentMsn ==>
                  FetchSegment(t.room, m) == Some(Concat(PartBytesOf(PartsOf(t.parts, m)))))
            && (forall m :: 0 <= m < Oldest(t.room) || t.room.currentMsn <= m ==> FetchSegment(t.room, m) == None)
  {
    hide Run, PartsOf, FindSegment, Concat, Numbered, Timed, AllWhole, AllComplete;
    var t := Run(p, events);
    RunKeeps(p, events);
    forall m | Oldest(t.room) <= m < t.room.currentMsn
      ensures FetchSegment(t.room, m) == Some(Concat(PartBytesOf(PartsOf(t.parts, m))))
    {
      FindInWindow(p, t.room, t.parts, m);
    }
    forall m | 0 <= m < Oldest(t.room) || t.room.currentMsn <= m ensures FetchSegment(t.room, m) == None {
      FindInWindow(p, t.room, t.parts, m);
    }
  }

  /** Under a name that no part has nothing is fetched. */
  lemma {:induction false} NothingElseIsFetched(p: Params, events: seq<Event>, m: nat, i: nat)
    requires forall k :: 0 <= k < |Run(p, events).parts| ==> Run(p, events).parts[k].msn != m || Run(p, events).parts[k].index != i
    ensures FetchPart(Run(p, events).room, m, i) == None
  {
    hide Run, PartsOf, FetchPart, Timed, AllComplete, AllWhole, Windowed;
    var t := Run(p, events);
    RunKeeps(p, events);
    PartsFetched(p, t.room, t.parts, m, i);
    if i < |PartsOf(t.parts, m)| {
      var k := PartOfRun(t.parts, m, i);
      assert false;
    }
  }

  // ---------- the playlist ----------

  /** A line tells the truth: what it names can be fetched and is what was built. */
  ghost predicate Honest(b: Room, fl: seq<Flush>, e: Entry)
  {
    match e
    case PartLine(m, i, d, key) =>
      exists k :: 0 <= k < |fl| && fl[k].msn == m && fl[k].index == i
                  && FetchPart(b, m, i) == Some(FlushBytes(fl[k]))
                  && d == SumU32(fl[k].durations) && key == fl[k].independent
    case SegmentLine(m, d) =>
      FetchSegment(b, m) == Some(SegmentOf(fl, m).bytes) && d == SegmentOf(fl, m).duration
    case PreloadHint(m, i) =>
      NextSlot(fl, m, |b.currentParts|) && i == |b.currentParts| % TWO32
  }

  lemma {:induction false} PartLineHonest(p: Params, b: Room, fl: seq<Flush>, m: nat, i: nat)
    requires Inv(p, b, fl) && Oldest(b) <= m <= b.currentMsn && i < |PartsOf(fl, m)|
    ensures Honest(b, fl, PartLine(m, i, PartsOf(fl, m)[i].duration, PartsOf(fl, m)[i].independent))
  {
    hide PartsOf, FetchPart, SumU32, FlushBytes, Numbered, Timed, AllComplete, Windowed, Current;
    var k := PartOfRun(fl, m, i);
    PartsFetched(p, b, fl, m, i);
    assert Whole(p, fl[k]);
  }

  lemma {:induction false} SegmentLineHonest(p: Params, b: Room, fl: seq<Flush>, m: nat)
    requires Inv(p, b, fl) && Oldest(b) <= m < b.currentMsn
    ensures Honest(b, fl, SegmentLine(m, SegmentOf(fl, m).duration))
  {
    hide SegmentOf, FindSegment, Numbered, Timed, AllComplete, AllWhole, Current;
    FindInWindow(p, b, fl, m);
  }

  ghost predicate AllHonest(b: Room, fl: seq<Flush>, es: seq<Entry>)
  {
    forall j :: 0 <= j < |es| ==> Honest(b, fl, es[j])
  }

  lemma {:induction false} HonestConcat(b: Room, fl: seq<Flush>, xs: seq<Entry>, ys: seq<Entry>)
    requires AllHonest(b, fl, xs) && AllHonest(b, fl, ys)
    ensures AllHonest(b, fl, xs + ys)
  {
    hide Honest;
  }

  lemma {:induction false} PartLinesHonest(p: Params, b: Room, fl: seq<Flush>, m: nat)
    requires Inv(p, b, fl) && Oldest(b) <= m <= b.currentMsn
    ensures AllHonest(b, fl, PartLines(m, PartsOf(fl, m)))
  {
    hide Inv, PartsOf, Honest;
    forall j | 0 <= j < |PartLines(m, PartsOf(fl, m))| ensures Honest(b, fl, PartLines(m, PartsOf(fl, m))[j]) {
      PartLineHonest(p, b, fl, m, j);
    }
  }

  lemma {:induction false} WindowLinesHonest(p: Params, b: Room, fl: seq<Flush>, n: nat)
    requires Inv(p, b, fl) && n <= |b.segments|
    ensures AllHonest(b, fl, WindowLines(b.segments[..n]))
    decreases n
  {
    hide Honest, PartsOf, Numbered, Timed, AllComplete, AllWhole, Current, PartLines, SumU32, Concat;
    if n > 0 {
      var s := b.segments[n - 1];
      assert b.segments[..n][..n - 1] == b.segments[..n - 1];
      WindowLinesHonest(p, b, fl, n - 1);
      assert s == SegmentOf(fl, s.msn);
      PartLinesHonest(p, b, fl, s.msn);
      SegmentLineHonest(p, b, fl, s.msn);
      HonestConcat(b, fl, PartLines(s.msn, s.parts), [SegmentLine(s.msn, s.duration)]);
      HonestConcat(b, fl, WindowLines(b.segments[..n - 1]), SegmentLines(s));
    }
  }

  /** Every line of the playlist of every run is honest, and the media sequence number is that of
  the oldest segment served. */
  lemma {:induction false} PlaylistIsHonest(p: Params, events: seq<Event>)
    requires Manifest(Run(p, events).room).Some?
    ensures var t := Run(p, events);
            var list := Manifest(t.room).value;
            AllHonest(t.room, t.parts, list.entries) && list.mediaSequence == Oldest(t.room)
  {
    hide Run, Honest, PartsOf, Numbered, Timed, AllComplete, AllWhole, PartLines, WindowLines, SumU32, Concat;
    var t := Run(p, events);
    var b, fl := t.room, t.parts;
    RunKeeps(p, events);
    WindowLinesHonest(p, b, fl, |b.segments|);
    assert b.segments[..|b.segments|] == b.segments;
    PartLinesHonest(p, b, fl, b.currentMsn);
    HonestConcat(b, fl, WindowLines(b.segments), PartLines(b.currentMsn, b.currentParts));
    HintHonest(b, fl);
    HonestConcat(b, fl, WindowLines(b.segments) + PartLines(b.currentMsn, b.currentParts),
                 [PreloadHint(b.currentMsn, |b.currentParts| % TWO32)]);
  }

  lemma {:induction false} HintHonest(b: Room, fl: seq<Flush>)
    requires Current(b, fl)
    ensures Honest(b, fl, PreloadHint(b.currentMsn, |b.currentParts| % TWO32))
  {
    hide PartsOf, NextSlot;
  }

  /** Every part that is still served has its line. */
  lemma {:induction false} PlaylistIsComplete(p: Params, events: seq<Event>, k: nat)
    requires Manifest(Run(p, events).room).Some? && k < |Run(p, events).parts|
    requires Run(p, events).parts[k].msn >= Oldest(Run(p, events).room)
    ensures var t := Run(p, events);
            var f := t.parts[k];
            PartLine(f.msn, f.index, SumU32(f.durations), f.independent) in Manifest(t.room).value.entries
  {
    hide Run, PartsOf, Numbered, Timed, AllComplete, AllWhole, SumU32, Concat, FlushBytes, WindowLines;
    var t := Run(p, events);
    var b, fl := t.room, t.parts;
    var f := fl[k];
    RunKeeps(p, events);
    PartUnderItsName(fl, k);
    var line := PartLine(f.msn, f.index, SumU32(f.durations), f.independent);
    assert PartLines(f.msn, PartsOf(fl, f.msn))[f.index] == line;
    if f.msn < b.currentMsn {
      var i := f.msn - Oldest(b);
      assert b.segments[i] == SegmentOf(fl, f.msn);
      LineInWindow(b.segments, |b.segments|, i, line);
      assert b.segments[..|b.segments|] == b.segments;
    }
  }

  lemma {:induction false} LineInWindow(segments: seq<SegmentEntry>, n: nat, i: nat, e: Entry)
    requires i < n <= |segments| && e in PartLines(segments[i].msn, segments[i].parts)
    ensures e in WindowLines(segments[..n])
    decreases n
  {
    assert segments[..n][..n - 1] == segments[..n - 1];
    if i < n - 1 {
      LineInWindow(segments, n - 1, i, e);
    }
  }

  /** The lines of the parts of a segment, in the order they were produced. */
  function LinesOf(fl: seq<Flush>, m: nat): seq<Entry>
  {
    if fl == [] then []
    else
      var f := fl[|fl| - 1];
      LinesOf(fl[..|fl| - 1], m)
      + if f.msn == m then [PartLine(m, f.index, Sum(f.durations) % 0x1_0000_0000, f.independent)] else []
  }

  /** How long the parts of a segment last. */
  function SegmentTotal(fl: seq<Flush>, m: nat): nat
  {
    if fl == [] then 0
    else
      var f := fl[|fl| - 1];
      SegmentTotal(fl[..|fl| - 1], m) + if f.msn == m then Sum(f.durations) % 0x1_0000_0000 else 0
  }

  /** Segment after segment, its parts and then the segment itself. */
  function Listed(fl: seq<Flush>, from: nat, to: nat): seq<Entry>
    decreases to
  {
    if to <= from then []
    else Listed(fl, from, to - 1) + (LinesOf(fl, to - 1) + [SegmentLine(to - 1, SegmentTotal(fl, to - 1) % 0x1_0000_0000)])
  }

  lemma {:induction false} LinesOfParts(fl: seq<Flush>, m: nat)
    requires Numbered(fl)
    ensures PartLines(m, PartsOf(fl, m)) == LinesOf(fl, m) && Sum(PartDurations(PartsOf(fl, m))) == SegmentTotal(fl, m)
  {
    hide Sum, FlushBytes, NextSlot;
    if fl == [] {
      NoDurations();
    } else {
      var n := |fl| - 1;
      var f, before := fl[n], PartsOf(fl[..n], m);
      NumberedFront(fl);
      LinesOfParts(fl[..n], m);
      assert f.msn == m ==> f.index == |before|;
      DurationsOfSnoc(before, PartOf(f));
      assert PartLines(m, before + [PartOf(f)]) == PartLines(m, before) + [PartLine(m, |before|, PartOf(f).duration, f.independent)];
      EmptyConcat(before);
      EmptyConcat(LinesOf(fl[..n], m));
    }
  }

  lemma {:induction false} NoDurations()
    ensures Sum(PartDurations([])) == 0
  {
    assert PartDurations([]) == [];
  }

  lemma {:induction false} DurationsOfSnoc(parts: seq<Part>, part: Part)
    ensures Sum(PartDurations(parts + [part])) == Sum(PartDurations(parts)) + part.duration
  {
    SumSnoc(PartDurations(parts), part.duration);
    assert PartDurations(parts + [part]) == PartDurations(parts) + [part.duration];
  }

  lemma {:induction false} WindowListed(p: Params, b: Room, fl: seq<Flush>, n: nat)
    requires Inv(p, b, fl) && n <= |b.segments|
    ensures WindowLines(b.segments[..n]) == Listed(fl, Oldest(b), Oldest(b) + n)
    decreases n
  {
    hide PartsOf, Numbered, Timed, AllComplete, AllWhole, Current, PartLines, Sum, Concat, LinesOf, SegmentTotal;
    if n > 0 {
      var s := b.segments[n - 1];
      assert b.segments[..n][..n - 1] == b.segments[..n - 1];
      WindowListed(p, b, fl, n - 1);
      assert s == SegmentOf(fl, Oldest(b) + n - 1);
      LinesOfParts(fl, s.msn);
    }
  }

  /** The playlist of every run, line by line: the segments of the window from the oldest on, each its
  parts in the order they were produced and then itself, the parts of the segment in progress, and the
  hint. There is one as soon as the video configuration is known. */
  lemma {:induction false} PlaylistIs(p: Params, events: seq<Event>)
    ensures var t := Run(p, events);
            var from := if t.room.currentMsn < p.window then 0 else t.room.currentMsn - p.window;
            && (Manifest(t.room).Some? <==> exists i :: 0 <= i < |events| && events[i].VideoConfig?)
            && (Manifest(t.room).Some? ==>
                  Manifest(t.room).value == Playlist(from, Listed(t.parts, from, t.room.currentMsn)
                                                           + LinesOf(t.parts, t.room.currentMsn)
                                                           + [PreloadHint(t.room.currentMsn, |t.room.currentParts| % 0x1_0000_0000)]))
  {
    hide Run, PartsOf, Numbered, Timed, AllComplete, AllWhole, PartLines, WindowLines, Sum, Concat, LinesOf, SegmentTotal, Listed;
    var t := Run(p, events);
    var b, fl := t.room, t.parts;
    RunKeeps(p, events);
    FramesConserved(p, events);
    ConfiguredByEvent(events);
    WindowListed(p, b, fl, |b.segments|);
    assert b.segments[..|b.segments|] == b.segments;
    LinesOfParts(fl, b.currentMsn);
  }

  lemma {:induction false} ConfiguredByEvent(events: seq<Event>)
    ensures Configured(events) <==> exists i :: 0 <= i < |events| && events[i].VideoConfig?
  {
    if events != [] {
      var n := |events| - 1;
      ConfiguredByEvent(events[..n]);
      if Configured(events[..n]) {
        var i :| 0 <= i < n && events[..n][i].VideoConfig?;
        assert events[i].VideoConfig?;
      }
      if i :| 0 <= i < |events| && events[i].VideoConfig? {
        if i < n {
          assert events[..n][i].VideoConfig?;
        }
      }
    }
  }

  // ---------- the next part ----------

  lemma {:induction false} RunSnoc(p: Params, events: seq<Event>, more: seq<Event>)
    requires more != []
    ensures var n := |more| - 1;
            var t, o := Run(p, events + more[..n]), Step(p, Run(p, events + more[..n]).room, more[n]);
            Run(p, events + more) == Trace(o.room, t.parts + o.parts)
  {
    hide Step;
    var all := events + more;
    assert all[..|all| - 1] == events + more[..|more| - 1];
  }

  /** A step that produces a part gives it the next name; another one leaves that name alone. */
  lemma {:induction false} NextName(p: Params, b: Room, e: Event)
    ensures var o := Step(p, b, e);
            if o.parts == [] then o.room.currentMsn == b.currentMsn && o.room.currentParts == b.currentParts
            else |o.parts| == 1 && o.parts[0].msn == b.currentMsn && o.parts[0].index == |b.currentParts|
                 && o.room.currentMsn <= b.currentMsn + 1
  {
    hide FlushBytes, SumU32, Concat;
  }

  lemma {:induction false} PartsOnlyCome(p: Params, events: seq<Event>, more: seq<Event>)
    ensures Run(p, events).parts <= Run(p, events + more).parts
    decreases |more|
  {
    if more == [] {
      EmptyConcat(events);
    } else {
      hide Run, Step;
      PartsOnlyCome(p, events, more[..|more| - 1]);
      RunSnoc(p, events, more);
    }
  }

  /** As long as no part comes, the next one keeps its name. */
  lemma {:induction false} NameStays(p: Params, events: seq<Event>, more: seq<Event>)
    requires |Run(p, events + more).parts| == |Run(p, events).parts|
    ensures var t, u := Run(p, events), Run(p, events + more);
            u.parts == t.parts && u.room.currentMsn == t.room.currentMsn && u.room.currentParts == t.room.currentParts
    decreases |more|
  {
    if more == [] {
      EmptyConcat(events);
    } else {
      hide Run, Step;
      var n := |more| - 1;
      PartsOnlyCome(p, events, more[..n]);
      RunSnoc(p, events, more);
      NameStays(p, events, more[..n]);
      NextName(p, Run(p, events + more[..n]).room, more[n]);
      EmptyConcat(Run(p, events).parts);
    }
  }

  /** The event of a continuation that produces its first part. */
  lemma {:induction false} FirstPart(p: Params, events: seq<Event>, more: seq<Event>) returns (j: nat)
    requires |Run(p, events + more).parts| > |Run(p, events).parts|
    ensures j < |more| && |Run(p, events + more[..j]).parts| == |Run(p, events).parts|
    ensures |Run(p, events + more[..j + 1]).parts| > |Run(p, events).parts|
    decreases |more|
  {
    hide Run;
    EmptyConcat(events);
    j := |more| - 1;
    PartsOnlyCome(p, events, more[..j]);
    assert more[..j + 1] == more;
    if |Run(p, events + more[..j]).parts| > |Run(p, events).parts| {
      var front := more[..j];
      j := FirstPart(p, events, front);
      assert front[..j] == more[..j] && front[..j + 1] == more[..j + 1];
    }
  }

  /** In every continuation of a run the first part that comes has exactly the name in the preload
  hint of the playlist rendered at its start, unless the segment already has 2^32 parts. It can be
  fetched under that name from the moment it is there, be it the last of its segment or not, until its
  segment is evicted; with an empty window that may be at once. */
  lemma {:induction false} HintIsNext(p: Params, events: seq<Event>, more: seq<Event>) returns (j: nat)
    requires Manifest(Run(p, events).room).Some?
    requires |Run(p, events + more).parts| > |Run(p, events).parts|
    ensures var t, u := Run(p, events), Run(p, events + more);
            var f, es := u.parts[|t.parts|], Manifest(t.room).value.entries;
            && es != [] && (es[|es| - 1] == PreloadHint(f.msn, f.index) <==> |t.room.currentParts| < TWO32)
            && (FetchPart(u.room, f.msn, f.index) == Some(FlushBytes(f)) <==> f.msn >= Oldest(u.room))
    ensures var t, f := Run(p, events), Run(p, events + more).parts[|Run(p, events).parts|];
            && j < |more| && Run(p, events + more[..j]).parts == t.parts
            && Run(p, events + more[..j + 1]).parts == t.parts + [f]
            && (p.window > 0 ==> FetchPart(Run(p, events + more[..j + 1]).room, f.msn, f.index) == Some(FlushBytes(f)))
  {
    hide Run, FlushBytes, FetchPart, Step, WindowLines, PartLines;
    j := FirstPart(p, events, more);
    var t, u, f := Run(p, events), Run(p, events + more), Run(p, events + more).parts[|Run(p, events).parts|];
    NameStays(p, events, more[..j]);
    OnePartMore(p, events, more, j);
    EveryPartIsFetched(p, events + more, |t.parts|);
    EveryPartIsFetched(p, events + more[..j + 1], |t.parts|);
  }

  lemma {:induction false} OnePartMore(p: Params, events: seq<Event>, more: seq<Event>, j: nat)
    requires j < |more| && Run(p, events + more[..j]).parts == Run(p, events).parts
    requires |Run(p, events + more[..j + 1]).parts| > |Run(p, events).parts|
    ensures var b, v := Run(p, events + more[..j]).room, Run(p, events + more[..j + 1]);
            && |Run(p, events + more).parts| > |Run(p, events).parts|
            && var f := Run(p, events + more).parts[|Run(p, events).parts|];
            && f.msn == b.currentMsn && f.index == |b.currentParts|
            && v.parts == Run(p, events).parts + [f]
            && (p.window > 0 ==> f.msn >= Oldest(v.room))
  {
    hide Run, Step;
    var front, rest := more[..j + 1], more[j + 1..];
    var b := Run(p, events + more[..j]).room;
    assert front[..|front| - 1] == more[..j] && front[|front| - 1] == more[j];
    RunSnoc(p, events, front);
    EmptyConcat(Run(p, events).parts);
    NextName(p, b, more[j]);
    assert events + front + rest == events + more;
    PartsOnlyCome(p, events + front, rest);
    StillServed(p, events + front, b);
  }

  lemma {:induction false} StillServed(p: Params, all: seq<Event>, b: Room)
    requires Run(p, all).room.currentMsn <= b.currentMsn + 1
    ensures p.window > 0 ==> b.currentMsn >= Oldest(Run(p, all).room)
  {
    hide Run, Numbered, Timed, AllComplete, AllWhole, Current;
    RunKeeps(p, all);
  }

  // ---------- blocking reload ----------

  /** Segment numbers never go back, and within a segment parts only come. */
  lemma {:induction false} StepAdvances(p: Params, b: Room, e: Event)
    ensures var c := Step(p, b, e).room;
            b.currentMsn < c.currentMsn || (b.currentMsn == c.currentMsn && b.currentParts <= c.currentParts)
  {
    hide FlushBytes, SumU32, Concat;
  }

  lemma {:induction false} RoomAdvances(p: Params, events: seq<Event>, more: seq<Event>)
    ensures var b, c := Run(p, events).room, Run(p, events + more).room;
            b.currentMsn < c.currentMsn || (b.currentMsn == c.currentMsn && b.currentParts <= c.currentParts)
    decreases |more|
  {
    if more == [] {
      EmptyConcat(events);
    } else {
      hide Run, Step;
      var n := |more| - 1;
      RoomAdvances(p, events, more[..n]);
      RunSnoc(p, events, more);
      StepAdvances(p, Run(p, events + more[..n]).room, more[n]);
    }
  }

  /** What `wait_for` waited for is true in every continuation, as long as the segment in progress has
  fewer than 2^32 parts. */
  lemma {:induction false} WaitIsMonotone(p: Params, events: seq<Event>, more: seq<Event>, msn: nat, part: U32)
    requires Have(Run(p, events).room, msn, part) && |Run(p, events + more).room.currentParts| < TWO32
    ensures Have(Run(p, events + more).room, msn, part)
  {
    hide Run;
    RoomAdvances(p, events, more);
  }

  /** What it means: a later segment has begun, or the part can be fetched. */
  lemma {:induction false} WaitMeansFetchable(p: Params, events: seq<Event>, msn: nat, part: U32)
    requires var b := Run(p, events).room; |b.currentParts| < TWO32
    ensures var b := Run(p, events).room;
            Have(b, msn, part) <==> b.currentMsn > msn || (b.currentMsn == msn && FetchPart(b, msn, part).Some?)
  {
    hide Run, FindSegment;
  }
}
