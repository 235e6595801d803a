/** The in-memory pipe from ingest to playback (yunmao-ingest `pipe.rs`): the latest headers and the
current group of pictures are kept for newcomers, and every tag is broadcast through a bounded ring. */
module Pipe {
  import opened Bytes
  import opened Options
  import opened Seqs
  import opened Flv

  const GOP_LIMIT: nat := 4096
  const RING: nat := 1024

  /** `Cache` */
  datatype Cache = Cache(metadata: Option<FlvTag>, avcSeq: Option<FlvTag>, aacSeq: Option<FlvTag>, lastGop: seq<FlvTag>)

  const EMPTY := Cache(None, None, None, [])

  predicate IsMedia(t: FlvTag) { t.kind.Video? || t.kind.Audio? }

  /** The test the pipe makes; narrower than `is_aac_sequence_header`. */
  predicate IsAacHeader(t: FlvTag) { t.kind.Audio? && |t.data| >= 2 && t.data[0] == 0xaf && t.data[1] == 0 }

  /** `publish`: the cache afterwards. */
  function Published(c: Cache, t: FlvTag): Cache
  {
    var kept := if IsVideoKeyframe(t) then [] else c.lastGop;
    Cache(if t.kind.ScriptData? then Some(t) else c.metadata,
          if IsAvcSequenceHeader(t) then Some(t) else c.avcSeq,
          if IsAacHeader(t) then Some(t) else c.aacSeq,
          if IsMedia(t) then LastOf(kept + [t], GOP_LIMIT) else kept)
  }

  function ToSeq<T>(o: Option<T>): seq<T> { if o.Some? then [o.value] else [] }

  /** What a newcomer gets first. */
  function Snapshot(c: Cache): seq<FlvTag>
  {
    ToSeq(c.metadata) + ToSeq(c.avcSeq) + ToSeq(c.aacSeq) + c.lastGop
  }

  class MediaPipe {
    var metadata: Option<FlvTag>
    var avcSeq: Option<FlvTag>
    var aacSeq: Option<FlvTag>
    var lastGop: seq<FlvTag>
    /** Everything broadcast so far; the ring holds its last `RING` tags. */
    var sent: seq<FlvTag>

    function View(): Cache
      reads this
    {
      Cache(metadata, avcSeq, aacSeq, lastGop)
    }

    constructor ()
      ensures View() == EMPTY && sent == []
    {
      metadata, avcSeq, aacSeq, lastGop, sent := None, None, None, [], [];
    }

    method Publish(t: FlvTag)
      requires |lastGop| <= GOP_LIMIT
      modifies this
      ensures View() == Published(old(View()), t) && |lastGop| <= GOP_LIMIT && sent == old(sent) + [t]
    {
      if t.kind.ScriptData? {
        metadata := Some(t);
      }
      if IsAvcSequenceHeader(t) {
        avcSeq := Some(t);
      }
      if IsAacHeader(t) {
        aacSeq := Some(t);
      }
      if IsVideoKeyframe(t) {
        lastGop := [];
      }
      if IsMedia(t) {
        lastGop := lastGop + [t];
        if |lastGop| > GOP_LIMIT {
          var drop := |lastGop| - GOP_LIMIT;
          lastGop := lastGop[drop..];
        }
      }
      sent := sent + [t];
    }

    method TakeSnapshot() returns (tags: seq<FlvTag>)
      ensures tags == Snapshot(View())
    {
      tags := [];
      if metadata.Some? {
        tags := tags + [metadata.value];
      }
      if avcSeq.Some? {
        tags := tags + [avcSeq.value];
      }
      if aacSeq.Some? {
        tags := tags + [aacSeq.value];
      }
      tags := tags + lastGop;
    }
  }

  // ---------- what the cache holds ----------

  function CacheOf(log: seq<FlvTag>): Cache
  {
    if log == [] then EMPTY else Published(CacheOf(log[..|log| - 1]), log[|log| - 1])
  }

  /** The audio and video tags of a stretch of the stream. */
  function Media(log: seq<FlvTag>): seq<FlvTag>
  {
    if log == [] then []
    else Media(log[..|log| - 1]) + if log[|log| - 1].kind.ScriptData? then [] else [log[|log| - 1]]
  }

  /** Where the latest keyframe stands, or the start of the stream if there is none. */
  ghost predicate GopStart(log: seq<FlvTag>, k: nat)
  {
    && k <= |log|
    && (forall i :: k < i < |log| ==> !IsVideoKeyframe(log[i]))
    && ((k < |log| && IsVideoKeyframe(log[k])) || (k == 0 && forall i :: 0 <= i < |log| ==> !IsVideoKeyframe(log[i])))
  }

  /** The latest tag of a kind. */
  ghost predicate IsLatest(log: seq<FlvTag>, what: FlvTag -> bool, o: Option<FlvTag>)
  {
    match o
    case None => forall i :: 0 <= i < |log| ==> !what(log[i])
    case Some(t) => exists k :: 0 <= k < |log| && log[k] == t && what(t) && forall i :: k < i < |log| ==> !what(log[i])
  }

  lemma {:induction false} LastOfLast<T>(s: seq<T>, x: T, n: nat)
    requires n > 0
    ensures LastOf(LastOf(s, n) + [x], n) == LastOf(s + [x], n)
  {}

  lemma {:induction false} MediaSnoc(log: seq<FlvTag>, t: FlvTag)
    ensures Media(log + [t]) == Media(log) + if t.kind.ScriptData? then [] else [t]
  {
    assert (log + [t])[..|log|] == log;
  }

  lemma {:induction false} PublishInGop(c: Cache, gop: seq<FlvTag>, t: FlvTag)
    requires c.lastGop == LastOf(Media(gop), GOP_LIMIT) && !IsVideoKeyframe(t)
    ensures Published(c, t).lastGop == LastOf(Media(gop + [t]), GOP_LIMIT)
  {
    hide LastOf, Media;
    MediaSnoc(gop, t);
    EmptyConcat(Media(gop));
    if IsMedia(t) {
      LastOfLast(Media(gop), t, GOP_LIMIT);
    }
  }

  lemma {:induction false} PublishKeyframe(c: Cache, t: FlvTag)
    requires IsVideoKeyframe(t)
    ensures Published(c, t).lastGop == LastOf(Media([t]), GOP_LIMIT)
  {
    MediaSnoc([], t);
    assert [] + [t] == [t];
  }

  /** The cached group of pictures is exactly the last 4096 of the audio and video tags from the latest
  keyframe on. */
  lemma {:induction false} GopIsExact(log: seq<FlvTag>, k: nat)
    requires GopStart(log, k)
    ensures CacheOf(log).lastGop == LastOf(Media(log[k..]), 4096)
  {
    if log == [] {
      assert log[k..] == [];
    } else {
      var before, t := log[..|log| - 1], log[|log| - 1];
      hide Published, LastOf, Media, IsVideoKeyframe;
      if IsVideoKeyframe(t) {
        assert log[k..] == [t];
        PublishKeyframe(CacheOf(before), t);
      } else {
        assert k <= |before|;
        GopIsExact(before, k);
        assert log[k..] == before[k..] + [t];
        PublishInGop(CacheOf(before), before[k..], t);
      }
    }
  }

  lemma {:induction false} LatestSnoc(log: seq<FlvTag>, t: FlvTag, what: FlvTag -> bool, o: Option<FlvTag>)
    requires IsLatest(log, what, o)
    ensures IsLatest(log + [t], what, if what(t) then Some(t) else o)
  {
    var next := log + [t];
    if what(t) {
      assert next[|log|] == t;
    } else if o.Some? {
      var k :| 0 <= k < |log| && log[k] == o.value && what(o.value) && forall i :: k < i < |log| ==> !what(log[i]);
      assert next[k] == o.value;
    }
  }

  /** The cached headers are the latest of their kind. */
  lemma {:induction false} HeadersAreLatest(log: seq<FlvTag>)
    ensures var c := CacheOf(log);
            && IsLatest(log, (t: FlvTag) => t.kind.ScriptData?, c.metadata)
            && IsLatest(log, (t: FlvTag) => IsAvcSequenceHeader(t), c.avcSeq)
            && IsLatest(log, (t: FlvTag) => IsAacHeader(t), c.aacSeq)
  {
    if log != [] {
      hide IsLatest;
      var before, t := log[..|log| - 1], log[|log| - 1];
      HeadersAreLatest(before);
      var c := CacheOf(before);
      assert log == before + [t];
      LatestSnoc(before, t, (t: FlvTag) => t.kind.ScriptData?, c.metadata);
      LatestSnoc(before, t, (t: FlvTag) => IsAvcSequenceHeader(t), c.avcSeq);
      LatestSnoc(before, t, (t: FlvTag) => IsAacHeader(t), c.aacSeq);
    } else {
      assert CacheOf(log) == EMPTY;
    }
  }

  /** The pipe's own test for an AAC header: AAC at 44 kHz in 16-bit stereo, packet type 0. */
  lemma {:induction false} AacHeaderKinds(ts: U32, format: nat, rate: nat, size: nat, channels: nat, packetType: Byte, payload: seq<Byte>)
    requires format < 16 && rate < 4 && size < 2 && channels < 2
    ensures IsAacHeader(FlvTag(Audio, ts, AudioBody(format, rate, size, channels, packetType, payload)))
       <==> format == 10 && rate == 3 && size == 1 && channels == 1 && packetType == 0
    ensures forall t: FlvTag :: IsAacHeader(t) ==> t.kind.Audio? && |t.data| >= 2
  {}

  /** What a newcomer must see first: the latest metadata, AVC header and AAC header, then the last 4096
  media tags from the latest keyframe on. */
  ghost predicate Warmup(log: seq<FlvTag>, k: nat, c: Cache, tags: seq<FlvTag>)
  {
    && IsLatest(log, (t: FlvTag) => t.kind.ScriptData?, c.metadata)
    && IsLatest(log, (t: FlvTag) => IsAvcSequenceHeader(t), c.avcSeq)
    && IsLatest(log, (t: FlvTag) => IsAacHeader(t), c.aacSeq)
    && GopStart(log, k) && c.lastGop == LastOf(Media(log[k..]), 4096)
    && tags == (if c.metadata.Some? then [c.metadata.value] else []) + (if c.avcSeq.Some? then [c.avcSeq.value] else [])
               + (if c.aacSeq.Some? then [c.aacSeq.value] else []) + c.lastGop
  }

  lemma {:induction false} GopStarts(log: seq<FlvTag>) returns (k: nat)
    ensures GopStart(log, k)
  {
    hide IsVideoKeyframe;
    if log == [] {
      k := 0;
    } else {
      var n := |log| - 1;
      k := GopStarts(log[..n]);
      if IsVideoKeyframe(log[n]) {
        k := n;
      }
    }
  }

  lemma {:induction false} SnapshotIsWarmup(log: seq<FlvTag>) returns (k: nat)
    ensures Warmup(log, k, CacheOf(log), Snapshot(CacheOf(log)))
  {
    hide IsLatest, GopStart, CacheOf, LastOf, Media;
    k := GopStarts(log);
    HeadersAreLatest(log);
    GopIsExact(log, k);
  }

  // ---------- a subscriber ----------

  /** A subscriber: the snapshot it still has to hand out, the next tag it wants from the broadcast,
  and, to speak about it, how many tags it lost by lagging. */
  datatype Subscriber = Subscriber(warmup: seq<FlvTag>, pos: nat, lost: nat)

  /** The oldest tag still in the ring. */
  function Oldest(sent: seq<FlvTag>): nat { if |sent| <= RING then 0 else |sent| - RING }

  /** `next_tag`: the subscriber afterwards and the tag; `None` means that it waits. */
  function Next(s: Subscriber, sent: seq<FlvTag>): (Subscriber, Option<FlvTag>)
  {
    if s.warmup != [] then (s.(warmup := s.warmup[1..]), Some(s.warmup[0]))
    else if s.pos < Oldest(sent) then
      // lagged: resynchronise with the oldest tag there is
      (Subscriber([], Oldest(sent) + 1, s.lost + Oldest(sent) - s.pos), Some(sent[Oldest(sent)]))
    else if s.pos < |sent| then (s.(pos := s.pos + 1), Some(sent[s.pos]))
    else (s, None)
  }

  datatype Event = Publish(t: FlvTag) | Take

  /** The stream so far, the subscriber, and what it got. */
  datatype Session = Session(sent: seq<FlvTag>, sub: Subscriber, got: seq<FlvTag>)

  /** A subscription made between two publishes. */
  function Subscribe(log: seq<FlvTag>): Session
  {
    Session(log, Subscriber(Snapshot(CacheOf(log)), |log|, 0), [])
  }

  function Step(s: Session, e: Event): Session
  {
    match e
    case Publish(t) => s.(sent := s.sent + [t])
    case Take =>
      var (sub, tag) := Next(s.sub, s.sent);
      s.(sub := sub, got := s.got + ToSeq(tag))
  }

  function Run(s: Session, events: seq<Event>): Session
  {
    if events == [] then s else Step(Run(s, events[..|events| - 1]), events[|events| - 1])
  }

  /** Up to loss by lagging, the subscriber got the snapshot and then every later tag in order. */
  ghost predicate InStep(log: seq<FlvTag>, s: Session)
  {
    && log <= s.sent && s.sub.pos <= |s.sent|
    && |s.sub.warmup| <= |Snapshot(CacheOf(log))|
    && (if s.sub.warmup != [] then
          s.got + s.sub.warmup == Snapshot(CacheOf(log)) && s.sub.pos == |log| && s.sub.lost == 0
        else
          && |s.got| + s.sub.lost == |Snapshot(CacheOf(log))| + (s.sub.pos - |log|) && s.sub.pos >= |log|
          && Subsequence(s.got, Snapshot(CacheOf(log)) + s.sent[|log|..s.sub.pos])
          && (s.sub.lost == 0 ==> s.got == Snapshot(CacheOf(log)) + s.sent[|log|..s.sub.pos]))
  }

  lemma {:induction false} SubsequenceOfItself<T>(s: seq<T>)
    ensures Subsequence(s, s)
  {
    TakeAllOrNone([], [], s);
    EmptyConcat(s);
  }

  /** The next tag, behind those that were lost. */
  lemma {:induction false} NextInOrder(got: seq<FlvTag>, snap: seq<FlvTag>, sent: seq<FlvTag>, from: nat, pos: nat, at: nat)
    requires from <= pos <= at < |sent| && Subsequence(got, snap + sent[from..pos])
    ensures Subsequence(got + [sent[at]], snap + sent[from..at + 1])
  {
    hide Subsequence;
    TakeAllOrNone(got, snap + sent[from..pos], sent[pos..at]);
    TakenOrNot(got, snap + sent[from..pos] + sent[pos..at], sent[at]);
    assert snap + sent[from..at + 1] == snap + sent[from..pos] + sent[pos..at] + [sent[at]];
  }

  lemma {:induction false} StepKeeps(log: seq<FlvTag>, s: Session, e: Event)
    requires InStep(log, s)
    ensures InStep(log, Step(s, e))
  {
    hide Snapshot, CacheOf, Subsequence;
    var r := Step(s, e);
    match e
    case Publish(t) =>
      assert s.sub.warmup == [] ==> r.sent[|log|..s.sub.pos] == s.sent[|log|..s.sub.pos];
    case Take =>
      var snap := Snapshot(CacheOf(log));
      if s.sub.warmup != [] {
        HeadTail(s.sub.warmup);
        ConcatAssoc(s.got, [s.sub.warmup[0]], s.sub.warmup[1..]);
        if |s.sub.warmup| == 1 {
          EmptyConcat(s.got + [s.sub.warmup[0]]);
          assert s.sent[|log|..|log|] == [];
          EmptyConcat(snap);
          SubsequenceOfItself(snap);
        }
      } else if s.sub.pos < |s.sent| {
        TakeKeeps(log, s);
      } else {
        EmptyConcat(s.got);
      }
  }

  lemma {:induction false} TakeKeeps(log: seq<FlvTag>, s: Session)
    requires InStep(log, s) && s.sub.warmup == [] && s.sub.pos < |s.sent|
    ensures InStep(log, Step(s, Take))
  {
    hide Snapshot, CacheOf, Subsequence;
    var snap := Snapshot(CacheOf(log));
    var at := if s.sub.pos < Oldest(s.sent) then Oldest(s.sent) else s.sub.pos;
    NextInOrder(s.got, snap, s.sent, |log|, s.sub.pos, at);
    if at == s.sub.pos && s.sub.lost == 0 {
      assert s.sent[|log|..s.sub.pos + 1] == s.sent[|log|..s.sub.pos] + [s.sent[s.sub.pos]];
      ConcatAssoc(snap, s.sent[|log|..s.sub.pos], [s.sent[s.sub.pos]]);
    }
  }

  lemma {:induction false} SubscribeInStep(log: seq<FlvTag>)
    ensures InStep(log, Subscribe(log))
  {
    hide Snapshot, CacheOf, Subsequence;
    EmptyConcat(Snapshot(CacheOf(log)));
    assert log[|log|..|log|] == [];
    SubsequenceOfItself(Snapshot(CacheOf(log)));
  }

  lemma {:induction false} RunKeeps(log: seq<FlvTag>, events: seq<Event>)
    ensures InStep(log, Run(Subscribe(log), events))
  {
    if events == [] {
      SubscribeInStep(log);
    } else {
      hide InStep, Step, Subscribe;
      RunKeeps(log, events[..|events| - 1]);
      StepKeeps(log, Run(Subscribe(log), events[..|events| - 1]), events[|events| - 1]);
    }
  }

  /** A subscriber that came between two publishes got, in order, tags of: the latest metadata and headers,
  the current group of pictures, and then every tag published since; all of them, one after the other, as
  long as it never lagged. */
  lemma {:induction false} NewcomerSeesTheStream(log: seq<FlvTag>, events: seq<Event>) returns (k: nat, tags: seq<FlvTag>)
    ensures Warmup(log, k, CacheOf(log), tags)
    ensures var s := Run(Subscribe(log), events);
            && s.sent == log + PublishedIn(events)
            && Subsequence(s.got, tags + PublishedIn(events))
            && (s.sub.lost == 0 ==> s.got <= tags + PublishedIn(events))
  {
    hide Run, Subscribe, Snapshot, CacheOf, Warmup, Subsequence;
    k := SnapshotIsWarmup(log);
    tags := Snapshot(CacheOf(log));
    RunKeeps(log, events);
    SentIsPublished(log, events);
    var s := Run(Subscribe(log), events);
    assert s.sent[|log|..] == PublishedIn(events);
    if s.sub.warmup != [] {
      Prefix(s.got, s.sub.warmup, s.sent[|log|..]);
      SubsequenceOfItself(s.got);
      TakeAllOrNone(s.got, s.got, s.sub.warmup + s.sent[|log|..]);
      ConcatAssoc(s.got, s.sub.warmup, s.sent[|log|..]);
    } else {
      assert s.sent[|log|..] == s.sent[|log|..s.sub.pos] + s.sent[s.sub.pos..];
      TakeAllOrNone(s.got, tags + s.sent[|log|..s.sub.pos], s.sent[s.sub.pos..]);
      ConcatAssoc(tags, s.sent[|log|..s.sub.pos], s.sent[s.sub.pos..]);
    }
  }

  function PublishedIn(events: seq<Event>): seq<FlvTag>
  {
    if events == [] then []
    else PublishedIn(events[..|events| - 1]) + if events[|events| - 1].Publish? then [events[|events| - 1].t] else []
  }

  lemma {:induction false} SentIsPublished(log: seq<FlvTag>, events: seq<Event>)
    ensures Run(Subscribe(log), events).sent == log + PublishedIn(events)
  {
    if events == [] {
      EmptyConcat(log);
    } else {
      hide Subscribe, Next;
      var before, e := events[..|events| - 1], events[|events| - 1];
      SentIsPublished(log, before);
      if e.Publish? {
        ConcatAssoc(log, PublishedIn(before), [e.t]);
      } else {
        EmptyConcat(PublishedIn(before));
      }
    }
  }

  lemma {:induction false} Prefix(a: seq<FlvTag>, b: seq<FlvTag>, c: seq<FlvTag>)
    ensures a <= a + b + c
  {}

  /** Whoever asks gets a tag as long as there is one it neither got nor lost; behind the snapshot it is the
  next one, or, if more than 1024 are waiting, the oldest of the last 1024. */
  lemma {:induction false} TakeGetsTheNext(log: seq<FlvTag>, events: seq<Event>)
    ensures var s := Run(Subscribe(log), events);
            var r := Step(s, Take);
            var all := |Snapshot(CacheOf(log))| + |s.sent| - |log|;
            && s.got <= r.got && |r.got| == |s.got| + (if |s.got| + s.sub.lost < all then 1 else 0)
            && (|Snapshot(CacheOf(log))| <= |s.got| + s.sub.lost < all ==>
                  var waiting := all - |s.got| - s.sub.lost;
                  r.got[|s.got|] == s.sent[|s.sent| - if waiting > 1024 then 1024 else waiting])
  {
    hide Run, Subscribe, Snapshot, CacheOf, Subsequence;
    RunKeeps(log, events);
    var s := Run(Subscribe(log), events);
    if s.sub.warmup != [] {
      assert |s.got + s.sub.warmup| == |s.got| + |s.sub.warmup|;
    }
  }

  /** What it got and what it lost add up to what there was; it loses something only when more than
  1024 tags were waiting for it. */
  lemma {:induction false} LostByLagging(log: seq<FlvTag>, events: seq<Event>)
    ensures var s := Run(Subscribe(log), events);
            && (s.sub.warmup == [] ==> |s.got| + s.sub.lost == |Snapshot(CacheOf(log))| + (s.sub.pos - |log|))
            && (Next(s.sub, s.sent).0.lost > s.sub.lost <==> s.sub.warmup == [] && |s.sent| - s.sub.pos > 1024)
  {
    hide Run, Subscribe, Snapshot, CacheOf, Subsequence;
    RunKeeps(log, events);
  }
}
