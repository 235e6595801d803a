/** What holds in a room over every run: numbering and size of the packet stream, and what reaches
each subscriber. */
module SfuRuns {
  import opened Bytes
  import opened Division
  import opened Options
  import opened Seqs
  import opened Rtp
  import opened Sfu

  function Run(start: Room, events: seq<Event>): Room
  {
    if events == [] then start else Step(Run(start, events[..|events| - 1]), events[|events| - 1])
  }

  ghost predicate Fresh(r: Room)
  {
    r.subs == [] && r.log == [] && r.packetsVideo == 0 && r.packetsAudio == 0
  }

  // ---------- the packet stream ----------

  /** The packets of one payload type. */
  function OfType(log: seq<RtpPacket>, pt: Byte): seq<RtpPacket>
  {
    if log == [] then []
    else
      var p := log[|log| - 1];
      OfType(log[..|log| - 1], pt) + if p.payloadType == pt then [p] else []
  }

  /** Packet `k` of a stream has number `first + k` modulo 2^16. */
  ghost predicate Consecutive(ps: seq<RtpPacket>, first: U16)
  {
    forall k :: 0 <= k < |ps| ==> ps[k].sequenceNumber == SeqAt(first, k)
  }

  ghost predicate AllFit(ps: seq<RtpPacket>)
  {
    forall k :: 0 <= k < |ps| ==> |Serialize(ps[k])| <= MTU
  }

  ghost predicate StreamOk(r: Room, video: U16, audio: U16)
  {
    var v, a := OfType(r.log, VIDEO_PT), OfType(r.log, AUDIO_PT);
    && Consecutive(v, video) && r.videoSeq == SeqAt(video, |v|) && r.packetsVideo == |v| && AllFit(v)
    && Consecutive(a, audio) && r.audioSeq == SeqAt(audio, |a|) && r.packetsAudio == |a|
  }

  lemma {:induction false} TypeSnoc(log: seq<RtpPacket>, p: RtpPacket, pt: Byte)
    ensures OfType(log + [p], pt) == OfType(log, pt) + if p.payloadType == pt then [p] else []
  {
    assert (log + [p])[..|log|] == log;
  }

  lemma {:induction false} TypeConcat(log: seq<RtpPacket>, ps: seq<RtpPacket>, pt: Byte)
    ensures OfType(log + ps, pt) == OfType(log, pt) + OfType(ps, pt)
  {
    if ps == [] {
      EmptyConcat(log);
      EmptyConcat(OfType(log, pt));
    } else {
      var init, p := ps[..|ps| - 1], ps[|ps| - 1];
      TypeConcat(log, init, pt);
      assert ps == init + [p];
      ConcatAssoc(log, init, [p]);
      TypeSnoc(log + init, p, pt);
      TypeSnoc(init, p, pt);
      ConcatAssoc(OfType(log, pt), OfType(init, pt), if p.payloadType == pt then [p] else []);
    }
  }

  lemma {:induction false} AllOfType(ps: seq<RtpPacket>, pt: Byte, other: Byte)
    requires pt != other && forall k :: 0 <= k < |ps| ==> ps[k].payloadType == pt
    ensures OfType(ps, pt) == ps && OfType(ps, other) == []
  {
    if ps != [] {
      AllOfType(ps[..|ps| - 1], pt, other);
      assert ps == ps[..|ps| - 1] + [ps[|ps| - 1]];
    }
  }

  lemma {:induction false} SeqAtAdds(first: U16, n: nat, k: nat)
    ensures SeqAt(SeqAt(first, n), k) == SeqAt(first, n + k)
  {
    ModAdd(first + n, k, 0x1_0000);
  }

  lemma {:induction false} ConsecutiveGrows(old_: seq<RtpPacket>, ps: seq<RtpPacket>, first: U16)
    requires Consecutive(old_, first) && Consecutive(ps, SeqAt(first, |old_|))
    ensures Consecutive(old_ + ps, first) && SeqAt(SeqAt(first, |old_|), |ps|) == SeqAt(first, |old_ + ps|)
  {
    hide SeqAt;
    forall k | 0 <= k < |old_ + ps| ensures (old_ + ps)[k].sequenceNumber == SeqAt(first, k) {
      if k >= |old_| {
        SeqAtAdds(first, |old_|, k - |old_|);
      }
    }
    SeqAtAdds(first, |old_|, |ps|);
  }

  /** The packets of an access unit: consecutive numbers, none too long for the network, and exactly
  one marker, on the last. */
  lemma {:induction false} AccessUnit(r: Room, nalus: seq<Nalu>, ts: U32)
    ensures var ps := VideoPackets(r, nalus, ts);
            && Consecutive(ps, r.videoSeq) && AllFit(ps)
            && (forall k :: 0 <= k < |ps| ==> ps[k].payloadType == VIDEO_PT && (ps[k].marker <==> k == |ps| - 1))
            && (forall k :: 0 <= k < |ps| ==> ps[k].timestamp == ts * 90 % 0x1_0000_0000 && ps[k].ssrc == r.videoSsrc)
            && (ps == [] <==> forall i :: 0 <= i < |nalus| ==> nalus[i] == [])
  {
    AnyPacketizable(nalus);
    WireFitsMtu(nalus, MTU);
    NoPayloads(nalus);
    var ps := VideoPackets(r, nalus, ts);
    forall k | 0 <= k < |ps| ensures |Serialize(ps[k])| <= MTU {
      SerializeRoundTrip(ps[k]);
    }
  }

  /** What the receivers of packets parse off the wire, one payload for each. */
  function WirePayloads(ps: seq<RtpPacket>): seq<seq<Byte>>
  {
    seq(|ps|, (i: int) requires 0 <= i < |ps| => var w := ParseWire(Serialize(ps[i])); if w.Some? then w.value.payload else [])
  }

  /** A push adds the packets of its access unit to the stream, however it is handed over. */
  lemma {:induction false} PushEmits(r: Room, nalus: seq<Nalu>, ts: U32)
    ensures Step(r, PushNalus(nalus, ts)).log == r.log + VideoPackets(r, nalus, ts)
    ensures AllFramed(nalus) ==> Step(r, PushAvcc(Avcc(nalus), ts)) == Step(r, PushNalus(nalus, ts))
  {
    hide Payloads, Avcc, ExtractFrom, EmitAll, VideoPackets;
    var ps := VideoPackets(r, nalus, ts);
    EmitAllLog(r.(videoSeq := SeqAt(r.videoSeq, |ps|), packetsVideo := r.packetsVideo + |ps|), ps);
    if AllFramed(nalus) {
      AllExtracted(nalus);
    }
  }

  lemma {:induction false} AllExtracted(nalus: seq<Nalu>)
    requires AllFramed(nalus)
    ensures ExtractFrom(Avcc(nalus), 0) == nalus
  {
    var data := Avcc(nalus);
    assert data[0..|data|] == data && ExtractFrom(data, |data|) == [];
    ExtractIsLongest(data, 0, nalus, |data|);
    EmptyConcat(nalus);
  }

  /** From the length-prefixed bytes pushed into the room to the NALUs a receiver rebuilds from what the push
  added to the stream. */
  lemma {:induction false} AccessUnitArrives(r: Room, nalus: seq<Nalu>, ts: U32)
    requires AllFramed(nalus) && forall k :: 0 <= k < |nalus| ==> nalus[k][0] < 0x80 && nalus[k][0] % 0x20 < 24
    ensures var log := Step(r, PushAvcc(Avcc(nalus), ts)).log;
            r.log <= log && Depacketize(WirePayloads(log[|r.log|..]), None) == Some(nalus)
  {
    PushEmits(r, nalus, ts);
    AllExtracted(nalus);
    hide Serialize, ParseWire, Depacketize, Payloads, Avcc, ExtractFrom, Step;
    AnyPacketizable(nalus);
    var ps, payloads := VideoPackets(r, nalus, ts), Payloads(nalus, MTU);
    forall k | 0 <= k < |ps| ensures WirePayloads(ps)[k] == payloads[k] {
      SerializeRoundTrip(ps[k]);
    }
    assert WirePayloads(ps) == payloads;
    assert (r.log + ps)[|r.log|..] == ps;
    AccessUnitRoundTrip(nalus, MTU);
  }

  /** An AAC frame is one packet, marked, with the next audio number, and arrives if it is shorter than 8192
  bytes. */
  lemma {:induction false} AudioArrives(r: Room, raw: seq<Byte>, samples: U32)
    ensures var s := Step(r, PushAudio(raw, samples));
            && |s.log| == |r.log| + 1 && s.log[..|r.log|] == r.log
            && var w := ParseWire(Serialize(s.log[|r.log|]));
            && w.Some? && w.value.payloadType == 97 && w.value.sequenceNumber == r.audioSeq && w.value.timestamp == samples
            && w.value.ssrc == r.audioSsrc && w.value.marker && (ParseAac(w.value.payload) == Some(raw) <==> |raw| < 8192)
  {
    hide Serialize, ParseWire, AacPayload, ParseAac, Fanout;
    SerializeRoundTrip(RtpPacket(AUDIO_PT, r.audioSeq, samples, r.audioSsrc, true, AacPayload(raw)));
    AacRoundTrip(raw);
  }

  lemma {:induction false} NoPayloads(nalus: seq<Nalu>)
    requires AllPacketizable(nalus, MTU)
    ensures Payloads(nalus, MTU) == [] <==> forall i :: 0 <= i < |nalus| ==> nalus[i] == []
  {
    if nalus != [] {
      NoPayloads(nalus[1..]);
      var n := nalus[0];
      if |n| > MtuPayload(MTU) {
        assert Fragments(n[0], n[1..], 0, Chunk(MTU)) != [];
      }
      assert (forall i :: 0 <= i < |nalus| ==> nalus[i] == [])
        <==> n == [] && forall i :: 0 <= i < |nalus[1..]| ==> nalus[1..][i] == [] by {
        assert forall i :: 1 <= i < |nalus| ==> nalus[i] == nalus[1..][i - 1];
      }
    }
  }

  lemma {:induction false} EmitAllLog(r: Room, ps: seq<RtpPacket>)
    ensures EmitAll(r, ps) == r.(subs := EmitAll(r, ps).subs, log := r.log + ps)
  {
    if ps == [] {
      EmptyConcat(r.log);
    } else {
      hide Fanout;
      EmitAllLog(r, ps[..|ps| - 1]);
      assert ps == ps[..|ps| - 1] + [ps[|ps| - 1]];
      ConcatAssoc(r.log, ps[..|ps| - 1], [ps[|ps| - 1]]);
    }
  }

  lemma {:induction false} FitGrows(a: seq<RtpPacket>, b: seq<RtpPacket>)
    requires AllFit(a) && AllFit(b)
    ensures AllFit(a + b)
  {
    hide Serialize;
  }

  lemma {:induction false} VideoStream(r: Room, nalus: seq<Nalu>, ts: U32, video: U16, audio: U16)
    requires StreamOk(r, video, audio)
    ensures StreamOk(PushedVideo(r, nalus, ts), video, audio)
  {
    hide OfType, Consecutive, AllFit, VideoPackets, SeqAt;
    var ps := VideoPackets(r, nalus, ts);
    var v := OfType(r.log, VIDEO_PT);
    AccessUnit(r, nalus, ts);
    EmitAllLog(r.(videoSeq := SeqAt(r.videoSeq, |ps|), packetsVideo := r.packetsVideo + |ps|), ps);
    TypeConcat(r.log, ps, VIDEO_PT);
    TypeConcat(r.log, ps, AUDIO_PT);
    AllOfType(ps, VIDEO_PT, AUDIO_PT);
    EmptyConcat(OfType(r.log, AUDIO_PT));
    ConsecutiveGrows(v, ps, video);
    FitGrows(v, ps);
  }

  lemma {:induction false} AudioStream(r: Room, raw: seq<Byte>, samples: U32, video: U16, audio: U16)
    requires StreamOk(r, video, audio)
    ensures StreamOk(PushedAudio(r, raw, samples), video, audio)
  {
    hide OfType, AllFit, AacPayload, Fanout;
    var p := RtpPacket(AUDIO_PT, r.audioSeq, samples, r.audioSsrc, true, AacPayload(raw));
    var a := OfType(r.log, AUDIO_PT);
    TypeSnoc(r.log, p, VIDEO_PT);
    TypeSnoc(r.log, p, AUDIO_PT);
    EmptyConcat(OfType(r.log, VIDEO_PT));
    assert SeqAt(SeqAt(audio, |a|), 0) == SeqAt(audio, |a|);
    ConsecutiveGrows(a, [p], audio);
  }

  lemma {:induction false} RunStream(start: Room, events: seq<Event>)
    requires Fresh(start)
    ensures StreamOk(Run(start, events), start.videoSeq, start.audioSeq)
  {
    if events != [] {
      hide StreamOk, PushedVideo, PushedAudio, Fresh;
      var before, e := events[..|events| - 1], events[|events| - 1];
      var r := Run(start, before);
      RunStream(start, before);
      match e
      case PushAvcc(avcc, ts) => VideoStream(r, ExtractFrom(avcc, 0), ts, start.videoSeq, start.audioSeq);
      case PushNalus(nalus, ts) => VideoStream(r, nalus, ts, start.videoSeq, start.audioSeq);
      case PushAudio(raw, samples) => AudioStream(r, raw, samples, start.videoSeq, start.audioSeq);
      case _ => SameStream(r, Step(r, e), start.videoSeq, start.audioSeq);
    }
  }

  lemma {:induction false} SameStream(r: Room, s: Room, video: U16, audio: U16)
    requires StreamOk(r, video, audio) && s == r.(subs := s.subs)
    ensures StreamOk(s, video, audio)
  {}

  /** Over every run of pushes, subscriptions and hang-ups: the k-th video packet of the room has
  number first + k modulo 2^16 and fits the network, and the counters count. */
  lemma {:induction false} VideoNumbered(start: Room, events: seq<Event>, k: nat)
    requires Fresh(start) && k < |OfType(Run(start, events).log, VIDEO_PT)|
    ensures var v := OfType(Run(start, events).log, VIDEO_PT);
            && v[k].sequenceNumber == SeqAt(start.videoSeq, k) && |Serialize(v[k])| <= MTU
            && Run(start, events).packetsVideo == |v|
  {
    hide OfType, Run, Fresh, Serialize;
    RunStream(start, events);
  }

  /** The same for audio. */
  lemma {:induction false} AudioNumbered(start: Room, events: seq<Event>, k: nat)
    requires Fresh(start) && k < |OfType(Run(start, events).log, AUDIO_PT)|
    ensures var a := OfType(Run(start, events).log, AUDIO_PT);
            a[k].sequenceNumber == SeqAt(start.audioSeq, k) && Run(start, events).packetsAudio == |a|
  {
    hide OfType, Run, Fresh, Serialize;
    RunStream(start, events);
  }

  // ---------- what a subscriber gets ----------

  /** A listed subscriber: of the packets since it subscribed it got all but those refused, in order. */
  ghost predicate Served(s: Subscriber, log: seq<RtpPacket>)
  {
    && s.since <= |log|
    && |s.got| + s.refused == |log| - s.since
    && Subsequence(s.got, log[s.since..])
    && (s.refused == 0 ==> s.got == log[s.since..])
    && s.waiting <= s.capacity && s.waiting <= |s.got|
  }

  ghost predicate AllServed(r: Room)
  {
    forall i :: 0 <= i < |r.subs| ==> Served(r.subs[i], r.log)
  }

  lemma {:induction false} OfferedServed(s: Subscriber, log: seq<RtpPacket>, p: RtpPacket)
    requires Served(s, log)
    ensures Served(Offered(s, p), log + [p])
  {
    assert (log + [p])[s.since..] == log[s.since..] + [p];
    TakenOrNot(s.got, log[s.since..], p);
  }

  lemma {:induction false} FanoutServed(subs: seq<Subscriber>, log: seq<RtpPacket>, p: RtpPacket)
    requires forall i :: 0 <= i < |subs| ==> Served(subs[i], log)
    ensures forall i :: 0 <= i < |Fanout(subs, p)| ==> Served(Fanout(subs, p)[i], log + [p])
  {
    if subs != [] {
      OfferedServed(subs[0], log, p);
      hide Served, Offered;
      FanoutServed(subs[1..], log, p);
      var head, tail := if subs[0].open then [Offered(subs[0], p)] else [], Fanout(subs[1..], p);
      assert Fanout(subs, p) == head + tail;
    }
  }

  lemma {:induction false} EmitAllServed(r: Room, ps: seq<RtpPacket>)
    requires AllServed(r)
    ensures AllServed(EmitAll(r, ps))
  {
    if ps != [] {
      hide Served, Fanout;
      var q := EmitAll(r, ps[..|ps| - 1]);
      EmitAllServed(r, ps[..|ps| - 1]);
      FanoutServed(q.subs, q.log, ps[|ps| - 1]);
    }
  }

  lemma {:induction false} WithoutServed(subs: seq<Subscriber>, id: string, log: seq<RtpPacket>)
    requires forall i :: 0 <= i < |subs| ==> Served(subs[i], log)
    ensures forall i :: 0 <= i < |Without(subs, id)| ==> Served(Without(subs, id)[i], log) && Without(subs, id)[i].id != id
  {
    hide Served;
    if subs != [] {
      WithoutServed(subs[1..], id, log);
      var head, tail := if subs[0].id == id then [] else [subs[0]], Without(subs[1..], id);
      assert Without(subs, id) == head + tail;
    }
  }

  lemma {:induction false} StepServes(r: Room, e: Event)
    requires AllServed(r)
    ensures AllServed(Step(r, e))
  {
    match e
    case PushAvcc(avcc, ts) => VideoServed(r, ExtractFrom(avcc, 0), ts);
    case PushNalus(nalus, ts) => VideoServed(r, nalus, ts);
    case PushAudio(raw, samples) =>
      hide Served, Fanout;
      FanoutServed(r.subs, r.log, RtpPacket(AUDIO_PT, r.audioSeq, samples, r.audioSsrc, true, AacPayload(raw)));
    case Subscribe(id, capacity) => NewcomerServed(id, capacity, r.log);
    case Unsubscribe(id) => WithoutServed(r.subs, id, r.log);
    case Receive(i) => hide Subsequence;
    case Hangup(i) => hide Subsequence;
  }

  lemma {:induction false} NewcomerServed(id: string, capacity: nat, log: seq<RtpPacket>)
    ensures Served(Subscriber(id, true, capacity, 0, [], |log|, 0), log)
  {
    assert log[|log|..] == [];
  }

  lemma {:induction false} VideoServed(r: Room, nalus: seq<Nalu>, ts: U32)
    requires AllServed(r)
    ensures AllServed(PushedVideo(r, nalus, ts))
  {
    hide Served, Fanout, EmitAll, Stamp;
    var ps := VideoPackets(r, nalus, ts);
    EmitAllServed(r.(videoSeq := SeqAt(r.videoSeq, |ps|), packetsVideo := r.packetsVideo + |ps|), ps);
  }

  lemma {:induction false} RunServes(start: Room, events: seq<Event>)
    requires Fresh(start)
    ensures AllServed(Run(start, events))
  {
    if events != [] {
      hide Step, AllServed, Fresh;
      RunServes(start, events[..|events| - 1]);
      StepServes(Run(start, events[..|events| - 1]), events[|events| - 1]);
    }
  }

  /** Over every run: what a subscriber in the room got is, in order and without repetition, the
  stream since it subscribed less the packets its full queue refused; the whole of it if it never
  refused one. */
  lemma {:induction false} SubscribersServed(start: Room, events: seq<Event>, i: nat)
    requires Fresh(start) && i < |Run(start, events).subs|
    ensures var r := Run(start, events);
            var s := r.subs[i];
            && s.since <= |r.log| && |s.got| + s.refused == |r.log| - s.since
            && Subsequence(s.got, r.log[s.since..])
            && (s.got == r.log[s.since..] <==> s.refused == 0)
            && s.waiting <= s.capacity
  {
    hide Run, Subsequence, Fresh;
    RunServes(start, events);
    assert Served(Run(start, events).subs[i], Run(start, events).log);
  }

  // ---------- who is served ----------

  /** The subscribers whose end is open. */
  function OpenOnes(subs: seq<Subscriber>): seq<Subscriber>
  {
    if subs == [] then []
    else OpenOnes(subs[..|subs| - 1]) + if subs[|subs| - 1].open then [subs[|subs| - 1]] else []
  }

  /** A queue takes packets as long as it has room and refuses the rest. */
  predicate TookWhatFits(before: Subscriber, after: Subscriber, ps: seq<RtpPacket>)
  {
    var n := Min(|ps|, Max(before.capacity - before.waiting, 0));
    && after.id == before.id && after.open == before.open && after.capacity == before.capacity && after.since == before.since
    && after.got == before.got + ps[..n] && after.waiting == before.waiting + n && after.refused == before.refused + |ps| - n
  }

  /** Everybody in `before`, in the same order, after the packets were offered. */
  ghost predicate EachTook(before: seq<Subscriber>, after: seq<Subscriber>, ps: seq<RtpPacket>)
  {
    |after| == |before| && forall i :: 0 <= i < |before| ==> TookWhatFits(before[i], after[i], ps)
  }

  lemma {:induction false} OpenOnesFront(subs: seq<Subscriber>)
    requires subs != []
    ensures OpenOnes(subs) == (if subs[0].open then [subs[0]] else []) + OpenOnes(subs[1..])
  {
    if |subs| == 1 {
      assert subs[..0] == [] && subs[1..] == [];
      EmptyConcat(if subs[0].open then [subs[0]] else []);
    } else {
      var init := subs[..|subs| - 1];
      OpenOnesFront(init);
      assert subs[1..][..|subs[1..]| - 1] == init[1..] && subs[1..][|subs[1..]| - 1] == subs[|subs| - 1];
      ConcatAssoc(if subs[0].open then [subs[0]] else [], OpenOnes(init[1..]), if subs[|subs| - 1].open then [subs[|subs| - 1]] else []);
    }
  }

  lemma {:induction false} FanoutDelivers(subs: seq<Subscriber>, p: RtpPacket)
    ensures EachTook(OpenOnes(subs), Fanout(subs, p), [p])
  {
    if subs != [] {
      OpenOnesFront(subs);
      FanoutDelivers(subs[1..], p);
      hide OpenOnes;
      var head, tail := if subs[0].open then [Offered(subs[0], p)] else [], Fanout(subs[1..], p);
      assert Fanout(subs, p) == head + tail;
      var before := OpenOnes(subs);
      forall i | 0 <= i < |before| ensures TookWhatFits(before[i], Fanout(subs, p)[i], [p]) {
        if subs[0].open && i == 0 {
          assert [p][..1] == [p] && [p][..0] == [];
        } else {
          var j := if subs[0].open then i - 1 else i;
          assert before[i] == OpenOnes(subs[1..])[j] && Fanout(subs, p)[i] == tail[j];
        }
      }
    }
  }

  lemma {:induction false} AllOpen(subs: seq<Subscriber>)
    requires forall i :: 0 <= i < |subs| ==> subs[i].open
    ensures OpenOnes(subs) == subs
  {
    if subs != [] {
      AllOpen(subs[..|subs| - 1]);
    }
  }

  lemma {:induction false} OpenOnesOpen(subs: seq<Subscriber>)
    ensures forall i :: 0 <= i < |OpenOnes(subs)| ==> OpenOnes(subs)[i].open
  {
    if subs != [] {
      OpenOnesOpen(subs[..|subs| - 1]);
    }
  }

  lemma {:induction false} OneMoreOffer(a: Subscriber, b: Subscriber, c: Subscriber, ps: seq<RtpPacket>, p: RtpPacket)
    requires TookWhatFits(a, b, ps) && TookWhatFits(b, c, [p])
    ensures TookWhatFits(a, c, ps + [p])
  {
    assert ps + [p] == (ps + [p])[..|ps| + 1];
    assert [p][..1] == [p] && [p][..0] == [];
    assert forall n :: 0 <= n <= |ps| ==> (ps + [p])[..n] == ps[..n];
    assert ps[..|ps|] == ps;
  }

  /** One push, of at least one packet: the subscribers whose end is closed are gone, all others are still
  there, in their order, and each got as many of the packets as its queue had room for. */
  lemma {:induction false} PushDelivers(r: Room, ps: seq<RtpPacket>)
    ensures ps != [] ==> EachTook(OpenOnes(r.subs), EmitAll(r, ps).subs, ps)
    ensures ps == [] ==> EmitAll(r, ps).subs == r.subs
  {
    if ps != [] {
      hide TookWhatFits, Fanout, OpenOnes;
      var init, p := ps[..|ps| - 1], ps[|ps| - 1];
      var q := EmitAll(r, init);
      PushDelivers(r, init);
      FanoutDelivers(q.subs, p);
      assert ps == init + [p];
      if init == [] {
        assert ps == [p];
      } else {
        OpenOnesOpen(r.subs);
        OpenStays(OpenOnes(r.subs), q.subs, init);
        AllOpen(q.subs);
        var before, after := OpenOnes(r.subs), EmitAll(r, ps).subs;
        forall i | 0 <= i < |before| ensures TookWhatFits(before[i], after[i], ps) {
          OneMoreOffer(before[i], q.subs[i], after[i], init, p);
        }
      }
    }
  }

  lemma {:induction false} VideoPushDelivers(r: Room, nalus: seq<Nalu>, ts: U32)
    ensures var ps, after := VideoPackets(r, nalus, ts), Step(r, PushNalus(nalus, ts)).subs;
            if ps == [] then after == r.subs else EachTook(OpenOnes(r.subs), after, ps)
  {
    hide EachTook, OpenOnes, VideoPackets, EmitAll;
    var ps := VideoPackets(r, nalus, ts);
    PushDelivers(r.(videoSeq := SeqAt(r.videoSeq, |ps|), packetsVideo := r.packetsVideo + |ps|), ps);
  }

  lemma {:induction false} AudioPushDelivers(r: Room, raw: seq<Byte>, samples: U32)
    ensures EachTook(OpenOnes(r.subs), Step(r, PushAudio(raw, samples)).subs,
                     [RtpPacket(97, r.audioSeq, samples, r.audioSsrc, true, AacPayload(raw))])
  {
    hide EachTook, OpenOnes, AacPayload, Fanout;
    FanoutDelivers(r.subs, RtpPacket(AUDIO_PT, r.audioSeq, samples, r.audioSsrc, true, AacPayload(raw)));
  }

  lemma {:induction false} OpenStays(before: seq<Subscriber>, after: seq<Subscriber>, ps: seq<RtpPacket>)
    requires EachTook(before, after, ps) && forall i :: 0 <= i < |before| ==> before[i].open
    ensures forall i :: 0 <= i < |after| ==> after[i].open
  {
    hide Min, Max;
    forall i | 0 <= i < |after| ensures after[i].open {
      assert TookWhatFits(before[i], after[i], ps);
    }
  }

  /** What subscribers do at their end: taking a packet that waits makes room for one; once an end is
  dropped, the next push of anything takes the subscriber off the list. */
  lemma {:induction false} OtherEnd(r: Room, i: nat, nalus: seq<Nalu>, ts: U32)
    requires i < |r.subs|
    ensures var s := Step(r, Receive(i));
            s == r.(subs := r.subs[i := r.subs[i].(waiting := Max(r.subs[i].waiting - 1, 0))])
    ensures var s := Step(Step(r, Hangup(i)), PushNalus(nalus, ts));
            VideoPackets(r, nalus, ts) != [] ==>
              && OpenOnes(Step(r, Hangup(i)).subs) == OpenOnes(r.subs[..i]) + OpenOnes(r.subs[i + 1..])
              && EachTook(OpenOnes(r.subs[..i]) + OpenOnes(r.subs[i + 1..]), s.subs, VideoPackets(r, nalus, ts))
  {
    hide VideoPackets, PushedVideo, EachTook;
    var h := Step(r, Hangup(i));
    VideoPushDelivers(h, nalus, ts);
    SamePackets(r, h, nalus, ts);
    var gone := r.subs[i].(open := false);
    assert h.subs == r.subs[..i] + ([gone] + r.subs[i + 1..]);
    OpenOnesConcat(r.subs[..i], [gone] + r.subs[i + 1..]);
    OpenOnesFront([gone] + r.subs[i + 1..]);
    assert ([gone] + r.subs[i + 1..])[1..] == r.subs[i + 1..];
    EmptyConcat(OpenOnes(r.subs[i + 1..]));
  }

  lemma {:induction false} SamePackets(r: Room, h: Room, nalus: seq<Nalu>, ts: U32)
    requires h.videoSeq == r.videoSeq && h.videoSsrc == r.videoSsrc
    ensures VideoPackets(h, nalus, ts) == VideoPackets(r, nalus, ts)
  {}

  lemma {:induction false} OpenOnesConcat(a: seq<Subscriber>, b: seq<Subscriber>)
    ensures OpenOnes(a + b) == OpenOnes(a) + OpenOnes(b)
  {
    if b == [] {
      EmptyConcat(a);
      EmptyConcat(OpenOnes(a));
    } else {
      var init, last := b[..|b| - 1], b[|b| - 1];
      OpenOnesConcat(a, init);
      assert (a + b)[..|a + b| - 1] == a + init && (a + b)[|a + b| - 1] == last;
      ConcatAssoc(OpenOnes(a), OpenOnes(init), if last.open then [last] else []);
    }
  }

  // ---------- who is in the room ----------

  /** The subscriber `s` is in the room, with what it got before and perhaps more. */
  ghost predicate Present(r: Room, s: Subscriber)
  {
    exists k :: 0 <= k < |r.subs| && Later(s, r.subs[k])
  }

  predicate Later(s: Subscriber, t: Subscriber)
  {
    t.id == s.id && t.open && t.capacity == s.capacity && t.since == s.since && s.got <= t.got
  }

  /** The event does not make a subscriber with this id leave. */
  predicate Spares(r: Room, e: Event, id: string)
  {
    match e
    case Unsubscribe(other) => other != id
    case Hangup(i) => i < |r.subs| ==> r.subs[i].id != id
    case _ => true
  }

  lemma {:induction false} OpenOneListed(subs: seq<Subscriber>, k: nat) returns (j: nat)
    requires k < |subs| && subs[k].open
    ensures j < |OpenOnes(subs)| && OpenOnes(subs)[j] == subs[k]
  {
    var n := |subs| - 1;
    if k == n {
      j := |OpenOnes(subs[..n])|;
    } else {
      j := OpenOneListed(subs[..n], k);
    }
  }

  lemma {:induction false} PushSpares(r: Room, ps: seq<RtpPacket>, s: Subscriber)
    requires Present(r, s)
    ensures Present(EmitAll(r, ps), s)
  {
    hide EmitAll, OpenOnes, Min, Max;
    PushDelivers(r, ps);
    if ps != [] {
      var k :| 0 <= k < |r.subs| && Later(s, r.subs[k]);
      var j := OpenOneListed(r.subs, k);
      assert TookWhatFits(OpenOnes(r.subs)[j], EmitAll(r, ps).subs[j], ps);
      assert Later(s, EmitAll(r, ps).subs[j]);
    }
  }

  lemma {:induction false} WithoutSpares(subs: seq<Subscriber>, id: string, k: nat) returns (j: nat)
    requires k < |subs| && subs[k].id != id
    ensures j < |Without(subs, id)| && Without(subs, id)[j] == subs[k]
  {
    if k == 0 {
      j := 0;
    } else {
      j := WithoutSpares(subs[1..], id, k - 1);
      if subs[0].id != id {
        j := j + 1;
      }
    }
  }

  lemma {:induction false} StepSpares(r: Room, e: Event, s: Subscriber)
    requires Present(r, s) && Spares(r, e, s.id)
    ensures Present(Step(r, e), s)
  {
    hide EmitAll, VideoPackets, Without, Fanout;
    var k :| 0 <= k < |r.subs| && Later(s, r.subs[k]);
    var t := Step(r, e);
    match e
    case PushAvcc(avcc, ts) => VideoSpares(r, ExtractFrom(avcc, 0), ts, s);
    case PushNalus(nalus, ts) => VideoSpares(r, nalus, ts, s);
    case PushAudio(raw, samples) => AudioSpares(r, raw, samples, s);
    case Subscribe(id, capacity) => assert t.subs[k] == r.subs[k];
    case Unsubscribe(id) =>
      var j := WithoutSpares(r.subs, id, k);
      assert Later(s, t.subs[j]);
    case Receive(i) => assert Later(s, t.subs[k]);
    case Hangup(i) => assert Later(s, t.subs[k]);
  }

  lemma {:induction false} VideoSpares(r: Room, nalus: seq<Nalu>, ts: U32, s: Subscriber)
    requires Present(r, s)
    ensures Present(PushedVideo(r, nalus, ts), s)
  {
    hide EmitAll, VideoPackets;
    var ps := VideoPackets(r, nalus, ts);
    PushSpares(r.(videoSeq := SeqAt(r.videoSeq, |ps|), packetsVideo := r.packetsVideo + |ps|), ps, s);
  }

  lemma {:induction false} AudioSpares(r: Room, raw: seq<Byte>, samples: U32, s: Subscriber)
    requires Present(r, s)
    ensures Present(PushedAudio(r, raw, samples), s)
  {
    hide AacPayload;
    var p := RtpPacket(AUDIO_PT, r.audioSeq, samples, r.audioSsrc, true, AacPayload(raw));
    var q := r.(audioSeq := SeqAt(r.audioSeq, 1), packetsAudio := r.packetsAudio + 1);
    PushSpares(q, [p], s);
    assert [p][..0] == [];
    assert EmitAll(q, [p]) == Emit(EmitAll(q, []), p);
  }

  /** From its subscription on, in every continuation in which nobody unsubscribes its id and its end is not
  dropped, a subscriber is in the room, whether its queue fills or not, and what it gets begins with the
  stream at its subscription. */
  lemma {:induction false} SubscriberStays(start: Room, before: seq<Event>, id: string, capacity: nat, more: seq<Event>)
    requires forall j :: 0 <= j < |more| ==> Spares(Run(start, before + [Event.Subscribe(id, capacity)] + more[..j]), more[j], id)
    ensures Present(Run(start, before + [Event.Subscribe(id, capacity)] + more),
                    Subscriber(id, true, capacity, 0, [], |Run(start, before).log|, 0))
    decreases |more|
  {
    hide Run, Step, Present, Spares;
    var joined := before + [Event.Subscribe(id, capacity)];
    var s := Subscriber(id, true, capacity, 0, [], |Run(start, before).log|, 0);
    if more == [] {
      EmptyConcat(joined);
      JustSubscribed(start, before, id, capacity);
    } else {
      var n := |more| - 1;
      forall j | 0 <= j < n ensures Spares(Run(start, joined + more[..n][..j]), more[..n][j], id) {
        assert more[..n][..j] == more[..j];
      }
      SubscriberStays(start, before, id, capacity, more[..n]);
      StepSpares(Run(start, joined + more[..n]), more[n], s);
      OneMoreEvent(start, joined + more[..n], more[n]);
      assert joined + more[..n] + [more[n]] == joined + more;
    }
  }

  lemma {:induction false} JustSubscribed(start: Room, before: seq<Event>, id: string, capacity: nat)
    ensures Present(Run(start, before + [Event.Subscribe(id, capacity)]), Subscriber(id, true, capacity, 0, [], |Run(start, before).log|, 0))
  {
    hide Run;
    OneMoreEvent(start, before, Event.Subscribe(id, capacity));
    var r := Run(start, before + [Event.Subscribe(id, capacity)]);
    assert Later(Subscriber(id, true, capacity, 0, [], |Run(start, before).log|, 0), r.subs[|r.subs| - 1]);
  }

  lemma {:induction false} OneMoreEvent(start: Room, events: seq<Event>, e: Event)
    ensures Run(start, events + [e]) == Step(Run(start, events), e)
  {
    assert (events + [e])[..|events|] == events;
  }

  /** The subscription that put `s` into the room: event `k`, since which nobody unsubscribed its id. */
  ghost predicate JoinedAt(start: Room, events: seq<Event>, s: Subscriber, k: nat)
  {
    && k < |events| && events[k] == Event.Subscribe(s.id, s.capacity) && s.since == |Run(start, events[..k]).log|
    && forall j :: k < j < |events| ==> events[j] != Event.Unsubscribe(s.id)
  }

  ghost predicate Joined(start: Room, events: seq<Event>, s: Subscriber)
  {
    exists k: nat :: JoinedAt(start, events, s, k)
  }

  lemma {:induction false} JoinedStays(start: Room, events: seq<Event>, e: Event, s: Subscriber, t: Subscriber)
    requires Joined(start, events, s) && e != Event.Unsubscribe(s.id)
    requires t.id == s.id && t.capacity == s.capacity && t.since == s.since
    ensures Joined(start, events + [e], t)
  {
    hide Run;
    var k: nat :| JoinedAt(start, events, s, k);
    assert (events + [e])[..k] == events[..k];
    assert JoinedAt(start, events + [e], t, k);
  }

  /** Where the subscribers after an event come from. */
  lemma {:induction false} StepOrigin(r: Room, e: Event, i: nat) returns (j: nat)
    requires i < |Step(r, e).subs|
    ensures var t := Step(r, e).subs[i];
            || (j == |r.subs| && e == Event.Subscribe(t.id, t.capacity) && t.since == |r.log|)
            || (j < |r.subs| && r.subs[j].id == t.id && r.subs[j].capacity == t.capacity && r.subs[j].since == t.since
                && e != Event.Unsubscribe(t.id))
  {
    hide EmitAll, VideoPackets, Fanout;
    match e
    case PushAvcc(avcc, ts) => j := VideoOrigin(r, ExtractFrom(avcc, 0), ts, i);
    case PushNalus(nalus, ts) => j := VideoOrigin(r, nalus, ts, i);
    case PushAudio(raw, samples) =>
      var p := RtpPacket(AUDIO_PT, r.audioSeq, samples, r.audioSsrc, true, AacPayload(raw));
      FanoutDelivers(r.subs, p);
      assert TookWhatFits(OpenOnes(r.subs)[i], Step(r, e).subs[i], [p]);
      j := OpenOneOrigin(r.subs, i);
    case Unsubscribe(id) => j := WithoutOrigin(r.subs, id, i);
    case _ => j := i;
  }

  lemma {:induction false} VideoOrigin(r: Room, nalus: seq<Nalu>, ts: U32, i: nat) returns (j: nat)
    requires i < |PushedVideo(r, nalus, ts).subs|
    ensures var t := PushedVideo(r, nalus, ts).subs[i];
            j < |r.subs| && r.subs[j].id == t.id && r.subs[j].capacity == t.capacity && r.subs[j].since == t.since
  {
    hide EmitAll, VideoPackets;
    var ps := VideoPackets(r, nalus, ts);
    var q := r.(videoSeq := SeqAt(r.videoSeq, |ps|), packetsVideo := r.packetsVideo + |ps|);
    PushDelivers(q, ps);
    j := i;
    if ps != [] {
      assert TookWhatFits(OpenOnes(r.subs)[i], EmitAll(q, ps).subs[i], ps);
      j := OpenOneOrigin(r.subs, i);
    }
  }

  lemma {:induction false} OpenOneOrigin(subs: seq<Subscriber>, i: nat) returns (j: nat)
    requires i < |OpenOnes(subs)|
    ensures j < |subs| && subs[j] == OpenOnes(subs)[i]
  {
    var n := |subs| - 1;
    if i < |OpenOnes(subs[..n])| {
      j := OpenOneOrigin(subs[..n], i);
    } else {
      j := n;
    }
  }

  lemma {:induction false} WithoutOrigin(subs: seq<Subscriber>, id: string, i: nat) returns (j: nat)
    requires i < |Without(subs, id)|
    ensures j < |subs| && subs[j] == Without(subs, id)[i] && subs[j].id != id
  {
    if subs[0].id != id && i == 0 {
      j := 0;
    } else {
      j := WithoutOrigin(subs[1..], id, if subs[0].id != id then i - 1 else i);
      j := j + 1;
    }
  }

  /** Whoever is in the room subscribed, with the stream as long as `since` says, and was not unsubscribed
  after that. */
  lemma {:induction false} OnlySubscribers(start: Room, events: seq<Event>, i: nat)
    requires start.subs == [] && i < |Run(start, events).subs|
    ensures Joined(start, events, Run(start, events).subs[i])
    decreases |events|
  {
    if events != [] {
      hide Step, Joined;
      var n := |events| - 1;
      var before, e := events[..n], events[n];
      var r, t := Run(start, before), Run(start, events).subs[i];
      var j := StepOrigin(r, e, i);
      assert before + [e] == events;
      if j < |r.subs| {
        OnlySubscribers(start, before, j);
        JoinedStays(start, before, e, r.subs[j], t);
      } else {
        JustJoined(start, events, t);
      }
    }
  }

  lemma {:induction false} JustJoined(start: Room, events: seq<Event>, t: Subscriber)
    requires events != [] && events[|events| - 1] == Event.Subscribe(t.id, t.capacity) && t.since == |Run(start, events[..|events| - 1]).log|
    ensures Joined(start, events, t)
  {
    hide Run;
    assert JoinedAt(start, events, t, |events| - 1);
  }
}
