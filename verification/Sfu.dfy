/** One room of the forwarding unit (yunmao-webrtc `sfu.rs`): frames become RTP packets that are
offered to every subscriber's bounded queue. */
module Sfu {
  import opened Bytes
  import opened Options
  import opened Seqs
  import opened Rtp

  const VIDEO_PT: Byte := 96
  const AUDIO_PT: Byte := 97
  const MTU: nat := 1200

  /** A subscriber: its queue's state, everything ever put into it (`got`), and, to speak about it,
  how long the packet stream was when it subscribed and how many packets its full queue refused. */
  datatype Subscriber = Subscriber(id: string, open: bool, capacity: nat, waiting: nat, got: seq<RtpPacket>, since: nat, refused: nat)

  /** `log` is the whole packet stream of the room so far. */
  datatype Room = Room(videoSeq: U16, audioSeq: U16, videoSsrc: U32, audioSsrc: U32, subs: seq<Subscriber>,
                       packetsVideo: nat, packetsAudio: nat, log: seq<RtpPacket>)

  // ---------- fan-out ----------

  /** `try_send` to an open queue: taken, or refused when full. */
  function Offered(s: Subscriber, p: RtpPacket): Subscriber
  {
    if s.waiting < s.capacity then s.(waiting := s.waiting + 1, got := s.got + [p]) else s.(refused := s.refused + 1)
  }

  /** `retain`: closed queues go, full ones stay. */
  function Fanout(subs: seq<Subscriber>, p: RtpPacket): seq<Subscriber>
  {
    if subs == [] then [] else (if subs[0].open then [Offered(subs[0], p)] else []) + Fanout(subs[1..], p)
  }

  function Emit(r: Room, p: RtpPacket): Room
  {
    r.(subs := Fanout(r.subs, p), log := r.log + [p])
  }

  function EmitAll(r: Room, ps: seq<RtpPacket>): Room
  {
    if ps == [] then r else Emit(EmitAll(r, ps[..|ps| - 1]), ps[|ps| - 1])
  }

  lemma {:induction false} AnyPacketizable(nalus: seq<Nalu>)
    ensures AllPacketizable(nalus, MTU)
  {}

  /** The packets of an access unit; the 90 kHz timestamp wraps around. */
  function VideoPackets(r: Room, nalus: seq<Nalu>, ts: U32): seq<RtpPacket>
  {
    AnyPacketizable(nalus);
    Stamp(Payloads(nalus, MTU), r.videoSeq, ts * 90 % TWO32, r.videoSsrc, VIDEO_PT)
  }

  function PushedVideo(r: Room, nalus: seq<Nalu>, ts: U32): Room
  {
    var ps := VideoPackets(r, nalus, ts);
    EmitAll(r.(videoSeq := SeqAt(r.videoSeq, |ps|), packetsVideo := r.packetsVideo + |ps|), ps)
  }

  function PushedAudio(r: Room, raw: seq<Byte>, samples: U32): Room
  {
    Emit(r.(audioSeq := SeqAt(r.audioSeq, 1), packetsAudio := r.packetsAudio + 1),
         RtpPacket(AUDIO_PT, r.audioSeq, samples, r.audioSsrc, true, AacPayload(raw)))
  }

  function Subscribed(r: Room, id: string, capacity: nat): Room
  {
    r.(subs := r.subs + [Subscriber(id, true, capacity, 0, [], |r.log|, 0)])
  }

  function Without(subs: seq<Subscriber>, id: string): seq<Subscriber>
  {
    if subs == [] then [] else (if subs[0].id == id then [] else [subs[0]]) + Without(subs[1..], id)
  }

  datatype Event =
    | PushAvcc(avcc: seq<Byte>, ts: U32)
    | PushNalus(nalus: seq<Nalu>, ts: U32)
    | PushAudio(raw: seq<Byte>, samples: U32)
    | Subscribe(id: string, capacity: nat)
    | Unsubscribe(id: string)
    // the subscriber's own doing: it takes a packet, or drops its end
    | Receive(i: nat)
    | Hangup(i: nat)

  function Step(r: Room, e: Event): Room
  {
    match e
    case PushAvcc(avcc, ts) => PushedVideo(r, ExtractFrom(avcc, 0), ts)
    case PushNalus(nalus, ts) => PushedVideo(r, nalus, ts)
    case PushAudio(raw, samples) => PushedAudio(r, raw, samples)
    case Subscribe(id, capacity) => Subscribed(r, id, capacity)
    case Unsubscribe(id) => r.(subs := Without(r.subs, id))
    case Receive(i) =>
      if i < |r.subs| && r.subs[i].waiting > 0 then r.(subs := r.subs[i := r.subs[i].(waiting := r.subs[i].waiting - 1)]) else r
    case Hangup(i) =>
      if i < |r.subs| then r.(subs := r.subs[i := r.subs[i].(open := false)]) else r
  }

  // ---------- the room, changed in place ----------

  class RoomState {
    const vp: H264Packetizer
    const ap: AacPacketizer
    var subscribers: seq<Subscriber>
    var packetsVideo: nat
    var packetsAudio: nat
    /** The stream so far; kept only to speak about it. */
    var log: seq<RtpPacket>

    function View(): Room
      reads this, vp, ap
    {
      Room(vp.seqNo, ap.seqNo, vp.ssrc, ap.ssrc, subscribers, packetsVideo, packetsAudio, log)
    }

    ghost predicate Valid()
      reads this, vp, ap
    {
      vp.payloadType == VIDEO_PT && vp.mtu == MTU && ap.payloadType == AUDIO_PT
    }

    /** `ensure_room`; the random numbers are parameters. */
    constructor (videoSsrc: U32, audioSsrc: U32, clockRate: U32, firstVideo: U16, firstAudio: U16)
      ensures Valid() && fresh(vp) && fresh(ap)
      ensures View() == Room(firstVideo, firstAudio, videoSsrc, audioSsrc, [], 0, 0, [])
    {
      vp := new H264Packetizer(videoSsrc, firstVideo);
      ap := new AacPacketizer(audioSsrc, clockRate, firstAudio);
      subscribers, packetsVideo, packetsAudio, log := [], 0, 0, [];
    }

    method PushVideoAvcc(avcc: seq<Byte>, ts: U32)
      requires Valid()
      modifies this, vp
      ensures Valid() && View() == Step(old(View()), PushAvcc(avcc, ts))
    {
      hide Stamp, EmitAll, ExtractFrom;
      AnyPacketizable(ExtractFrom(avcc, 0));
      ghost var before := View();
      var ps := vp.PacketizeAvcc(avcc, ts * 90 % TWO32);
      packetsVideo := packetsVideo + |ps|;
      ghost var numbered := View();
      OfferAll(ps);
      assert numbered == before.(videoSeq := SeqAt(before.videoSeq, |ps|), packetsVideo := before.packetsVideo + |ps|);
    }

    method PushVideoNalus(nalus: seq<Nalu>, ts: U32)
      requires Valid()
      modifies this, vp
      ensures Valid() && View() == Step(old(View()), PushNalus(nalus, ts))
    {
      hide Stamp, EmitAll;
      AnyPacketizable(nalus);
      ghost var before := View();
      var ps := vp.PacketizeNalus(nalus, ts * 90 % TWO32);
      packetsVideo := packetsVideo + |ps|;
      ghost var numbered := View();
      OfferAll(ps);
      assert numbered == before.(videoSeq := SeqAt(before.videoSeq, |ps|), packetsVideo := before.packetsVideo + |ps|);
    }

    method PushAudioAac(raw: seq<Byte>, samples: U32)
      requires Valid()
      modifies this, ap
      ensures Valid() && View() == Step(old(View()), PushAudio(raw, samples))
    {
      hide Fanout;
      var p := ap.Packetize(raw, samples);
      packetsAudio := packetsAudio + 1;
      Offer(p);
    }

    /** One packet to every subscriber. */
    method Offer(p: RtpPacket)
      modifies this
      ensures View() == Emit(old(View()), p)
    {
      var kept: seq<Subscriber> := [];
      assert subscribers[0..] == subscribers;
      for i := 0 to |subscribers|
        invariant View() == old(View())
        invariant kept + Fanout(subscribers[i..], p) == Fanout(subscribers, p)
      {
        assert subscribers[i..][1..] == subscribers[i + 1..];
        var s := subscribers[i];
        if s.open {
          ConcatAssoc(kept, [Offered(s, p)], Fanout(subscribers[i + 1..], p));
          kept := kept + [Offered(s, p)];
        } else {
          EmptyConcat(Fanout(subscribers[i + 1..], p));
        }
      }
      EmptyConcat(kept);
      subscribers := kept;
      log := log + [p];
    }

    method OfferAll(ps: seq<RtpPacket>)
      modifies this
      ensures View() == EmitAll(old(View()), ps)
    {
      hide Emit;
      for i := 0 to |ps|
        invariant View() == EmitAll(old(View()), ps[..i])
      {
        Offer(ps[i]);
        assert ps[..i + 1][..i] == ps[..i];
      }
      assert ps[..|ps|] == ps;
    }

    method Subscribe(id: string, capacity: nat)
      modifies this
      ensures View() == Step(old(View()), Event.Subscribe(id, capacity))
    {
      subscribers := subscribers + [Subscriber(id, true, capacity, 0, [], |log|, 0)];
    }

    method Unsubscribe(id: string)
      modifies this
      ensures View() == Step(old(View()), Event.Unsubscribe(id))
    {
      var kept: seq<Subscriber> := [];
      assert subscribers[0..] == subscribers;
      for i := 0 to |subscribers|
        invariant View() == old(View())
        invariant kept + Without(subscribers[i..], id) == Without(subscribers, id)
      {
        assert subscribers[i..][1..] == subscribers[i + 1..];
        if subscribers[i].id != id {
          ConcatAssoc(kept, [subscribers[i]], Without(subscribers[i + 1..], id));
          kept := kept + [subscribers[i]];
        } else {
          EmptyConcat(Without(subscribers[i + 1..], id));
        }
      }
      EmptyConcat(kept);
      subscribers := kept;
    }

    method Stats() returns (video: nat, audio: nat, count: nat)
      ensures video == packetsVideo && audio == packetsAudio && count == |subscribers|
    {
      return packetsVideo, packetsAudio, |subscribers|;
    }
  }
}
