/** RTP packetization of H.264 access units and AAC frames (yunmao-webrtc `rtp.rs`),
with the receiving side written from RFC 3550 (section 5.1), RFC 6184 (sections 5.6
and 5.8) and RFC 3640 (section 3.2) as pure functions the source does not have. */
module Rtp {
  import opened Bytes
  import opened Division
  import opened Options
  import opened Seqs

  type Nalu = seq<Byte>

  const HEADER_SIZE: nat := 12
  const FU_A: Byte := 28

  datatype RtpPacket = RtpPacket(payloadType: Byte, sequenceNumber: U16, timestamp: U32,
                                 ssrc: U32, marker: bool, payload: seq<Byte>)

  // ---------- wire format ----------

  function Serialize(p: RtpPacket): seq<Byte>
  {
    [0x80, (if p.marker then 0x80 else 0) + p.payloadType % 0x80]
    + Be16(p.sequenceNumber) + Be32(p.timestamp) + Be32(p.ssrc) + p.payload
  }

  /** RFC 3550 section 5.1 for version 2 packets without padding, extension or CSRCs. */
  function ParseWire(w: seq<Byte>): Option<RtpPacket>
  {
    if |w| < HEADER_SIZE || w[0] != 0x80 then None
    else Some(RtpPacket(w[1] % 0x80, ReadBe16(w, 2), ReadBe32(w, 4), ReadBe32(w, 8),
                        w[1] / 0x80 == 1, w[12..]))
  }

  /** Parsing inverts `Serialize`; only a payload type above 127 is not preserved. */
  lemma {:induction false} SerializeRoundTrip(p: RtpPacket)
    ensures |Serialize(p)| == HEADER_SIZE + |p.payload|
    ensures ParseWire(Serialize(p)) == Some(p.(payloadType := p.payloadType % 0x80))
    ensures ParseWire(Serialize(p)) == Some(p) <==> p.payloadType < 0x80
  {
    var w := Serialize(p);
    assert w[4..8] == Be32(p.timestamp);
    assert w[8..12] == Be32(p.ssrc);
    assert w[12..] == p.payload;
    Be32At(w, 4, p.timestamp);
    Be32At(w, 8, p.ssrc);
  }

  // ---------- AVCC length-prefixed input ----------

  predicate AllNonEmpty(nalus: seq<Nalu>)
  {
    forall k :: 0 <= k < |nalus| ==> nalus[k] != []
  }

  /** NALUs that a four-byte length prefix can carry. */
  predicate AllFramed(nalus: seq<Nalu>)
  {
    forall k :: 0 <= k < |nalus| ==> 0 < |nalus[k]| < TWO32
  }

  function Avcc(nalus: seq<Nalu>): seq<Byte>
  {
    if nalus == [] then [] else Frame(nalus[0]) + Avcc(nalus[1..])
  }

  function Frame(n: Nalu): seq<Byte>
  {
    Be32(|n| % TWO32) + n
  }

  lemma {:induction false} ReadFrame(data: seq<Byte>, i: nat)
    requires i + 4 <= |data| && i + 4 + ReadBe32(data, i) <= |data|
    ensures var end := i + 4 + ReadBe32(data, i); data[i..end] == Frame(data[i + 4..end])
  {
    Be32OfRead(data, i);
    var len := ReadBe32(data, i);
    assert len % TWO32 == len;
    JoinSlices(data, i, i + 4, i + 4 + len);
  }

  lemma {:induction false} FrameReads(data: seq<Byte>, i: nat, n: Nalu)
    requires |n| < TWO32 && i + 4 + |n| <= |data| && data[i..i + 4 + |n|] == Frame(n)
    ensures ReadBe32(data, i) == |n| && data[i + 4..i + 4 + |n|] == n
  {
    SplitSlice(data, i, i + 4 + |n|, Be32(|n|), n);
    Be32At(data, i, |n|);
  }

  /** The NALUs from position `i` up to the first length field that is zero or overruns the input. */
  function ExtractFrom(data: seq<Byte>, i: nat): seq<Nalu>
    requires i <= |data|
    decreases |data| - i
  {
    if i + 4 > |data| then []
    else
      var len := ReadBe32(data, i);
      if len == 0 || i + 4 + len > |data| then []
      else [data[i + 4..i + 4 + len]] + ExtractFrom(data, i + 4 + len)
  }

  lemma {:induction false} AvccCons(n: Nalu, tail: seq<Nalu>)
    ensures Avcc([n] + tail) == Frame(n) + Avcc(tail)
  {
    assert ([n] + tail)[1..] == tail;
  }

  /** What is extracted is a prefix of the input, ... */
  lemma {:induction false} ExtractIsPrefix(data: seq<Byte>, i: nat) returns (j: nat)
    requires i <= |data|
    ensures i <= j <= |data| && data[i..j] == Avcc(ExtractFrom(data, i)) && ExtractFrom(data, j) == []
    decreases |data| - i
  {
    j := i;
    if i + 4 <= |data| {
      var len := ReadBe32(data, i);
      if len != 0 && i + 4 + len <= |data| {
        var next := i + 4 + len;
        j := ExtractIsPrefix(data, next);
        AvccCons(data[i + 4..next], ExtractFrom(data, next));
        ReadFrame(data, i);
        JoinSlices(data, i, next, j);
      }
    }
  }

  lemma {:induction false} ExtractOne(data: seq<Byte>, i: nat, n: Nalu)
    requires 0 < |n| < TWO32 && i + 4 + |n| <= |data| && data[i..i + 4 + |n|] == Frame(n)
    ensures ExtractFrom(data, i) == [n] + ExtractFrom(data, i + 4 + |n|)
  {
    FrameReads(data, i, n);
  }

  /** ... and it is the longest one: however non-empty length-prefixed NALUs are read off the
  input, they are an initial segment of what is extracted. */
  lemma {:induction false} ExtractIsLongest(data: seq<Byte>, i: nat, nalus: seq<Nalu>, j: nat)
    requires i <= j <= |data| && AllFramed(nalus) && data[i..j] == Avcc(nalus)
    ensures ExtractFrom(data, i) == nalus + ExtractFrom(data, j)
    decreases |nalus|
  {
    if nalus != [] {
      var n, more := nalus[0], nalus[1..];
      SplitSlice(data, i, j, Frame(n), Avcc(more));
      ExtractOne(data, i, n);
      ExtractIsLongest(data, i + 4 + |n|, more, j);
      HeadTail(nalus);
      ConcatAssoc([n], more, ExtractFrom(data, j));
      assert nalus == [n] + more;
    }
  }

  /** The loop that cuts length-prefixed input into NALUs, stopping at a zero or overrunning length. */
  method SplitAvcc(avcc: seq<Byte>) returns (nalus: seq<Nalu>)
    ensures nalus == ExtractFrom(avcc, 0)
  {
    nalus := [];
    var i := 0;
    while i + 4 <= |avcc|
      invariant 0 <= i <= |avcc|
      invariant ExtractFrom(avcc, 0) == nalus + ExtractFrom(avcc, i)
    {
      var len := ReadBe32(avcc, i);
      i := i + 4;
      if len == 0 || i + len > |avcc| {
        return;
      }
      nalus := nalus + [avcc[i..i + len]];
      i := i + len;
    }
  }

  // ---------- specification of the packetizer ----------

  function MtuPayload(mtu: nat): nat { Max(mtu - HEADER_SIZE, 0) }

  function Chunk(mtu: nat): nat { Max(MtuPayload(mtu) - 2, 0) }

  /** The FU header: start bit, end bit and the NALU's type. */
  function FuHeader(nalHeader: Byte, isStart: bool, isEnd: bool): Byte
  {
    nalHeader % 0x20 + (if isStart then 0x80 else 0) + (if isEnd then 0x40 else 0)
  }

  /** The FU indicator keeps NRI and clears the F bit. */
  function FuIndicator(nalHeader: Byte): Byte
  {
    nalHeader / 0x20 % 4 * 0x20 + FU_A
  }

  function FuPayload(nalHeader: Byte, body: seq<Byte>, offset: nat, end: nat): seq<Byte>
    requires offset <= end <= |body|
  {
    [FuIndicator(nalHeader), FuHeader(nalHeader, offset == 0, end == |body|)] + body[offset..end]
  }

  /** The fragment loop goes on for ever exactly when it cannot advance. */
  predicate Advances(body: seq<Byte>, chunk: nat)
  {
    chunk > 0 || body == []
  }

  function Fragments(nalHeader: Byte, body: seq<Byte>, offset: nat, chunk: nat): seq<seq<Byte>>
    requires offset <= |body| && Advances(body, chunk)
    decreases |body| - offset
  {
    if offset == |body| then []
    else
      var end := Min(offset + chunk, |body|);
      [FuPayload(nalHeader, body, offset, end)] + Fragments(nalHeader, body, end, chunk)
  }

  predicate Packetizable(n: Nalu, mtu: nat)
  {
    |n| <= MtuPayload(mtu) || Advances(n[1..], Chunk(mtu))
  }

  predicate AllPacketizable(nalus: seq<Nalu>, mtu: nat)
  {
    forall k :: 0 <= k < |nalus| ==> Packetizable(nalus[k], mtu)
  }

  function NaluPayloads(n: Nalu, mtu: nat): seq<seq<Byte>>
    requires Packetizable(n, mtu)
  {
    if n == [] then []
    else if |n| <= MtuPayload(mtu) then [n]
    else Fragments(n[0], n[1..], 0, Chunk(mtu))
  }

  function Payloads(nalus: seq<Nalu>, mtu: nat): seq<seq<Byte>>
    requires AllPacketizable(nalus, mtu)
  {
    if nalus == [] then [] else NaluPayloads(nalus[0], mtu) + Payloads(nalus[1..], mtu)
  }

  function SeqAt(first: U16, k: nat): U16 { (first + k) % 0x1_0000 }

  lemma {:induction false} SeqNext(first: U16, k: nat)
    ensures SeqAt(first, 0) == first
    ensures (SeqAt(first, k) + 1) % 0x1_0000 == SeqAt(first, k + 1)
  {}

  /** The packets of one access unit: consecutive numbers modulo 2^16, marker on the last only. */
  function Stamp(payloads: seq<seq<Byte>>, first: U16, ts: U32, ssrc: U32, pt: Byte): seq<RtpPacket>
  {
    seq(|payloads|, (k: int) requires 0 <= k < |payloads| =>
      RtpPacket(pt, SeqAt(first, k), ts, ssrc, k == |payloads| - 1, payloads[k]))
  }

  /** `out` carries `payloads`, numbered from `first`, with no marker set yet. */
  ghost predicate Unmarked(out: seq<RtpPacket>, payloads: seq<seq<Byte>>, first: U16, ts: U32, ssrc: U32, pt: Byte)
  {
    && |out| == |payloads|
    && forall k :: 0 <= k < |out| ==> out[k] == RtpPacket(pt, SeqAt(first, k), ts, ssrc, false, payloads[k])
  }

  lemma {:induction false} MarkingTheLast(out: seq<RtpPacket>, payloads: seq<seq<Byte>>, first: U16, ts: U32, ssrc: U32, pt: Byte)
    requires Unmarked(out, payloads, first, ts, ssrc, pt)
    ensures Stamp(payloads, first, ts, ssrc, pt)
         == if out == [] then [] else out[..|out| - 1] + [out[|out| - 1].(marker := true)]
  {}

  lemma {:induction false} PayloadsAt(nalus: seq<Nalu>, k: nat, mtu: nat)
    requires AllPacketizable(nalus, mtu) && k < |nalus|
    ensures Payloads(nalus[k..], mtu) == NaluPayloads(nalus[k], mtu) + Payloads(nalus[k + 1..], mtu)
  {
    assert nalus[k..][0] == nalus[k] && nalus[k..][1..] == nalus[k + 1..];
  }

  // ---------- the packetizer ----------

  class H264Packetizer {
    var payloadType: Byte
    var ssrc: U32
    var mtu: nat
    var seqNo: U16

    /** The source draws the first sequence number at random; here it is a parameter. */
    constructor (ssrc: U32, firstSeq: U16)
      ensures this.payloadType == 96 && this.ssrc == ssrc && this.mtu == 1200 && this.seqNo == firstSeq
    {
      this.payloadType, this.ssrc, this.mtu, this.seqNo := 96, ssrc, 1200, firstSeq;
    }

    method NextSeq() returns (s: U16)
      modifies this`seqNo
      ensures s == old(seqNo) && seqNo == (old(seqNo) + 1) % 0x1_0000
    {
      s := seqNo;
      seqNo := (seqNo + 1) % 0x1_0000;
    }

    method PacketizeAvcc(avcc: seq<Byte>, ts: U32) returns (out: seq<RtpPacket>)
      requires AllPacketizable(ExtractFrom(avcc, 0), mtu)
      modifies this`seqNo
      ensures out == Stamp(Payloads(ExtractFrom(avcc, 0), mtu), old(seqNo), ts, ssrc, payloadType)
      ensures seqNo == SeqAt(old(seqNo), |out|)
    {
      var nalus := SplitAvcc(avcc);
      out := PacketizeNalus(nalus, ts);
    }

    /** Numbers one payload and appends it to the packets of the access unit. */
    method Push(before: seq<RtpPacket>, payload: seq<Byte>, ts: U32, ghost first: U16, ghost done: seq<seq<Byte>>)
      returns (out: seq<RtpPacket>)
      requires Unmarked(before, done, first, ts, ssrc, payloadType) && seqNo == SeqAt(first, |before|)
      modifies this`seqNo
      ensures Unmarked(out, done + [payload], first, ts, ssrc, payloadType) && seqNo == SeqAt(first, |out|)
    {
      SeqNext(first, |before|);
      var s := NextSeq();
      out := before + [RtpPacket(payloadType, s, ts, ssrc, false, payload)];
    }

    /** The FU-A branch: appends the fragments of one NALU to the packets produced so far. */
    method PushFragments(before: seq<RtpPacket>, nalu: Nalu, ts: U32, ghost first: U16, ghost done: seq<seq<Byte>>)
      returns (out: seq<RtpPacket>)
      requires |nalu| > MtuPayload(mtu) && Packetizable(nalu, mtu)
      requires Unmarked(before, done, first, ts, ssrc, payloadType) && seqNo == SeqAt(first, |before|)
      modifies this`seqNo
      ensures Unmarked(out, done + NaluPayloads(nalu, mtu), first, ts, ssrc, payloadType) && seqNo == SeqAt(first, |out|)
    {
      out := before;
      var body, chunk, offset := nalu[1..], Chunk(mtu), 0;
      ghost var sent: seq<seq<Byte>> := [];
      assert done + sent == done && sent + Fragments(nalu[0], body, 0, chunk) == NaluPayloads(nalu, mtu);
      while offset < |body|
        invariant 0 <= offset <= |body|
        invariant sent + Fragments(nalu[0], body, offset, chunk) == NaluPayloads(nalu, mtu)
        invariant Unmarked(out, done + sent, first, ts, ssrc, payloadType) && seqNo == SeqAt(first, |out|)
      {
        var end := Min(offset + chunk, |body|);
        var payload := FuPayload(nalu[0], body, offset, end);
        assert Fragments(nalu[0], body, offset, chunk) == [payload] + Fragments(nalu[0], body, end, chunk);
        assert sent + ([payload] + Fragments(nalu[0], body, end, chunk)) == sent + [payload] + Fragments(nalu[0], body, end, chunk);
        out := Push(out, payload, ts, first, done + sent);
        assert done + sent + [payload] == done + (sent + [payload]);
        sent, offset := sent + [payload], end;
      }
      assert sent == NaluPayloads(nalu, mtu);
    }

    method PacketizeNalus(nalus: seq<Nalu>, ts: U32) returns (out: seq<RtpPacket>)
      requires AllPacketizable(nalus, mtu)
      modifies this`seqNo
      ensures out == Stamp(Payloads(nalus, mtu), old(seqNo), ts, ssrc, payloadType)
      ensures seqNo == SeqAt(old(seqNo), |out|)
    {
      out := [];
      ghost var first, done: seq<seq<Byte>> := seqNo, [];
      SeqNext(first, 0);
      for k := 0 to |nalus|
        invariant done + Payloads(nalus[k..], mtu) == Payloads(nalus, mtu)
        invariant Unmarked(out, done, first, ts, ssrc, payloadType) && seqNo == SeqAt(first, |out|)
      {
        var nalu := nalus[k];
        PayloadsAt(nalus, k, mtu);
        assert done + NaluPayloads(nalu, mtu) + Payloads(nalus[k + 1..], mtu)
            == done + (NaluPayloads(nalu, mtu) + Payloads(nalus[k + 1..], mtu));
        if nalu == [] {
          assert done + NaluPayloads(nalu, mtu) == done;
          continue;
        }
        if |nalu| <= MtuPayload(mtu) {
          out := Push(out, nalu, ts, first, done);
        } else {
          out := PushFragments(out, nalu, ts, first, done);
        }
        done := done + NaluPayloads(nalu, mtu);
      }
      assert done == Payloads(nalus, mtu);
      MarkingTheLast(out, done, first, ts, ssrc, payloadType);
      if out != [] {
        out := out[..|out| - 1] + [out[|out| - 1].(marker := true)];
      }
    }
  }

  // ---------- the receiver: RFC 6184 sections 5.6 and 5.8 ----------

  function Prepend(n: Nalu, rest: Option<seq<Nalu>>): Option<seq<Nalu>>
  {
    if rest.None? then None else Some([n] + rest.value)
  }

  predicate FuStart(fuHeader: Byte) { fuHeader / 0x80 == 1 }

  predicate FuEnd(fuHeader: Byte) { fuHeader / 0x40 % 2 == 1 }

  /** The NALU header rebuilt from the FU indicator (F, NRI) and the FU header (type). */
  function FuNalHeader(indicator: Byte, fuHeader: Byte): Byte
  {
    indicator / 0x20 * 0x20 + fuHeader % 0x20
  }

  /** Reassembles the NALUs of one access unit from its payloads in order; `partial` is the
  fragmented NALU being rebuilt. `None` means the payloads break the payload format. */
  function Depacketize(payloads: seq<seq<Byte>>, partial: Option<Nalu>): Option<seq<Nalu>>
  {
    if payloads == [] then
      if partial.None? then Some([]) else None
    else
      var p, rest := payloads[0], payloads[1..];
      if p == [] then None
      else if p[0] % 0x20 < 24 then
        if partial.None? then Prepend(p, Depacketize(rest, None)) else None
      else if p[0] % 0x20 == FU_A && |p| >= 2 then
        var s, e := FuStart(p[1]), FuEnd(p[1]);
        if (s && e) || s == partial.Some? then None
        else
          var nalu := if s then [FuNalHeader(p[0], p[1])] + p[2..] else partial.value + p[2..];
          if e then Prepend(nalu, Depacketize(rest, None)) else Depacketize(rest, Some(nalu))
      else None
  }

  // ---------- round trip ----------

  /** What comes back from a NALU sent as fragments: the F bit is lost. */
  function ClearF(n: Nalu): Nalu
    requires n != []
  {
    [n[0] % 0x80] + n[1..]
  }

  /** The NALUs that survive: single NALU packets must not look like aggregation or
  fragmentation packets, and fragmented NALUs must have F = 0. */
  predicate Faithful(n: Nalu, mtu: nat)
    requires n != []
  {
    if |n| <= MtuPayload(mtu) then n[0] % 0x20 < 24
    else |n| > 1 && n[0] < 0x80
  }

  lemma {:induction false} FuBits(h: Byte, isStart: bool, isEnd: bool)
    ensures FuIndicator(h) % 0x20 == FU_A
    ensures FuNalHeader(FuIndicator(h), FuHeader(h, isStart, isEnd)) == h % 0x80
    ensures FuStart(FuHeader(h, isStart, isEnd)) <==> isStart
    ensures FuEnd(FuHeader(h, isStart, isEnd)) <==> isEnd
  {
    var nri, typ := h / 0x20 % 4, h % 0x20;
    assert h % 0x80 == nri * 0x20 + typ;
    assert FuHeader(h, isStart, isEnd) % 0x20 == typ;
  }

  /** One fragment of a longer NALU, as the receiver takes it. */
  lemma {:induction false} FragmentStep(h: Byte, body: seq<Byte>, offset: nat, end: nat, rest: seq<seq<Byte>>)
    requires offset < end <= |body| && !(offset == 0 && end == |body|)
    ensures Depacketize([FuPayload(h, body, offset, end)] + rest,
                        if offset == 0 then None else Some([h % 0x80] + body[..offset]))
         == if end == |body| then Prepend([h % 0x80] + body, Depacketize(rest, None))
            else Depacketize(rest, Some([h % 0x80] + body[..end]))
  {
    FuBits(h, offset == 0, end == |body|);
    var p := FuPayload(h, body, offset, end);
    assert ([p] + rest)[1..] == rest;
    assert p[2..] == body[offset..end];
    assert [h % 0x80] + body[..offset] + p[2..] == [h % 0x80] + body[..end];
    assert end == |body| ==> body[..end] == body;
  }

  lemma {:induction false} FragmentsReassemble(h: Byte, body: seq<Byte>, offset: nat, chunk: nat, rest: seq<seq<Byte>>)
    requires 0 < offset < |body| && chunk > 0
    ensures Depacketize(Fragments(h, body, offset, chunk) + rest, Some([h % 0x80] + body[..offset]))
         == Prepend([h % 0x80] + body, Depacketize(rest, None))
    decreases |body| - offset
  {
    var end := Min(offset + chunk, |body|);
    var tail := Fragments(h, body, end, chunk);
    assert Fragments(h, body, offset, chunk) + rest == [FuPayload(h, body, offset, end)] + (tail + rest);
    FragmentStep(h, body, offset, end, tail + rest);
    if end < |body| {
      FragmentsReassemble(h, body, end, chunk, rest);
    } else {
      assert tail + rest == rest;
    }
  }

  /** A NALU too long for one packet becomes at least two fragments, and reassembling them
  gives it back with its F bit cleared. */
  lemma {:induction false} FragmentedNaluReassembles(n: Nalu, mtu: nat, rest: seq<seq<Byte>>)
    requires |n| > MtuPayload(mtu) && Chunk(mtu) > 0
    ensures |NaluPayloads(n, mtu)| >= 2
    ensures Depacketize(NaluPayloads(n, mtu) + rest, None) == Prepend(ClearF(n), Depacketize(rest, None))
  {
    var h, body, chunk := n[0], n[1..], Chunk(mtu);
    var tail := Fragments(h, body, chunk, chunk);
    assert NaluPayloads(n, mtu) == [FuPayload(h, body, 0, chunk)] + tail && |tail| >= 1;
    assert NaluPayloads(n, mtu) + rest == [FuPayload(h, body, 0, chunk)] + (tail + rest);
    FragmentStep(h, body, 0, chunk, tail + rest);
    FragmentsReassemble(h, body, chunk, chunk, rest);
  }

  /** Only the first fragment has the start bit, only the last has the end bit, and no packet
  of the access unit is longer than the MTU on the wire. */
  lemma {:induction false} FragmentShape(h: Byte, body: seq<Byte>, offset: nat, chunk: nat)
    requires offset <= |body| && chunk > 0
    ensures forall k :: 0 <= k < |Fragments(h, body, offset, chunk)| ==>
              var p := Fragments(h, body, offset, chunk)[k];
              && 3 <= |p| <= 2 + chunk
              && (FuStart(p[1]) <==> offset == 0 && k == 0)
              && (FuEnd(p[1]) <==> k == |Fragments(h, body, offset, chunk)| - 1)
    decreases |body| - offset
  {
    if offset < |body| {
      var end := Min(offset + chunk, |body|);
      FuBits(h, offset == 0, end == |body|);
      FragmentShape(h, body, end, chunk);
      assert forall k :: 1 <= k < |Fragments(h, body, offset, chunk)| ==>
          Fragments(h, body, offset, chunk)[k] == Fragments(h, body, end, chunk)[k - 1];
    }
  }

  lemma {:induction false} WireFitsMtu(nalus: seq<Nalu>, mtu: nat)
    requires mtu >= 15
    ensures forall k :: 0 <= k < |Payloads(nalus, mtu)| ==> HEADER_SIZE + |Payloads(nalus, mtu)[k]| <= mtu
  {
    if nalus != [] {
      WireFitsMtu(nalus[1..], mtu);
      var n := nalus[0];
      if |n| > MtuPayload(mtu) {
        FragmentShape(n[0], n[1..], 0, Chunk(mtu));
      }
    }
  }

  /** Every fragment but the last fills its packet, and there are no more of them than needed. */
  lemma {:induction false} FragmentsFull(h: Byte, body: seq<Byte>, offset: nat, chunk: nat)
    requires offset <= |body| && chunk > 0
    ensures var fs := Fragments(h, body, offset, chunk);
            && |fs| == (|body| - offset + chunk - 1) / chunk
            && forall k :: 0 <= k < |fs| - 1 ==> |fs[k]| == chunk + 2
    decreases |body| - offset
  {
    if offset < |body| {
      var end, fs := Min(offset + chunk, |body|), Fragments(h, body, offset, chunk);
      FragmentsFull(h, body, end, chunk);
      assert fs[1..] == Fragments(h, body, end, chunk);
      assert forall k :: 1 <= k < |fs| ==> fs[k] == fs[1..][k - 1];
      OneMoreChunk(|body| - offset, chunk);
    } else {
      DivUnique(chunk - 1, chunk, 0, chunk - 1);
    }
  }

  lemma {:induction false} OneMoreChunk(left: nat, chunk: nat)
    requires left > 0 && chunk > 0
    ensures left > chunk ==> (left + chunk - 1) / chunk == 1 + (left - chunk + chunk - 1) / chunk
    ensures left <= chunk ==> (left + chunk - 1) / chunk == 1
  {
    var q, r := (left - 1) / chunk, (left - 1) % chunk;
    DivUnique(left - 1 + chunk, chunk, q + 1, r);
    if left <= chunk {
      DivUnique(left - 1, chunk, 0, left - 1);
    }
  }

  /** As few packets as the MTU allows: one for a NALU that fits behind the 12 bytes of the header, else
  fragments of which all but the last fill the MTU. */
  lemma {:induction false} FewestPackets(n: Nalu, mtu: nat)
    requires mtu >= 15
    ensures var ps := NaluPayloads(n, mtu);
            && (n == [] ==> ps == [])
            && (0 < |n| <= mtu - 12 ==> ps == [n])
            && (|n| > mtu - 12 ==> |ps| == (|n| - 1 + mtu - 15) / (mtu - 14) && forall k :: 0 <= k < |ps| - 1 ==> 12 + |ps[k]| == mtu)
  {
    if |n| > mtu - 12 {
      FragmentsFull(n[0], n[1..], 0, Chunk(mtu));
    }
  }

  /** However hostile the payload bytes, no NALU comes back as more than one. */
  lemma {:induction false} NoMoreThanSent(nalus: seq<Nalu>, mtu: nat, partial: Option<Nalu>)
    requires AllNonEmpty(nalus) && AllPacketizable(nalus, mtu)
    ensures var got := Depacketize(Payloads(nalus, mtu), partial); got.Some? ==> |got.value| <= |nalus|
  {
    if nalus != [] {
      var n, rest := nalus[0], Payloads(nalus[1..], mtu);
      assert Payloads(nalus, mtu) == NaluPayloads(n, mtu) + rest;
      if |n| <= MtuPayload(mtu) {
        hide FuNalHeader, FuStart, FuEnd;
        assert NaluPayloads(n, mtu) == [n];
        NoMoreThanSent(nalus[1..], mtu, None);
        if |n| >= 2 {
          NoMoreThanSent(nalus[1..], mtu, Some([FuNalHeader(n[0], n[1])] + n[2..]));
          if partial.Some? { NoMoreThanSent(nalus[1..], mtu, Some(partial.value + n[2..])); }
        }
        OnePayload(n, rest, partial, |nalus| - 1);
      } else if |n| == 1 {
        assert NaluPayloads(n, mtu) + rest == rest;
        NoMoreThanSent(nalus[1..], mtu, partial);
      } else if partial.None? {
        FragmentedNaluReassembles(n, mtu, rest);
        NoMoreThanSent(nalus[1..], mtu, None);
      } else {
        FuBits(n[0], true, false);
        assert (NaluPayloads(n, mtu) + rest)[0] == FuPayload(n[0], n[1..], 0, Chunk(mtu));
      }
    }
  }

  /** One payload adds at most one NALU. */
  lemma {:induction false} OnePayload(p: seq<Byte>, rest: seq<seq<Byte>>, partial: Option<Nalu>, most: nat)
    requires p != [] && AtMost(Depacketize(rest, None), most)
    requires |p| >= 2 ==> AtMost(Depacketize(rest, Some([FuNalHeader(p[0], p[1])] + p[2..])), most)
    requires |p| >= 2 && partial.Some? ==> AtMost(Depacketize(rest, Some(partial.value + p[2..])), most)
    ensures AtMost(Depacketize([p] + rest, partial), most + 1)
  {
    hide FuNalHeader, FuStart, FuEnd;
    assert ([p] + rest)[1..] == rest;
  }

  predicate AtMost(got: Option<seq<Nalu>>, n: nat) { got.Some? ==> |got.value| <= n }

  /** An unfaithful first NALU is lost, altered, or makes the payloads undecodable. */
  lemma {:induction false} UnfaithfulIsNotRecovered(nalus: seq<Nalu>, mtu: nat)
    requires nalus != [] && AllNonEmpty(nalus) && AllPacketizable(nalus, mtu)
    requires !Faithful(nalus[0], mtu)
    ensures Depacketize(Payloads(nalus, mtu), None) != Some(nalus)
  {
    var n, rest := nalus[0], Payloads(nalus[1..], mtu);
    assert Payloads(nalus, mtu) == NaluPayloads(n, mtu) + rest;
    if |n| <= MtuPayload(mtu) {
      assert (NaluPayloads(n, mtu) + rest)[1..] == rest;
      if |n| >= 2 {
        NoMoreThanSent(nalus[1..], mtu, Some([FuNalHeader(n[0], n[1])] + n[2..]));
      }
    } else if |n| == 1 {
      assert NaluPayloads(n, mtu) + rest == rest;
      NoMoreThanSent(nalus[1..], mtu, None);
    } else {
      FragmentedNaluReassembles(n, mtu, rest);
    }
  }

  /** The central law of the packetizer, with its exact condition: a receiver recovers an access
  unit if and only if every NALU in it is faithful at this MTU. */
  lemma {:induction false} RoundTrip(nalus: seq<Nalu>, mtu: nat)
    requires AllNonEmpty(nalus) && AllPacketizable(nalus, mtu)
    ensures Depacketize(Payloads(nalus, mtu), None) == Some(nalus) <==>
            forall k :: 0 <= k < |nalus| ==> Faithful(nalus[k], mtu)
  {
    if nalus != [] {
      var n, rest := nalus[0], Payloads(nalus[1..], mtu);
      assert nalus == [n] + nalus[1..];
      assert (forall k :: 0 <= k < |nalus| ==> Faithful(nalus[k], mtu)) <==>
             Faithful(n, mtu) && forall k :: 0 <= k < |nalus[1..]| ==> Faithful(nalus[1..][k], mtu);
      assert Payloads(nalus, mtu) == NaluPayloads(n, mtu) + rest;
      if !Faithful(n, mtu) {
        UnfaithfulIsNotRecovered(nalus, mtu);
      } else {
        RoundTrip(nalus[1..], mtu);
        if |n| <= MtuPayload(mtu) {
          assert (NaluPayloads(n, mtu) + rest)[1..] == rest;
        } else {
          FragmentedNaluReassembles(n, mtu, rest);
          assert ClearF(n) == n;
        }
        assert Depacketize(Payloads(nalus, mtu), None) == Prepend(n, Depacketize(rest, None));
        var got := Depacketize(rest, None);
        if got.Some? && [n] + got.value == nalus {
          assert got.value == ([n] + got.value)[1..] == nalus[1..];
        }
      }
    }
  }

  /** From the length-prefixed bytes of an access unit to the NALUs the receiver rebuilds: for
  valid NALUs and any MTU of at least 15 nothing is lost. */
  lemma {:induction false} AccessUnitRoundTrip(nalus: seq<Nalu>, mtu: nat)
    requires mtu >= 15
    requires AllFramed(nalus)
    requires forall k :: 0 <= k < |nalus| ==> nalus[k][0] < 0x80 && nalus[k][0] % 0x20 < 24
    ensures Depacketize(Payloads(ExtractFrom(Avcc(nalus), 0), mtu), None) == Some(nalus)
  {
    var data := Avcc(nalus);
    assert data[0..|data|] == data && nalus + ExtractFrom(data, |data|) == nalus;
    ExtractIsLongest(data, 0, nalus, |data|);
    assert AllNonEmpty(nalus) && AllPacketizable(nalus, mtu);
    assert forall k :: 0 <= k < |nalus| ==> Faithful(nalus[k], mtu);
    RoundTrip(nalus, mtu);
  }

  // ---------- termination of the fragment loop ----------

  /** Where the fragment loop stands after `k` iterations. */
  function OffsetAfter(body: seq<Byte>, chunk: nat, k: nat): nat
    ensures OffsetAfter(body, chunk, k) <= |body|
  {
    if k == 0 then 0 else Min(OffsetAfter(body, chunk, k - 1) + chunk, |body|)
  }

  /** An MTU below 15 leaves no room for a fragment: the loop then never ends. It ends exactly
  under `Advances`, which is why the packetizer is specified for `Packetizable` NALUs. */
  lemma {:induction false} LoopEndsExactlyWhenItAdvances(body: seq<Byte>, chunk: nat)
    ensures (exists k: nat :: OffsetAfter(body, chunk, k) == |body|) <==> Advances(body, chunk)
    ensures forall mtu: nat :: Chunk(mtu) > 0 <==> mtu >= 15
    ensures forall mtu: nat :: MtuPayload(mtu) > 0 <==> mtu > 12
  {
    if chunk == 0 {
      forall k: nat ensures OffsetAfter(body, 0, k) == 0 { StuckAtStart(body, k); }
      if body == [] { assert OffsetAfter(body, 0, 0) == |body|; }
    } else {
      OffsetLowerBound(body, chunk, |body|);
    }
  }

  lemma {:induction false} StuckAtStart(body: seq<Byte>, k: nat)
    ensures OffsetAfter(body, 0, k) == 0
  {
    if k > 0 { StuckAtStart(body, k - 1); }
  }

  lemma {:induction false} OffsetLowerBound(body: seq<Byte>, chunk: nat, k: nat)
    requires chunk > 0
    ensures OffsetAfter(body, chunk, k) >= Min(k, |body|)
  {
    if k > 0 { OffsetLowerBound(body, chunk, k - 1); }
  }

  // ---------- AAC: RFC 3640 ----------

  class AacPacketizer {
    var payloadType: Byte
    var ssrc: U32
    var clockRate: U32
    var seqNo: U16

    constructor (ssrc: U32, sampleRate: U32, firstSeq: U16)
      ensures payloadType == 97 && this.ssrc == ssrc && clockRate == Max(sampleRate, 8000) && seqNo == firstSeq
    {
      this.payloadType, this.ssrc, this.clockRate, this.seqNo := 97, ssrc, Max(sampleRate, 8000), firstSeq;
    }

    method Packetize(raw: seq<Byte>, ts: U32) returns (p: RtpPacket)
      modifies this`seqNo
      ensures p == RtpPacket(payloadType, old(seqNo), ts, ssrc, true, AacPayload(raw))
      ensures seqNo == (old(seqNo) + 1) % 0x1_0000
    {
      p := RtpPacket(payloadType, seqNo, ts, ssrc, true, AacPayload(raw));
      seqNo := (seqNo + 1) % 0x1_0000;
    }
  }

  /** `(len as u16) << 3`: a 13-bit size that keeps only the low 13 bits of the length. */
  function AacPayload(raw: seq<Byte>): seq<Byte>
  {
    Be16(16) + Be16(|raw| % 0x1_0000 * 8 % 0x1_0000) + raw
  }

  /** RFC 3640 sections 3.2.1 and 3.2.3.1 with one 13+3 bit AU header, whose index is 0. */
  function ParseAac(payload: seq<Byte>): Option<seq<Byte>>
  {
    if |payload| < 4 || ReadBe16(payload, 0) != 16 then None
    else if ReadBe16(payload, 2) / 8 != |payload| - 4 || ReadBe16(payload, 2) % 8 != 0 then None
    else Some(payload[4..])
  }

  lemma {:induction false} Low13(n: nat)
    ensures n % 0x1_0000 * 8 % 0x1_0000 == n % 0x2000 * 8
  {
    var q, r := n / 0x1_0000, n % 0x1_0000;
    DivUnique(r * 8, 0x1_0000, r / 0x2000, r % 0x2000 * 8);
    DivUnique(n, 0x2000, q * 8 + r / 0x2000, r % 0x2000);
  }

  /** A frame is recovered exactly when its length fits the 13-bit size field. */
  lemma {:induction false} AacRoundTrip(raw: seq<Byte>)
    ensures ParseAac(AacPayload(raw)) == Some(raw) <==> |raw| < 0x2000
  {
    var p := AacPayload(raw);
    Low13(|raw|);
    assert p[4..] == raw;
    assert ReadBe16(p, 2) / 8 == |raw| % 0x2000 && ReadBe16(p, 2) % 8 == 0;
  }
}
