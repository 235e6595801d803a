/** The byte scan of `write_moof_av` never runs past the end, and fills in the right two fields
exactly when neither the sequence number, nor a decode time, nor the video sample table spells
`trun` itself. */
module TrunScan {
  import opened Bytes
  import opened Options
  import opened Boxes
  import opened Fmp4
  import opened Seqs

  // ---------- the moof as words ----------

  function SampleWords(samples: seq<Sample>): (ws: seq<U32>)
    ensures |ws| == 2 * |samples|
  {
    if samples == [] then [] else [samples[0].duration, samples[0].size] + SampleWords(samples[1..])
  }

  /** The trun box up to its sample table. */
  function TrunFixed(video: bool, count: nat, offset: U32): (ws: seq<U32>)
    ensures |ws| == if video then 6 else 5
  {
    if video then [(24 + 8 * count) % TWO32, TRUN, VIDEO_FLAGS, count % TWO32, offset, FIRST_SAMPLE_FLAGS]
    else [(20 + 8 * count) % TWO32, TRUN, AUDIO_FLAGS, count % TWO32, offset]
  }

  /** The traf box up to and including its decode time. */
  function TrafHead(video: bool, time: U64, count: nat): (ws: seq<U32>)
    ensures |ws| == 11
  {
    [((if video then 68 else 64) + 8 * count) % TWO32, TRAF, 16, TFHD, 0x0002_0000, if video then 1 else 2,
     20, TFDT, 0x0100_0000, time / TWO32, time % TWO32]
  }

  function TrafWords(video: bool, time: U64, samples: seq<Sample>, offset: U32): seq<U32>
  {
    TrafHead(video, time, |samples|) + (TrunFixed(video, |samples|, offset) + SampleWords(samples))
  }

  function MoofHead(f: Fragment): (ws: seq<U32>)
    ensures |ws| == 6
  {
    [(156 + 8 * (|f.video| + |f.audio|)) % TWO32, MOOF, 16, MFHD, 0, f.sequence]
  }

  function MoofWords(f: Fragment, videoOffset: U32, audioOffset: U32): seq<U32>
  {
    MoofHead(f) + (TrafWords(true, f.videoTime, f.video, videoOffset) + TrafWords(false, f.audioTime, f.audio, audioOffset))
  }

  lemma {:induction false} SamplesAreWords(samples: seq<Sample>)
    ensures SampleBytes(samples) == WordBytes(SampleWords(samples))
  {
    if samples != [] {
      SamplesAreWords(samples[1..]);
      TwoWords(samples[0].duration, samples[0].size);
      WordBytesConcat([samples[0].duration, samples[0].size], SampleWords(samples[1..]));
    }
  }

  lemma {:induction false} FourWords(a: U32, b: U32, c: U32, d: U32)
    ensures WordBytes([a, b, c, d]) == Be32(a) + Be32(b) + Be32(c) + Be32(d)
    ensures WordBytes([a, b, c]) == Be32(a) + Be32(b) + Be32(c)
  {
    TwoWords(a, b);
    TwoWords(c, d);
    WordBytesConcat([a, b], [c, d]);
    WordBytesConcat([a, b], [c]);
    assert [a, b] + [c, d] == [a, b, c, d] && [a, b] + [c] == [a, b, c];
    assert [c][1..] == [];
  }

  /** A box made of a header, `header[0]` being its size and `header[1]` its name, and a rest. */
  lemma {:induction false} BoxFromWords(name: U32, header: seq<U32>, rest: seq<U32>, headBytes: seq<Byte>, restBytes: seq<Byte>)
    requires |header| >= 2 && header[1] == name && header[0] == 4 * (|header| + |rest|) % TWO32
    requires headBytes == WordBytes(header[2..]) && restBytes == WordBytes(rest)
    ensures Box(name, headBytes + restBytes) == WordBytes(header + rest)
  {
    BoxFromFields(name, header[0], header[2..], rest);
    FirstTwo(header);
  }

  lemma {:induction false} BoxFromFields(name: U32, size: U32, fields: seq<U32>, rest: seq<U32>)
    requires size == (8 + 4 * (|fields| + |rest|)) % TWO32
    ensures Box(name, WordBytes(fields) + WordBytes(rest)) == WordBytes([size, name] + fields + rest)
  {
    hide Box, WordBytes;
    WordBytesConcat(fields, rest);
    BoxWords(name, fields + rest);
    ConcatAssoc([size, name], fields, rest);
  }

  lemma {:induction false} FirstTwo(ws: seq<U32>)
    requires |ws| >= 2
    ensures ws == [ws[0], ws[1]] + ws[2..]
  {}

  lemma {:induction false} TrunHeadIsWords(video: bool, count: nat, offset: U32)
    ensures TrunHead(video, count, offset) == WordBytes(TrunFixed(video, count, offset)[2..])
  {
    var n := count % TWO32;
    FourWords(if video then VIDEO_FLAGS else AUDIO_FLAGS, n, offset, FIRST_SAMPLE_FLAGS);
    EmptyConcat(Be32(AUDIO_FLAGS) + Be32(n) + Be32(offset));
    assert TrunFixed(true, count, offset)[2..] == [VIDEO_FLAGS, n, offset, FIRST_SAMPLE_FLAGS];
    assert TrunFixed(false, count, offset)[2..] == [AUDIO_FLAGS, n, offset];
  }

  lemma {:induction false} TrunIsWords(video: bool, samples: seq<Sample>, offset: U32)
    ensures Trun(video, samples, offset) == WordBytes(TrunFixed(video, |samples|, offset) + SampleWords(samples))
  {
    TrunHeadIsWords(video, |samples|, offset);
    SamplesAreWords(samples);
    BoxFromWords(TRUN, TrunFixed(video, |samples|, offset), SampleWords(samples),
                 TrunHead(video, |samples|, offset), SampleBytes(samples));
  }

  lemma {:induction false} MfhdIsWords(sequence: U32)
    ensures Mfhd(sequence) == WordBytes([16, MFHD, 0, sequence])
  {
    TwoWords(0, sequence);
    BoxWords(MFHD, [0, sequence]);
    assert [16, MFHD] + [0, sequence] == [16, MFHD, 0, sequence];
  }

  lemma {:induction false} TfhdIsWords(track: U32)
    ensures Tfhd(track) == WordBytes([16, TFHD, 0x0002_0000, track])
  {
    TwoWords(0x0002_0000, track);
    BoxWords(TFHD, [0x0002_0000, track]);
    assert [16, TFHD] + [0x0002_0000, track] == [16, TFHD, 0x0002_0000, track];
  }

  lemma {:induction false} TfdtIsWords(time: U64)
    ensures Tfdt(time) == WordBytes([20, TFDT, 0x0100_0000, time / TWO32, time % TWO32])
  {
    var hi, lo := time / TWO32, time % TWO32;
    FourWords(0x0100_0000, hi, lo, 0);
    ConcatAssoc(Be32(0x0100_0000), Be32(hi), Be32(lo));
    BoxWords(TFDT, [0x0100_0000, hi, lo]);
    assert [20, TFDT] + [0x0100_0000, hi, lo] == [20, TFDT, 0x0100_0000, hi, lo];
  }

  lemma {:induction false} TrafIsWords(video: bool, time: U64, samples: seq<Sample>, offset: U32)
    ensures Traf(video, time, samples, offset) == WordBytes(TrafWords(video, time, samples, offset))
  {
    var head, trun := TrafHead(video, time, |samples|), TrunFixed(video, |samples|, offset) + SampleWords(samples);
    TrafHeadIsWords(video, time, |samples|);
    TrunIsWords(video, samples, offset);
    BoxFromWords(TRAF, head, trun, Tfhd(if video then 1 else 2) + Tfdt(time), Trun(video, samples, offset));
  }

  lemma {:induction false} TrafHeadIsWords(video: bool, time: U64, count: nat)
    ensures Tfhd(if video then 1 else 2) + Tfdt(time) == WordBytes(TrafHead(video, time, count)[2..])
  {
    var tfhd := [16, TFHD, 0x0002_0000, if video then 1 else 2];
    var tfdt := [20, TFDT, 0x0100_0000, time / TWO32, time % TWO32];
    TfhdIsWords(if video then 1 else 2);
    TfdtIsWords(time);
    WordBytesConcat(tfhd, tfdt);
    assert TrafHead(video, time, count)[2..] == tfhd + tfdt;
  }

  lemma {:induction false} MoofIsWords(f: Fragment, videoOffset: U32, audioOffset: U32)
    ensures MoofAv(f, videoOffset, audioOffset) == WordBytes(MoofWords(f, videoOffset, audioOffset))
  {
    var video := TrafWords(true, f.videoTime, f.video, videoOffset);
    var audio := TrafWords(false, f.audioTime, f.audio, audioOffset);
    MfhdIsWords(f.sequence);
    assert MoofHead(f)[2..] == [16, MFHD, 0, f.sequence];
    TrafIsWords(true, f.videoTime, f.video, videoOffset);
    TrafIsWords(false, f.audioTime, f.audio, audioOffset);
    WordBytesConcat(video, audio);
    MoofFromWords(MoofHead(f), Mfhd(f.sequence), video, audio);
  }

  lemma {:induction false} MoofFromWords(header: seq<U32>, mfhd: seq<Byte>, video: seq<U32>, audio: seq<U32>)
    requires |header| >= 2 && header[1] == MOOF && header[0] == 4 * (|header| + |video| + |audio|) % TWO32
    requires mfhd == WordBytes(header[2..])
    ensures Box(MOOF, mfhd + WordBytes(video) + WordBytes(audio)) == WordBytes(header + (video + audio))
  {
    var v, a := WordBytes(video), WordBytes(audio);
    WordBytesConcat(video, audio);
    BoxFromWords(MOOF, header, video + audio, mfhd, v + a);
    ConcatAssoc(mfhd, v, a);
  }

  // ---------- where the words stand ----------

  /** Index of the audio traf. */
  function AudioStart(f: Fragment): nat { 23 + 2 * |f.video| }

  ghost predicate LaidOut(f: Fragment, ws: seq<U32>, videoOffset: U32, audioOffset: U32)
  {
    var a := AudioStart(f);
    && |ws| == 39 + 2 * (|f.video| + |f.audio|)
    && ws[0..6] == MoofHead(f)
    && ws[6..17] == TrafHead(true, f.videoTime, |f.video|)
    && ws[17..23] == TrunFixed(true, |f.video|, videoOffset)
    && ws[23..a] == SampleWords(f.video)
    && ws[a..a + 11] == TrafHead(false, f.audioTime, |f.audio|)
    && ws[a + 11..a + 16] == TrunFixed(false, |f.audio|, audioOffset)
    && ws[a + 16..|ws|] == SampleWords(f.audio)
  }

  lemma {:induction false} Layout(f: Fragment, videoOffset: U32, audioOffset: U32)
    ensures LaidOut(f, MoofWords(f, videoOffset, audioOffset), videoOffset, audioOffset)
  {
    var ws, a := MoofWords(f, videoOffset, audioOffset), AudioStart(f);
    var video := TrafWords(true, f.videoTime, f.video, videoOffset);
    var audio := TrafWords(false, f.audioTime, f.audio, audioOffset);
    assert ws[0..|ws|] == ws;
    SplitSlice(ws, 0, |ws|, MoofHead(f), video + audio);
    SplitSlice(ws, 6, |ws|, video, audio);
    TrafLayout(ws, 6, true, f.videoTime, f.video, videoOffset);
    TrafLayout(ws, a, false, f.audioTime, f.audio, audioOffset);
  }

  lemma {:induction false} TrafLayout(ws: seq<U32>, i: nat, video: bool, time: U64, samples: seq<Sample>, offset: U32)
    requires i + |TrafWords(video, time, samples, offset)| <= |ws|
    requires ws[i..i + |TrafWords(video, time, samples, offset)|] == TrafWords(video, time, samples, offset)
    ensures var h := i + if video then 17 else 16;
            && ws[i..i + 11] == TrafHead(video, time, |samples|)
            && ws[i + 11..h] == TrunFixed(video, |samples|, offset)
            && ws[h..h + 2 * |samples|] == SampleWords(samples)
  {
    hide TrafHead, TrunFixed, SampleWords;
    ThreeParts(ws, i, TrafHead(video, time, |samples|), TrunFixed(video, |samples|, offset), SampleWords(samples));
  }

  lemma {:induction false} ThreeParts(ws: seq<U32>, i: nat, x: seq<U32>, y: seq<U32>, z: seq<U32>)
    requires i + |x| + |y| + |z| <= |ws| && ws[i..i + |x| + |y| + |z|] == x + (y + z)
    ensures ws[i..i + |x|] == x && ws[i + |x|..i + |x| + |y|] == y && ws[i + |x| + |y|..i + |x| + |y| + |z|] == z
  {
    var end := i + |x| + |y| + |z|;
    SplitSlice(ws, i, end, x, y + z);
    SplitSlice(ws, i + |x|, end, y, z);
  }

  // ---------- words and hits ----------

  /** A word whose first byte is none of the second, third and fourth byte of `trun`. */
  predicate Safe(w: U32)
  {
    w / 0x100_0000 !in {0x72, 0x75, 0x6e}
  }

  /** No hit can lie on word `j` or across it and the next word. */
  predicate Quiet(ws: seq<U32>, j: nat)
    requires j < |ws|
  {
    ws[j] != TRUN && (j + 1 < |ws| ==> Safe(ws[j + 1]) || ws[j] % 0x100 == 0)
  }

  lemma {:induction false} TrunBytes()
    ensures Be32(TRUN) == [0x74, 0x72, 0x75, 0x6e]
  {
    assert Be(TRUN / 0x100_0000, 1) == [0x74];
    assert Be(TRUN / 0x1_0000, 2) == [0x74, 0x72];
    assert Be(TRUN / 0x100, 3) == [0x74, 0x72, 0x75];
  }

  lemma {:induction false} NamedWord(b: seq<Byte>, ws: seq<U32>, j: nat)
    requires b == WordBytes(ws) && j < |ws|
    ensures SaysTrun(b, 4 * j) <==> ws[j] == TRUN
  {
    WordSlice(b, ws, j);
    SpellsWord(b, 4 * j, ws[j]);
  }

  lemma {:induction false} SpellsWord(b: seq<Byte>, p: nat, v: U32)
    requires p + 4 <= |b| && b[p..p + 4] == Be32(v)
    ensures SaysTrun(b, p) <==> v == TRUN
  {
    TrunBytes();
    FourBytes(b, p);
    if SaysTrun(b, p) {
      Be32Injective(v, TRUN);
    }
  }

  lemma {:induction false} FourBytes(b: seq<Byte>, p: nat)
    requires p + 4 <= |b|
    ensures SaysTrun(b, p) <==> b[p..p + 4] == [0x74, 0x72, 0x75, 0x6e]
  {
    var w := b[p..p + 4];
    assert w == [b[p], b[p + 1], b[p + 2], b[p + 3]];
  }

  /** `trun` across two words needs a first byte of the second that is one of its later letters. */
  lemma {:induction false} NoStraddling(b: seq<Byte>, p: nat, k: nat)
    requires 1 <= k <= 3 && p + 4 <= |b|
    requires p + 4 < |b| ==> b[p + 4] !in {0x72, 0x75, 0x6e} || b[p + 3] == 0
    ensures !SaysTrun(b, p + k)
  {}

  /** The bytes on both sides of the end of word `j`. */
  lemma {:induction false} WordEnds(b: seq<Byte>, ws: seq<U32>, j: nat)
    requires b == WordBytes(ws) && j + 1 < |ws|
    ensures 4 * j + 8 <= |b| && b[4 * j + 3] == ws[j] % 0x100 && b[4 * j + 4] == ws[j + 1] / 0x100_0000
  {
    hide WordBytes, Be32;
    WordSlice(b, ws, j);
    WordSlice(b, ws, j + 1);
    var p, v, w := 4 * j, ws[j], ws[j + 1];
    hide *;
    TwoEnds(b, p, v, w);
  }

  lemma {:induction false} TwoEnds(b: seq<Byte>, p: nat, v: U32, w: U32)
    requires p + 8 <= |b| && b[p..p + 4] == Be32(v) && b[p + 4..p + 8] == Be32(w)
    ensures b[p + 3] == v % 0x100 && b[p + 4] == w / 0x100_0000
  {
    hide Be32;
    EndBytes(b, p, v);
    EndBytes(b, p + 4, w);
  }

  lemma {:induction false} EndBytes(b: seq<Byte>, p: nat, v: U32)
    requires p + 4 <= |b| && b[p..p + 4] == Be32(v)
    ensures b[p] == v / 0x100_0000 && b[p + 3] == v % 0x100
  {
    Be32Ends(v);
    hide Be32;
    assert b[p..p + 4][0] == b[p] && b[p..p + 4][3] == b[p + 3];
  }

  lemma {:induction false} Miss(b: seq<Byte>, i: nat)
    requires !SaysTrun(b, i + 4)
    ensures NextHit(b, i) == NextHit(b, i + 1)
  {}

  lemma {:induction false} ThreeMisses(b: seq<Byte>, p: nat, i: nat)
    requires i + 3 == p && p + 4 <= |b|
    requires p + 4 < |b| ==> b[p + 4] !in {0x72, 0x75, 0x6e} || b[p + 3] == 0
    ensures NextHit(b, i) == NextHit(b, i + 3)
  {
    NoStraddling(b, p, 1);
    NoStraddling(b, p, 2);
    NoStraddling(b, p, 3);
    Miss(b, i);
    Miss(b, i + 1);
    Miss(b, i + 2);
  }

  /** The three positions after the start of word `j`. */
  lemma {:induction false} StraddlingMisses(b: seq<Byte>, ws: seq<U32>, j: nat, i: nat)
    requires b == WordBytes(ws) && j < |ws| && i + 4 == 4 * j + 1
    requires j + 1 < |ws| ==> Safe(ws[j + 1]) || ws[j] % 0x100 == 0
    ensures NextHit(b, i) == NextHit(b, i + 3)
  {
    if j + 1 < |ws| {
      WordEnds(b, ws, j);
    }
    ThreeMisses(b, i + 3, i);
  }

  lemma {:induction false} QuietWord(b: seq<Byte>, ws: seq<U32>, j: nat, i: nat)
    requires b == WordBytes(ws) && j < |ws| && i + 4 == 4 * j && Quiet(ws, j)
    ensures NextHit(b, i) == NextHit(b, i + 4)
  {
    NamedWord(b, ws, j);
    Miss(b, i);
    StraddlingMisses(b, ws, j, i + 1);
  }

  lemma {:induction false} QuietWords(b: seq<Byte>, ws: seq<U32>, lo: nat, hi: nat, i: nat)
    requires b == WordBytes(ws) && lo <= hi <= |ws| && i + 4 == 4 * lo
    requires forall j :: lo <= j < hi ==> Quiet(ws, j)
    ensures NextHit(b, i) == NextHit(b, i + 4 * (hi - lo))
    decreases |ws| - lo
  {
    if lo < hi {
      QuietWord(b, ws, lo, i);
      QuietWords(b, ws, lo + 1, hi, i + 4);
    }
  }

  lemma {:induction false} HitWord(b: seq<Byte>, ws: seq<U32>, j: nat, i: nat)
    requires b == WordBytes(ws) && j < |ws| && i + 4 == 4 * j && ws[j] == TRUN
    ensures NextHit(b, i) == Some(i)
  {
    NamedWord(b, ws, j);
  }

  lemma {:induction false} SkipTo(b: seq<Byte>, i: nat, j: nat)
    requires i <= j && forall p :: i + 4 <= p < j + 4 ==> !SaysTrun(b, p)
    ensures NextHit(b, i) == NextHit(b, j)
    decreases j - i
  {
    hide NextHit, SaysTrun;
    if i < j {
      Miss(b, i);
      SkipTo(b, i + 1, j);
    }
  }

  lemma {:induction false} FindHit(b: seq<Byte>, i: nat, p: nat)
    requires SaysTrun(b, p) && i + 4 <= p
    ensures NextHit(b, i).Some? && i <= NextHit(b, i).value <= p - 4
    decreases p - i
  {
    if !SaysTrun(b, i + 4) {
      FindHit(b, i + 1, p);
    }
  }

  // ---------- the decode times ----------

  /** Some four bytes in a row are `trun`. */
  predicate Spells(s: seq<Byte>)
  {
    exists p: nat :: p <= |s| && SaysTrun(s, p)
  }

  predicate SpellsTrun(time: U64) { Spells(Be64(time)) }

  /** The eight bytes of the decode time whose high word is word `h`. */
  lemma {:induction false} TimeBytes(b: seq<Byte>, ws: seq<U32>, h: nat, time: U64)
    requires b == WordBytes(ws) && h + 1 < |ws| && ws[h] == time / TWO32 && ws[h + 1] == time % TWO32
    ensures 4 * h + 8 <= |b| && b[4 * h..4 * h + 8] == Be64(time)
  {
    TimeSlices(b, ws, h);
    hide *;
    Halves(b, 4 * h, Be32(ws[h]), Be32(ws[h + 1]));
    HalvesOfTime(time);
  }

  lemma {:induction false} TimeSlices(b: seq<Byte>, ws: seq<U32>, h: nat)
    requires b == WordBytes(ws) && h + 1 < |ws|
    ensures 4 * h + 8 <= |b| && b[4 * h..4 * h + 4] == Be32(ws[h]) && b[4 * h + 4..4 * h + 8] == Be32(ws[h + 1])
  {
    hide WordBytes, Be32;
    WordSlice(b, ws, h);
    WordSlice(b, ws, h + 1);
  }

  lemma {:induction false} Halves(b: seq<Byte>, p: nat, x: seq<Byte>, y: seq<Byte>)
    requires p + 8 <= |b| && b[p..p + 4] == x && b[p + 4..p + 8] == y
    ensures b[p..p + 8] == x + y
  {
    JoinSlices(b, p, p + 4, p + 8);
  }

  lemma {:induction false} HalvesOfTime(time: U64)
    ensures Be64(time) == Be32(time / TWO32) + Be32(time % TWO32)
  {}

  lemma {:induction false} SameBytes(b: seq<Byte>, p: nat, t: seq<Byte>, k: nat)
    requires |t| == 8 && k <= 4 && p + 8 <= |b| && b[p..p + 8] == t
    ensures SaysTrun(b, p + k) <==> SaysTrun(t, k)
  {
    assert forall m :: 0 <= m < 8 ==> t[m] == b[p + m];
  }

  /** The first five positions in a decode time `t`: skipped, or a hit at the first that spells `trun`. */
  lemma {:induction false} TimeMisses(b: seq<Byte>, p: nat, t: seq<Byte>, k: nat, i: nat) returns (at: nat)
    requires |t| == 8 && p + 8 <= |b| && b[p..p + 8] == t && k <= 5 && i + 4 == p + k
    ensures k <= at <= 5 && forall m :: k <= m < at ==> !SaysTrun(t, m)
    ensures at < 5 ==> SaysTrun(t, at) && NextHit(b, i) == Some(i + at - k)
    ensures at == 5 ==> NextHit(b, i) == NextHit(b, i + 5 - k)
    decreases 5 - k, |b|
  {
    at := k;
    if k < 5 {
      SameBytes(b, p, t, k);
      if !SaysTrun(t, k) {
        Miss(b, i);
        at := TimeMisses(b, p, t, k + 1, i + 1);
      }
    }
  }

  /** Skipping a decode time that does not spell `trun`, or stopping inside one that does. */
  lemma {:induction false} TimeWords(b: seq<Byte>, ws: seq<U32>, h: nat, time: U64, i: nat) returns (at: nat)
    requires b == WordBytes(ws) && h + 2 < |ws| && i + 4 == 4 * h
    requires ws[h] == time / TWO32 && ws[h + 1] == time % TWO32 && Safe(ws[h + 2])
    ensures !SpellsTrun(time) ==> NextHit(b, i) == NextHit(b, i + 8)
    ensures SpellsTrun(time) ==> at <= 4 && NextHit(b, i) == Some(i + at)
  {
    hide WordBytes, Be64, SaysTrun, NextHit;
    TimeBytes(b, ws, h, time);
    at := TimeMisses(b, 4 * h, Be64(time), 0, i);
    StraddlingMisses(b, ws, h + 1, i + 5);
    TimeHits(time);
  }

  lemma {:induction false} TimeHits(time: U64)
    ensures SpellsTrun(time) <==> exists k :: 0 <= k < 5 && SaysTrun(Be64(time), k)
  {
    hide Be64;
  }

  // ---------- one traf ----------

  /** The scan over a traf that starts at word `t`: it stops at the box name `trun`, or inside a
  decode time that spells it. */
  lemma {:induction false} TrafScan(b: seq<Byte>, ws: seq<U32>, t: nat, video: bool, time: U64, count: nat, i: nat) returns (at: nat)
    requires b == WordBytes(ws) && t + 12 < |ws| && i + 4 == 4 * t && count < 0x800_0000
    requires ws[t..t + 11] == TrafHead(video, time, count) && ws[t + 11] < LETTERS && ws[t + 12] == TRUN
    ensures !SpellsTrun(time) ==> NextHit(b, i) == Some(i + 48)
    ensures SpellsTrun(time) ==> at <= 4 && NextHit(b, i) == Some(i + 36 + at)
  {
    hide WordBytes, NextHit, SpellsTrun;
    TrafHeadQuiet(ws, t, video, time, count);
    QuietWords(b, ws, t, t + 9, i);
    at := TimeWords(b, ws, t + 9, time, i + 36);
    if !SpellsTrun(time) {
      QuietWord(b, ws, t + 11, i + 44);
      HitWord(b, ws, t + 12, i + 48);
    }
  }

  lemma {:induction false} TrafHeadQuiet(ws: seq<U32>, t: nat, video: bool, time: U64, count: nat)
    requires t + 11 <= |ws| && count < 0x800_0000 && ws[t..t + 11] == TrafHead(video, time, count)
    ensures forall j :: t <= j < t + 9 ==> Quiet(ws, j)
    ensures ws[t + 9] == time / TWO32 && ws[t + 10] == time % TWO32
  {
    var head := TrafHead(video, time, count);
    assert forall j :: 0 <= j < 11 ==> head[j] == ws[t + j];
    forall j | t <= j < t + 9 ensures Quiet(ws, j) {
      assert ws[j] == head[j - t] && ws[j + 1] == head[j - t + 1];
    }
  }

  // ---------- where the scan stops ----------

  /** Words below this one start with none of the letters of `trun`. */
  const LETTERS: U32 := 0x6e00_0000

  /** So few samples that neither a box size nor a sample count can look like a letter of `trun`. */
  predicate Bounded(f: Fragment) { |f.video| + |f.audio| < 0x800_0000 }

  lemma {:induction false} TrunWords(f: Fragment, ws: seq<U32>, videoOffset: U32, audioOffset: U32)
    requires LaidOut(f, ws, videoOffset, audioOffset)
    ensures var a := AudioStart(f);
            && ws[18] == TRUN && ws[19] == VIDEO_FLAGS && ws[20] == |f.video| % TWO32 && ws[21] == videoOffset
            && ws[22] == FIRST_SAMPLE_FLAGS && ws[a + 12] == TRUN && ws[a + 15] == audioOffset
  {
    var a := AudioStart(f);
    var v, w := ws[17..23], ws[a + 11..a + 16];
    assert v[1] == ws[18] && v[2] == ws[19] && v[3] == ws[20] && v[4] == ws[21] && v[5] == ws[22];
    assert w[1] == ws[a + 12] && w[4] == ws[a + 15];
  }

  lemma {:induction false} SmallSizes(f: Fragment, ws: seq<U32>, videoOffset: U32, audioOffset: U32)
    requires Bounded(f) && LaidOut(f, ws, videoOffset, audioOffset)
    ensures var a := AudioStart(f);
            |ws| == a + 16 + 2 * |f.audio| && ws[17] < LETTERS && ws[a] < LETTERS && ws[a + 11] < LETTERS
  {
    var a := AudioStart(f);
    assert ws[17..23][0] == ws[17] && ws[a + 11..a + 16][0] == ws[a + 11] && ws[a..a + 11][0] == ws[a];
  }

  /** From the start of the moof: the first stop of the scan. */
  lemma {:induction false} FirstHit(f: Fragment, b: seq<Byte>, ws: seq<U32>) returns (at: nat)
    requires Bounded(f) && b == WordBytes(ws) && LaidOut(f, ws, 0, 0)
    ensures f.sequence == TRUN ==> NextHit(b, 0) == Some(16)
    ensures f.sequence != TRUN && SpellsTrun(f.videoTime) ==> at <= 4 && NextHit(b, 0) == Some(56 + at)
    ensures f.sequence != TRUN && !SpellsTrun(f.videoTime) ==> NextHit(b, 0) == Some(68)
  {
    hide WordBytes, NextHit, SpellsTrun;
    HeadQuiet(f, ws);
    QuietWords(b, ws, 1, 5, 0);
    at := 0;
    if f.sequence == TRUN {
      HitWord(b, ws, 5, 16);
    } else {
      QuietWord(b, ws, 5, 16);
      TrunWords(f, ws, 0, 0);
      SmallSizes(f, ws, 0, 0);
      at := TrafScan(b, ws, 6, true, f.videoTime, |f.video|, 20);
    }
  }

  lemma {:induction false} HeadQuiet(f: Fragment, ws: seq<U32>)
    requires Bounded(f) && LaidOut(f, ws, 0, 0)
    ensures ws[5] == f.sequence && forall j :: 1 <= j < 5 ==> Quiet(ws, j)
    ensures f.sequence != TRUN ==> Quiet(ws, 5)
  {
    var head := ws[0..6];
    assert forall j :: 0 <= j < 6 ==> head[j] == ws[j];
    assert ws[6..17][0] == ws[6];
    assert ws[1] == MOOF && ws[2] == 16 && ws[3] == MFHD && ws[4] == 0;
  }

  lemma {:induction false} TableBytes(f: Fragment, b: seq<Byte>, ws: seq<U32>, v: U32)
    requires b == WordBytes(ws) && LaidOut(f, ws, v, 0)
    ensures 4 * AudioStart(f) <= |b| && b[92..4 * AudioStart(f)] == SampleBytes(f.video)
  {
    hide WordBytes;
    WordRange(ws, 23, AudioStart(f));
    SamplesAreWords(f.video);
  }

  lemma {:induction false} InSlice(b: seq<Byte>, lo: nat, hi: nat, p: nat)
    requires lo <= hi <= |b| && p + 4 <= hi - lo
    ensures SaysTrun(b[lo..hi], p) <==> SaysTrun(b, lo + p)
  {}

  /** The fields in front of the video sample table are skipped. */
  lemma {:induction false} FieldsScan(f: Fragment, b: seq<Byte>, ws: seq<U32>, v: U32)
    requires Bounded(f) && b == WordBytes(ws) && LaidOut(f, ws, v, 0) && v < LETTERS
    ensures NextHit(b, 76) == NextHit(b, 88)
  {
    hide WordBytes, NextHit, LaidOut;
    TrunWords(f, ws, v, 0);
    SmallSizes(f, ws, v, 0);
    QuietWords(b, ws, 20, 23, 76);
  }

  /** A sample table between words 23 and `a` that does not spell `trun` is skipped. */
  lemma {:induction false} InnocentTable(b: seq<Byte>, ws: seq<U32>, a: nat)
    requires b == WordBytes(ws) && 23 <= a < |ws| && ws[a] < LETTERS && !Spells(b[92..4 * a])
    ensures NextHit(b, 88) == NextHit(b, 4 * a - 4)
  {
    hide WordBytes, NextHit, SaysTrun;
    forall p | 92 <= p < 4 * a ensures !SaysTrun(b, p) {
      if p + 4 <= 4 * a {
        InSlice(b, 92, 4 * a, p - 92);
      } else {
        WordEnds(b, ws, a - 1);
        NoStraddling(b, 4 * a - 4, p - (4 * a - 4));
      }
    }
    SkipTo(b, 88, 4 * a - 4);
  }

  /** One that does stops the scan. */
  lemma {:induction false} SpellingTable(b: seq<Byte>, end: nat)
    requires 92 <= end <= |b| && Spells(b[92..end])
    ensures NextHit(b, 88).Some? && 88 <= NextHit(b, 88).value && NextHit(b, 88).value + 8 <= end
  {
    hide NextHit, SaysTrun;
    var table := b[92..end];
    var p: nat :| p <= |table| && SaysTrun(table, p);
    SaysTrunFits(table, p);
    InSlice(b, 92, end, p);
    FindHit(b, 88, 92 + p);
  }

  /** Behind the first trun's name, its offset filled in: the scan leaves the video sample table, or
  stops inside it. */
  lemma {:induction false} TableScan(f: Fragment, b: seq<Byte>, ws: seq<U32>, v: U32)
    requires Bounded(f) && b == WordBytes(ws) && LaidOut(f, ws, v, 0) && v < LETTERS
    ensures var a, hit := AudioStart(f), NextHit(b, 76);
            if Spells(SampleBytes(f.video)) then hit.Some? && 76 <= hit.value && hit.value + 8 <= 4 * a
            else hit == NextHit(b, 4 * a - 4)
  {
    hide WordBytes, NextHit, SampleBytes, Spells, LaidOut;
    var a := AudioStart(f);
    FieldsScan(f, b, ws, v);
    SmallSizes(f, ws, v, 0);
    TableBytes(f, b, ws, v);
    if Spells(SampleBytes(f.video)) {
      SpellingTable(b, 4 * a);
    } else {
      InnocentTable(b, ws, a);
    }
  }

  lemma {:induction false} SaysTrunFits(s: seq<Byte>, p: nat)
    requires SaysTrun(s, p)
    ensures p + 4 <= |s|
  {}

  /** The second stop of the scan: the audio trun, or a place in front of it. */
  lemma {:induction false} SecondHit(f: Fragment, b: seq<Byte>, ws: seq<U32>, v: U32) returns (at: nat)
    requires Bounded(f) && b == WordBytes(ws) && LaidOut(f, ws, v, 0) && v < LETTERS
    ensures NextHit(b, 76) == Some(at) && 76 <= at
    ensures if Spells(SampleBytes(f.video)) || SpellsTrun(f.audioTime) then at + 20 <= 4 * AudioStart(f) + 60
            else at == 4 * AudioStart(f) + 44
  {
    hide WordBytes, NextHit, SpellsTrun, Spells;
    var a := AudioStart(f);
    TableScan(f, b, ws, v);
    if Spells(SampleBytes(f.video)) {
      at := NextHit(b, 76).value;
    } else {
      TrunWords(f, ws, v, 0);
      SmallSizes(f, ws, v, 0);
      var k := TrafScan(b, ws, a, false, f.audioTime, |f.audio|, 4 * a - 4);
      at := if SpellsTrun(f.audioTime) then 4 * a + 32 + k else 4 * a + 44;
    }
  }

  /** Writing a data offset into the words of a moof. */
  lemma {:induction false} PatchTraf(video: bool, time: U64, samples: seq<Sample>, offset: U32, v: U32)
    ensures TrafWords(video, time, samples, offset)[15 := v] == TrafWords(video, time, samples, v)
  {
    var h, t := TrafHead(video, time, |samples|), SampleWords(samples);
    UpdateRight(h, TrunFixed(video, |samples|, offset) + t, 15, v);
    UpdateLeft(TrunFixed(video, |samples|, offset), t, 4, v);
    assert TrunFixed(video, |samples|, offset)[4 := v] == TrunFixed(video, |samples|, v);
  }

  lemma {:induction false} UpdateRight<T>(x: seq<T>, y: seq<T>, i: nat, v: T)
    requires |x| <= i < |x| + |y|
    ensures (x + y)[i := v] == x + y[i - |x| := v]
  {}

  lemma {:induction false} UpdateLeft<T>(x: seq<T>, y: seq<T>, i: nat, v: T)
    requires i < |x|
    ensures (x + y)[i := v] == x[i := v] + y
  {}

  lemma {:induction false} PatchVideo(f: Fragment, v: U32)
    ensures |MoofWords(f, 0, 0)| > 21 && MoofWords(f, 0, 0)[21 := v] == MoofWords(f, v, 0)
  {
    var video, audio := TrafWords(true, f.videoTime, f.video, 0), TrafWords(false, f.audioTime, f.audio, 0);
    PatchTraf(true, f.videoTime, f.video, 0, v);
    UpdateRight(MoofHead(f), video + audio, 21, v);
    UpdateLeft(video, audio, 15, v);
  }

  lemma {:induction false} PatchAudio(f: Fragment, v: U32, a: U32)
    ensures var at := AudioStart(f) + 15;
            |MoofWords(f, v, 0)| > at && MoofWords(f, v, 0)[at := a] == MoofWords(f, v, a)
  {
    var video, audio := TrafWords(true, f.videoTime, f.video, v), TrafWords(false, f.audioTime, f.audio, 0);
    var at := AudioStart(f) + 15;
    PatchTraf(false, f.audioTime, f.audio, 0, a);
    UpdateRight(MoofHead(f), video + audio, at, a);
    UpdateRight(video, audio, at - 6, a);
  }

  /** What the scan leaves behind it stays. */
  lemma {:induction false} PatchKeeps(data: seq<Byte>, i: nat, values: seq<U32>)
    ensures var r := PatchHits(data, i, values);
            r.Some? ==> |r.value| == |data| && forall p :: 0 <= p < i + 16 && p < |data| ==> r.value[p] == data[p]
    decreases |values|
  {
    var hit := NextHit(data, i);
    HitBound(data, i);
    if hit.Some? && values != [] && hit.value + 20 <= |data| {
      PatchKeeps(Patched(data, hit.value + 16, values[0]), hit.value + 8, values[1..]);
    }
  }

  lemma {:induction false} HitBound(data: seq<Byte>, i: nat)
    ensures var hit := NextHit(data, i); hit.Some? ==> i <= hit.value
    decreases |data| - i
  {
    if i + 8 <= |data| && !Hit(data, i) {
      HitBound(data, i + 1);
    }
  }

  // ---------- the scan stays inside ----------

  /** Whatever the moof holds, both offset fields the scan writes lie inside it: the names of the two
  trun boxes themselves are there to be found. */
  lemma {:induction false} ScanStaysInside(f: Fragment, videoBytes: nat)
    ensures PatchedMoof(f, videoBytes).Some?
  {
    hide MoofAv, MoofWords, WordBytes, PatchHits, NextHit, Patched, SaysTrun;
    var ws, a := MoofWords(f, 0, 0), AudioStart(f);
    MoofIsWords(f, 0, 0);
    Layout(f, 0, 0);
    TrunWords(f, ws, 0, 0);
    var b := WordBytes(ws);
    NamedWord(b, ws, 18);
    NamedWord(b, ws, a + 12);
    FindHit(b, 0, 72);
    var values := Offsets(|b|, videoBytes);
    assert values == [values[0]] + [values[1]];
    var at := NextHit(b, 0).value;
    OneHit(b, 0, at, values[0], [values[1]]);
    var d := Patched(b, at + 16, values[0]);
    PatchedBehind(b, at + 16, values[0], 4 * (a + 12));
    FindHit(d, at + 8, 4 * (a + 12));
    EmptyConcat([values[1]]);
    var last := NextHit(d, at + 8).value;
    OneHit(d, at + 8, last, values[1], []);
    LastPatch(Patched(d, last + 16, values[1]), last + 8);
  }

  lemma {:induction false} PatchedBehind(b: seq<Byte>, p: nat, v: U32, q: nat)
    requires p + 4 <= q && q + 4 <= |b|
    ensures SaysTrun(Patched(b, p, v), q) <==> SaysTrun(b, q)
  {
    hide Be32;
    var d := Patched(b, p, v);
    assert forall k :: q <= k < |b| ==> d[k] == b[k];
  }

  // ---------- the whole scan ----------

  /** What `write_moof_av` is for: offsets relative to the moof, of the first video sample, which
  follows the header of the mdat, and of the first audio sample. */
  function VideoStart(f: Fragment): nat { 164 + 8 * (|f.video| + |f.audio|) }

  ghost predicate Addressable(f: Fragment, videoBytes: nat)
  {
    Bounded(f) && VideoStart(f) + videoBytes < TWO32
  }

  ghost function IdealMoof(f: Fragment, videoBytes: nat): seq<Byte>
    requires Addressable(f, videoBytes)
  {
    MoofAv(f, VideoStart(f), VideoStart(f) + videoBytes)
  }

  /** Nothing the scan comes by before the audio trun spells `trun`: not the sequence number, not a
  decode time, and no four bytes of the durations and sizes of the video samples. */
  ghost predicate Unspelled(f: Fragment)
  {
    f.sequence != TRUN && !SpellsTrun(f.videoTime) && !Spells(SampleBytes(f.video)) && !SpellsTrun(f.audioTime)
  }

  lemma {:induction false} MoofSize(f: Fragment)
    ensures |MoofAv(f, 0, 0)| + 8 == VideoStart(f)
  {
    MoofIsWords(f, 0, 0);
    Layout(f, 0, 0);
  }

  /** The scan fills in exactly the two data offsets if and only if the bytes of the sequence
  number, of the two decode times and of the video sample table do not spell `trun`. What the
  audio sample table spells does not matter: the scan ends after two hits. */
  lemma {:induction false} ScanIsExact(f: Fragment, videoBytes: nat)
    requires Addressable(f, videoBytes)
    ensures PatchedMoof(f, videoBytes) == Some(IdealMoof(f, videoBytes)) <==> Unspelled(f)
  {
    hide PatchHits, MoofAv, SpellsTrun, Spells;
    MoofSize(f);
    var v, a := VideoStart(f), VideoStart(f) + videoBytes;
    assert v % TWO32 == v && a % TWO32 == a;
    var b := MoofAv(f, 0, 0);
    assert PatchedMoof(f, videoBytes) == PatchHits(b, 0, [v, a]);
    if f.sequence == TRUN {
      SequenceSpells(f, b, v, a);
    } else if SpellsTrun(f.videoTime) {
      VideoTimeSpells(f, b, v, a);
    } else {
      FirstPatch(f, b, v, a);
      SecondPatch(f, MoofAv(f, v, 0), v, a);
    }
  }

  lemma {:induction false} OneHit(b: seq<Byte>, i: nat, at: nat, v: U32, rest: seq<U32>)
    requires NextHit(b, i) == Some(at) && at + 20 <= |b|
    ensures PatchHits(b, i, [v] + rest) == PatchHits(Patched(b, at + 16, v), at + 8, rest)
  {
    hide NextHit, Patched;
    assert ([v] + rest)[1..] == rest;
  }

  /** The first patch goes to the video trun. */
  lemma {:induction false} FirstPatch(f: Fragment, b: seq<Byte>, v: U32, a: U32)
    requires Bounded(f) && b == MoofAv(f, 0, 0) && f.sequence != TRUN && !SpellsTrun(f.videoTime)
    ensures PatchHits(b, 0, [v, a]) == PatchHits(MoofAv(f, v, 0), 76, [a])
  {
    hide MoofAv, PatchHits, MoofWords, SpellsTrun, WordBytes, Patched, NextHit;
    var ws := MoofWords(f, 0, 0);
    MoofIsWords(f, 0, 0);
    Layout(f, 0, 0);
    var at := FirstHit(f, b, ws);
    assert [v, a] == [v] + [a];
    OneHit(b, 0, 68, v, [a]);
    PatchedWord(ws, 21, v);
    PatchVideo(f, v);
    MoofIsWords(f, v, 0);
  }

  /** The second goes to the audio trun, or to a place in front of it. */
  lemma {:induction false} SecondPatch(f: Fragment, b: seq<Byte>, v: U32, a: U32)
    requires Bounded(f) && b == MoofAv(f, v, 0) && v < LETTERS && a != 0
    ensures PatchHits(b, 76, [a]) == Some(MoofAv(f, v, a)) <==> !Spells(SampleBytes(f.video)) && !SpellsTrun(f.audioTime)
  {
    hide MoofAv, PatchHits, MoofWords, SpellsTrun, Spells, SampleBytes, WordBytes, NextHit, Patched;
    var ws, start := MoofWords(f, v, 0), AudioStart(f);
    MoofIsWords(f, v, 0);
    Layout(f, v, 0);
    var at := SecondHit(f, b, ws, v);
    EmptyConcat([a]);
    OneHit(b, 76, at, a, []);
    LastPatch(Patched(b, at + 16, a), at + 8);
    if at == 4 * start + 44 {
      PatchedWord(ws, start + 15, a);
      PatchAudio(f, v, a);
      MoofIsWords(f, v, a);
    } else {
      AudioOffsetMissing(f, b, ws, v, a, at + 16);
    }
  }

  lemma {:induction false} LastPatch(data: seq<Byte>, i: nat)
    ensures PatchHits(data, i, []) == Some(data)
  {}

  /** An offset written in front of the audio trun's field leaves that field 0. */
  lemma {:induction false} AudioOffsetMissing(f: Fragment, b: seq<Byte>, ws: seq<U32>, v: U32, a: U32, p: nat)
    requires b == WordBytes(ws) && LaidOut(f, ws, v, 0) && p + 4 <= 4 * AudioStart(f) + 60 && a != 0
    ensures Patched(b, p, a) != MoofAv(f, v, a)
  {
    hide MoofAv, MoofWords, WordBytes, Patched;
    var start := AudioStart(f);
    var r, ideal := Patched(b, p, a), MoofWords(f, v, a);
    Layout(f, v, a);
    MoofIsWords(f, v, a);
    TrunWords(f, ws, v, 0);
    TrunWords(f, ideal, v, a);
    WordSlice(b, ws, start + 15);
    WordSlice(WordBytes(ideal), ideal, start + 15);
    PatchedElsewhere(b, p, a, 4 * start + 60);
    if r == WordBytes(ideal) {
      Be32Injective(0, a);
    }
  }

  lemma {:induction false} PatchedElsewhere(b: seq<Byte>, p: nat, v: U32, q: nat)
    requires p + 4 <= q && q + 4 <= |b|
    ensures Patched(b, p, v)[q..q + 4] == b[q..q + 4]
  {}

  /** A first hit at `at` that is not the video trun: the word written there stays. */
  lemma {:induction false} FirstPatchStays(b: seq<Byte>, at: nat, v: U32, a: U32)
    requires NextHit(b, 0) == Some(at) && at + 20 <= |b|
    ensures var r := PatchHits(b, 0, [v, a]); r.Some? ==> at + 20 <= |r.value| && r.value[at + 16..at + 20] == Be32(v)
  {
    hide PatchHits, NextHit, Be32;
    assert [v, a] == [v] + [a];
    OneHit(b, 0, at, v, [a]);
    var d := Patched(b, at + 16, v);
    assert d[at + 16..at + 20] == Be32(v);
    PatchKeeps(d, at + 8, [a]);
    var r := PatchHits(d, at + 8, [a]);
    if r.Some? {
      assert r.value[at + 16..at + 20] == d[at + 16..at + 20];
    }
  }

  lemma {:induction false} SequenceSpells(f: Fragment, b: seq<Byte>, v: U32, a: U32)
    requires Bounded(f) && b == MoofAv(f, 0, 0) && f.sequence == TRUN && v == VideoStart(f)
    ensures PatchHits(b, 0, [v, a]) != Some(MoofAv(f, v, a))
  {
    hide MoofAv, PatchHits, MoofWords, SpellsTrun, WordBytes, NextHit;
    var ws, ideal := MoofWords(f, 0, 0), MoofWords(f, v, a);
    MoofIsWords(f, 0, 0);
    MoofIsWords(f, v, a);
    Layout(f, 0, 0);
    Layout(f, v, a);
    var at := FirstHit(f, b, ws);
    FirstPatchStays(b, 16, v, a);
    WordSlice(WordBytes(ideal), ideal, 8);
    assert ideal[6..17][2] == ideal[8];
    if PatchHits(b, 0, [v, a]) == Some(WordBytes(ideal)) {
      Be32Injective(v, 16);
    }
  }

  /** The name and flags of the video trun in the ideal moof. */
  lemma {:induction false} TrunName(f: Fragment, v: U32, a: U32)
    requires Bounded(f)
    ensures var d := MoofAv(f, v, a);
            |d| >= 80 && d[72..76] == Be32(TRUN) && d[76..80] == Be32(VIDEO_FLAGS)
  {
    hide MoofAv, MoofWords, WordBytes, Be32;
    var ideal := MoofWords(f, v, a);
    MoofIsWords(f, v, a);
    Layout(f, v, a);
    TrunWords(f, ideal, v, a);
    WordSlice(WordBytes(ideal), ideal, 18);
    WordSlice(WordBytes(ideal), ideal, 19);
  }

  lemma {:induction false} VideoTimeSpells(f: Fragment, b: seq<Byte>, v: U32, a: U32)
    requires Bounded(f) && b == MoofAv(f, 0, 0) && f.sequence != TRUN && SpellsTrun(f.videoTime) && v == VideoStart(f)
    ensures PatchHits(b, 0, [v, a]) != Some(MoofAv(f, v, a))
  {
    hide MoofAv, PatchHits, MoofWords, SpellsTrun, WordBytes, NextHit, Be32;
    var ws := MoofWords(f, 0, 0);
    MoofIsWords(f, 0, 0);
    Layout(f, 0, 0);
    MoofSize(f);
    var at := FirstHit(f, b, ws);
    TrunName(f, v, a);
    TrunLost(b, MoofAv(f, v, a), at, v, a);
  }

  lemma {:induction false} TrunLost(b: seq<Byte>, d: seq<Byte>, at: nat, v: U32, a: U32)
    requires NextHit(b, 0) == Some(56 + at) && at <= 4 && |b| >= 80 && v < LETTERS && v % 4 == 0
    requires |d| >= 80 && d[72..76] == Be32(TRUN) && d[76..80] == Be32(VIDEO_FLAGS)
    ensures PatchHits(b, 0, [v, a]) != Some(d)
  {
    hide PatchHits, NextHit, Be32;
    FirstPatchStays(b, 56 + at, v, a);
    if PatchHits(b, 0, [v, a]) == Some(d) {
      TrunOverwritten(d, at, v);
    }
  }

  /** An offset cannot be written over the name and flags of the video trun unnoticed. */
  lemma {:induction false} TrunOverwritten(d: seq<Byte>, at: nat, v: U32)
    requires |d| >= 80 && at <= 4 && v < LETTERS && v % 4 == 0 && d[72 + at..76 + at] == Be32(v)
    ensures d[72..76] != Be32(TRUN) || d[76..80] != Be32(VIDEO_FLAGS)
  {
    hide Be32;
    EndBytes(d, 72 + at, v);
    TrunBytes();
    assert at < 4 ==> d[72..76][at] == d[72 + at];
    if at == 4 && Be32(v) == Be32(VIDEO_FLAGS) {
      Be32Injective(v, VIDEO_FLAGS);
    }
  }

  lemma {:induction false} Word(s: seq<Byte>, p: nat)
    requires p + 4 <= |s| && s[p..p + 4] == Be32(TRUN)
    ensures Spells(s)
  {
    TrunBytes();
    FourBytes(s, p);
  }

  /** A decode time of 0x7472756e ms, reached after 22 and a half days of uninterrupted video. */
  lemma {:induction false} SpelledDecodeTime()
    ensures var f := Fragment(1, 0x7472_756e, [], 0, []);
            Addressable(f, 0) && PatchedMoof(f, 0) != Some(IdealMoof(f, 0))
  {
    hide PatchedMoof, IdealMoof, Spells, Be32;
    var f := Fragment(1, 0x7472_756e, [], 0, []);
    Word(Be64(0x7472_756e), 4);
    ScanIsExact(f, 0);
  }

  /** One NALU that lasts 0x7472756e ms, as the first one does whose timestamp is that: sequence
  number and decode times are innocent, yet the second offset goes into the sample table. */
  lemma {:induction false} SpelledDuration()
    ensures var f := Fragment(1, 0, [Sample(0x7472_756e, 1000)], 0, []);
            && f.sequence != TRUN && !SpellsTrun(f.videoTime) && !SpellsTrun(f.audioTime)
            && Addressable(f, 1000) && PatchedMoof(f, 1000) != Some(IdealMoof(f, 1000))
  {
    hide PatchedMoof, IdealMoof, Spells, Be32;
    var f := Fragment(1, 0, [Sample(0x7472_756e, 1000)], 0, []);
    Word(SampleBytes(f.video), 0);
    NoTime();
    ScanIsExact(f, 1000);
  }

  lemma {:induction false} NoTime()
    ensures !SpellsTrun(0)
  {
    EndBytes(Be64(0), 0, 0);
    EndBytes(Be64(0), 4, 0);
  }
}
