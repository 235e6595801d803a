/** Reading a media segment back as ISO/IEC 14496-12 lays it down: boxes (section 4.2), movie
fragments (section 8.8.4 to 8.8.8) and their decode time (section 8.8.12). */
module SegmentReader {
  import opened Bytes
  import opened Options
  import opened Boxes
  import opened Fmp4
  import opened Seqs
  import opened TrunScan
  import opened MediaSegment

  // ---------- the reader ----------

  /** A box: its name and where its content lies in the file. */
  datatype BoxAt = BoxAt(name: U32, start: nat, end: nat)

  /** The boxes that fill positions `lo` to `hi`; 64-bit and open-ended sizes are refused. */
  function ReadBoxes(s: seq<Byte>, lo: nat, hi: nat): (r: Option<seq<BoxAt>>)
    requires lo <= hi <= |s|
    ensures r.Some? ==> forall i :: 0 <= i < |r.value| ==> lo + 8 <= r.value[i].start <= r.value[i].end <= hi
    decreases hi - lo
  {
    if lo == hi then Some([])
    else if hi - lo < 8 then None
    else
      var size := ReadBe32(s, lo);
      if size < 8 || hi - lo < size then None
      else
        var rest :- ReadBoxes(s, lo + size, hi);
        Some([BoxAt(ReadBe32(s, lo + 4), lo + 8, lo + size)] + rest)
  }

  /** A sample: how long it lasts and its data. */
  datatype MediaSample = MediaSample(duration: U32, data: seq<Byte>)

  /** A track's run: its samples, and the flags of the first one if they are given. */
  datatype TrackRun = TrackRun(firstFlags: Option<U32>, samples: seq<MediaSample>)

  datatype Track = Track(id: U32, time: U64, run: TrackRun)

  datatype Segment = Segment(sequence: U32, tracks: seq<Track>)

  predicate FlagSet(flags: U32, bit: nat)
    requires bit > 0
  {
    flags / bit % 2 == 1
  }

  function FieldSize(flags: U32, bit: nat): (n: nat)
    requires bit > 0
    ensures n <= 4
  {
    if FlagSet(flags, bit) then 4 else 0
  }

  /** Section 8.8.7: the track; data offsets count from the start of the moof and no defaults are set. */
  function ReadTfhd(s: seq<Byte>, box: BoxAt): Option<U32>
    requires box.start <= box.end <= |s|
  {
    if box.name != TFHD || box.end - box.start != 8 || ReadBe32(s, box.start) != 0x2_0000 then None
    else Some(ReadBe32(s, box.start + 4))
  }

  /** Section 8.8.12: 64 bits in version 1, 32 bits in version 0. */
  function ReadTfdt(s: seq<Byte>, box: BoxAt): Option<U64>
    requires box.start <= box.end <= |s|
  {
    if box.name != TFDT || box.end - box.start < 8 then None
    else if ReadBe32(s, box.start) == 0 && box.end - box.start == 8 then Some(ReadBe32(s, box.start + 4))
    else if ReadBe32(s, box.start) == 0x100_0000 && box.end - box.start == 12 then Some(ReadBe64(s, box.start + 4))
    else None
  }

  /** A data offset is a signed 32-bit number. */
  function Signed(v: U32): int { if v < 0x8000_0000 then v else v - TWO32 }

  /** Version 0 and the flags whose fields this reader knows. */
  predicate Understood(flags: U32)
  {
    flags == (if FlagSet(flags, 0x1) then 0x1 else 0) + (if FlagSet(flags, 0x4) then 0x4 else 0)
             + (if FlagSet(flags, 0x100) then 0x100 else 0) + (if FlagSet(flags, 0x200) then 0x200 else 0)
             + (if FlagSet(flags, 0x400) then 0x400 else 0) + (if FlagSet(flags, 0x800) then 0x800 else 0)
  }

  /** Section 8.8.8. The sample data must lie inside `mdat`: where the data offset says, or, for a reader
  that does not `follow` it, from the start on. */
  function ReadTrun(s: seq<Byte>, box: BoxAt, mdat: BoxAt, follow: bool): Option<TrackRun>
    requires box.start <= box.end <= |s| && mdat.start <= mdat.end <= |s|
  {
    if box.name != TRUN || box.end - box.start < 12 then None
    else
      var flags := ReadBe32(s, box.start);
      var table := box.start + 12 + FieldSize(flags, 0x4);
      var stride := 8 + FieldSize(flags, 0x400) + FieldSize(flags, 0x800);
      var at := if follow then Signed(ReadBe32(s, box.start + 8)) else mdat.start;
      // durations, sizes and the data offset are there
      if !FlagSet(flags, 0x1) || !FlagSet(flags, 0x100) || !FlagSet(flags, 0x200) || !Understood(flags) then None
      else if at < mdat.start || box.end < table then None
      else
        var samples :- ReadSamples(s, table, box.end, stride, ReadBe32(s, box.start + 4), at, mdat.end);
        Some(TrackRun(if FlagSet(flags, 0x4) then Some(ReadBe32(s, box.start + 12)) else None, samples))
  }

  /** `count` table entries from `pos` on, their data one after the other from `at` on. */
  function ReadSamples(s: seq<Byte>, pos: nat, end: nat, stride: nat, count: nat, at: nat, limit: nat): Option<seq<MediaSample>>
    requires end <= |s| && limit <= |s| && stride >= 8
    decreases count, |s|
  {
    if count == 0 then Some([])
    else if end < pos + stride then None
    else
      var size := ReadBe32(s, pos + 4);
      if limit < at + size then None
      else
        var rest :- ReadSamples(s, pos + stride, end, stride, count - 1, at + size, limit);
        Some([MediaSample(ReadBe32(s, pos), s[at..at + size])] + rest)
  }

  /** Section 8.8.6, for a traf of one run: tfhd, tfdt, trun. */
  function ReadTraf(s: seq<Byte>, box: BoxAt, mdat: BoxAt, follow: bool): Option<Track>
    requires box.start <= box.end <= |s| && mdat.start <= mdat.end <= |s|
  {
    var boxes :- ReadBoxes(s, box.start, box.end);
    if box.name != TRAF || |boxes| != 3 then None
    else
      var id :- ReadTfhd(s, boxes[0]);
      var time :- ReadTfdt(s, boxes[1]);
      var run :- ReadTrun(s, boxes[2], mdat, follow);
      Some(Track(id, time, run))
  }

  function ReadTrafs(s: seq<Byte>, boxes: seq<BoxAt>, mdat: BoxAt, follow: bool): Option<seq<Track>>
    requires mdat.start <= mdat.end <= |s|
    requires forall i :: 0 <= i < |boxes| ==> boxes[i].start <= boxes[i].end <= |s|
  {
    if boxes == [] then Some([])
    else
      var track :- ReadTraf(s, boxes[0], mdat, follow);
      var rest :- ReadTrafs(s, boxes[1..], mdat, follow);
      Some([track] + rest)
  }

  /** A file of one moof and its mdat. */
  function ReadSegment(s: seq<Byte>, follow: bool): Option<Segment>
  {
    var top :- ReadBoxes(s, 0, |s|);
    if |top| != 2 || top[0].name != MOOF || top[1].name != MDAT then None
    else
      var boxes :- ReadBoxes(s, top[0].start, top[0].end);
      if |boxes| == 0 || boxes[0].name != MFHD || boxes[0].end - boxes[0].start != 8 || ReadBe32(s, boxes[0].start) != 0 then None
      else
        var tracks :- ReadTrafs(s, boxes[1..], top[1], follow);
        Some(Segment(ReadBe32(s, boxes[0].start + 4), tracks))
  }

  // ---------- one box after another ----------

  lemma {:induction false} OneMoreBox(s: seq<Byte>, lo: nat, hi: nat, size: nat, name: U32)
    requires lo + size <= hi <= |s| && size >= 8 && ReadBe32(s, lo) == size && ReadBe32(s, lo + 4) == name
    ensures var r := ReadBoxes(s, lo + size, hi);
            ReadBoxes(s, lo, hi) == if r.None? then None else Some([BoxAt(name, lo + 8, lo + size)] + r.value)
  {
    hide ReadBe32;
  }

  /** A box whose size and name are words `j` and `j + 1`. */
  lemma {:induction false} WordBox(s: seq<Byte>, ws: seq<U32>, j: nat, lo: nat, hi: nat, size: nat, name: U32)
    requires WordBytes(ws) <= s && j + 1 < |ws| && ws[j] == size && ws[j + 1] == name
    requires lo == 4 * j && lo + size <= hi <= |s| && size >= 8
    ensures var r := ReadBoxes(s, lo + size, hi);
            ReadBoxes(s, lo, hi) == if r.None? then None else Some([BoxAt(name, lo + 8, lo + size)] + r.value)
  {
    hide WordBytes, ReadBe32, ReadBoxes;
    ReadWord(s, ws, j);
    ReadWord(s, ws, j + 1);
    OneMoreBox(s, lo, hi, size, name);
  }

  lemma {:induction false} NoMoreBoxes(s: seq<Byte>, hi: nat)
    requires hi <= |s|
    ensures ReadBoxes(s, hi, hi) == Some([])
  {}

  // ---------- the sample tables ----------

  /** The table at word `j` and the data at `at` are those of `samples`. */
  ghost predicate Stored(s: seq<Byte>, ws: seq<U32>, j: nat, at: nat, limit: nat, samples: seq<MediaSample>)
  {
    && WordBytes(ws) <= s
    && j + 2 * |samples| <= |ws|
    && (forall i :: 0 <= i < |samples| ==>
          ws[j + 2 * i] == samples[i].duration && ws[j + 2 * i + 1] == |samples[i].data|)
    && at + |Concat(DataOf(samples))| <= limit <= |s|
    && s[at..at + |Concat(DataOf(samples))|] == Concat(DataOf(samples))
  }

  function DataOf(samples: seq<MediaSample>): (r: seq<seq<Byte>>)
    ensures |r| == |samples| && forall i :: 0 <= i < |r| ==> r[i] == samples[i].data
  {
    seq(|samples|, (i: int) requires 0 <= i < |samples| => samples[i].data)
  }

  lemma {:induction false} StoredIsRead(s: seq<Byte>, ws: seq<U32>, j: nat, pos: nat, end: nat, at: nat, limit: nat, samples: seq<MediaSample>)
    requires Stored(s, ws, j, at, limit, samples) && pos == 4 * j && pos + 8 * |samples| <= end <= |s|
    ensures ReadSamples(s, pos, end, 8, |samples|, at, limit) == Some(samples)
    decreases |samples|, |s|
  {
    hide WordBytes, ReadBe32, Concat;
    if samples != [] {
      StoredTail(s, ws, j, at, limit, samples);
      StoredHead(s, ws, j, at, limit, samples);
      var size := |samples[0].data|;
      StoredIsRead(s, ws, j + 2, pos + 8, end, at + size, limit, samples[1..]);
      HeadTail(samples);
      OneMoreSample(s, pos, end, |samples|, at, limit, samples[0], samples[1..]);
    }
  }

  lemma {:induction false} OneMoreSample(s: seq<Byte>, pos: nat, end: nat, count: nat, at: nat, limit: nat, first: MediaSample, rest: seq<MediaSample>)
    requires count > 0 && pos + 8 <= end <= |s| && at + |first.data| <= limit <= |s|
    requires ReadBe32(s, pos) == first.duration && ReadBe32(s, pos + 4) == |first.data| && s[at..at + |first.data|] == first.data
    requires ReadSamples(s, pos + 8, end, 8, count - 1, at + |first.data|, limit) == Some(rest)
    ensures ReadSamples(s, pos, end, 8, count, at, limit) == Some([first] + rest)
  {
    hide ReadBe32;
  }

  lemma {:induction false} StoredHead(s: seq<Byte>, ws: seq<U32>, j: nat, at: nat, limit: nat, samples: seq<MediaSample>)
    requires Stored(s, ws, j, at, limit, samples) && samples != []
    ensures 4 * j + 8 <= |s| && ReadBe32(s, 4 * j) == samples[0].duration && ReadBe32(s, 4 * j + 4) == |samples[0].data|
    ensures at + |samples[0].data| <= limit && s[at..at + |samples[0].data|] == samples[0].data
  {
    hide WordBytes, ReadBe32;
    assert samples[0].duration == ws[j + 2 * 0] && |samples[0].data| == ws[j + 2 * 0 + 1];
    ReadWord(s, ws, j);
    ReadWord(s, ws, j + 1);
    var data := DataOf(samples);
    SplitSlice(s, at, at + |Concat(data)|, data[0], Concat(data[1..]));
  }

  lemma {:induction false} StoredTail(s: seq<Byte>, ws: seq<U32>, j: nat, at: nat, limit: nat, samples: seq<MediaSample>)
    requires Stored(s, ws, j, at, limit, samples) && samples != []
    ensures Stored(s, ws, j + 2, at + |samples[0].data|, limit, samples[1..])
  {
    hide WordBytes;
    var data := DataOf(samples);
    assert DataOf(samples[1..]) == data[1..];
    SplitSlice(s, at, at + |Concat(data)|, data[0], Concat(data[1..]));
    forall i | 0 <= i < |samples[1..]|
      ensures ws[j + 2 + 2 * i] == samples[1..][i].duration && ws[j + 2 + 2 * i + 1] == |samples[1..][i].data|
    {
      assert samples[1..][i] == samples[i + 1] && j + 2 + 2 * i == j + 2 * (i + 1);
    }
  }

  // ---------- the boxes of a traf ----------

  function TrunLength(video: bool): nat { if video then 6 else 5 }

  /** The trun box at word `k` that says `offset`, its samples at `at`. */
  lemma {:induction false} TrunIsRead(s: seq<Byte>, ws: seq<U32>, video: bool, k: nat, offset: U32, at: nat, follow: bool, mdat: BoxAt, samples: seq<MediaSample>)
    requires |samples| < 0x800_0000 && mdat.start <= at && mdat.start <= mdat.end <= |s|
    requires if follow then offset == at < 0x8000_0000 else at == mdat.start
    requires k + TrunLength(video) <= |ws| && ws[k..k + TrunLength(video)] == TrunFixed(video, |samples|, offset)
    requires Stored(s, ws, k + TrunLength(video), at, mdat.end, samples)
    requires 4 * (k + TrunLength(video)) + 8 * |samples| <= |s|
    ensures ReadTrun(s, BoxAt(TRUN, 4 * k + 8, 4 * (k + TrunLength(video)) + 8 * |samples|), mdat, follow)
         == Some(TrackRun(if video then Some(0x0200_0000) else None, samples))
  {
    hide WordBytes, ReadBe32, ReadSamples, Concat, FlagSet, Understood;
    var fixed := ws[k..k + TrunLength(video)];
    assert fixed[2] == ws[k + 2] && fixed[3] == ws[k + 3] && fixed[4] == ws[k + 4];
    assert video ==> fixed[5] == ws[k + 5];
    ReadWord(s, ws, k + 2);
    ReadWord(s, ws, k + 3);
    ReadWord(s, ws, k + 4);
    if video {
      ReadWord(s, ws, k + 5);
    }
    TrunFlags(video);
    var table := 4 * (k + TrunLength(video));
    StoredIsRead(s, ws, k + TrunLength(video), table, table + 8 * |samples|, at, mdat.end, samples);
  }

  lemma {:induction false} TrunFlags(video: bool)
    ensures var flags := if video then VIDEO_FLAGS else AUDIO_FLAGS;
            && FlagSet(flags, 0x1) && FlagSet(flags, 0x100) && FlagSet(flags, 0x200)
            && FlagSet(flags, 0x4) == video && !FlagSet(flags, 0x400) && !FlagSet(flags, 0x800) && Understood(flags)
  {}

  lemma {:induction false} TfhdIsRead(s: seq<Byte>, ws: seq<U32>, k: nat, track: U32)
    requires WordBytes(ws) <= s && k + 4 <= |ws| && ws[k + 2] == 0x0002_0000 && ws[k + 3] == track
    ensures 4 * k + 16 <= |s| && ReadTfhd(s, BoxAt(TFHD, 4 * k + 8, 4 * k + 16)) == Some(track)
  {
    hide WordBytes, ReadBe32, ReadTfhd;
    ReadWord(s, ws, k + 2);
    ReadWord(s, ws, k + 3);
    TfhdFields(s, 4 * k + 8, track);
  }

  lemma {:induction false} TfhdFields(s: seq<Byte>, p: nat, track: U32)
    requires p + 8 <= |s| && ReadBe32(s, p) == 0x0002_0000 && ReadBe32(s, p + 4) == track
    ensures ReadTfhd(s, BoxAt(TFHD, p, p + 8)) == Some(track)
  {
    hide ReadBe32;
  }

  lemma {:induction false} TfdtIsRead(s: seq<Byte>, ws: seq<U32>, k: nat, time: U64)
    requires WordBytes(ws) <= s && k + 5 <= |ws| && ws[k + 2] == 0x0100_0000
    requires ws[k + 3] == time / TWO32 && ws[k + 4] == time % TWO32
    ensures 4 * k + 20 <= |s| && ReadTfdt(s, BoxAt(TFDT, 4 * k + 8, 4 * k + 20)) == Some(time)
  {
    hide WordBytes, ReadBe32, ReadTfdt;
    ReadWord(s, ws, k + 2);
    ReadWord(s, ws, k + 3);
    ReadWord(s, ws, k + 4);
    TfdtFields(s, 4 * k + 8, time);
  }

  lemma {:induction false} TfdtFields(s: seq<Byte>, p: nat, time: U64)
    requires p + 12 <= |s| && ReadBe32(s, p) == 0x0100_0000
    requires ReadBe32(s, p + 4) == time / TWO32 && ReadBe32(s, p + 8) == time % TWO32
    ensures ReadTfdt(s, BoxAt(TFDT, p, p + 12)) == Some(time)
  {
    hide ReadBe32;
  }

  /** The three boxes of the traf at word `t`. */
  lemma {:induction false} TrafBoxes(s: seq<Byte>, ws: seq<U32>, t: nat, end: nat)
    requires WordBytes(ws) <= s && t + 13 <= |ws| && 4 * t + 52 <= end <= |s|
    requires ws[t + 2] == 16 && ws[t + 3] == TFHD && ws[t + 6] == 20 && ws[t + 7] == TFDT
    requires ws[t + 11] == end - 4 * t - 44 && ws[t + 12] == TRUN
    ensures ReadBoxes(s, 4 * t + 8, end)
         == Some([BoxAt(TFHD, 4 * t + 16, 4 * t + 24), BoxAt(TFDT, 4 * t + 32, 4 * t + 44), BoxAt(TRUN, 4 * t + 52, end)])
  {
    hide WordBytes, ReadBe32, ReadBoxes;
    NoMoreBoxes(s, end);
    WordBox(s, ws, t + 11, 4 * t + 44, end, end - 4 * t - 44, TRUN);
    WordBox(s, ws, t + 6, 4 * t + 24, end, 20, TFDT);
    WordBox(s, ws, t + 2, 4 * t + 8, end, 16, TFHD);
    Triple(BoxAt(TFHD, 4 * t + 16, 4 * t + 24), BoxAt(TFDT, 4 * t + 32, 4 * t + 44), BoxAt(TRUN, 4 * t + 52, end));
  }

  lemma {:induction false} Pair<T>(x: T, y: T)
    ensures [x] + [y] == [x, y] && [x] + ([y] + []) == [x, y]
  {}

  lemma {:induction false} Triple<T>(x: T, y: T, z: T)
    ensures [z] + [] == [z] && [y] + [z] == [y, z] && [x] + [y, z] == [x, y, z]
  {}

  function TrafEnd(t: nat, video: bool, count: nat): nat { 4 * (t + 11 + TrunLength(video)) + 8 * count }

  lemma {:induction false} TrafIsRead(s: seq<Byte>, ws: seq<U32>, video: bool, t: nat, time: U64, offset: U32, at: nat, follow: bool, mdat: BoxAt, samples: seq<MediaSample>)
    requires |samples| < 0x800_0000 && mdat.start <= at && mdat.start <= mdat.end <= |s|
    requires if follow then offset == at < 0x8000_0000 else at == mdat.start
    requires t + 11 + TrunLength(video) <= |ws| && ws[t..t + 11] == TrafHead(video, time, |samples|)
    requires ws[t + 11..t + 11 + TrunLength(video)] == TrunFixed(video, |samples|, offset)
    requires Stored(s, ws, t + 11 + TrunLength(video), at, mdat.end, samples)
    requires TrafEnd(t, video, |samples|) <= |s|
    ensures ReadTraf(s, BoxAt(TRAF, 4 * t + 8, TrafEnd(t, video, |samples|)), mdat, follow)
         == Some(Track(if video then 1 else 2, time, TrackRun(if video then Some(0x0200_0000) else None, samples)))
  {
    hide WordBytes, ReadBe32, ReadBoxes, ReadTrun, ReadTfdt, ReadTfhd, Concat;
    var head, fixed := ws[t..t + 11], ws[t + 11..t + 11 + TrunLength(video)];
    assert forall m :: 0 <= m < 11 ==> head[m] == ws[t + m];
    assert fixed[0] == ws[t + 11] && fixed[1] == ws[t + 12];
    TrafBoxes(s, ws, t, TrafEnd(t, video, |samples|));
    TfhdIsRead(s, ws, t + 2, if video then 1 else 2);
    TfdtIsRead(s, ws, t + 6, time);
    TrunIsRead(s, ws, video, t + 11, offset, at, follow, mdat, samples);
  }

  // ---------- the segment ----------

  /** What was sent: a NALU without a duration of its own lasts 33 ms. */
  function SentVideo(nalus: seq<seq<Byte>>, durations: seq<U32>): seq<MediaSample>
  {
    seq(|nalus|, (i: int) requires 0 <= i < |nalus| =>
      MediaSample(if i < |durations| then durations[i] else 33, nalus[i]))
  }

  function SentAudio(frames: seq<AacFrame>): seq<MediaSample>
  {
    seq(|frames|, (i: int) requires 0 <= i < |frames| => MediaSample(frames[i].samples, frames[i].data))
  }

  /** The sample entries of a track are those of its samples. */
  predicate Describes(entries: seq<Sample>, samples: seq<MediaSample>)
  {
    && |entries| == |samples|
    && forall i :: 0 <= i < |samples| ==> entries[i] == Sample(samples[i].duration, |samples[i].data| % TWO32)
  }

  lemma {:induction false} DescribedLength(entries: seq<Sample>, samples: seq<MediaSample>)
    requires Describes(entries, samples)
    ensures |entries| == |samples|
  {}

  lemma {:induction false} DescribedEntry(entries: seq<Sample>, samples: seq<MediaSample>, i: nat)
    requires Describes(entries, samples) && i < |samples| && |samples[i].data| < TWO32
    ensures i < |entries| && entries[i] == Sample(samples[i].duration, |samples[i].data|)
  {}

  lemma {:induction false} SampleWordAt(samples: seq<Sample>, j: nat)
    requires j < 2 * |samples|
    ensures SampleWords(samples)[j] == if j % 2 == 0 then samples[j / 2].duration else samples[j / 2].size
    decreases |samples|, j
  {
    if j >= 2 {
      SampleWordAt(samples[1..], j - 2);
      assert samples[1..][(j - 2) / 2] == samples[j / 2];
    }
  }

  lemma {:induction false} TableEntry(ws: seq<U32>, j: nat, entries: seq<Sample>, i: nat)
    requires j + 2 * |entries| <= |ws| && ws[j..j + 2 * |entries|] == SampleWords(entries) && i < |entries|
    ensures ws[j + 2 * i] == entries[i].duration && ws[j + 2 * i + 1] == entries[i].size
  {
    hide SampleWords;
    var table := ws[j..j + 2 * |entries|];
    SampleWordAt(entries, 2 * i);
    SampleWordAt(entries, 2 * i + 1);
    assert table[2 * i] == ws[j + 2 * i] && table[2 * i + 1] == ws[j + 2 * i + 1];
    assert 2 * i / 2 == i && (2 * i + 1) / 2 == i;
  }

  lemma {:induction false} TableIsStored(s: seq<Byte>, ws: seq<U32>, j: nat, at: nat, limit: nat, entries: seq<Sample>, samples: seq<MediaSample>)
    requires WordBytes(ws) <= s && Describes(entries, samples)
    requires forall i :: 0 <= i < |samples| ==> |samples[i].data| < TWO32
    requires j + 2 * |entries| <= |ws| && ws[j..j + 2 * |entries|] == SampleWords(entries)
    requires at + |Concat(DataOf(samples))| <= limit <= |s|
    requires s[at..at + |Concat(DataOf(samples))|] == Concat(DataOf(samples))
    ensures Stored(s, ws, j, at, limit, samples)
  {
    hide WordBytes, Concat, SampleWords, Describes;
    DescribedLength(entries, samples);
    forall i | 0 <= i < |samples|
      ensures ws[j + 2 * i] == samples[i].duration && ws[j + 2 * i + 1] == |samples[i].data|
    {
      DescribedEntry(entries, samples, i);
      TableEntry(ws, j, entries, i);
    }
  }

  lemma {:induction false} PartFits(parts: seq<seq<Byte>>, i: nat)
    requires i < |parts|
    ensures |parts[i]| <= |Concat(parts)|
  {
    if i > 0 {
      PartFits(parts[1..], i - 1);
    }
  }

  lemma {:induction false} LastBoxReads(s: seq<Byte>, before: seq<Byte>, name: U32, size: U32, content: seq<Byte>)
    requires s == before + (Be32(size) + Be32(name) + content)
    ensures |s| == |before| + 8 + |content| && s[|before| + 8..|s|] == content
    ensures ReadBe32(s, |before|) == size && ReadBe32(s, |before| + 4) == name
  {
    hide ReadBe32, Be32;
    TailSlices(s, before, Be32(size), Be32(name), content);
    Be32At(s, |before|, size);
    Be32At(s, |before| + 4, name);
  }

  lemma {:induction false} OnlyBox(s: seq<Byte>, m: nat, size: nat, name: U32)
    requires m + size == |s| && size >= 8 && ReadBe32(s, m) == size && ReadBe32(s, m + 4) == name
    ensures ReadBoxes(s, m, |s|) == Some([BoxAt(name, m + 8, |s|)])
  {
    hide ReadBoxes, ReadBe32;
    OneMoreBox(s, m, |s|, size, name);
    NoMoreBoxes(s, |s|);
    EmptyConcat([BoxAt(name, m + 8, |s|)]);
  }

  lemma {:induction false} MdatIsRead(s: seq<Byte>, moof: seq<Byte>, payload: seq<Byte>)
    requires s == moof + Mdat(payload) && 8 + |payload| < TWO32
    ensures |s| == |moof| + 8 + |payload| && s[|moof| + 8..|s|] == payload
    ensures ReadBoxes(s, |moof|, |s|) == Some([BoxAt(MDAT, |moof| + 8, |s|)])
  {
    hide ReadBoxes, Box, Be32, ReadBe32;
    BoxHeader(MDAT, payload, 8 + |payload|);
    LastBoxReads(s, moof, MDAT, 8 + |payload|, payload);
    OnlyBox(s, |moof|, 8 + |payload|, MDAT);
  }

  lemma {:induction false} TailSlices(s: seq<Byte>, head: seq<Byte>, x: seq<Byte>, y: seq<Byte>, z: seq<Byte>)
    requires s == head + (x + y + z) && |x| == 4 && |y| == 4
    ensures var m := |head|; s[m..m + 4] == x && s[m + 4..m + 8] == y && s[m + 8..|s|] == z
  {}

  lemma {:induction false} MoofNames(f: Fragment, ws: seq<U32>, v: U32, a: U32)
    requires Bounded(f) && LaidOut(f, ws, v, a)
    ensures var at := AudioStart(f);
            && |ws| == 39 + 2 * (|f.video| + |f.audio|)
            && ws[0] == 4 * |ws| && ws[1] == MOOF && ws[2] == 16 && ws[3] == MFHD && ws[4] == 0 && ws[5] == f.sequence
            && ws[6] == 68 + 8 * |f.video| && ws[7] == TRAF
            && ws[at] == 64 + 8 * |f.audio| && ws[at + 1] == TRAF
  {
    var at := AudioStart(f);
    var head, video, audio := ws[0..6], ws[6..17], ws[at..at + 11];
    assert forall m :: 0 <= m < 6 ==> head[m] == ws[m];
    assert video[0] == ws[6] && video[1] == ws[7] && audio[0] == ws[at] && audio[1] == ws[at + 1];
  }

  /** The boxes of the moof whose words are `ws`. */
  lemma {:induction false} MoofBoxes(f: Fragment, s: seq<Byte>, ws: seq<U32>, v: U32, a: U32)
    requires Bounded(f) && LaidOut(f, ws, v, a) && WordBytes(ws) <= s
    ensures var n, m, at := |f.video|, |f.audio|, AudioStart(f);
            && 4 * |ws| <= |s|
            && ReadBoxes(s, 8, 4 * |ws|)
            == Some([BoxAt(MFHD, 16, 24), BoxAt(TRAF, 32, 4 * at), BoxAt(TRAF, 4 * at + 8, 4 * |ws|)])
  {
    hide WordBytes, ReadBoxes, LaidOut;
    MoofNames(f, ws, v, a);
    ThreeBoxes(s, ws, AudioStart(f), 4 * |ws|);
  }

  /** mfhd and two trafs, the second at word `at`. */
  lemma {:induction false} ThreeBoxes(s: seq<Byte>, ws: seq<U32>, at: nat, end: nat)
    requires WordBytes(ws) <= s && 8 <= at && at + 1 < |ws| && 4 * at + 8 <= end <= |s|
    requires ws[2] == 16 && ws[3] == MFHD && ws[6] == 4 * at - 24 && ws[7] == TRAF && ws[at] == end - 4 * at && ws[at + 1] == TRAF
    ensures ReadBoxes(s, 8, end) == Some([BoxAt(MFHD, 16, 24), BoxAt(TRAF, 32, 4 * at), BoxAt(TRAF, 4 * at + 8, end)])
  {
    hide WordBytes, ReadBe32, ReadBoxes;
    var p := 4 * at;
    NoMoreBoxes(s, end);
    WordBox(s, ws, at, p, end, end - p, TRAF);
    WordBox(s, ws, 6, 24, end, p - 24, TRAF);
    WordBox(s, ws, 2, 8, end, 16, MFHD);
    Triple(BoxAt(MFHD, 16, 24), BoxAt(TRAF, 32, p), BoxAt(TRAF, p + 8, end));
  }

  lemma {:induction false} TopBoxes(f: Fragment, s: seq<Byte>, ws: seq<U32>, v: U32, a: U32, payload: seq<Byte>)
    requires Bounded(f) && LaidOut(f, ws, v, a) && s == WordBytes(ws) + Mdat(payload) && 8 + |payload| < TWO32
    ensures |s| == 4 * |ws| + 8 + |payload| && s[4 * |ws| + 8..|s|] == payload
    ensures ReadBoxes(s, 0, |s|) == Some([BoxAt(MOOF, 8, 4 * |ws|), BoxAt(MDAT, 4 * |ws| + 8, |s|)])
    ensures ReadBe32(s, 16) == 0 && ReadBe32(s, 20) == f.sequence
  {
    hide WordBytes, ReadBe32, ReadBoxes, Mdat, LaidOut;
    MdatIsRead(s, WordBytes(ws), payload);
    MoofNames(f, ws, v, a);
    WordBox(s, ws, 0, 0, |s|, 4 * |ws|, MOOF);
    Pair(BoxAt(MOOF, 8, 4 * |ws|), BoxAt(MDAT, 4 * |ws| + 8, |s|));
    ReadWord(s, ws, 4);
    ReadWord(s, ws, 5);
  }

  lemma {:induction false} VideoTrafIsRead(f: Fragment, s: seq<Byte>, ws: seq<U32>, v: U32, a: U32, mdat: BoxAt, video: seq<MediaSample>)
    requires Bounded(f) && Describes(f.video, video) && LaidOut(f, ws, v, a) && WordBytes(ws) <= s
    requires mdat.start == v && mdat.end == |s| && v + |Concat(DataOf(video))| <= |s| && |s| < 0x8000_0000
    requires s[v..v + |Concat(DataOf(video))|] == Concat(DataOf(video)) && 4 * |ws| <= |s|
    ensures ReadTraf(s, BoxAt(TRAF, 32, 4 * AudioStart(f)), mdat, true)
         == Some(Track(1, f.videoTime, TrackRun(Some(0x0200_0000), video)))
  {
    hide WordBytes, ReadTraf, Concat, SampleWords, TrafHead, TrunFixed, Stored;
    DescribedLength(f.video, video);
    SmallData(video);
    TableIsStored(s, ws, 23, v, |s|, f.video, video);
    TrafIsRead(s, ws, true, 6, f.videoTime, v, v, true, mdat, video);
    assert TrafEnd(6, true, |video|) == 4 * AudioStart(f);
  }

  lemma {:induction false} AudioLayout(f: Fragment, ws: seq<U32>, v: U32, a: U32)
    requires Bounded(f) && LaidOut(f, ws, v, a)
    ensures var at, m := AudioStart(f), |f.audio|;
            && |ws| == at + 16 + 2 * m
            && ws[at..at + 11] == TrafHead(false, f.audioTime, m)
            && ws[at + 11..at + 16] == TrunFixed(false, m, a)
            && ws[at + 16..at + 16 + 2 * m] == SampleWords(f.audio)
  {}

  lemma {:induction false} AudioTrafIsRead(f: Fragment, s: seq<Byte>, ws: seq<U32>, v: U32, a: U32, mdat: BoxAt, audio: seq<MediaSample>)
    requires Bounded(f) && Describes(f.audio, audio) && LaidOut(f, ws, v, a) && WordBytes(ws) <= s
    requires mdat.start <= a && mdat.end == |s| && a + |Concat(DataOf(audio))| <= |s| && |s| < 0x8000_0000
    requires s[a..a + |Concat(DataOf(audio))|] == Concat(DataOf(audio)) && 4 * |ws| <= |s|
    ensures ReadTraf(s, BoxAt(TRAF, 4 * AudioStart(f) + 8, 4 * |ws|), mdat, true) == Some(Track(2, f.audioTime, TrackRun(None, audio)))
  {
    hide WordBytes, ReadTraf, Concat, SampleWords, TrafHead, TrunFixed, Stored, LaidOut;
    var at := AudioStart(f);
    AudioLayout(f, ws, v, a);
    DescribedLength(f.audio, audio);
    SmallData(audio);
    TableIsStored(s, ws, at + 16, a, |s|, f.audio, audio);
    TrafIsRead(s, ws, false, at, f.audioTime, a, a, true, mdat, audio);
    assert TrafEnd(at, false, |audio|) == 4 * |ws|;
  }

  /** A segment whose two data offsets are right is read back whole. */
  lemma {:induction false} WholeSegmentIsRead(f: Fragment, s: seq<Byte>, ws: seq<U32>, v: U32, a: U32, video: seq<MediaSample>, audio: seq<MediaSample>)
    requires Bounded(f) && Describes(f.video, video) && Describes(f.audio, audio)
    requires LaidOut(f, ws, v, a) && s == WordBytes(ws) + Mdat(Concat(DataOf(video)) + Concat(DataOf(audio)))
    requires v == 4 * |ws| + 8 && a == v + |Concat(DataOf(video))| && a + |Concat(DataOf(audio))| < 0x8000_0000
    ensures ReadSegment(s, true)
         == Some(Segment(f.sequence, [Track(1, f.videoTime, TrackRun(Some(0x0200_0000), video)), Track(2, f.audioTime, TrackRun(None, audio))]))
  {
    hide WordBytes, ReadBe32, ReadBoxes, ReadTraf, Concat, LaidOut, Mdat, Describes;
    var vs, as_ := DataOf(video), DataOf(audio);
    TopBoxes(f, s, ws, v, a, Concat(vs) + Concat(as_));
    MoofBoxes(f, s, ws, v, a);
    MoofNames(f, ws, v, a);
    SplitSlice(s, v, |s|, Concat(vs), Concat(as_));
    var mdat, at := BoxAt(MDAT, v, |s|), AudioStart(f);
    VideoTrafIsRead(f, s, ws, v, a, mdat, video);
    AudioTrafIsRead(f, s, ws, v, a, mdat, audio);
    TwoTrafs(s, BoxAt(MFHD, 16, 24), BoxAt(TRAF, 32, 4 * at), BoxAt(TRAF, 4 * at + 8, 4 * |ws|), mdat);
  }

  lemma {:induction false} SmallData(samples: seq<MediaSample>)
    requires |Concat(DataOf(samples))| < TWO32
    ensures forall i :: 0 <= i < |samples| ==> |samples[i].data| < TWO32
  {
    forall i | 0 <= i < |samples| ensures |samples[i].data| < TWO32 {
      PartFits(DataOf(samples), i);
    }
  }

  lemma {:induction false} OneMoreTraf(s: seq<Byte>, boxes: seq<BoxAt>, mdat: BoxAt, follow: bool)
    requires mdat.start <= mdat.end <= |s| && boxes != []
    requires forall i :: 0 <= i < |boxes| ==> boxes[i].start <= boxes[i].end <= |s|
    requires ReadTraf(s, boxes[0], mdat, follow).Some?
    ensures var r := ReadTrafs(s, boxes[1..], mdat, follow);
            ReadTrafs(s, boxes, mdat, follow) == if r.None? then None else Some([ReadTraf(s, boxes[0], mdat, follow).value] + r.value)
  {
    hide ReadTraf;
  }

  lemma {:induction false} TwoTrafs(s: seq<Byte>, m: BoxAt, x: BoxAt, y: BoxAt, mdat: BoxAt)
    requires mdat.start <= mdat.end <= |s| && x.start <= x.end <= |s| && y.start <= y.end <= |s|
    requires ReadTraf(s, x, mdat, true).Some? && ReadTraf(s, y, mdat, true).Some?
    ensures [m, x, y][1..] == [x, y]
    ensures ReadTrafs(s, [x, y], mdat, true) == Some([ReadTraf(s, x, mdat, true).value, ReadTraf(s, y, mdat, true).value])
  {
    hide ReadTraf;
    assert [m, x, y][1..] == [x, y] && [x, y][1..] == [y] && [y][1..] == [];
    OneMoreTraf(s, [y], mdat, true);
    OneMoreTraf(s, [x, y], mdat, true);
    Pair(ReadTraf(s, x, mdat, true).value, ReadTraf(s, y, mdat, true).value);
  }

  /** Reading `build_media_segment_av`'s output recovers the sequence number, both decode times, and
  every NALU and AAC frame with its duration, by following the data offsets into the mdat. */
  lemma {:induction false} SegmentRoundTrip(sequence: U32, videoTime: U64, nalus: seq<seq<Byte>>, durations: seq<U32>, audioTime: U64, frames: seq<AacFrame>)
    requires var f := FragmentOf(sequence, videoTime, nalus, durations, audioTime, frames);
             Bounded(f) && Unspelled(f) && VideoStart(f) + |Concat(nalus)| + |Concat(FrameData(frames))| < 0x8000_0000
    ensures var r := SegmentAv(FragmentOf(sequence, videoTime, nalus, durations, audioTime, frames), nalus, frames);
            ReadSegment(r, true)
            == Some(Segment(sequence, [Track(1, videoTime, TrackRun(Some(0x0200_0000), SentVideo(nalus, durations))),
                                       Track(2, audioTime, TrackRun(None, SentAudio(frames)))]))
  {
    hide Bounded, Unspelled, PatchedMoof, MoofAv, Concat, WordBytes, ReadSegment, MoofWords, LaidOut;
    var f := FragmentOf(sequence, videoTime, nalus, durations, audioTime, frames);
    var v := VideoStart(f);
    var a := v + |Concat(nalus)|;
    BoundedCount(f);
    ScanIsExact(f, |Concat(nalus)|);
    Layout(f, v, a);
    MoofIsWords(f, v, a);
    assert DataOf(SentVideo(nalus, durations)) == nalus;
    assert DataOf(SentAudio(frames)) == FrameData(frames);
    var ws := MoofWords(f, v, a);
    WordCount(f, v, a);
    WholeSegmentIsRead(f, WordBytes(ws) + Mdat(Concat(nalus) + Concat(FrameData(frames))), ws, v, a,
                       SentVideo(nalus, durations), SentAudio(frames));
  }

  lemma {:induction false} BoundedCount(f: Fragment)
    requires Bounded(f)
    ensures |f.video| + |f.audio| < 0x800_0000
  {}

  lemma {:induction false} WordCount(f: Fragment, v: U32, a: U32)
    requires Bounded(f)
    ensures 4 * |MoofWords(f, v, a)| + 8 == VideoStart(f)
  {
    Layout(f, v, a);
  }

  // ---------- the segment without audio ----------

  /** The moof of a video-only segment as words: mfhd and one traf whose data offset is 0. */
  function VideoHead(sequence: U32, count: nat): (ws: seq<U32>)
    ensures |ws| == 6
  {
    [(92 + 8 * count) % TWO32, MOOF, 16, MFHD, 0, sequence]
  }

  lemma {:induction false} VideoMoofIsWords(sequence: U32, time: U64, samples: seq<Sample>)
    ensures MoofVideo(sequence, time, samples) == WordBytes(VideoHead(sequence, |samples|) + TrafWords(true, time, samples, 0))
  {
    MfhdIsWords(sequence);
    TrafIsWords(true, time, samples, 0);
    assert VideoHead(sequence, |samples|)[2..] == [16, MFHD, 0, sequence];
    hide WordBytes, TrafHead, TrunFixed, SampleWords, Mfhd, Traf;
    BoxFromWords(MOOF, VideoHead(sequence, |samples|), TrafWords(true, time, samples, 0), Mfhd(sequence), Traf(true, time, samples, 0));
  }

  /** Where the words of the one traf stand. */
  lemma {:induction false} VideoLayout(sequence: U32, time: U64, samples: seq<Sample>, ws: seq<U32>)
    requires ws == VideoHead(sequence, |samples|) + TrafWords(true, time, samples, 0)
    ensures |ws| == 23 + 2 * |samples| && ws[0..6] == VideoHead(sequence, |samples|)
    ensures ws[6..17] == TrafHead(true, time, |samples|) && ws[17..23] == TrunFixed(true, |samples|, 0)
    ensures ws[23..23 + 2 * |samples|] == SampleWords(samples)
  {
    assert ws[0..|ws|] == ws;
    SplitSlice(ws, 0, |ws|, VideoHead(sequence, |samples|), TrafWords(true, time, samples, 0));
    TrafLayout(ws, 6, true, time, samples, 0);
  }

  lemma {:induction false} VideoNames(sequence: U32, time: U64, samples: seq<Sample>, ws: seq<U32>)
    requires ws == VideoHead(sequence, |samples|) + TrafWords(true, time, samples, 0) && |samples| < 0x800_0000
    ensures && |ws| == 23 + 2 * |samples| && ws[0] == 4 * |ws| && ws[1] == MOOF && ws[2] == 16 && ws[3] == MFHD
            && ws[4] == 0 && ws[5] == sequence && ws[6] == 4 * |ws| - 24 && ws[7] == TRAF
  {
    VideoLayout(sequence, time, samples, ws);
    var head, traf := ws[0..6], ws[6..17];
    assert forall m :: 0 <= m < 6 ==> head[m] == ws[m];
    assert traf[0] == ws[6] && traf[1] == ws[7];
  }

  lemma {:induction false} VideoBoxes(s: seq<Byte>, ws: seq<U32>, sequence: U32, time: U64, samples: seq<Sample>, payload: seq<Byte>)
    requires ws == VideoHead(sequence, |samples|) + TrafWords(true, time, samples, 0) && |samples| < 0x800_0000
    requires s == WordBytes(ws) + Mdat(payload) && 8 + |payload| < TWO32
    ensures |s| == 4 * |ws| + 8 + |payload| && s[4 * |ws| + 8..|s|] == payload && 24 <= 4 * |ws|
    ensures ReadBoxes(s, 0, |s|) == Some([BoxAt(MOOF, 8, 4 * |ws|), BoxAt(MDAT, 4 * |ws| + 8, |s|)])
    ensures ReadBoxes(s, 8, 4 * |ws|) == Some([BoxAt(MFHD, 16, 24), BoxAt(TRAF, 32, 4 * |ws|)])
    ensures ReadBe32(s, 16) == 0 && ReadBe32(s, 20) == sequence
  {
    hide WordBytes, ReadBe32, ReadBoxes, Mdat, TrafWords, VideoHead;
    MdatIsRead(s, WordBytes(ws), payload);
    VideoNames(sequence, time, samples, ws);
    var end := 4 * |ws|;
    WordBox(s, ws, 0, 0, |s|, end, MOOF);
    Pair(BoxAt(MOOF, 8, end), BoxAt(MDAT, end + 8, |s|));
    NoMoreBoxes(s, end);
    WordBox(s, ws, 6, 24, end, end - 24, TRAF);
    WordBox(s, ws, 2, 8, end, 16, MFHD);
    Pair(BoxAt(MFHD, 16, 24), BoxAt(TRAF, 32, end));
    ReadWord(s, ws, 4);
    ReadWord(s, ws, 5);
  }

  lemma {:induction false} OneTraf(s: seq<Byte>, m: BoxAt, x: BoxAt, mdat: BoxAt, follow: bool)
    requires mdat.start <= mdat.end <= |s| && x.start <= x.end <= |s| && ReadTraf(s, x, mdat, follow).Some?
    ensures [m, x][1..] == [x] && ReadTrafs(s, [x], mdat, follow) == Some([ReadTraf(s, x, mdat, follow).value])
  {
    hide ReadTraf;
    assert [m, x][1..] == [x] && [x][1..] == [];
    OneMoreTraf(s, [x], mdat, follow);
    EmptyConcat([ReadTraf(s, x, mdat, follow).value]);
  }

  lemma {:induction false} OnlyTrafIsRead(s: seq<Byte>, ws: seq<U32>, sequence: U32, time: U64, samples: seq<Sample>, video: seq<MediaSample>)
    requires ws == VideoHead(sequence, |samples|) + TrafWords(true, time, samples, 0) && |samples| < 0x800_0000
    requires Describes(samples, video) && s == WordBytes(ws) + Mdat(Concat(DataOf(video))) && 8 + |Concat(DataOf(video))| < TWO32
    ensures 4 * |ws| + 8 <= |s|
    ensures ReadTraf(s, BoxAt(TRAF, 32, 4 * |ws|), BoxAt(MDAT, 4 * |ws| + 8, |s|), false)
         == Some(Track(1, time, TrackRun(Some(0x0200_0000), video)))
  {
    hide WordBytes, ReadTraf, Concat, SampleWords, TrafHead, TrunFixed, Stored, Mdat, TrafWords, VideoHead, Describes;
    DescribedLength(samples, video);
    SmallData(video);
    VideoLayout(sequence, time, samples, ws);
    VideoBoxes(s, ws, sequence, time, samples, Concat(DataOf(video)));
    var at := 4 * |ws| + 8;
    TableIsStored(s, ws, 23, at, |s|, samples, video);
    TrafIsRead(s, ws, true, 6, time, 0, at, false, BoxAt(MDAT, at, |s|), video);
    assert TrafEnd(6, true, |video|) == 4 * |ws|;
  }

  /** A video-only segment, read with its samples from the start of the mdat: sequence number, decode time,
  flags of the first sample, every duration (33 ms where missing) and every NALU. Its data offset is 0,
  so a reader that follows it finds nothing. */
  lemma {:induction false} VideoSegmentRoundTrip(sequence: U32, time: U64, nalus: seq<seq<Byte>>, durations: seq<U32>)
    requires |nalus| < 0x800_0000 && 8 + |Concat(nalus)| < TWO32
    ensures var r := SegmentVideo(sequence, time, nalus, durations);
            && ReadSegment(r, false) == Some(Segment(sequence, [Track(1, time, TrackRun(Some(0x0200_0000), SentVideo(nalus, durations)))]))
            && ReadSegment(r, true) == None
  {
    hide Concat, WordBytes, ReadBoxes, ReadTraf, ReadBe32, MoofVideo, Mdat, TrafWords, VideoHead;
    var samples, video := VideoSamples(nalus, durations), SentVideo(nalus, durations);
    var ws := VideoHead(sequence, |samples|) + TrafWords(true, time, samples, 0);
    VideoMoofIsWords(sequence, time, samples);
    assert DataOf(video) == nalus;
    var s := WordBytes(ws) + Mdat(Concat(nalus));
    VideoNames(sequence, time, samples, ws);
    VideoBoxes(s, ws, sequence, time, samples, Concat(nalus));
    OnlyTrafIsRead(s, ws, sequence, time, samples, video);
    var mdat := BoxAt(MDAT, 4 * |ws| + 8, |s|);
    OneTraf(s, BoxAt(MFHD, 16, 24), BoxAt(TRAF, 32, 4 * |ws|), mdat, false);
    NoOffset(s, ws, sequence, time, samples, mdat);
  }

  /** The data offset points in front of the mdat. */
  lemma {:induction false} NoOffset(s: seq<Byte>, ws: seq<U32>, sequence: U32, time: U64, samples: seq<Sample>, mdat: BoxAt)
    requires ws == VideoHead(sequence, |samples|) + TrafWords(true, time, samples, 0) && |samples| < 0x800_0000
    requires WordBytes(ws) <= s && 0 < mdat.start <= mdat.end <= |s| && 32 <= 4 * |ws|
    ensures ReadTraf(s, BoxAt(TRAF, 32, 4 * |ws|), mdat, true) == None
    ensures ReadTrafs(s, [BoxAt(MFHD, 16, 24), BoxAt(TRAF, 32, 4 * |ws|)][1..], mdat, true) == None
  {
    hide WordBytes, ReadBe32, ReadBoxes, ReadTfdt, ReadTfhd, ReadSamples, FlagSet, Understood, VideoHead, TrafWords, SampleWords;
    VideoLayout(sequence, time, samples, ws);
    var head, fixed := ws[6..17], ws[17..23];
    assert forall m :: 0 <= m < 11 ==> head[m] == ws[6 + m];
    assert fixed[0] == ws[17] && fixed[1] == ws[18] && fixed[4] == ws[21];
    assert ws[8] == head[2] && ws[9] == head[3] && ws[12] == head[6] && ws[13] == head[7];
    TrafBoxes(s, ws, 6, 4 * |ws|);
    ReadWord(s, ws, 21);
    assert [BoxAt(MFHD, 16, 24), BoxAt(TRAF, 32, 4 * |ws|)][1..] == [BoxAt(TRAF, 32, 4 * |ws|)];
  }
}
