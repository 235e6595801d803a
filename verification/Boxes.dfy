/** ISO base media file format boxes as yunmao-media-edge `fmp4.rs` writes them: a growing byte
buffer, boxes whose size is filled in afterwards, and box content seen as 32-bit words. */
module Boxes {
  import opened Bytes
  import opened Seqs

  /** Box names as big-endian words. */
  const MOOF: U32 := 0x6d6f_6f66
  const MFHD: U32 := 0x6d66_6864
  const TRAF: U32 := 0x7472_6166
  const TFHD: U32 := 0x7466_6864
  const TFDT: U32 := 0x7466_6474
  const TRUN: U32 := 0x7472_756e
  const MDAT: U32 := 0x6d64_6174

  /** ISO/IEC 14496-12 section 4.2: size, name, content; the size field keeps 32 bits. */
  function Box(name: U32, content: seq<Byte>): seq<Byte>
  {
    Be32((8 + |content|) % TWO32) + Be32(name) + content
  }

  // ---------- the buffer ----------

  /** `BytesMut`: appended to, and patched in place. */
  class Buffer {
    var data: seq<Byte>

    constructor ()
      ensures data == []
    {
      data := [];
    }

    method PutU32(v: U32)
      modifies this
      ensures data == old(data) + Be32(v)
    {
      data := data + Be32(v);
    }

    method PutU64(v: U64)
      modifies this
      ensures data == old(data) + Be64(v)
    {
      data := data + Be64(v);
    }

    method PutSlice(s: seq<Byte>)
      modifies this
      ensures data == old(data) + s
    {
      data := data + s;
    }

    method Patch32(pos: nat, v: U32)
      requires pos + 4 <= |data|
      modifies this
      ensures data == Patched(old(data), pos, v)
    {
      data := data[..pos] + Be32(v) + data[pos + 4..];
    }

    /** The first half of `write_box`: a size placeholder and the name. */
    method BeginBox(name: U32) returns (sizePos: nat)
      modifies this
      ensures sizePos == |old(data)|
      ensures data == old(data) + OpenBox(name, [])
    {
      sizePos := |data|;
      PutU32(0);
      PutU32(name);
      assert data == old(data) + OpenBox(name, []);
    }

    /** The second half of `write_box`: the size is the distance from the placeholder. */
    method EndBox(sizePos: nat, ghost before: seq<Byte>, ghost name: U32, ghost content: seq<Byte>)
      requires sizePos == |before| && data == before + OpenBox(name, content)
      modifies this
      ensures data == before + Box(name, content)
    {
      var size := (|data| - sizePos) % TWO32;
      Patch32(sizePos, size);
      PatchedOpenBox(before, name, content);
    }
  }

  function Patched(data: seq<Byte>, pos: nat, v: U32): (r: seq<Byte>)
    requires pos + 4 <= |data|
    ensures |r| == |data|
  {
    data[..pos] + Be32(v) + data[pos + 4..]
  }

  function OpenBox(name: U32, content: seq<Byte>): seq<Byte>
  {
    Be32(0) + Be32(name) + content
  }

  lemma {:induction false} PatchedOpenBox(before: seq<Byte>, name: U32, content: seq<Byte>)
    ensures Patched(before + OpenBox(name, content), |before|, (8 + |content|) % TWO32) == before + Box(name, content)
  {
    var all := before + OpenBox(name, content);
    assert all[..|before|] == before;
    assert all[|before| + 4..] == Be32(name) + content;
    assert before + Box(name, content) == before + Be32((8 + |content|) % TWO32) + (Be32(name) + content);
  }

  lemma {:induction false} GrowBox(before: seq<Byte>, name: U32, content: seq<Byte>, more: seq<Byte>)
    ensures before + OpenBox(name, content) + more == before + OpenBox(name, content + more)
  {}

  // ---------- words ----------

  function WordBytes(ws: seq<U32>): (r: seq<Byte>)
    ensures |r| == 4 * |ws|
  {
    if ws == [] then [] else Be32(ws[0]) + WordBytes(ws[1..])
  }

  lemma {:induction false} WordBytesConcat(a: seq<U32>, b: seq<U32>)
    ensures WordBytes(a + b) == WordBytes(a) + WordBytes(b)
  {
    if a == [] {
      assert a + b == b;
    } else {
      WordBytesConcat(a[1..], b);
      assert (a + b)[0] == a[0] && (a + b)[1..] == a[1..] + b;
      ConcatAssoc(Be32(a[0]), WordBytes(a[1..]), WordBytes(b));
    }
  }

  lemma {:induction false} WordBytesAt(ws: seq<U32>, j: nat, tail: seq<Byte>)
    requires j < |ws|
    ensures (WordBytes(ws) + tail)[4 * j..4 * j + 4] == Be32(ws[j])
  {
    var all := WordBytes(ws) + tail;
    if j == 0 {
      assert all[0..4] == Be32(ws[0]);
    } else {
      WordBytesAt(ws[1..], j - 1, tail);
      assert all == Be32(ws[0]) + (WordBytes(ws[1..]) + tail);
      assert all[4 * j..4 * j + 4] == (WordBytes(ws[1..]) + tail)[4 * (j - 1)..4 * (j - 1) + 4];
    }
  }

  /** The bytes of several words in a row. */
  lemma {:induction false} WordRange(ws: seq<U32>, lo: nat, hi: nat)
    requires lo <= hi <= |ws|
    ensures WordBytes(ws)[4 * lo..4 * hi] == WordBytes(ws[lo..hi])
  {
    var x, y, z := ws[..lo], ws[lo..hi], ws[hi..];
    assert ws == x + (y + z);
    WordBytesConcat(x, y + z);
    WordBytesConcat(y, z);
  }

  lemma {:induction false} WordSlice(s: seq<Byte>, ws: seq<U32>, j: nat)
    requires j < |ws| && WordBytes(ws) <= s
    ensures 4 * j + 4 <= |s| && s[4 * j..4 * j + 4] == Be32(ws[j])
  {
    var b := WordBytes(ws);
    PrefixSplit(b, s);
    WordBytesAt(ws, j, s[|b|..]);
  }

  /** The word at index `j` of a byte string that starts with words. */
  lemma {:induction false} ReadWord(s: seq<Byte>, ws: seq<U32>, j: nat)
    requires j < |ws| && WordBytes(ws) <= s
    ensures 4 * j + 4 <= |s| && ReadBe32(s, 4 * j) == ws[j]
  {
    hide WordBytes, Be32, ReadBe32;
    WordSlice(s, ws, j);
    Be32At(s, 4 * j, ws[j]);
  }

  lemma {:induction false} PatchedWord(ws: seq<U32>, j: nat, v: U32)
    requires j < |ws|
    ensures Patched(WordBytes(ws), 4 * j, v) == WordBytes(ws[j := v])
  {
    WordBytesConcat(ws[..j], ws[j..]);
    WordBytesConcat(ws[..j], [v] + ws[j + 1..]);
    assert ws == ws[..j] + ws[j..] && ws[j := v] == ws[..j] + ([v] + ws[j + 1..]);
    assert ([v] + ws[j + 1..])[1..] == ws[j + 1..] && ws[j..][1..] == ws[j + 1..];
    var a, b := WordBytes(ws[..j]), WordBytes(ws[j + 1..]);
    assert WordBytes(ws) == a + (Be32(ws[j]) + b);
    assert WordBytes(ws)[..4 * j] == a && WordBytes(ws)[4 * j + 4..] == b;
    ConcatAssoc(a, Be32(v), b);
  }

  /** A box around words is words. */
  lemma {:induction false} BoxWords(name: U32, ws: seq<U32>)
    ensures Box(name, WordBytes(ws)) == WordBytes([(8 + 4 * |ws|) % TWO32, name] + ws)
  {
    var size := (8 + 4 * |ws|) % TWO32;
    TwoWords(size, name);
    WordBytesConcat([size, name], ws);
  }

  lemma {:induction false} BoxHeader(name: U32, content: seq<Byte>, size: U32)
    requires size == 8 + |content|
    ensures Box(name, content) == Be32(size) + Be32(name) + content
  {}

  lemma {:induction false} TwoWords(a: U32, b: U32)
    ensures WordBytes([a, b]) == Be32(a) + Be32(b)
  {
    assert [a, b][1..] == [b] && [b][1..] == [];
  }
}
