/** Big-endian integers: the writers and readers of src/utils.rs, and a byte cursor over a buffer. */
module BigEndian {
  import opened Types

  // Shifts and `as u8` truncations of the source, as division and remainder.

  function Write16(v: u16): (s: bytes)
    ensures |s| == 2
  {
    [v / 0x100, v % 0x100]
  }

  function Write32(v: u32): (s: bytes)
    ensures |s| == 4
  {
    Write16(v / 0x1_0000) + Write16(v % 0x1_0000)
  }

  function Write64(v: u64): (s: bytes)
    ensures |s| == 8
  {
    Write32(v / 0x1_0000_0000) + Write32(v % 0x1_0000_0000)
  }

  /** The value of the big-endian digits at `s[i..]`. */
  function U16At(s: bytes, i: nat): u16
    requires i + 2 <= |s|
  {
    s[i] as int * 0x100 + s[i + 1] as int
  }

  function U32At(s: bytes, i: nat): u32
    requires i + 4 <= |s|
  {
    U16At(s, i) as int * 0x1_0000 + U16At(s, i + 2) as int
  }

  function U64At(s: bytes, i: nat): u64
    requires i + 8 <= |s|
  {
    U32At(s, i) as int * 0x1_0000_0000 + U32At(s, i + 4) as int
  }

  /** The most significant byte comes first. */
  lemma BigEndianMeans(s: bytes, i: nat)
    ensures i + 2 <= |s| ==> U16At(s, i) == s[i] as int * 256 + s[i + 1] as int
    ensures i + 4 <= |s| ==>
              U32At(s, i) == s[i] as int * 16777216 + s[i + 1] as int * 65536 + s[i + 2] as int * 256 + s[i + 3] as int
    ensures i + 8 <= |s| ==> U64At(s, i) == U32At(s, i) as int * 4294967296 + U32At(s, i + 4) as int
  {
  }

  lemma Write32Means(v: u32)
    ensures Write32(v) == [v / 16777216, v / 65536 % 256, v / 256 % 256, v % 256]
  {
    var h, l := v / 65536, v % 65536;
    var q := 256 * h + l / 256;
    assert v == 256 * q + l % 256;
    assert v / 256 == q && v % 256 == l % 256 && q % 256 == l / 256;
    assert v == 16777216 * (h / 256) + (65536 * (h % 256) + l);
    assert v / 16777216 == h / 256;
  }

  // Reading inverts writing, wherever the digits stand in a buffer.

  lemma Read16(s: bytes, i: nat, v: u16)
    requires i + 2 <= |s| && s[i..i + 2] == Write16(v)
    ensures U16At(s, i) == v
  {
    assert s[i] == s[i..i + 2][0] && s[i + 1] == s[i..i + 2][1];
  }

  lemma Read32(s: bytes, i: nat, v: u32)
    requires i + 4 <= |s| && s[i..i + 4] == Write32(v)
    ensures U32At(s, i) == v
  {
    var w := s[i..i + 4];
    assert s[i..i + 2] == w[..2] == Write16(v / 0x1_0000);
    assert s[i + 2..i + 4] == w[2..] == Write16(v % 0x1_0000);
    Read16(s, i, v / 0x1_0000);
    Read16(s, i + 2, v % 0x1_0000);
  }

  lemma Read64(s: bytes, i: nat, v: u64)
    requires i + 8 <= |s| && s[i..i + 8] == Write64(v)
    ensures U64At(s, i) == v
  {
    var w := s[i..i + 8];
    assert s[i..i + 4] == w[..4] == Write32(v / 0x1_0000_0000);
    assert s[i + 4..i + 8] == w[4..] == Write32(v % 0x1_0000_0000);
    Read32(s, i, v / 0x1_0000_0000);
    Read32(s, i + 4, v % 0x1_0000_0000);
  }

  /** Writing inverts reading: no two 4-byte words have the same value. */
  lemma Rewrite32(s: bytes, i: nat)
    requires i + 4 <= |s|
    ensures Write32(U32At(s, i)) == s[i..i + 4]
  {
    Rewrite16(s, i);
    Rewrite16(s, i + 2);
    assert U32At(s, i) / 0x1_0000 == U16At(s, i) && U32At(s, i) % 0x1_0000 == U16At(s, i + 2);
    assert s[i..i + 4] == s[i..i + 2] + s[i + 2..i + 4];
  }

  lemma Rewrite16(s: bytes, i: nat)
    requires i + 2 <= |s|
    ensures Write16(U16At(s, i)) == s[i..i + 2]
  {
  }

  /** The words of a list one after another, as `write_u32` leaves them. */
  function WriteWords(words: seq<u32>): (s: bytes)
    ensures |s| == 4 * |words|
  {
    if words == [] then [] else WriteWords(words[..|words| - 1]) + Write32(words[|words| - 1])
  }

  function WriteHalfWords(words: seq<u16>): (s: bytes)
    ensures |s| == 2 * |words|
  {
    if words == [] then [] else WriteHalfWords(words[..|words| - 1]) + Write16(words[|words| - 1])
  }

  /** `count` consecutive 32-bit values starting at `s[i]`. */
  function WordsAt(s: bytes, i: nat, count: nat): (words: seq<u32>)
    requires i + 4 * count <= |s|
    ensures |words| == count
  {
    seq(count, k requires 0 <= k < count => U32At(s, i + 4 * k))
  }

  function HalfWordsAt(s: bytes, i: nat, count: nat): (words: seq<u16>)
    requires i + 2 * count <= |s|
    ensures |words| == count
  {
    seq(count, k requires 0 <= k < count => U16At(s, i + 2 * k))
  }

  lemma {:induction false} ReadWords(s: bytes, i: nat, words: seq<u32>)
    requires i + 4 * |words| <= |s| && s[i..i + 4 * |words|] == WriteWords(words)
    ensures WordsAt(s, i, |words|) == words
  {
    hide U32At, Write32;
    if words != [] {
      var n := |words| - 1;
      var written := s[i..i + 4 * |words|];
      assert s[i..i + 4 * n] == written[..4 * n];
      ReadWords(s, i, words[..n]);
      assert s[i + 4 * n..i + 4 * n + 4] == written[4 * n..];
      Read32(s, i + 4 * n, words[n]);
      assert WordsAt(s, i, |words|) == WordsAt(s, i, n) + [words[n]];
    }
  }

  lemma {:induction false} ReadHalfWords(s: bytes, i: nat, words: seq<u16>)
    requires i + 2 * |words| <= |s| && s[i..i + 2 * |words|] == WriteHalfWords(words)
    ensures HalfWordsAt(s, i, |words|) == words
  {
    hide U16At, Write16;
    if words != [] {
      var n := |words| - 1;
      var written := s[i..i + 2 * |words|];
      assert s[i..i + 2 * n] == written[..2 * n];
      ReadHalfWords(s, i, words[..n]);
      assert s[i + 2 * n..i + 2 * n + 2] == written[2 * n..];
      Read16(s, i + 2 * n, words[n]);
      assert HalfWordsAt(s, i, |words|) == HalfWordsAt(s, i, n) + [words[n]];
    }
  }

  /** Splitting a buffer into words and writing them back changes nothing. */
  lemma {:induction false} RewriteWords(s: bytes, i: nat, count: nat)
    requires i + 4 * count <= |s|
    ensures WriteWords(WordsAt(s, i, count)) == s[i..i + 4 * count]
  {
    if count > 0 {
      var n := count - 1;
      RewriteWords(s, i, n);
      Rewrite32(s, i + 4 * n);
      assert WordsAt(s, i, count)[..n] == WordsAt(s, i, n);
      assert s[i..i + 4 * count] == s[i..i + 4 * n] + s[i + 4 * n..i + 4 * count];
    }
  }

  /** `std::io::Cursor` over a byte buffer, with the readers the parsers use. */
  class Cursor {
    const data: bytes
    var position: nat

    constructor (data: bytes)
      ensures this.data == data && position == 0
    {
      this.data := data;
      position := 0;
    }

    method ReadExact(n: nat) returns (r: Result<bytes>)
      modifies this
      ensures r.Ok? <==> old(position) + n <= |data|
      ensures r.Ok? ==> r.value == data[old(position)..old(position) + n] && position == old(position) + n
      ensures r.Err? ==> r.error == Io(UnexpectedEof)
    {
      if position + n > |data| {
        return Err(Io(UnexpectedEof));
      }
      r := Ok(data[position..position + n]);
      position := position + n;
    }

    method ReadU8() returns (r: Result<byte>)
      modifies this
      ensures r.Ok? <==> old(position) + 1 <= |data|
      ensures r.Ok? ==> r.value == data[old(position)] && position == old(position) + 1
      ensures r.Err? ==> r.error == Io(UnexpectedEof)
    {
      var b :- ReadExact(1);
      r := Ok(b[0]);
    }

    method ReadU16() returns (r: Result<u16>)
      modifies this
      ensures r.Ok? <==> old(position) + 2 <= |data|
      ensures r.Ok? ==> r.value == U16At(data, old(position)) && position == old(position) + 2
      ensures r.Err? ==> r.error == Io(UnexpectedEof)
    {
      var b :- ReadExact(2);
      r := Ok(b[0] as int * 0x100 + b[1] as int);
    }

    method ReadU32() returns (r: Result<u32>)
      modifies this
      ensures r.Ok? <==> old(position) + 4 <= |data|
      ensures r.Ok? ==> r.value == U32At(data, old(position)) && position == old(position) + 4
      ensures r.Err? ==> r.error == Io(UnexpectedEof)
    {
      var b :- ReadExact(4);
      r := Ok(b[0] as int * 0x100_0000 + b[1] as int * 0x1_0000 + b[2] as int * 0x100 + b[3] as int);
    }

    method ReadU64() returns (r: Result<u64>)
      modifies this
      ensures r.Ok? <==> old(position) + 8 <= |data|
      ensures r.Ok? ==> r.value == U64At(data, old(position)) && position == old(position) + 8
      ensures r.Err? ==> r.error == Io(UnexpectedEof)
    {
      var b :- ReadExact(8);
      r := Ok(b[0] as int * 0x100_0000_0000_0000 + b[1] as int * 0x1_0000_0000_0000
              + b[2] as int * 0x100_0000_0000 + b[3] as int * 0x1_0000_0000
              + b[4] as int * 0x100_0000 + b[5] as int * 0x1_0000 + b[6] as int * 0x100 + b[7] as int);
    }
  }
}
