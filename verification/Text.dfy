/** Strings cut out of response payloads: the two `extract_string` functions. */
module Text {
  import opened Types

  predicate Continuation(b: byte) {
    0x80 <= b <= 0xBF
  }

  /** The second byte of a three-byte character. */
  predicate Second3(a: byte, b: byte) {
    Continuation(b) && (0xE1 <= a <= 0xEF || (a == 0xE0 && 0xA0 <= b)) && (a == 0xED ==> b <= 0x9F)
  }

  /** The second byte of a four-byte character. */
  predicate Second4(a: byte, b: byte) {
    Continuation(b) && (0xF1 <= a <= 0xF4 || (a == 0xF0 && 0x90 <= b)) && (a == 0xF4 ==> b <= 0x8F)
  }

  /** The length of the well-formed UTF-8 sequence at the head of `s`, or 0 (RFC 3629, section 4). */
  function HeadLength(s: bytes): (n: nat)
    ensures n <= |s|
  {
    if |s| >= 1 && s[0] <= 0x7F then 1
    else if |s| >= 2 && 0xC2 <= s[0] <= 0xDF && Continuation(s[1]) then 2
    else if |s| >= 3 && Second3(s[0], s[1]) && Continuation(s[2]) then 3
    else if |s| >= 4 && Second4(s[0], s[1]) && Continuation(s[2]) && Continuation(s[3]) then 4
    else 0
  }

  /** What `String::from_utf8` accepts. */
  predicate ValidUtf8(s: bytes) {
    s == [] || (HeadLength(s) > 0 && ValidUtf8(s[HeadLength(s)..]))
  }

  // ---------- valid text is encoded characters ----------

  predicate Scalar(c: nat) {
    c <= 0x10FFFF && !(0xD800 <= c <= 0xDFFF)
  }

  /** The UTF-8 encoding of a Unicode scalar value (RFC 3629, section 3). */
  function Utf8(c: nat): (s: bytes)
    requires Scalar(c)
    ensures s != []
  {
    if c < 0x80 then [c]
    else if c < 0x800 then [0xC0 + c / 0x40, 0x80 + c % 0x40]
    else if c < 0x1_0000 then [0xE0 + c / 0x1000, 0x80 + c / 0x40 % 0x40, 0x80 + c % 0x40]
    else [0xF0 + c / 0x4_0000, 0x80 + c / 0x1000 % 0x40, 0x80 + c / 0x40 % 0x40, 0x80 + c % 0x40]
  }

  lemma CharacterHead(c: nat, t: bytes)
    requires Scalar(c)
    ensures HeadLength(Utf8(c) + t) == |Utf8(c)|
  {
    var s := Utf8(c) + t;
    assert s[..|Utf8(c)|] == Utf8(c);
  }

  lemma SixBits(x: nat, y: nat)
    requires y < 0x40
    ensures (x * 0x40 + y) / 0x40 == x && (x * 0x40 + y) % 0x40 == y
  {
  }

  lemma Character2(a: byte, b: byte) returns (c: nat)
    requires 0xC2 <= a <= 0xDF && Continuation(b)
    ensures Scalar(c) && Utf8(c) == [a, b]
  {
    c := (a as int - 0xC0) * 0x40 + (b as int - 0x80);
    SixBits(a as int - 0xC0, b as int - 0x80);
  }

  lemma Character3(a: byte, b: byte, d: byte) returns (c: nat)
    requires Second3(a, b) && Continuation(d)
    ensures Scalar(c) && Utf8(c) == [a, b, d]
  {
    var high := (a as int - 0xE0) * 0x40 + (b as int - 0x80);
    c := high * 0x40 + (d as int - 0x80);
    SixBits(a as int - 0xE0, b as int - 0x80);
    SixBits(high, d as int - 0x80);
    assert c / 0x1000 == c / 0x40 / 0x40;
  }

  lemma Character4(a: byte, b: byte, d: byte, e: byte) returns (c: nat)
    requires Second4(a, b) && Continuation(d) && Continuation(e)
    ensures Scalar(c) && Utf8(c) == [a, b, d, e]
  {
    var top := (a as int - 0xF0) * 0x40 + (b as int - 0x80);
    var high := top * 0x40 + (d as int - 0x80);
    c := high * 0x40 + (e as int - 0x80);
    SixBits(a as int - 0xF0, b as int - 0x80);
    SixBits(top, d as int - 0x80);
    SixBits(high, e as int - 0x80);
    assert c / 0x1000 == c / 0x40 / 0x40 && c / 0x4_0000 == c / 0x40 / 0x40 / 0x40;
  }

  lemma HeadCharacter(s: bytes) returns (c: nat)
    requires HeadLength(s) > 0
    ensures Scalar(c) && Utf8(c) == s[..HeadLength(s)]
  {
    hide Utf8;
    match HeadLength(s)
    case 1 => c := OneByte(s);
    case 2 => c := Character2(s[0], s[1]);
    case 3 => c := Character3(s[0], s[1], s[2]);
    case _ => c := Character4(s[0], s[1], s[2], s[3]);
  }

  lemma OneByte(s: bytes) returns (c: nat)
    requires s != [] && s[0] <= 0x7F
    ensures Scalar(c) && Utf8(c) == s[..1]
  {
    c := s[0];
  }

  predicate AllScalar(cs: seq<nat>) {
    forall i | 0 <= i < |cs| :: Scalar(cs[i])
  }

  function Encoded(cs: seq<nat>): bytes
    requires AllScalar(cs)
  {
    if cs == [] then [] else Utf8(cs[0]) + Encoded(cs[1..])
  }

  lemma {:induction false} EncodedIsValid(cs: seq<nat>)
    requires AllScalar(cs)
    ensures ValidUtf8(Encoded(cs))
  {
    hide HeadLength, Utf8;
    if cs != [] {
      EncodedIsValid(cs[1..]);
      CharacterHead(cs[0], Encoded(cs[1..]));
      assert Encoded(cs)[|Utf8(cs[0])|..] == Encoded(cs[1..]);
    }
  }

  lemma {:induction false} ValidDecodes(s: bytes) returns (cs: seq<nat>)
    requires ValidUtf8(s)
    ensures AllScalar(cs) && Encoded(cs) == s
    decreases |s|
  {
    hide HeadLength, Utf8, Scalar;
    if s == [] {
      cs := [];
    } else {
      var c := HeadCharacter(s);
      var rest := ValidDecodes(s[HeadLength(s)..]);
      cs := [c] + rest;
      assert cs[1..] == rest;
    }
  }

  /** What is accepted as text is exactly what encodes some characters. */
  lemma ValidIsEncoded(s: bytes)
    ensures ValidUtf8(s) <==> exists cs | AllScalar(cs) :: Encoded(cs) == s
  {
    if ValidUtf8(s) {
      var cs := ValidDecodes(s);
    }
    forall cs | AllScalar(cs) && Encoded(cs) == s ensures ValidUtf8(s) {
      EncodedIsValid(cs);
    }
  }

  // ---------- replacement of what is not UTF-8 ----------

  /** U+FFFD. */
  const REPLACEMENT: bytes := [0xEF, 0xBF, 0xBD]

  /** How much one replacement character stands for: the beginning of a character, or one byte. */
  function BadLength(s: bytes): (n: nat)
    requires s != [] && HeadLength(s) == 0
    ensures 1 <= n <= |s|
  {
    if |s| >= 2 && Second3(s[0], s[1]) then 2
    else if |s| >= 2 && Second4(s[0], s[1]) then if |s| >= 3 && Continuation(s[2]) then 3 else 2
    else 1
  }

  /** `String::from_utf8_lossy`. */
  function Lossy(s: bytes): bytes
    decreases |s|
  {
    if s == [] then []
    else if HeadLength(s) > 0 then s[..HeadLength(s)] + Lossy(s[HeadLength(s)..])
    else REPLACEMENT + Lossy(s[BadLength(s)..])
  }

  /** A character is recognised by its own bytes. */
  lemma HeadIs(s: bytes, t: bytes)
    requires 0 < HeadLength(s) <= |t| && t[..HeadLength(s)] == s[..HeadLength(s)]
    ensures HeadLength(t) == HeadLength(s)
  {
    var h := HeadLength(s);
    assert forall i | 0 <= i < h :: t[i] == t[..h][i] == s[i];
  }

  /** `p` is how some character begins. */
  ghost predicate Beginning(p: bytes) {
    exists c | Scalar(c) :: p <= Utf8(c)
  }

  /** One replacement stands for as many bytes as begin some character, and at least for one. */
  lemma BadLengthMeans(s: bytes)
    requires s != [] && HeadLength(s) == 0
    ensures var n := BadLength(s);
            (n > 1 ==> Beginning(s[..n])) && (n < |s| ==> !Beginning(s[..n + 1]))
  {
    var n := BadLength(s);
    if n > 1 {
      var u := s[..n] + if n == 3 || Second3(s[0], s[1]) then [0x80] else [0x80, 0x80];
      var c := HeadCharacter(u);
      assert s[..n] <= Utf8(c);
    }
    if n < |s| {
      forall c | Scalar(c) ensures !(s[..n + 1] <= Utf8(c)) {
        CharacterHead(c, []);
        assert Utf8(c) + [] == Utf8(c);
        NoLongerPrefix(s, Utf8(c));
      }
    }
  }

  lemma NoLongerPrefix(s: bytes, u: bytes)
    requires s != [] && HeadLength(s) == 0 && BadLength(s) < |s| && HeadLength(u) == |u| > 0
    ensures !(s[..BadLength(s) + 1] <= u)
  {
    PrefixBytes(s, BadLength(s) + 1, u);
  }

  lemma PrefixBytes(s: bytes, n: nat, u: bytes)
    requires n <= |s|
    ensures s[..n] <= u ==> n <= |u| && forall i | 0 <= i < n :: s[i] == u[i]
  {
    if s[..n] <= u {
      forall i | 0 <= i < n ensures s[i] == u[i] {
        assert s[..n][i] == u[i];
      }
    }
  }

  /** Text before what is not text stays, and that is replaced by U+FFFD. */
  lemma {:induction false} LossyReplaces(text: bytes, s: bytes)
    requires ValidUtf8(text)
    ensures Lossy(text + s) == text + Lossy(s)
    ensures s != [] && HeadLength(s) == 0 ==> Lossy(s) == [0xEF, 0xBF, 0xBD] + Lossy(s[BadLength(s)..])
    decreases |text|
  {
    hide HeadLength, BadLength;
    if text == [] {
      assert text + s == s;
    } else {
      var h := HeadLength(text);
      HeadIs(text, text + s);
      assert (text + s)[h..] == text[h..] + s;
      LossyReplaces(text[h..], s);
    }
  }

  lemma {:induction false} LossyValid(s: bytes)
    ensures ValidUtf8(Lossy(s))
    decreases |s|
  {
    assert HeadLength(REPLACEMENT) == 3;
    hide HeadLength, BadLength, REPLACEMENT;
    if s != [] {
      var h := HeadLength(s);
      var head, rest := if h > 0 then s[..h] else REPLACEMENT, if h > 0 then s[h..] else s[BadLength(s)..];
      LossyValid(rest);
      HeadIs(if h > 0 then s else REPLACEMENT, head + Lossy(rest));
      assert (head + Lossy(rest))[|head|..] == Lossy(rest);
    }
  }

  lemma {:induction false} LossyKeeps(s: bytes)
    requires ValidUtf8(s)
    ensures Lossy(s) == s
    decreases |s|
  {
    hide HeadLength, BadLength;
    if s != [] {
      LossyKeeps(s[HeadLength(s)..]);
    }
  }

  /** Replacement yields valid text and leaves exactly valid text as it is. */
  lemma LossyIsValid(s: bytes)
    ensures ValidUtf8(Lossy(s))
    ensures Lossy(s) == s <==> ValidUtf8(s)
  {
    LossyValid(s);
    if ValidUtf8(s) {
      LossyKeeps(s);
    }
  }

  lemma {:induction false} ValidConcat(s: bytes, t: bytes)
    requires ValidUtf8(s) && ValidUtf8(t)
    ensures ValidUtf8(s + t)
    decreases |s|
  {
    hide HeadLength;
    if s == [] {
      assert s + t == t;
    } else {
      var h := HeadLength(s);
      ValidConcat(s[h..], t);
      HeadIs(s, s + t);
      assert (s + t)[h..] == s[h..] + t;
    }
  }

  /** Without a NUL at its end a text is still valid. */
  lemma {:induction false} ValidWithoutNul(s: bytes)
    requires ValidUtf8(s) && s != [] && s[|s| - 1] == 0
    ensures ValidUtf8(s[..|s| - 1])
    decreases |s|
  {
    var h, t := HeadLength(s), s[..|s| - 1];
    if h < |s| {
      HeadIs(s, t);
      ValidWithoutNul(s[h..]);
      assert t[h..] == s[h..][..|s[h..]| - 1];
    }
  }

  // ---------- extraction ----------

  /** What stands before the first NUL of `s`, or all of it. */
  predicate BeforeNul(t: bytes, s: bytes) {
    t <= s && 0 !in t && (t == s || s[|t|] == 0)
  }

  /** The first piece of `split(|&b| b == 0)`. */
  function UpToNul(s: bytes): (t: bytes)
    ensures BeforeNul(t, s)
  {
    if s == [] || s[0] == 0 then [] else [s[0]] + UpToNul(s[1..])
  }

  lemma UpToNulIs(s: bytes)
    ensures forall t | BeforeNul(t, s) :: t == UpToNul(s)
  {
    forall t | BeforeNul(t, s) ensures t == UpToNul(s) {
      var u := UpToNul(s);
      assert |t| == |u|;
    }
  }

  /**
   `extract_string`: what stands in the named range up to its first NUL, if the range lies within
   the data and that text is valid.  Offsets and lengths are 32-bit values, so their sum does not
   overflow.
   */
  function ExtractString(data: bytes, offset: nat, length: nat): (r: Result<bytes>)
    ensures r == Err(ProtocolError(StringOutOfBounds)) <==> offset + length > |data|
    ensures offset + length <= |data| ==>
              forall t | BeforeNul(t, data[offset..offset + length]) ::
                r == if ValidUtf8(t) then Ok(t) else Err(StringEncoding)
  {
    if offset + length > |data| then Err(ProtocolError(StringOutOfBounds)) else
    var slice := UpToNul(data[offset..offset + length]);
    UpToNulIs(data[offset..offset + length]);
    if ValidUtf8(slice) then Ok(slice) else Err(StringEncoding)
  }

  /** A string that can be carried: valid UTF-8 without NUL. */
  predicate Carried(s: bytes) {
    ValidUtf8(s) && 0 !in s
  }

  /** A carried string is extracted unchanged, wherever it stands in the payload. */
  lemma ExtractCarried(data: bytes, offset: nat, s: bytes)
    requires Carried(s) && offset + |s| <= |data| && data[offset..offset + |s|] == s
    ensures ExtractString(data, offset, |s|) == Ok(s)
  {
    var t := UpToNul(s);
    assert t == s;
  }

  /** What was extracted does not depend on bytes after the payload. */
  lemma ExtractStable(data: bytes, more: bytes, offset: nat, length: nat)
    requires ExtractString(data, offset, length).Ok?
    ensures ExtractString(data + more, offset, length) == ExtractString(data, offset, length)
  {
    assert (data + more)[offset..offset + length] == data[offset..offset + length];
  }
}
