/** The text of a resume file: `usize::to_string`, and how `check_resume_state` reads it back. */
module Decimal {
  import opened Types
  import Text

  predicate IsDigit(b: byte) {
    48 <= b <= 57
  }

  predicate AllDigits(s: bytes) {
    forall i | 0 <= i < |s| :: IsDigit(s[i])
  }

  function Show(n: nat): (s: bytes)
    ensures s != [] && AllDigits(s)
  {
    (if n < 10 then [] else Show(n / 10)) + [48 + n % 10]
  }

  function ValueOf(digits: bytes): nat
    requires AllDigits(digits)
  {
    if digits == [] then 0 else
    10 * ValueOf(digits[..|digits| - 1]) + (digits[|digits| - 1] - 48)
  }

  /** One character of Unicode's White_Space, in UTF-8. */
  predicate IsSpace(c: bytes) {
    || (|c| == 1 && (9 <= c[0] <= 13 || c[0] == 32))
    || (|c| == 2 && c[0] == 0xC2 && (c[1] == 0x85 || c[1] == 0xA0))
    || (|c| == 3 && (|| c == [0xE1, 0x9A, 0x80]
                     || (c[0] == 0xE2 && c[1] == 0x80 && (0x80 <= c[2] <= 0x8A || c[2] in {0xA8, 0xA9, 0xAF}))
                     || c == [0xE2, 0x81, 0x9F]
                     || c == [0xE3, 0x80, 0x80]))
  }

  /** The length of the white space character that `s` begins with, or 0. */
  function HeadSpace(s: bytes): (n: nat)
    ensures n <= |s|
  {
    if |s| >= 1 && IsSpace(s[..1]) then 1
    else if |s| >= 2 && IsSpace(s[..2]) then 2
    else if |s| >= 3 && IsSpace(s[..3]) then 3
    else 0
  }

  /** The length of the white space character that `s` ends with, or 0. */
  function TailSpace(s: bytes): (n: nat)
    ensures n <= |s|
  {
    if |s| >= 1 && IsSpace(s[|s| - 1..]) then 1
    else if |s| >= 2 && IsSpace(s[|s| - 2..]) then 2
    else if |s| >= 3 && IsSpace(s[|s| - 3..]) then 3
    else 0
  }

  function TrimStart(s: bytes): bytes
  {
    if HeadSpace(s) > 0 then TrimStart(s[HeadSpace(s)..]) else s
  }

  function TrimEnd(s: bytes): bytes
  {
    if TailSpace(s) > 0 then TrimEnd(s[..|s| - TailSpace(s)]) else s
  }

  /** `parse::<usize>` on a 64-bit target: an optional plus sign, digits, no overflow. */
  function Parse(text: bytes): Option<nat>
  {
    var digits := if text != [] && text[0] == 43 then text[1..] else text;
    if digits != [] && AllDigits(digits) && ValueOf(digits) < 0x1_0000_0000_0000_0000
    then Some(ValueOf(digits)) else None
  }

  /** `read_to_string`, `trim` and `parse`: the offset in a resume file, or how reading it fails. */
  function Read(content: bytes): (r: Result<nat>)
    ensures r.Err? ==> r.error == Io(InvalidText) || r.error == InvalidResumeData
    ensures r == Err(Io(InvalidText)) <==> !Text.ValidUtf8(content)
  {
    if !Text.ValidUtf8(content) then Err(Io(InvalidText)) else
    match Parse(TrimEnd(TrimStart(content)))
    case Some(n) => Ok(n)
    case None => Err(InvalidResumeData)
  }

  lemma {:induction false} ValueOfShow(n: nat)
    ensures ValueOf(Show(n)) == n
  {
    var s := Show(n);
    if n < 10 {
      assert s == [48 + n];
      assert ValueOf(s[..0]) == 0;
    } else {
      ValueOfShow(n / 10);
      assert s[..|s| - 1] == Show(n / 10);
    }
  }

  lemma {:induction false} ValueOfPrefix(s: bytes, k: nat)
    requires AllDigits(s) && k <= |s|
    ensures ValueOf(s[..k]) <= ValueOf(s)
    decreases |s|
  {
    if k == |s| {
      assert s[..k] == s;
    } else {
      var t := s[..|s| - 1];
      ValueOfPrefix(t, k);
      assert t[..k] == s[..k];
    }
  }

  // ---------- what is read ----------

  predicate AllSpaces(cs: seq<bytes>) {
    forall i | 0 <= i < |cs| :: IsSpace(cs[i])
  }

  function Flat(cs: seq<bytes>): bytes
  {
    if cs == [] then [] else Flat(cs[..|cs| - 1]) + cs[|cs| - 1]
  }

  lemma SpaceHead(c: bytes, s: bytes)
    requires IsSpace(c)
    ensures HeadSpace(c + s) == |c| > 0 && (c + s)[|c|..] == s
  {
    var t := c + s;
    assert t[..|c|] == c;
    assert |c| >= 2 ==> t[..1] == [c[0]];
    assert |c| == 3 ==> t[..2] == [c[0], c[1]];
  }

  lemma SpaceTail(s: bytes, c: bytes)
    requires IsSpace(c)
    ensures TailSpace(s + c) == |c| > 0 && (s + c)[..|s|] == s
  {
    var t := s + c;
    assert t[|s|..] == c;
    assert |c| >= 2 ==> t[|t| - 1..] == [c[|c| - 1]];
    assert |c| == 3 ==> t[|t| - 2..] == [c[1], c[2]];
  }

  /** The code points of White_Space. */
  predicate WhiteSpace(c: nat) {
    || 9 <= c <= 13 || c == 32 || c == 0x85 || c == 0xA0 || c == 0x1680 || 0x2000 <= c <= 0x200A
    || c == 0x2028 || c == 0x2029 || c == 0x202F || c == 0x205F || c == 0x3000
  }

  lemma SpaceIsEncoded(c: bytes)
    ensures IsSpace(c) <==> exists u | Text.Scalar(u) && WhiteSpace(u) :: Text.Utf8(u) == c
  {
    if IsSpace(c) {
      var u := SpaceCode(c);
    }
    forall u | Text.Scalar(u) && WhiteSpace(u) && Text.Utf8(u) == c ensures IsSpace(c) {
      CodeIsSpace(u);
    }
  }

  lemma SpaceCode(c: bytes) returns (u: nat)
    requires IsSpace(c)
    ensures Text.Scalar(u) && WhiteSpace(u) && Text.Utf8(u) == c
  {
    if |c| < 3 {
      u := c[|c| - 1];
    } else {
      u := (c[0] as int - 0xE0) * 0x1000 + (c[1] as int - 0x80) * 0x40 + (c[2] as int - 0x80);
    }
  }

  lemma CodeIsSpace(u: nat)
    requires Text.Scalar(u) && WhiteSpace(u)
    ensures IsSpace(Text.Utf8(u))
  {
  }

  lemma SpaceEnds(c: bytes)
    requires IsSpace(c)
    ensures c != [] && !IsDigit(c[0]) && c[0] != 43 && !IsDigit(c[|c| - 1])
  {
  }

  lemma NumberFirst(s: bytes)
    requires s != [] && (IsDigit(s[0]) || s[0] == 43)
    ensures HeadSpace(s) == 0
  {
    hide IsSpace;
    forall n | 1 <= n <= |s| ensures !IsSpace(s[..n]) {
      if IsSpace(s[..n]) {
        SpaceEnds(s[..n]);
      }
    }
  }

  lemma DigitLast(s: bytes)
    requires s != [] && IsDigit(s[|s| - 1])
    ensures TailSpace(s) == 0
  {
    hide IsSpace;
    forall n | 0 <= n < |s| ensures !IsSpace(s[n..]) {
      if IsSpace(s[n..]) {
        SpaceEnds(s[n..]);
      }
    }
  }

  lemma {:induction false} TrimStartFlat(cs: seq<bytes>, s: bytes)
    requires AllSpaces(cs) && HeadSpace(s) == 0
    ensures TrimStart(Flat(cs) + s) == s
    decreases |cs|
  {
    hide IsSpace, HeadSpace;
    if cs == [] {
      assert Flat(cs) + s == s;
    } else {
      FlatCons(cs);
      var rest := Flat(cs[1..]) + s;
      assert Flat(cs) + s == cs[0] + rest;
      SpaceHead(cs[0], rest);
      TrimStartFlat(cs[1..], s);
    }
  }

  lemma {:induction false} FlatCons(cs: seq<bytes>)
    requires cs != []
    ensures Flat(cs) == cs[0] + Flat(cs[1..])
  {
    if |cs| > 1 {
      var n := |cs| - 1;
      FlatCons(cs[..n]);
      assert cs[..n][1..] == cs[1..][..n - 1];
    }
  }

  lemma {:induction false} TrimEndFlat(s: bytes, cs: seq<bytes>)
    requires AllSpaces(cs) && TailSpace(s) == 0
    ensures TrimEnd(s + Flat(cs)) == s
    decreases |cs|
  {
    hide IsSpace, TailSpace;
    if cs == [] {
      assert s + Flat(cs) == s;
    } else {
      var n := |cs| - 1;
      var rest := s + Flat(cs[..n]);
      assert s + Flat(cs) == rest + cs[n];
      SpaceTail(rest, cs[n]);
      TrimEndFlat(s, cs[..n]);
    }
  }

  lemma SpaceValid(c: bytes)
    requires IsSpace(c)
    ensures Text.ValidUtf8(c)
  {
    assert Text.HeadLength(c) == |c|;
  }

  lemma {:induction false} FlatValid(cs: seq<bytes>)
    requires AllSpaces(cs)
    ensures Text.ValidUtf8(Flat(cs))
  {
    hide IsSpace;
    if cs != [] {
      var n := |cs| - 1;
      FlatValid(cs[..n]);
      SpaceValid(cs[n]);
      Text.ValidConcat(Flat(cs[..n]), cs[n]);
    }
  }

  lemma TrimStartStep(s: bytes)
    ensures var n := HeadSpace(s);
            (n > 0 ==> IsSpace(s[..n])) && TrimStart(s) == if n > 0 then TrimStart(s[n..]) else s
  {
    hide IsSpace;
  }

  lemma TrimEndStep(s: bytes)
    ensures var n := TailSpace(s);
            (n > 0 ==> IsSpace(s[|s| - n..])) && TrimEnd(s) == if n > 0 then TrimEnd(s[..|s| - n]) else s
  {
    hide IsSpace;
  }

  /** What trimming takes away is white space. */
  lemma {:induction false} TrimStartTakes(s: bytes) returns (cs: seq<bytes>)
    ensures AllSpaces(cs) && s == Flat(cs) + TrimStart(s)
    decreases |s|
  {
    hide IsSpace, HeadSpace, TailSpace, TrimStart, TrimEnd, Flat;
    var n := HeadSpace(s);
    TrimStartStep(s);
    if n == 0 {
      FlatNone();
      cs := [];
    } else {
      var rest := TrimStartTakes(s[n..]);
      cs := [s[..n]] + rest;
      FlatCons(cs);
      assert cs[1..] == rest;
      JoinedBack(s, n, Flat(rest), TrimStart(s[n..]));
    }
  }

  lemma JoinedBack(s: bytes, n: nat, a: bytes, b: bytes)
    requires n <= |s| && s[n..] == a + b
    ensures s == s[..n] + a + b
  {
    assert s == s[..n] + s[n..];
  }

  lemma {:induction false} TrimEndTakes(s: bytes) returns (cs: seq<bytes>)
    ensures AllSpaces(cs) && s == TrimEnd(s) + Flat(cs)
    decreases |s|
  {
    hide IsSpace, HeadSpace, TailSpace, TrimStart, TrimEnd, Flat;
    var n := TailSpace(s);
    TrimEndStep(s);
    if n == 0 {
      FlatNone();
      cs := [];
    } else {
      var rest := TrimEndTakes(s[..|s| - n]);
      cs := rest + [s[|s| - n..]];
      FlatSnoc(rest, s[|s| - n..]);
      JoinedOn(s, |s| - n, TrimEnd(s[..|s| - n]), Flat(rest));
    }
  }

  lemma JoinedOn(s: bytes, n: nat, a: bytes, b: bytes)
    requires n <= |s| && s[..n] == a + b
    ensures s == a + (b + s[n..])
  {
    assert s == s[..n] + s[n..];
  }

  lemma FlatSnoc(cs: seq<bytes>, c: bytes)
    ensures Flat(cs + [c]) == Flat(cs) + c
  {
    assert (cs + [c])[..|cs|] == cs;
  }

  lemma FlatNone()
    ensures Flat([]) == []
  {
  }

  lemma {:induction false} AsciiValid(s: bytes)
    requires forall i | 0 <= i < |s| :: IsDigit(s[i]) || s[i] == 43
    ensures Text.ValidUtf8(s)
  {
    if s != [] {
      assert IsDigit(s[0]) || s[0] == 43;
      AsciiValid(s[1..]);
    }
  }

  /** A number as it may stand in the file: digits, possibly behind a plus sign, within white space. */
  function Written(before: seq<bytes>, plus: bool, digits: bytes, after: seq<bytes>): bytes
  {
    Flat(before) + ((if plus then [43] else []) + digits) + Flat(after)
  }

  predicate Numeral(digits: bytes, n: nat) {
    digits != [] && AllDigits(digits) && ValueOf(digits) == n < 0x1_0000_0000_0000_0000
  }

  /** Digits are read as the number they stand for, whatever white space surrounds them. */
  lemma ReadPadded(before: seq<bytes>, plus: bool, digits: bytes, after: seq<bytes>, n: nat)
    requires AllSpaces(before) && AllSpaces(after) && Numeral(digits, n)
    ensures Read(Written(before, plus, digits, after)) == Ok(n)
  {
    hide IsSpace, HeadSpace, TailSpace, TrimStart, TrimEnd, Flat, Parse, ValueOf, Text.ValidUtf8;
    var s := (if plus then [43] else []) + digits;
    ParsesAs(plus, digits, n);
    FlatValid(before);
    FlatValid(after);
    AsciiValid(s);
    Text.ValidConcat(Flat(before), s);
    Text.ValidConcat(Flat(before) + s, Flat(after));
    var padded := s + Flat(after);
    assert Flat(before) + s + Flat(after) == Flat(before) + padded;
    assert padded[0] == s[0] && IsDigit(digits[|digits| - 1]) && s[|s| - 1] == digits[|digits| - 1];
    DigitLast(s);
    NumberFirst(padded);
    TrimStartFlat(before, padded);
    TrimEndFlat(s, after);
  }

  lemma ParsesAs(plus: bool, digits: bytes, n: nat)
    requires Numeral(digits, n)
    ensures Parse((if plus then [43] else []) + digits) == Some(n)
  {
    assert ([43] + digits)[1..] == digits;
    assert [] + digits == digits;
    assert IsDigit(digits[0]);
  }

  /** An offset is read from exactly the texts that are such a number; all else is refused. */
  lemma ReadExactly(s: bytes, n: nat)
    ensures Read(s) == Ok(n) <==>
            exists before, plus, digits, after
              | AllSpaces(before) && AllSpaces(after) && Numeral(digits, n) :: Written(before, plus, digits, after) == s
  {
    if Read(s) == Ok(n) {
      var before, plus, digits, after := ReadWas(s, n);
      assert Written(before, plus, digits, after) == s;
    }
    forall before, plus, digits, after
      | AllSpaces(before) && AllSpaces(after) && Numeral(digits, n) && Written(before, plus, digits, after) == s
      ensures Read(s) == Ok(n)
    {
      ReadPadded(before, plus, digits, after, n);
    }
  }

  lemma ReadWas(s: bytes, n: nat) returns (before: seq<bytes>, plus: bool, digits: bytes, after: seq<bytes>)
    requires Read(s) == Ok(n)
    ensures AllSpaces(before) && AllSpaces(after) && Numeral(digits, n) && Written(before, plus, digits, after) == s
  {
    hide TrimStart, TrimEnd, Flat, AllSpaces, ValueOf, Text.ValidUtf8;
    before := TrimStartTakes(s);
    after := TrimEndTakes(TrimStart(s));
    var t := TrimEnd(TrimStart(s));
    plus := t != [] && t[0] == 43;
    digits := if plus then t[1..] else t;
    assert (if plus then [43] else []) + digits == t;
    assert Flat(before) + t + Flat(after) == Flat(before) + (t + Flat(after));
  }

  lemma ReadDigits(s: bytes)
    requires s != [] && AllDigits(s) && ValueOf(s) < 0x1_0000_0000_0000_0000
    ensures Read(s) == Ok(ValueOf(s))
  {
    hide Read, ValueOf;
    FlatNone();
    ReadPadded([], false, s, [], ValueOf(s));
    assert Flat([]) + ([] + s) + Flat([]) == s;
  }

  // ---------- what is written ----------

  function Pow10(k: nat): (p: nat)
    ensures p >= 1
  {
    if k == 0 then 1 else 10 * Pow10(k - 1)
  }

  lemma DivTwice(n: nat, c: nat)
    requires c >= 1
    ensures n / 10 / c == n / (10 * c)
  {
    var q := n / 10 / c;
    var r := n - q * (10 * c);
    assert n == 10 * (n / 10) + n % 10 && n / 10 == c * q + n / 10 % c;
    assert 0 <= r < 10 * c;
    assert n == q * (10 * c) + r;
    Quotient(n, 10 * c, q, r);
  }

  lemma Quotient(n: nat, c: nat, q: nat, r: nat)
    requires c >= 1 && n == q * c + r && r < c
    ensures n / c == q
  {
    var p := n / c;
    assert n == p * c + n % c;
    assert p < q ==> (p + 1) * c <= q * c;
    assert q < p ==> (q + 1) * c <= p * c;
  }

  /** Every digit that is written is the number's own, the last one first. */
  lemma {:induction false} ShowDigit(n: nat, k: nat)
    requires k < |Show(n)|
    ensures Show(n)[|Show(n)| - 1 - k] as int == 48 + n / Pow10(k) % 10
  {
    ShowSteps(n);
    hide Show, Pow10;
    PowSteps(k);
    if k > 0 {
      ShowDigit(n / 10, k - 1);
      DivTwice(n, Pow10(k - 1));
    }
  }

  lemma ShowSteps(n: nat)
    ensures Show(n)[|Show(n)| - 1] as int == 48 + n % 10
    ensures if n < 10 then |Show(n)| == 1 else Show(n)[..|Show(n)| - 1] == Show(n / 10)
  {
  }

  lemma PowSteps(k: nat)
    ensures Pow10(k) == if k == 0 then 1 else 10 * Pow10(k - 1)
  {
  }

  /** There are as many of them as the number has: none is missing, and no zero stands in front. */
  lemma {:induction false} ShowLength(n: nat)
    ensures n < Pow10(|Show(n)|) && (|Show(n)| > 1 ==> Pow10(|Show(n)| - 1) <= n)
  {
    if n >= 10 {
      ShowLength(n / 10);
      assert Pow10(|Show(n)|) == 10 * Pow10(|Show(n / 10)|);
      assert Pow10(|Show(n)| - 1) == Pow10(|Show(n / 10)|);
      assert |Show(n / 10)| > 1 ==> Pow10(|Show(n / 10)|) == 10 * Pow10(|Show(n / 10)| - 1);
    } else {
      assert Pow10(1) == 10;
    }
  }

  /** A saved offset reads back as itself. */
  lemma ReadShow(n: u64)
    ensures Read(Show(n)) == Ok(n)
  {
    ValueOfShow(n);
    ReadDigits(Show(n));
  }

  /** A save that broke off reads back as some number, unless nothing at all was written. */
  lemma ReadTorn(n: u64, k: nat)
    requires k <= |Show(n)|
    ensures Read(Show(n)[..k]).Err? <==> k == 0
  {
    if k > 0 {
      var s := Show(n)[..k];
      assert AllDigits(s) by {
        forall i | 0 <= i < |s| ensures IsDigit(s[i]) {
          assert s[i] == Show(n)[i];
        }
      }
      ValueOfPrefix(Show(n), k);
      ValueOfShow(n);
      ReadDigits(s);
    }
  }
}
