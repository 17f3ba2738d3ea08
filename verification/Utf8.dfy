/** UTF-8 well-formedness (section 4 of RFC 3629) and Rust's lossy decoding. */
module Utf8 {
  import opened Text

  predicate Continuation(c: Byte) {
    0x80 <= c as int <= 0xBF
  }

  /** The second byte `b` is allowed after the lead byte `a` of a multi-byte character. */
  predicate SecondByte(a: Byte, b: Byte) {
    && Continuation(b)
    && (a as int == 0xE0 ==> 0xA0 <= b as int)
    && (a as int == 0xED ==> b as int <= 0x9F)
    && (a as int == 0xF0 ==> 0x90 <= b as int)
    && (a as int == 0xF4 ==> b as int <= 0x8F)
  }

  /** How many bytes a character with this lead byte has; 0 if no character starts so. */
  function LeadLength(a: Byte): (n: nat)
    ensures n <= 4
  {
    if a as int < 0x80 then 1
    else if 0xC2 <= a as int <= 0xDF then 2
    else if 0xE0 <= a as int <= 0xEF then 3
    else if 0xF0 <= a as int <= 0xF4 then 4
    else 0
  }

  /** The longest prefix of `s`, of one character at most, that a well-formed text could have. */
  function GoodPrefix(s: Bytes): (n: nat)
    ensures n <= |s| && n <= 4
    ensures s != [] ==> n <= LeadLength(s[0])
  {
    if s == [] || LeadLength(s[0]) == 0 then 0
    else if LeadLength(s[0]) == 1 || |s| < 2 || !SecondByte(s[0], s[1]) then 1
    else if LeadLength(s[0]) == 2 || |s| < 3 || !Continuation(s[2]) then 2
    else if LeadLength(s[0]) == 3 || |s| < 4 || !Continuation(s[3]) then 3
    else 4
  }

  /** A whole well-formed character starts `s`. */
  predicate StartsChar(s: Bytes) {
    s != [] && LeadLength(s[0]) != 0 && GoodPrefix(s) == LeadLength(s[0])
  }

  predicate Valid(s: Bytes) {
    s != [] ==> StartsChar(s) && Valid(s[GoodPrefix(s)..])
  }

  /** U+FFFD in UTF-8. */
  const REPLACEMENT: Bytes := [0xEF as char, 0xBF as char, 0xBD as char]

  /** Rust's `from_utf8_lossy`: each maximal malformed run becomes one U+FFFD. */
  function Lossy(s: Bytes): Bytes {
    if s == [] then []
    else if StartsChar(s) then s[..GoodPrefix(s)] + Lossy(s[GoodPrefix(s)..])
    else REPLACEMENT + Lossy(s[if GoodPrefix(s) == 0 then 1 else GoodPrefix(s)..])
  }

  /** Lossy decoding loses nothing exactly on well-formed text. */
  lemma {:induction false} LossyOfValid(s: Bytes)
    requires Valid(s)
    ensures Lossy(s) == s
  {
    if s != [] {
      var n := GoodPrefix(s);
      LossyOfValid(s[n..]);
      assert s == s[..n] + s[n..];
    }
  }

  predicate IsAscii(s: Bytes) {
    forall i :: 0 <= i < |s| ==> s[i] as int < 0x80
  }

  lemma {:induction false} AsciiIsValid(s: Bytes)
    requires IsAscii(s)
    ensures Valid(s)
  {
    if s != [] {
      assert s[0] as int < 0x80;
      AsciiIsValid(s[1..]);
    }
  }

  // ── Characters ─────────────────────────────────────────────────────────────────

  /** A Unicode scalar value. */
  type Scalar = n: nat | n < 0xD800 || 0xE000 <= n < 0x11_0000

  /** A character in UTF-8 (the table in section 3 of RFC 3629). */
  function Encode(n: Scalar): (s: Bytes)
    ensures 1 <= |s| <= 4
  {
    if n < 0x80 then [n as char]
    else if n < 0x800 then [(0xC0 + n / 0x40) as char, (0x80 + n % 0x40) as char]
    else if n < 0x1_0000 then
      [(0xE0 + n / 0x1000) as char, (0x80 + n / 0x40 % 0x40) as char, (0x80 + n % 0x40) as char]
    else
      [(0xF0 + n / 0x4_0000) as char, (0x80 + n / 0x1000 % 0x40) as char,
       (0x80 + n / 0x40 % 0x40) as char, (0x80 + n % 0x40) as char]
  }

  function EncodeAll(text: seq<Scalar>): Bytes {
    if text == [] then [] else Encode(text[0]) + EncodeAll(text[1..])
  }

  /** The bytes of an encoded character are in the ranges that reading it expects. */
  lemma EncodedBytes(n: Scalar)
    ensures var e := Encode(n);
            && LeadLength(e[0]) == |e|
            && (|e| > 1 ==> SecondByte(e[0], e[1]))
            && (|e| > 2 ==> Continuation(e[2])) && (|e| > 3 ==> Continuation(e[3]))
  {
    if n >= 0x1_0000 {
      assert n / 0x1000 == n / 0x4_0000 * 0x40 + n / 0x1000 % 0x40;
    } else if n >= 0x800 {
      assert n / 0x40 == n / 0x1000 * 0x40 + n / 0x40 % 0x40;
    }
  }

  /** An encoded character starts what it is in front of, and no more. */
  lemma EncodedStarts(n: Scalar, rest: Bytes)
    ensures var s := Encode(n) + rest; StartsChar(s) && GoodPrefix(s) == |Encode(n)|
  {
    hide Encode, LeadLength, SecondByte, Continuation;
    EncodedBytes(n);
    var (s, e) := (Encode(n) + rest, Encode(n));
    assert forall i :: 0 <= i < |e| ==> s[i] == e[i];
  }

  /**
   The character whose encoding starts with the first `k` bytes of `s`, continued with the smallest
   bytes that are possible.
   */
  lemma Completes(s: Bytes, k: nat) returns (n: Scalar)
    requires 1 <= k <= GoodPrefix(s)
    ensures k <= |Encode(n)| == LeadLength(s[0]) && Encode(n)[..k] == s[..k]
  {
    var a := s[0] as int;
    var b := if k > 1 then s[1] as int else if a == 0xE0 then 0xA0 else if a == 0xF0 then 0x90 else 0x80;
    var c, d := if k > 2 then s[2] as int else 0x80, if k > 3 then s[3] as int else 0x80;
    match LeadLength(s[0])
    case 1 => n := a;
    case 2 => n := PackTwo(a, b);
    case 3 => n := PackThree(a, b, c);
    case _ => n := PackFour(a, b, c, d);
  }

  lemma PackTwo(a: int, b: int) returns (n: Scalar)
    requires 0xC2 <= a <= 0xDF && 0x80 <= b <= 0xBF
    ensures Encode(n) == [a as char, b as char]
  {
    n := (a - 0xC0) * 0x40 + (b - 0x80);
    assert n / 0x40 == a - 0xC0 && n % 0x40 == b - 0x80;
  }

  lemma PackThree(a: int, b: int, c: int) returns (n: Scalar)
    requires 0xE0 <= a <= 0xEF && 0x80 <= b <= 0xBF && 0x80 <= c <= 0xBF
    requires (a == 0xE0 ==> 0xA0 <= b) && (a == 0xED ==> b <= 0x9F)
    ensures Encode(n) == [a as char, b as char, c as char]
  {
    var h := (a - 0xE0) * 0x40 + (b - 0x80);
    assert h / 0x40 == a - 0xE0 && h % 0x40 == b - 0x80;
    n := h * 0x40 + (c - 0x80);
    assert n / 0x40 == h && n % 0x40 == c - 0x80;
    assert n / 0x1000 == h / 0x40;
  }

  lemma PackFour(a: int, b: int, c: int, d: int) returns (n: Scalar)
    requires 0xF0 <= a <= 0xF4 && 0x80 <= b <= 0xBF && 0x80 <= c <= 0xBF && 0x80 <= d <= 0xBF
    requires (a == 0xF0 ==> 0x90 <= b) && (a == 0xF4 ==> b <= 0x8F)
    ensures Encode(n) == [a as char, b as char, c as char, d as char]
  {
    var g := (a - 0xF0) * 0x40 + (b - 0x80);
    var h := g * 0x40 + (c - 0x80);
    assert g / 0x40 == a - 0xF0 && g % 0x40 == b - 0x80;
    assert h / 0x40 == g && h % 0x40 == c - 0x80;
    n := h * 0x40 + (d - 0x80);
    assert n / 0x40 == h && n % 0x40 == d - 0x80;
    assert n / 0x1000 == h / 0x40 && n / 0x4_0000 == g / 0x40;
  }

  /** Well-formed text is exactly what some characters are encoded to. */
  lemma ValidExactly(s: Bytes)
    ensures Valid(s) <==> exists text :: s == EncodeAll(text)
  {
    if Valid(s) {
      var text := DecodeAll(s);
    }
    if exists text :: s == EncodeAll(text) {
      var text :| s == EncodeAll(text);
      EncodedIsValid(text);
    }
  }

  lemma {:induction false} EncodedIsValid(text: seq<Scalar>)
    ensures Valid(EncodeAll(text))
  {
    if text != [] {
      var rest := EncodeAll(text[1..]);
      EncodedIsValid(text[1..]);
      EncodedStarts(text[0], rest);
      assert (Encode(text[0]) + rest)[|Encode(text[0])|..] == rest;
    }
  }

  lemma FirstCharacter(s: Bytes) returns (n: Scalar)
    requires s != [] && Valid(s)
    ensures |Encode(n)| <= |s| && s[..|Encode(n)|] == Encode(n) && Valid(s[|Encode(n)|..])
  {
    n := Completes(s, GoodPrefix(s));
    assert Encode(n)[..GoodPrefix(s)] == Encode(n);
  }

  lemma {:induction false} DecodeAll(s: Bytes) returns (text: seq<Scalar>)
    requires Valid(s)
    ensures s == EncodeAll(text)
    decreases |s|
  {
    hide Encode, Valid;
    if s == [] {
      text := [];
    } else {
      var n := FirstCharacter(s);
      var rest := DecodeAll(s[|Encode(n)|..]);
      text := [n] + rest;
      assert text[1..] == rest && s == s[..|Encode(n)|] + s[|Encode(n)|..];
    }
  }

  // ── Malformed text ─────────────────────────────────────────────────────────────

  /** Some character starts with these bytes. */
  ghost predicate Begins(t: Bytes) {
    exists n :: t <= Encode(n)
  }

  /** As far as `s` agrees with a character it is a good prefix. */
  lemma AgreesIsGood(s: Bytes, n: Scalar, k: nat)
    requires 1 <= k <= |s| && s[..k] <= Encode(n)
    ensures k <= GoodPrefix(s) && k <= LeadLength(s[0])
  {
    hide Encode, LeadLength, SecondByte, Continuation;
    EncodedBytes(n);
    assert forall i :: 0 <= i < k ==> s[i] == s[..k][i] == Encode(n)[i];
  }

  /** What cannot start a character is not continued to one. */
  lemma NotLonger(s: Bytes)
    requires s != [] && GoodPrefix(s) < |s|
    ensures GoodPrefix(s) < LeadLength(s[0]) || LeadLength(s[0]) == 0 ==> !Begins(s[..GoodPrefix(s) + 1])
  {
    var k := GoodPrefix(s) + 1;
    forall n ensures !(s[..k] <= Encode(n)) || k <= GoodPrefix(s) {
      if s[..k] <= Encode(n) {
        AgreesIsGood(s, n, k);
      }
    }
  }

  lemma StartIsCharacter(s: Bytes)
    requires s != []
    ensures StartsChar(s) ==> exists n :: Encode(n) <= s
  {
    if StartsChar(s) {
      var n := Completes(s, GoodPrefix(s));
      assert Encode(n) <= s;
    }
  }

  /**
   Lossy decoding of text that no character starts: the longest beginning of a character in front, or else
   one byte, becomes U+FFFD, and decoding goes on behind it.
   */
  lemma LossyReplaces(s: Bytes) returns (k: nat)
    requires s != [] && forall n :: !(Encode(n) <= s)
    ensures 1 <= k <= |s| && Lossy(s) == REPLACEMENT + Lossy(s[k..])
    ensures Begins(s[..k]) || k == 1
    ensures k < |s| && Begins(s[..k]) ==> !Begins(s[..k + 1])
  {
    var g := GoodPrefix(s);
    k := if g == 0 then 1 else g;
    StartIsCharacter(s);
    if g > 0 {
      var n := Completes(s, g);
      assert s[..g] <= Encode(n);
    }
    if g < |s| {
      NotLonger(s);
    }
  }

  /** Lossy decoding keeps whole characters in front. */
  lemma LossyKeeps(n: Scalar, s: Bytes)
    ensures Lossy(Encode(n) + s) == Encode(n) + Lossy(s)
  {
    EncodedStarts(n, s);
    assert (Encode(n) + s)[..|Encode(n)|] == Encode(n) && (Encode(n) + s)[|Encode(n)|..] == s;
  }
}
