/** The text form of a UUID (section 3 of RFC 4122). */
module Uuid {
  import opened Text

  predicate IsHexDigit(c: Byte) {
    '0' <= c <= '9' || 'a' <= c <= 'f' || 'A' <= c <= 'F'
  }

  predicate AllHex(s: Bytes) {
    forall i :: 0 <= i < |s| ==> IsHexDigit(s[i])
  }

  function HexValue(c: Byte): (v: nat)
    requires IsHexDigit(c)
    ensures v < 16
  {
    if c <= '9' then c as int - 48 else if c >= 'a' then c as int - 87 else c as int - 55
  }

  function HexChar(v: nat): (c: Byte)
    requires v < 16
    ensures IsHexDigit(c) && HexValue(c) == v && c != '-'
  {
    if v < 10 then (48 + v) as char else (87 + v) as char
  }

  function Lower(c: Byte): Byte {
    if 'A' <= c <= 'Z' then (c as int + 32) as char else c
  }

  function LowerText(s: Bytes): (r: Bytes)
    ensures |r| == |s|
  {
    seq(|s|, i requires 0 <= i < |s| => Lower(s[i]))
  }

  function Dashed(h: Bytes): Bytes
    requires |h| == 32
  {
    h[..8] + "-" + h[8..12] + "-" + h[12..16] + "-" + h[16..20] + "-" + h[20..]
  }

  function Undashed(s: Bytes): (h: Bytes)
    requires |s| == 36
    ensures |h| == 32
  {
    s[..8] + s[9..13] + s[14..18] + s[19..23] + s[24..]
  }

  predicate DashesInPlace(s: Bytes) {
    |s| == 36 && s[8] == '-' && s[13] == '-' && s[18] == '-' && s[23] == '-'
  }

  /** `8-4-4-4-12` hexadecimal digits. */
  predicate IsUuid(s: Bytes) {
    DashesInPlace(s) && AllHex(Undashed(s))
  }

  function HexPair(h: Bytes, i: nat): Byte
    requires AllHex(h) && 2 * i + 1 < |h|
  {
    (16 * HexValue(h[2 * i]) + HexValue(h[2 * i + 1])) as char
  }

  function Unhex(h: Bytes): (b: Bytes)
    requires AllHex(h)
    ensures |b| == |h| / 2
  {
    seq(|h| / 2, i requires 0 <= i < |h| / 2 => HexPair(h, i))
  }

  /** The 16 bytes a UUID text stands for. */
  function Parse(s: Bytes): (r: Option<Bytes>)
    ensures r.Some? ==> |r.value| == 16
  {
    if IsUuid(s) then Some(Unhex(Undashed(s))) else None
  }

  function Hex(b: Bytes): (h: Bytes)
    ensures |h| == 2 * |b| && AllHex(h)
  {
    seq(2 * |b|, i requires 0 <= i < 2 * |b| =>
      HexChar(if i % 2 == 0 then b[i / 2] as int / 16 else b[i / 2] as int % 16))
  }

  /** The canonical, lower-case text of a UUID. */
  function Print(b: Bytes): Bytes
    requires |b| == 16
  {
    Dashed(Hex(b))
  }

  lemma DashedUndashed(s: Bytes, h: Bytes)
    requires |h| == 32
    ensures Undashed(Dashed(h)) == h && DashesInPlace(Dashed(h))
    ensures DashesInPlace(s) ==> Dashed(Undashed(s)) == s
  {
    var d := Dashed(h);
    assert d[..8] == h[..8] && d[9..13] == h[8..12] && d[14..18] == h[12..16] && d[19..23] == h[16..20];
    assert d[24..] == h[20..];
    assert h == h[..8] + h[8..12] + h[12..16] + h[16..20] + h[20..];
    if DashesInPlace(s) {
      var u := Undashed(s);
      assert u[..8] == s[..8] && u[8..12] == s[9..13] && u[12..16] == s[14..18] && u[16..20] == s[19..23];
      assert u[20..] == s[24..];
    }
  }

  lemma UnhexHex(b: Bytes)
    ensures Unhex(Hex(b)) == b
  {
    forall i | 0 <= i < |b| ensures Unhex(Hex(b))[i] == b[i] {
      assert Hex(b)[2 * i] == HexChar(b[i] as int / 16);
      assert (2 * i + 1) / 2 == i && (2 * i + 1) % 2 == 1;
      assert Hex(b)[2 * i + 1] == HexChar(b[i] as int % 16);
    }
  }

  lemma HexUnhex(h: Bytes)
    requires AllHex(h) && |h| % 2 == 0
    ensures Hex(Unhex(h)) == LowerText(h)
  {
    forall i | 0 <= i < |h| ensures Hex(Unhex(h))[i] == Lower(h[i]) {
      HexPairDigits(h, i / 2);
      HexCharLower(h[i]);
    }
  }

  lemma HexPairDigits(h: Bytes, j: nat)
    requires AllHex(h) && 2 * j + 1 < |h|
    ensures HexPair(h, j) as int / 16 == HexValue(h[2 * j])
    ensures HexPair(h, j) as int % 16 == HexValue(h[2 * j + 1])
  {
  }

  lemma HexCharLower(c: Byte)
    requires IsHexDigit(c)
    ensures HexChar(HexValue(c)) == Lower(c)
  {
  }

  /** Parsing undoes printing. */
  lemma ParsePrint(b: Bytes)
    requires |b| == 16
    ensures Parse(Print(b)) == Some(b)
  {
    DashedUndashed(Print(b), Hex(b));
    UnhexHex(b);
  }

  /** Printing undoes parsing, up to letter case. */
  lemma PrintParse(s: Bytes)
    requires IsUuid(s)
    ensures Print(Parse(s).value) == LowerText(s)
  {
    var u := Undashed(s);
    HexUnhex(u);
    DashedUndashed(s, u);
    assert Dashed(LowerText(u)) == LowerText(Dashed(u));
  }

  /** Two texts parse to the same UUID exactly when they differ in letter case only. */
  lemma ParseInjective(s: Bytes, t: Bytes)
    requires IsUuid(s) && IsUuid(t)
    ensures Parse(s) == Parse(t) <==> LowerText(s) == LowerText(t)
  {
    PrintParse(s);
    PrintParse(t);
    if LowerText(s) == LowerText(t) {
      var (u, v) := (Unhex(Undashed(s)), Unhex(Undashed(t)));
      UnhexHex(u);
      UnhexHex(v);
      DashedUndashed(s, Hex(u));
      DashedUndashed(t, Hex(v));
    }
  }

  // ── The parser as written ──────────────────────────────────────────────────────

  /** `filter(|c| c != '-')`. */
  function WithoutDashes(s: Bytes): (r: Bytes)
    ensures |r| <= |s|
    ensures |r| == |s| ==> r == s
    ensures (forall i :: 0 <= i < |s| ==> s[i] != '-') ==> r == s
  {
    if s == [] then [] else (if s[0] == '-' then [] else [s[0]]) + WithoutDashes(s[1..])
  }

  lemma {:induction false} WithoutDashesConcat(a: Bytes, b: Bytes)
    ensures WithoutDashes(a + b) == WithoutDashes(a) + WithoutDashes(b)
  {
    if a == [] {
      assert a + b == b;
    } else {
      assert (a + b)[1..] == a[1..] + b;
      WithoutDashesConcat(a[1..], b);
    }
  }

  /** Dropping the dashes drops the four at their places, and any other. */
  lemma WithoutDashesUndashed(s: Bytes)
    requires DashesInPlace(s)
    ensures WithoutDashes(s) == WithoutDashes(Undashed(s))
  {
    hide WithoutDashes;
    var (a, b, c, d, e) := (s[..8], s[9..13], s[14..18], s[19..23], s[24..]);
    assert s == a + ("-" + (b + ("-" + (c + ("-" + (d + ("-" + e)))))));
    assert Undashed(s) == a + (b + (c + (d + e)));
    WithoutDashesDashFirst(d, e);
    WithoutDashesDashFirst(c, d + ("-" + e));
    WithoutDashesDashFirst(b, c + ("-" + (d + ("-" + e))));
    WithoutDashesDashFirst(a, b + ("-" + (c + ("-" + (d + ("-" + e))))));
    WithoutDashesConcat(a, b + (c + (d + e)));
    WithoutDashesConcat(b, c + (d + e));
    WithoutDashesConcat(c, d + e);
    WithoutDashesConcat(d, e);
  }

  lemma WithoutDashesDashFirst(a: Bytes, b: Bytes)
    ensures WithoutDashes(a + ("-" + b)) == WithoutDashes(a) + WithoutDashes(b)
  {
    WithoutDashesConcat(a, "-" + b);
    assert ("-" + b)[1..] == b;
  }

  /** `parse_uuid`: accepts exactly the canonical form and returns its 16 bytes. */
  method ParseUuid(s: Bytes) returns (r: Option<Bytes>)
    ensures r.Some? <==> IsUuid(s)
    ensures r == Parse(s)
  {
    if |s| != 36 || s[8] != '-' || s[13] != '-' || s[18] != '-' || s[23] != '-' {
      return None;
    }
    var hex := WithoutDashes(s);
    WithoutDashesUndashed(s);
    if |hex| != 32 || !AllHex(hex) {
      return None;
    }
    var out := new Byte[16](_ => '\0');
    for i := 0 to 16
      invariant out[..i] == Unhex(hex)[..i]
    {
      out[i] := HexPair(hex, i);
    }
    assert out[..] == out[..16] && Unhex(hex)[..16] == Unhex(hex);
    return Some(out[..]);
  }
}
