/** Base64 with the standard alphabet and canonical padding (section 4 of RFC 4648). */
module Base64 {
  import opened Text

  type Sextet = n: nat | n < 64

  function Char(n: Sextet): (c: Byte)
    ensures c != '#' && c != '_' && c != '='
  {
    if n < 26 then (65 + n) as char
    else if n < 52 then (71 + n) as char
    else if n < 62 then (n - 4) as char
    else if n == 62 then '+'
    else '/'
  }

  function SextetOf(c: Byte): Option<Sextet> {
    if 'A' <= c <= 'Z' then Some(c as int - 65)
    else if 'a' <= c <= 'z' then Some(c as int - 71)
    else if '0' <= c <= '9' then Some(c as int + 4)
    else if c == '+' then Some(62)
    else if c == '/' then Some(63)
    else None
  }

  /** The alphabet is a bijection between sextets and its 64 characters. */
  lemma AlphabetBijective(n: Sextet, c: Byte)
    ensures SextetOf(Char(n)) == Some(n)
    ensures SextetOf(c) == Some(n) ==> Char(n) == c
  {
  }

  /** The four sextets of three bytes. */
  function Split(x: Byte, y: Byte, z: Byte): (q: (Sextet, Sextet, Sextet, Sextet)) {
    var (i, j, k) := (x as int, y as int, z as int);
    (i / 4, i % 4 * 16 + j / 16, j % 16 * 4 + k / 64, k % 64)
  }

  function First(p: Sextet, q: Sextet): Byte {
    (p * 4 + q / 16) as char
  }

  function Second(q: Sextet, r: Sextet): Byte {
    (q % 16 * 16 + r / 4) as char
  }

  function Third(r: Sextet, t: Sextet): Byte {
    (r % 4 * 64 + t) as char
  }

  lemma JoinSplit(x: Byte, y: Byte, z: Byte)
    ensures var (p, q, r, t) := Split(x, y, z); First(p, q) == x && Second(q, r) == y && Third(r, t) == z
  {
    var (i, j, k) := (x as int, y as int, z as int);
    var (p, q, r, t) := Split(x, y, z);
    assert q / 16 == i % 4 && q % 16 == j / 16;
    assert r / 4 == j % 16 && r % 4 == k / 64;
    assert p * 4 + q / 16 == i && q % 16 * 16 + r / 4 == j && r % 4 * 64 + t == k;
  }

  lemma SplitJoin(p: Sextet, q: Sextet, r: Sextet, t: Sextet)
    ensures Split(First(p, q), Second(q, r), Third(r, t)) == (p, q, r, t)
  {
    var (x, y, z) := (First(p, q), Second(q, r), Third(r, t));
    assert x as int % 4 == q / 16;
    assert y as int / 16 == q % 16 && y as int % 16 == r / 4;
    assert z as int / 64 == r % 4 && z as int % 64 == t;
  }

  /** A short last group is encoded as if zero bytes followed, then padded. */
  function Encode(b: Bytes): (s: Bytes)
    ensures |s| == 4 * ((|b| + 2) / 3)
    ensures forall i :: 0 <= i < |s| ==> s[i] != '#' && s[i] != '_'
  {
    if b == [] then []
    else if |b| == 1 then
      var (p, q, _, _) := Split(b[0], '\0', '\0');
      [Char(p), Char(q), '=', '=']
    else if |b| == 2 then
      var (p, q, r, _) := Split(b[0], b[1], '\0');
      [Char(p), Char(q), Char(r), '=']
    else
      var (p, q, r, t) := Split(b[0], b[1], b[2]);
      [Char(p), Char(q), Char(r), Char(t)] + Encode(b[3..])
  }

  /** Strict decoding: padding is required and the unused bits must be zero. */
  function Decode(s: Bytes): Option<Bytes> {
    if s == [] then Some([])
    else if |s| < 4 then None
    else match (SextetOf(s[0]), SextetOf(s[1]))
      case (Some(p), Some(q)) =>
        if |s| == 4 && s[3] == '=' then DecodeLast(p, q, s[2])
        else (match (SextetOf(s[2]), SextetOf(s[3]), Decode(s[4..]))
              case (Some(r), Some(t), Some(rest)) => Some([First(p, q), Second(q, r), Third(r, t)] + rest)
              case _ => None)
      case _ => None
  }

  /** A last group of two or three characters before the padding. */
  function DecodeLast(p: Sextet, q: Sextet, c: Byte): Option<Bytes> {
    if c == '=' then
      if q % 16 == 0 then Some([First(p, q)]) else None
    else match SextetOf(c)
      case Some(r) => if r % 4 == 0 then Some([First(p, q), Second(q, r)]) else None
      case None => None
  }

  /** Decoding undoes encoding. */
  lemma {:induction false} DecodeEncode(b: Bytes)
    ensures Decode(Encode(b)) == Some(b)
  {
    hide Decode, Char, Split, SextetOf;
    if b == [] {
      DecodeNothing();
    } else if |b| == 1 {
      DecodeOne(b[0]);
      assert b == [b[0]];
    } else if |b| == 2 {
      DecodeTwo(b[0], b[1]);
      assert b == [b[0], b[1]];
    } else {
      DecodeEncode(b[3..]);
      DecodeBlock(b[0], b[1], b[2], Encode(b[3..]), b[3..]);
      assert b == [b[0], b[1], b[2]] + b[3..];
    }
  }

  lemma DecodeNothing()
    ensures Decode([]) == Some([])
  {
  }

  /** A whole group in front of a text that decodes. */
  lemma DecodeBlock(x: Byte, y: Byte, z: Byte, s: Bytes, b: Bytes)
    requires Decode(s) == Some(b)
    ensures var (p, q, r, t) := Split(x, y, z);
            Decode([Char(p), Char(q), Char(r), Char(t)] + s) == Some([x, y, z] + b)
  {
    hide Char, SextetOf, Split;
    var (p, q, r, t) := Split(x, y, z);
    SplitChars(x, y, z);
    JoinSplit(x, y, z);
    var whole := [Char(p), Char(q), Char(r), Char(t)] + s;
    assert whole[4..] == s;
  }

  lemma DecodeTwo(x: Byte, y: Byte)
    ensures var (p, q, r, _) := Split(x, y, '\0'); Decode([Char(p), Char(q), Char(r), '=']) == Some([x, y])
  {
    SplitChars(x, y, '\0');
    JoinSplit(x, y, '\0');
  }

  lemma DecodeOne(x: Byte)
    ensures var (p, q, _, _) := Split(x, '\0', '\0'); Decode([Char(p), Char(q), '=', '=']) == Some([x])
  {
    SplitChars(x, '\0', '\0');
    JoinSplit(x, '\0', '\0');
  }

  /** The characters of a group stand for its sextets, and none is the padding. */
  lemma SplitChars(x: Byte, y: Byte, z: Byte)
    ensures var (p, q, r, t) := Split(x, y, z);
            && SextetOf(Char(p)) == Some(p) && SextetOf(Char(q)) == Some(q)
            && SextetOf(Char(r)) == Some(r) && SextetOf(Char(t)) == Some(t)
            && Char(r) != '=' && Char(t) != '='
  {
    var (p, q, r, t) := Split(x, y, z);
    AlphabetBijective(p, Char(p));
    AlphabetBijective(q, Char(q));
    AlphabetBijective(r, Char(r));
    AlphabetBijective(t, Char(t));
  }

  /** Decoding is strict: a text that decodes is the one the bytes encode to. */
  lemma {:induction false} EncodeDecode(s: Bytes)
    requires Decode(s).Some?
    ensures Encode(Decode(s).value) == s
  {
    if s != [] {
      var (p, q) := (SextetOf(s[0]).value, SextetOf(s[1]).value);
      AlphabetBijective(p, s[0]);
      AlphabetBijective(q, s[1]);
      if |s| == 4 && s[3] == '=' {
        EncodeDecodeLast(p, q, s[2]);
        assert s == [s[0], s[1], s[2], s[3]];
      } else {
        var (r, t) := (SextetOf(s[2]).value, SextetOf(s[3]).value);
        AlphabetBijective(r, s[2]);
        AlphabetBijective(t, s[3]);
        EncodeDecode(s[4..]);
        EncodeBlock(p, q, r, t, Decode(s[4..]).value);
        assert s == [s[0], s[1], s[2], s[3]] + s[4..];
      }
    }
  }

  /** A whole group in front of other bytes. */
  lemma EncodeBlock(p: Sextet, q: Sextet, r: Sextet, t: Sextet, b: Bytes)
    ensures Encode([First(p, q), Second(q, r), Third(r, t)] + b) == [Char(p), Char(q), Char(r), Char(t)] + Encode(b)
  {
    hide Char, First, Second, Third, Split;
    SplitJoin(p, q, r, t);
    var whole := [First(p, q), Second(q, r), Third(r, t)] + b;
    assert whole[3..] == b;
  }

  lemma EncodeDecodeLast(p: Sextet, q: Sextet, c: Byte)
    requires DecodeLast(p, q, c).Some?
    ensures Encode(DecodeLast(p, q, c).value) == [Char(p), Char(q), c, '=']
  {
    if c == '=' {
      SplitJoin(p, q, 0, 0);
    } else {
      var r := SextetOf(c).value;
      AlphabetBijective(r, c);
      SplitJoin(p, q, r, 0);
    }
  }

  /** Distinct byte strings have distinct encodings. */
  lemma EncodeInjective(a: Bytes, b: Bytes)
    requires Encode(a) == Encode(b)
    ensures a == b
  {
    DecodeEncode(a);
    DecodeEncode(b);
  }

  /** The test vectors of section 10 of RFC 4648. */
  lemma TestVectors()
    ensures Encode("f") == "Zg==" && Encode("fo") == "Zm8=" && Encode("foo") == "Zm9v"
    ensures Encode("foob") == "Zm9vYg==" && Encode("fooba") == "Zm9vYmE=" && Encode("foobar") == "Zm9vYmFy"
  {
    assert "foob"[3..] == "b" && "fooba"[3..] == "ba" && "foobar"[3..] == "bar" && "foo"[3..] == [];
  }
}
