/**
 Byte strings and the text operations the server applies to them.

 A byte is a `char` below 256, so that an ASCII literal such as "ACCEPT" is a byte string as it
 stands; a Rust `&str` is modelled by its UTF-8 bytes.
 */
module Text {

  type Byte = c: char | c as int < 256 witness '\0'

  type Bytes = seq<Byte>

  datatype Option<+T> = None | Some(value: T)

  datatype Result<+T, +E> = Ok(value: T) | Err(error: E)

  // ── Searching and splitting ────────────────────────────────────────────────────

  /** `pat` occurs in `s` at position `i`. */
  predicate At(s: Bytes, pat: Bytes, i: int) {
    0 <= i && i + |pat| <= |s| && s[i..i + |pat|] == pat
  }

  /** The first position at or after `i` where `pat` occurs, if any. */
  function Find(s: Bytes, pat: Bytes, i: nat): (r: Option<nat>)
    requires i <= |s|
    ensures r.Some? ==> i <= r.value && At(s, pat, r.value)
    ensures r.Some? ==> forall j :: i <= j < r.value ==> !At(s, pat, j)
    ensures r.None? ==> forall j :: i <= j <= |s| ==> !At(s, pat, j)
    decreases |s| - i
  {
    if At(s, pat, i) then Some(i)
    else if i == |s| then None
    else Find(s, pat, i + 1)
  }

  /** Rust's `split_once`: the text before and after the first occurrence of `pat`. */
  function SplitOnce(s: Bytes, pat: Bytes): (r: Option<(Bytes, Bytes)>)
    ensures r.Some? ==> r.value.0 + pat + r.value.1 == s
    ensures r.None? ==> forall j :: 0 <= j <= |s| ==> !At(s, pat, j)
  {
    match Find(s, pat, 0)
    case None => None
    case Some(i) =>
      assert s == s[..i] + s[i..i + |pat|] + s[i + |pat|..];
      Some((s[..i], s[i + |pat|..]))
  }

  /** If the first occurrence of `pat` in `s` is at `i`, `SplitOnce` splits there. */
  lemma SplitOnceAt(s: Bytes, pat: Bytes, i: nat)
    requires At(s, pat, i)
    requires forall j :: 0 <= j < i ==> !At(s, pat, j)
    ensures SplitOnce(s, pat) == Some((s[..i], s[i + |pat|..]))
  {
    var r := Find(s, pat, 0);
    assert r.Some?;
    assert r.value == i;
  }

  /** Rust's `splitn(3, sep)`: at most three fields, the last one taking the rest. */
  function SplitN(s: Bytes, n: nat, sep: Byte): (r: seq<Bytes>)
    requires n >= 1
    ensures 1 <= |r| <= n
    decreases n
  {
    if n == 1 then [s] else
    match SplitOnce(s, [sep])
    case None => [s]
    case Some(p) => [p.0] + SplitN(p.1, n - 1, sep)
  }

  /** A field without the separator is split off first. */
  lemma SplitNCons(head: Bytes, tail: Bytes, n: nat, sep: Byte)
    requires n >= 2
    requires sep !in head
    ensures SplitN(head + [sep] + tail, n, sep) == [head] + SplitN(tail, n - 1, sep)
  {
    var s := head + [sep] + tail;
    assert At(s, [sep], |head|) by { assert s[|head|..|head| + 1] == [sep]; }
    forall j | 0 <= j < |head| ensures !At(s, [sep], j) {
      assert s[j] == head[j];
    }
    SplitOnceAt(s, [sep], |head|);
    assert s[..|head|] == head;
    assert s[|head| + 1..] == tail;
  }

  // ── Searching a list ───────────────────────────────────────────────────────────

  /** Rust's `iter().find(p)`. */
  function First<T>(s: seq<T>, p: T -> bool): (r: Option<T>)
    ensures r.Some? ==> exists i :: 0 <= i < |s| && r.value == s[i] && p(s[i]) && forall j :: 0 <= j < i ==> !p(s[j])
    ensures r.None? ==> forall x :: x in s ==> !p(x)
  {
    if s == [] then None
    else if p(s[0]) then
      assert s[0] in s;
      Some(s[0])
    else
      var r := First(s[1..], p);
      assert r.Some? ==> forall i :: 0 <= i < |s| - 1 ==> s[1..][i] == s[i + 1];
      r
  }

  /** When all matching elements are the same, the order of the list does not matter. */
  lemma FirstUnordered<T>(s: seq<T>, t: seq<T>, p: T -> bool)
    requires multiset(s) == multiset(t)
    requires forall x, y :: x in s && y in s && p(x) && p(y) ==> x == y
    ensures First(s, p) == First(t, p)
  {
    assert forall x :: x in s <==> x in multiset(s);
    assert forall x :: x in t <==> x in multiset(t);
  }

  // ── Trimming (ASCII white space) ───────────────────────────────────────────────

  predicate IsSpace(c: Byte) {
    c == ' ' || '\t' <= c <= '\r'
  }

  function TrimStart(s: Bytes): (r: Bytes)
    ensures |r| <= |s| && r == s[|s| - |r|..]
    ensures r != [] ==> !IsSpace(r[0])
  {
    if s != [] && IsSpace(s[0]) then TrimStart(s[1..]) else s
  }

  function TrimEnd(s: Bytes): (r: Bytes)
    ensures |r| <= |s| && r == s[..|r|]
    ensures r != [] ==> !IsSpace(r[|r| - 1])
  {
    if s != [] && IsSpace(s[|s| - 1]) then TrimEnd(s[..|s| - 1]) else s
  }

  /** Rust's `trim`, on ASCII white space. */
  function Trim(s: Bytes): Bytes {
    TrimEnd(TrimStart(s))
  }

  predicate Blank(s: Bytes) {
    forall i :: 0 <= i < |s| ==> IsSpace(s[i])
  }

  /** No white space at either end. */
  predicate Tight(s: Bytes) {
    s != [] ==> !IsSpace(s[0]) && !IsSpace(s[|s| - 1])
  }

  /** The text `t` with white space around it. */
  ghost predicate Around(s: Bytes, t: Bytes) {
    exists a: Bytes, b: Bytes :: Blank(a) && Blank(b) && s == a + t + b
  }

  lemma {:induction false} TrimStartBlank(s: Bytes)
    ensures Blank(s[..|s| - |TrimStart(s)|])
  {
    if s != [] && IsSpace(s[0]) {
      TrimStartBlank(s[1..]);
      var k := |s| - |TrimStart(s)|;
      assert s[..k] == [s[0]] + s[1..][..k - 1];
    }
  }

  lemma {:induction false} TrimEndBlank(s: Bytes)
    ensures Blank(s[|TrimEnd(s)|..])
  {
    if s != [] && IsSpace(s[|s| - 1]) {
      var n := |s| - 1;
      TrimEndBlank(s[..n]);
      assert s[|TrimEnd(s)|..] == s[..n][|TrimEnd(s[..n])|..] + [s[n]];
    }
  }

  lemma {:induction false} TrimStartSkips(a: Bytes, s: Bytes)
    requires Blank(a)
    ensures TrimStart(a + s) == TrimStart(s)
  {
    if a == [] {
      assert a + s == s;
    } else {
      assert (a + s)[1..] == a[1..] + s && (a + s)[0] == a[0];
      TrimStartSkips(a[1..], s);
    }
  }

  lemma {:induction false} TrimEndSkips(s: Bytes, b: Bytes)
    requires Blank(b)
    ensures TrimEnd(s + b) == TrimEnd(s)
  {
    if b == [] {
      assert s + b == s;
    } else {
      var n := |b| - 1;
      assert (s + b)[..|s + b| - 1] == s + b[..n] && (s + b)[|s + b| - 1] == b[n];
      TrimEndSkips(s, b[..n]);
    }
  }

  /** What trimming takes away is white space, and all of it at both ends. */
  lemma TrimLeaves(s: Bytes)
    ensures Tight(Trim(s)) && Around(s, Trim(s))
  {
    var u := TrimStart(s);
    TrimStartBlank(s);
    TrimEndBlank(u);
    assert s == s[..|s| - |u|] + Trim(s) + u[|Trim(s)|..] by { ThreeParts(s, u, Trim(s)); }
    assert Trim(s) != [] ==> Trim(s)[0] == u[0];
  }

  lemma ThreeParts(s: Bytes, u: Bytes, t: Bytes)
    requires |t| <= |u| <= |s| && u == s[|s| - |u|..] && t == u[..|t|]
    ensures s == s[..|s| - |u|] + t + u[|t|..]
  {
  }

  lemma TrimOfAround(a: Bytes, t: Bytes, b: Bytes)
    requires Blank(a) && Blank(b) && Tight(t)
    ensures Trim(a + t + b) == t
  {
    assert a + t + b == a + (t + b);
    TrimStartSkips(a, t + b);
    if t == [] {
      assert t + b == b && b + [] == b;
      TrimStartSkips(b, []);
    } else {
      assert TrimStart(t + b) == t + b;
      TrimEndSkips(t, b);
    }
  }

  /** Trimming removes exactly the white space at both ends. */
  lemma TrimExactly(s: Bytes, t: Bytes)
    ensures Trim(s) == t <==> Tight(t) && Around(s, t)
  {
    hide Trim, Blank, Tight;
    TrimLeaves(s);
    if Tight(t) && Around(s, t) {
      var a: Bytes, b: Bytes :| Blank(a) && Blank(b) && s == a + t + b;
      TrimOfAround(a, t, b);
    }
  }

  lemma TrimTight(t: Bytes)
    requires Tight(t)
    ensures Trim(t) == t
  {
    TrimOfAround([], t, []);
    assert [] + t + [] == t;
  }

  function StripSuffix(s: Bytes, c: Byte): Bytes {
    if s != [] && s[|s| - 1] == c then s[..|s| - 1] else s
  }

  /** Rust's `trim_end_matches(c)`. */
  function TrimEndMatches(s: Bytes, c: Byte): Bytes {
    if s != [] && s[|s| - 1] == c then TrimEndMatches(s[..|s| - 1], c) else s
  }

  predicate StartsWith(s: Bytes, prefix: Bytes) {
    prefix <= s
  }

  // ── Decimal numbers ────────────────────────────────────────────────────────────

  predicate IsDigit(c: Byte) {
    '0' <= c <= '9'
  }

  predicate AllDigits(s: Bytes) {
    forall i :: 0 <= i < |s| ==> IsDigit(s[i])
  }

  function DigitChar(d: nat): (c: Byte)
    requires d < 10
    ensures IsDigit(c) && c as int == 48 + d
  {
    (48 + d) as char
  }

  /** Decimal text of a natural number, without leading zeros. */
  function Digits(n: nat): (s: Bytes)
    ensures s != [] && AllDigits(s)
  {
    if n < 10 then [DigitChar(n)] else Digits(n / 10) + [DigitChar(n % 10)]
  }

  /** The number a digit string stands for. */
  function Value(s: Bytes): nat
    requires AllDigits(s)
  {
    if s == [] then 0 else 10 * Value(s[..|s| - 1]) + (s[|s| - 1] as int - 48)
  }

  lemma {:induction false} ValueOfDigits(n: nat)
    ensures Value(Digits(n)) == n
  {
    if n >= 10 {
      ValueOfDigits(n / 10);
      var s := Digits(n);
      assert s[..|s| - 1] == Digits(n / 10);
    }
  }

  /** Distinct numbers have distinct decimal texts. */
  lemma DigitsInjective(m: nat, n: nat)
    requires Digits(m) == Digits(n)
    ensures m == n
  {
    ValueOfDigits(m);
    ValueOfDigits(n);
  }

  /** Rust's `parse` for an unsigned type with maximum `max`: a leading `+` is accepted. */
  function ParseUnsigned(s: Bytes, max: nat): (r: Option<nat>)
    ensures r.Some? ==> r.value <= max
  {
    var body := if s != [] && s[0] == '+' then s[1..] else s;
    if body == [] || !AllDigits(body) || Value(body) > max then None else Some(Value(body))
  }

  /** A decimal numeral, with or without a leading `+`, and the number it stands for. */
  ghost predicate Numeral(s: Bytes, n: nat) {
    exists d: Bytes :: d != [] && AllDigits(d) && Value(d) == n && (s == d || s == "+" + d)
  }

  /** Exactly the numerals up to `max` are accepted, with their numbers. */
  lemma ParsesNumerals(s: Bytes, max: nat, n: nat)
    ensures ParseUnsigned(s, max) == Some(n) <==> Numeral(s, n) && n <= max
  {
    if ParseUnsigned(s, max) == Some(n) {
      var d := if s[0] == '+' then s[1..] else s;
      assert s == d || s == "+" + d;
    }
    if Numeral(s, n) && n <= max {
      var d: Bytes :| d != [] && AllDigits(d) && Value(d) == n && (s == d || s == "+" + d);
      assert IsDigit(d[0]);
      if s != d {
        assert s[1..] == d;
      }
    }
  }

  const I64_MIN: int := -0x8000_0000_0000_0000
  const I64_MAX: int := 0x7FFF_FFFF_FFFF_FFFF

  function SignedValue(negative: bool, n: int): int {
    if negative then -n else n
  }

  /** Rust's `parse::<i64>`. */
  function ParseI64(s: Bytes): (r: Option<int>)
    ensures r.Some? ==> I64_MIN <= r.value <= I64_MAX
  {
    var negative := s != [] && s[0] == '-';
    var body := if s != [] && (s[0] == '+' || s[0] == '-') then s[1..] else s;
    if body == [] || !AllDigits(body) then None else
    var v := SignedValue(negative, Value(body));
    if I64_MIN <= v <= I64_MAX then Some(v) else None
  }

  /** A decimal numeral behind a minus sign, or one without it. */
  ghost predicate SignedNumeral(s: Bytes, v: int) {
    || (v >= 0 && Numeral(s, v))
    || exists d: Bytes :: d != [] && AllDigits(d) && Value(d) == -v && s == "-" + d
  }

  /** Exactly the signed numerals in the range of an `i64` are accepted. */
  lemma ParsesSigned(s: Bytes, v: int)
    ensures ParseI64(s) == Some(v) <==> SignedNumeral(s, v) && I64_MIN <= v <= I64_MAX
  {
    if ParseI64(s) == Some(v) {
      var d := if s[0] == '+' || s[0] == '-' then s[1..] else s;
      assert s == d || s == "+" + d || s == "-" + d;
    }
    if SignedNumeral(s, v) && I64_MIN <= v <= I64_MAX {
      if exists d: Bytes :: d != [] && AllDigits(d) && Value(d) == -v && s == "-" + d {
        var d: Bytes :| d != [] && AllDigits(d) && Value(d) == -v && s == "-" + d;
        assert s[1..] == d;
      } else {
        ParsesNumerals(s, v, v);
        assert s[0] == '+' || IsDigit(s[0]);
      }
    }
  }

  /** Rust's `to_string` for a signed integer. */
  function PrintInt(v: int): (s: Bytes)
    ensures s != []
    ensures forall i :: 0 <= i < |s| ==> IsDigit(s[i]) || (i == 0 && s[i] == '-')
  {
    if v < 0 then "-" + Digits(-v) else Digits(v)
  }

  /** Parsing undoes printing, for every `i64`. */
  lemma ParsePrintInt(v: int)
    requires I64_MIN <= v <= I64_MAX
    ensures ParseI64(PrintInt(v)) == Some(v)
  {
    var s := PrintInt(v);
    if v < 0 {
      ValueOfDigits(-v);
      assert s[1..] == Digits(-v);
    } else {
      ValueOfDigits(v);
    }
  }
}
