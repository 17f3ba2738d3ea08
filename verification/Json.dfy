/** The JSON text of log events: the builder, and a parser that undoes it. */
module Json {
  import opened Text
  import Uuid

  datatype Scalar = Str(text: string) | Int(number: int) | Bool(truth: bool)

  datatype Field = Field(key: string, value: Scalar)

  // ── The text of an object ──────────────────────────────────────────────────────

  /** How one character is written in a string. */
  function EscapeChar(c: char): string {
    if c == '"' then "\\\""
    else if c == '\\' then "\\\\"
    else if c == '\n' then "\\n"
    else if c == '\r' then "\\r"
    else if c == '\t' then "\\t"
    else if c < ' ' then "\\u00" + [Uuid.HexChar(c as int / 16), Uuid.HexChar(c as int % 16)]
    else [c]
  }

  function Escaped(s: string): string {
    if s == "" then "" else EscapeChar(s[0]) + Escaped(s[1..])
  }

  function Quoted(s: string): string {
    "\"" + Escaped(s) + "\""
  }

  function ValueText(v: Scalar): string {
    match v
    case Str(text) => Quoted(text)
    case Int(number) => PrintInt(number)
    case Bool(truth) => if truth then "true" else "false"
  }

  function Member(f: Field): string {
    Quoted(f.key) + ":" + ValueText(f.value)
  }

  /** What separates the next field from the ones before it. */
  function Comma(fields: seq<Field>): string {
    if fields == [] then "" else ","
  }

  /** An object that is not closed yet. */
  function Open(fields: seq<Field>): string {
    if fields == [] then "{" else
    var f := fields[|fields| - 1];
    Open(fields[..|fields| - 1]) + Comma(fields[..|fields| - 1]) + Quoted(f.key) + ":" + ValueText(f.value)
  }

  // ── The builder ────────────────────────────────────────────────────────────────

  lemma {:induction false} EscapedSnoc(s: string, c: char)
    ensures Escaped(s + [c]) == Escaped(s) + EscapeChar(c)
  {
    if s == "" {
      assert s + [c] == [c] && [c][1..] == "";
    } else {
      assert (s + [c])[0] == s[0] && (s + [c])[1..] == s[1..] + [c];
      EscapedSnoc(s[1..], c);
    }
  }

  lemma EscapedNext(before: string, s: string, i: nat)
    requires i < |s|
    ensures before + Escaped(s[..i]) + EscapeChar(s[i]) == before + Escaped(s[..i + 1])
  {
    EscapedSnoc(s[..i], s[i]);
    assert s[..i + 1] == s[..i] + [s[i]];
  }

  /** The test for the first field is sound: only an object without fields ends in a brace. */
  lemma EndsInBrace(fields: seq<Field>)
    ensures Open(fields) != "" && (Open(fields)[|Open(fields)| - 1] == '{' <==> fields == [])
  {
    if fields != [] {
      var f := fields[|fields| - 1];
      ValueEnd(f.value);
      var text := Open(fields);
      assert text[|text| - 1] == ValueText(f.value)[|ValueText(f.value)| - 1];
    }
  }

  lemma ValueEnd(v: Scalar)
    ensures ValueText(v) != "" && ValueText(v)[|ValueText(v)| - 1] != '{'
  {
    match v
    case Str(_) =>
    case Int(number) => assert forall i :: 0 <= i < |PrintInt(number)| ==> PrintInt(number)[i] != '{';
    case Bool(_) =>
  }

  class Builder {
    var buffer: string
    /** The fields added so far. */
    ghost var fields: seq<Field>

    ghost predicate Valid()
      reads this
    {
      buffer == Open(fields)
    }

    constructor ()
      ensures Valid() && fields == []
    {
      buffer, fields := "{", [];
    }

    /** `json_escape`. */
    method Escape(s: string)
      modifies this`buffer
      ensures buffer == old(buffer) + Escaped(s)
    {
      for i := 0 to |s|
        invariant buffer == old(buffer) + Escaped(s[..i])
      {
        EscapedNext(old(buffer), s, i);
        EscapeOne(s[i]);
      }
      assert s[..|s|] == s;
    }

    /** The cases of the loop in `json_escape`. */
    method EscapeOne(c: char)
      modifies this`buffer
      ensures buffer == old(buffer) + EscapeChar(c)
    {
      if c == '"' {
        buffer := buffer + "\\\"";
      } else if c == '\\' {
        buffer := buffer + "\\\\";
      } else if c == '\n' {
        buffer := buffer + "\\n";
      } else if c == '\r' {
        buffer := buffer + "\\r";
      } else if c == '\t' {
        buffer := buffer + "\\t";
      } else if c < ' ' {
        buffer := buffer + ("\\u00" + [Uuid.HexChar(c as int / 16), Uuid.HexChar(c as int % 16)]);
      } else {
        buffer := buffer + [c];
      }
    }

    /** A comma, unless the buffer ends in a brace. */
    method Sep()
      requires Valid()
      modifies this`buffer
      ensures buffer == old(buffer) + Comma(fields)
    {
      EndsInBrace(fields);
      assert buffer + "" == buffer;
      if !(buffer != "" && buffer[|buffer| - 1] == '{') {
        buffer := buffer + ",";
      }
    }

    method Key(k: string)
      modifies this`buffer
      ensures buffer == old(buffer) + Quoted(k) + ":"
    {
      buffer := buffer + "\"";
      Escape(k);
      buffer := buffer + "\":";
      QuotedThenColon(old(buffer), k);
    }

    method AddStr(k: string, v: string)
      requires Valid()
      modifies this
      ensures Valid() && fields == old(fields) + [Field(k, Str(v))]
    {
      Sep();
      Key(k);
      ghost var before := buffer;
      buffer := buffer + "\"";
      Escape(v);
      buffer := buffer + "\"";
      QuotedAfter(before, v);
      fields := fields + [Field(k, Str(v))];
      OpenSnoc(old(fields), Field(k, Str(v)));
    }

    method AddInt(k: string, v: int)
      requires Valid()
      modifies this
      ensures Valid() && fields == old(fields) + [Field(k, Int(v))]
    {
      Sep();
      Key(k);
      buffer := buffer + PrintInt(v);
      fields := fields + [Field(k, Int(v))];
      OpenSnoc(old(fields), Field(k, Int(v)));
    }

    method AddBool(k: string, v: bool)
      requires Valid()
      modifies this
      ensures Valid() && fields == old(fields) + [Field(k, Bool(v))]
    {
      Sep();
      Key(k);
      buffer := buffer + if v then "true" else "false";
      fields := fields + [Field(k, Bool(v))];
      OpenSnoc(old(fields), Field(k, Bool(v)));
    }

    /** The finished object parses back to exactly the fields that were added, in their order. */
    method Finish() returns (text: string)
      requires Valid()
      ensures ParseObject(text) == Some(fields)
    {
      text := buffer + "}";
      ParseOpened(fields);
    }
  }

  lemma QuotedAfter(before: string, s: string)
    ensures before + "\"" + Escaped(s) + "\"" == before + Quoted(s)
  {
  }

  lemma QuotedThenColon(before: string, s: string)
    ensures before + "\"" + Escaped(s) + "\":" == before + Quoted(s) + ":"
  {
    assert "\":" == "\"" + ":";
  }

  lemma OpenSnoc(fields: seq<Field>, f: Field)
    ensures Open(fields + [f]) == Open(fields) + Comma(fields) + Quoted(f.key) + ":" + ValueText(f.value)
  {
    assert (fields + [f])[..|fields|] == fields;
  }

  // ── A parser ───────────────────────────────────────────────────────────────────

  /** What was parsed, and the text behind it. */
  datatype Parsed<T> = Parsed(value: T, rest: string) | Bad

  /** Insignificant white space (section 2 of RFC 8259). */
  function SkipSpace(s: string): (r: string)
    ensures |r| <= |s|
  {
    if s != "" && (s[0] == ' ' || s[0] == '\t' || s[0] == '\n' || s[0] == '\r') then SkipSpace(s[1..]) else s
  }

  function HexDigit(c: char): Option<nat> {
    if '0' <= c <= '9' then Some(c as int - 48)
    else if 'a' <= c <= 'f' then Some(c as int - 87)
    else if 'A' <= c <= 'F' then Some(c as int - 55)
    else None
  }

  /** Four hexadecimal digits; the halves of a surrogate pair are not characters. */
  function ParseHex(s: string): (r: Parsed<char>)
    ensures r.Parsed? ==> |r.rest| < |s|
  {
    if |s| < 4 then Bad else
    match (HexDigit(s[0]), HexDigit(s[1]), HexDigit(s[2]), HexDigit(s[3]))
    case (Some(a), Some(b), Some(c), Some(d)) =>
      var code := CodePoint(a, b, c, d);
      if 0 <= code < 0xD800 || 0xE000 <= code < 0x10000 then Parsed(code as char, s[4..]) else Bad
    case _ => Bad
  }

  function CodePoint(a: nat, b: nat, c: nat, d: nat): nat {
    a * 0x1000 + b * 0x100 + c * 0x10 + d
  }

  /** The character that follows a backslash (section 7 of RFC 8259). */
  function ParseEscape(s: string): (r: Parsed<char>)
    ensures r.Parsed? ==> |r.rest| < |s|
  {
    if s == "" then Bad
    else if s[0] == '"' || s[0] == '\\' || s[0] == '/' then Parsed(s[0], s[1..])
    else if s[0] == 'b' then Parsed(8 as char, s[1..])
    else if s[0] == 'f' then Parsed(12 as char, s[1..])
    else if s[0] == 'n' then Parsed('\n', s[1..])
    else if s[0] == 'r' then Parsed('\r', s[1..])
    else if s[0] == 't' then Parsed('\t', s[1..])
    else if s[0] == 'u' then ParseHex(s[1..])
    else Bad
  }

  /** One character of a string. */
  function ParseChar(s: string): (r: Parsed<char>)
    ensures r.Parsed? ==> |r.rest| < |s|
  {
    if s == "" || s[0] == '"' || s[0] < ' ' then Bad
    else if s[0] == '\\' then ParseEscape(s[1..])
    else Parsed(s[0], s[1..])
  }

  /** The characters of a string up to the closing quote. */
  function ParseChars(s: string): (r: Parsed<string>)
    ensures r.Parsed? ==> |r.rest| < |s|
    decreases |s|
  {
    if s != "" && s[0] == '"' then Parsed("", s[1..])
    else match ParseChar(s)
      case Bad => Bad
      case Parsed(c, rest) =>
        match ParseChars(rest)
        case Bad => Bad
        case Parsed(text, after) => Parsed([c] + text, after)
  }

  function ParseString(s: string): (r: Parsed<string>)
    ensures r.Parsed? ==> |r.rest| < |s|
  {
    if s != "" && s[0] == '"' then ParseChars(s[1..]) else Bad
  }

  /** How many digits the text starts with. */
  function DigitRun(s: string): (n: nat)
    ensures n <= |s| && forall i :: 0 <= i < n ==> '0' <= s[i] <= '9'
  {
    if s != "" && '0' <= s[0] <= '9' then 1 + DigitRun(s[1..]) else 0
  }

  /** The integer part of a number: no leading zeros (section 6 of RFC 8259). */
  function ParseNumber(s: string): (r: Parsed<int>)
    ensures r.Parsed? ==> |r.rest| < |s|
  {
    var sign := if s != "" && s[0] == '-' then 1 else 0;
    var n := DigitRun(s[sign..]);
    if n == 0 || (n > 1 && s[sign] == '0') then Bad else
    var v: int := Value(s[sign..][..n]);
    Parsed(if sign == 1 then -v else v, s[sign + n..])
  }

  function ParseValue(s: string): (r: Parsed<Scalar>)
    ensures r.Parsed? ==> |r.rest| < |s|
  {
    if s != "" && s[0] == '"' then
      match ParseString(s)
      case Bad => Bad
      case Parsed(text, rest) => Parsed(Str(text), rest)
    else if "true" <= s then Parsed(Bool(true), s[4..])
    else if "false" <= s then Parsed(Bool(false), s[5..])
    else
      match ParseNumber(s)
      case Bad => Bad
      case Parsed(number, rest) => Parsed(Int(number), rest)
  }

  function ParseMember(s: string): (r: Parsed<Field>)
    ensures r.Parsed? ==> |r.rest| < |s|
  {
    match ParseString(s)
    case Bad => Bad
    case Parsed(key, rest) =>
      var colon := SkipSpace(rest);
      if colon == "" || colon[0] != ':' then Bad else
      match ParseValue(SkipSpace(colon[1..]))
      case Bad => Bad
      case Parsed(value, after) => Parsed(Field(key, value), after)
  }

  /** The members of an object that has at least one, up to the closing brace. */
  function ParseMembers(s: string): Parsed<seq<Field>>
    decreases |s|
  {
    match ParseMember(SkipSpace(s))
    case Bad => Bad
    case Parsed(f, rest) =>
      var next := SkipSpace(rest);
      if next == "" then Bad
      else if next[0] == '}' then Parsed([f], next[1..])
      else if next[0] != ',' then Bad
      else match ParseMembers(next[1..])
        case Bad => Bad
        case Parsed(fs, after) => Parsed([f] + fs, after)
  }

  /** A text that is one object of strings, integers and truth values (section 4 of RFC 8259). */
  function ParseObject(s: string): Option<seq<Field>> {
    var start := SkipSpace(s);
    if start == "" || start[0] != '{' then None else
    var first := SkipSpace(start[1..]);
    if first != "" && first[0] == '}' then (if SkipSpace(first[1..]) == "" then Some([]) else None)
    else match ParseMembers(first)
      case Bad => None
      case Parsed(fields, rest) => if SkipSpace(rest) == "" then Some(fields) else None
  }

  // ── The round trip ─────────────────────────────────────────────────────────────

  /** An escaped character is read back, whatever follows it. */
  lemma ParseEscaped(c: char, rest: string)
    ensures ParseChar(EscapeChar(c) + rest) == Parsed(c, rest)
    ensures EscapeChar(c) != "" && EscapeChar(c)[0] != '"'
  {
    var s := EscapeChar(c) + rest;
    if c == '"' || c == '\\' || c == '\n' || c == '\r' || c == '\t' {
      assert s[1..][1..] == rest;
    } else if c < ' ' {
      ParseControl(c, rest);
    } else {
      assert s[1..] == rest;
    }
  }

  lemma ParseControl(c: char, rest: string)
    requires c < ' '
    ensures ParseEscape("u00" + [Uuid.HexChar(c as int / 16), Uuid.HexChar(c as int % 16)] + rest) == Parsed(c, rest)
  {
    var s := "u00" + [Uuid.HexChar(c as int / 16), Uuid.HexChar(c as int % 16)] + rest;
    var t := s[1..];
    assert t[0] == '0' && t[1] == '0' && t[2] == Uuid.HexChar(c as int / 16) && t[3] == Uuid.HexChar(c as int % 16);
    assert t[4..] == rest;
    HexDigitOf(c as int / 16);
    HexDigitOf(c as int % 16);
  }

  lemma HexDigitOf(v: nat)
    requires v < 16
    ensures HexDigit(Uuid.HexChar(v)) == Some(v)
  {
  }

  lemma ParseEscapedThen(c: char, after: string, text: string, rest: string)
    requires ParseChars(after) == Parsed(text, rest)
    ensures ParseChars(EscapeChar(c) + after) == Parsed([c] + text, rest)
  {
    ParseEscaped(c, after);
  }

  lemma {:induction false} ParseEscapedText(s: string, rest: string)
    ensures ParseChars(Escaped(s) + ("\"" + rest)) == Parsed(s, rest)
  {
    if s == "" {
      assert Escaped(s) + ("\"" + rest) == "\"" + rest;
    } else {
      var after := Escaped(s[1..]) + ("\"" + rest);
      assert Escaped(s) + ("\"" + rest) == EscapeChar(s[0]) + after;
      ParseEscapedText(s[1..], rest);
      ParseEscapedThen(s[0], after, s[1..], rest);
      assert [s[0]] + s[1..] == s;
    }
  }

  /** Strings with quotes, backslashes, braces and control characters are read back. */
  lemma ParseQuoted(s: string, rest: string)
    ensures ParseString(Quoted(s) + rest) == Parsed(s, rest)
  {
    assert (Quoted(s) + rest)[1..] == Escaped(s) + ("\"" + rest);
    ParseEscapedText(s, rest);
  }

  /** The text does not continue a number. */
  predicate EndsNumber(rest: string) {
    rest == "" || !('0' <= rest[0] <= '9')
  }

  lemma {:induction false} DigitRunOf(digits: Bytes, rest: string)
    requires AllDigits(digits) && EndsNumber(rest)
    ensures DigitRun(digits + rest) == |digits|
  {
    if digits == [] {
      assert digits + rest == rest;
    } else {
      assert (digits + rest)[1..] == digits[1..] + rest;
      assert IsDigit(digits[0]);
      DigitRunOf(digits[1..], rest);
    }
  }

  lemma {:induction false} NoLeadingZero(n: nat)
    ensures |Digits(n)| > 1 ==> Digits(n)[0] != '0'
  {
    if n >= 10 {
      NoLeadingZero(n / 10);
    }
  }

  lemma ParsePrintedNatural(n: nat, rest: string)
    requires EndsNumber(rest)
    ensures DigitRun(Digits(n) + rest) == |Digits(n)|
    ensures (Digits(n) + rest)[..|Digits(n)|] == Digits(n) && (Digits(n) + rest)[|Digits(n)|..] == rest
    ensures Value(Digits(n)) == n && '0' <= Digits(n)[0] <= '9' && (|Digits(n)| > 1 ==> Digits(n)[0] != '0')
  {
    DigitRunOf(Digits(n), rest);
    NoLeadingZero(n);
    ValueOfDigits(n);
    assert IsDigit(Digits(n)[0]);
  }

  lemma ParsePrintedNumber(v: int, rest: string)
    requires EndsNumber(rest)
    ensures ParseNumber(PrintInt(v) + rest) == Parsed(v, rest)
  {
    if v < 0 {
      ParsePrintedNegative(-v, rest);
    } else {
      ParsePrintedNatural(v, rest);
      var s := Digits(v) + rest;
      assert s[0..] == s && s[0] == Digits(v)[0];
    }
  }

  lemma ParsePrintedNegative(n: int, rest: string)
    requires EndsNumber(rest) && n > 0
    ensures ParseNumber("-" + Digits(n) + rest) == Parsed(-n, rest)
  {
    var (digits, text) := (Digits(n), "-" + Digits(n) + rest);
    ParsePrintedNatural(n, rest);
    MinusThen(digits, rest);
  }

  lemma MinusThen(digits: Bytes, rest: string)
    requires digits != []
    ensures var s := "-" + digits + rest;
            s[0] == '-' && s[1] == digits[0] && s[1..] == digits + rest && s[1 + |digits|..] == rest
  {
  }

  lemma NumberFirst(number: int, rest: string)
    ensures var c := (PrintInt(number) + rest)[0]; c == '-' || '0' <= c <= '9'
  {
    var s := PrintInt(number);
    assert IsDigit(s[0]) || s[0] == '-';
    assert (s + rest)[0] == s[0];
  }

  lemma ParseNumberValue(number: int, rest: string)
    requires EndsNumber(rest)
    ensures ParseValue(PrintInt(number) + rest) == Parsed(Int(number), rest)
  {
    ParsePrintedNumber(number, rest);
    NumberFirst(number, rest);
  }

  lemma ParseValueText(v: Scalar, rest: string)
    requires EndsNumber(rest)
    ensures ParseValue(ValueText(v) + rest) == Parsed(v, rest)
  {
    var s := ValueText(v) + rest;
    match v
    case Str(text) => ParseQuoted(text, rest);
    case Bool(truth) => assert s[if truth then 4 else 5..] == rest;
    case Int(number) => ParseNumberValue(number, rest);
  }

  lemma ParseMemberText(f: Field, rest: string)
    requires EndsNumber(rest)
    ensures ParseMember(Member(f) + rest) == Parsed(f, rest)
  {
    hide Quoted, ValueText, Member, ParseMember, ParseValue, SkipSpace;
    var value := ValueText(f.value) + rest;
    SplitMember(f, rest);
    ParseValueText(f.value, rest);
    NoSpaceFirst(f.value, rest);
    ParseKeyThen(f.key, value);
  }

  lemma SplitMember(f: Field, rest: string)
    ensures Member(f) + rest == Quoted(f.key) + (":" + (ValueText(f.value) + rest))
  {
    hide Quoted, ValueText;
  }

  lemma ParseKeyThen(key: string, value: string)
    requires SkipSpace(value) == value
    ensures ParseMember(Quoted(key) + (":" + value))
         == match ParseValue(value) case Bad => Bad case Parsed(v, after) => Parsed(Field(key, v), after)
  {
    ParseQuoted(key, ":" + value);
    assert (":" + value)[1..] == value;
  }

  lemma NoSpaceFirst(v: Scalar, rest: string)
    ensures SkipSpace(ValueText(v) + rest) == ValueText(v) + rest
  {
    if v.Int? {
      NumberFirst(v.number, rest);
    }
  }

  /** The members that are still to come, and the closing brace. */
  function Members(fields: seq<Field>): string
    requires fields != []
  {
    Member(fields[0]) + if |fields| == 1 then "}" else "," + Members(fields[1..])
  }

  lemma MemberFirst(f: Field, rest: string)
    ensures SkipSpace(Member(f) + rest) == Member(f) + rest
  {
    assert (Member(f) + rest)[0] == '"';
  }

  lemma ParseLastMember(f: Field)
    ensures ParseMembers(Member(f) + "}") == Parsed([f], "")
  {
    ParseMemberText(f, "}");
    MemberFirst(f, "}");
    assert "}"[1..] == "";
  }

  lemma ParseNextMember(f: Field, more: string, fs: seq<Field>)
    requires ParseMembers(more) == Parsed(fs, "")
    ensures ParseMembers(Member(f) + ("," + more)) == Parsed([f] + fs, "")
  {
    ParseMemberText(f, "," + more);
    MemberFirst(f, "," + more);
    assert ("," + more)[1..] == more;
  }

  lemma {:induction false} ParseAllMembers(fields: seq<Field>)
    requires fields != []
    ensures ParseMembers(Members(fields)) == Parsed(fields, "")
  {
    if |fields| == 1 {
      ParseLastMember(fields[0]);
      assert fields == [fields[0]];
    } else {
      ParseAllMembers(fields[1..]);
      ParseNextMember(fields[0], Members(fields[1..]), fields[1..]);
      assert fields == [fields[0]] + fields[1..];
    }
  }

  /** Appending fields one by one writes the members in their order. */
  lemma OpenIsMembers(fields: seq<Field>)
    requires fields != []
    ensures Open(fields) + "}" == "{" + Members(fields)
  {
    OpenIsJoined(fields);
    MembersAreJoined(fields);
    assert ("{" + Joined(fields)) + "}" == "{" + (Joined(fields) + "}");
  }

  /** The members with commas between them. */
  function Joined(fields: seq<Field>): string {
    if fields == [] then "" else
    Member(fields[0]) + if |fields| == 1 then "" else "," + Joined(fields[1..])
  }

  lemma {:induction false} JoinedSnoc(fields: seq<Field>, f: Field)
    ensures Joined(fields + [f]) == Joined(fields) + Comma(fields) + Member(f)
  {
    if fields == [] {
      assert fields + [f] == [f];
    } else {
      var rest := fields[1..];
      assert (fields + [f])[0] == fields[0] && (fields + [f])[1..] == rest + [f];
      JoinedSnoc(rest, f);
      JoinedTail(Member(fields[0]), Joined(rest), Comma(rest), Member(f), |fields| == 1);
    }
  }

  /** One member in front of what is joined already. */
  lemma JoinedTail(first: string, joined: string, comma: string, last: string, single: bool)
    requires if single then joined == "" && comma == "" else comma == ","
    ensures first + ("," + (joined + comma + last)) == first + (if single then "" else "," + joined) + "," + last
  {
    if single {
      assert joined + comma + last == last;
    }
  }

  lemma {:induction false} OpenIsJoined(fields: seq<Field>)
    ensures Open(fields) == "{" + Joined(fields)
  {
    if fields == [] {
      assert Joined(fields) == "" && "{" + "" == "{";
    } else {
      var (before, f) := (fields[..|fields| - 1], fields[|fields| - 1]);
      assert before + [f] == fields;
      OpenIsJoined(before);
      JoinedSnoc(before, f);
      OpenSnoc(before, f);
      OpenParts(Open(before), Joined(before), Comma(before), f, Joined(fields), Open(fields));
    }
  }

  lemma OpenParts(start: string, joined: string, comma: string, f: Field, all: string, text: string)
    requires start == "{" + joined && all == joined + comma + Member(f)
    requires text == start + comma + Quoted(f.key) + ":" + ValueText(f.value)
    ensures text == "{" + all
  {
  }

  lemma {:induction false} MembersAreJoined(fields: seq<Field>)
    requires fields != []
    ensures Members(fields) == Joined(fields) + "}"
  {
    if |fields| > 1 {
      MembersAreJoined(fields[1..]);
    }
  }

  lemma ParseOpenMembers(fields: seq<Field>)
    requires fields != []
    ensures ParseObject("{" + Members(fields)) == Some(fields)
  {
    ParseAllMembers(fields);
    var members := Members(fields);
    assert ("{" + members)[1..] == members && members[0] == '"';
  }

  /** The builder is undone by the parser, for every list of fields. */
  lemma ParseOpened(fields: seq<Field>)
    ensures ParseObject(Open(fields) + "}") == Some(fields)
  {
    if fields == [] {
      assert "{" + "}" == "{}" && "{}"[1..] == "}" && "}"[1..] == "";
    } else {
      OpenIsMembers(fields);
      ParseOpenMembers(fields);
    }
  }

  /** How one string is written. */
  lemma ExampleString()
    ensures Quoted("q\"\n") == "\"q\\\"\\n\""
  {
    assert "q\"\n"[1..] == "\"\n" && "\"\n"[1..] == "\n" && "\n"[1..] == "";
  }

  lemma ExampleKeys()
    ensures Quoted("n") == "\"n\"" && Quoted("t") == "\"t\""
  {
    assert "n"[1..] == "" && "t"[1..] == "";
  }

  /** How one object is written. */
  lemma ExampleObject()
    ensures Open([Field("n", Int(-5)), Field("t", Bool(true))]) + "}" == "{\"n\":-5,\"t\":true}"
  {
    hide Quoted;
    var (g, h) := (Field("n", Int(-5)), Field("t", Bool(true)));
    ExampleKeys();
    assert PrintInt(-5) == "-5" by { assert Digits(5) == "5"; }
    assert Open([]) == "{" && [] + [g] == [g] && [g] + [h] == [g, h];
    OpenSnoc([], g);
    assert Open([g]) == "{\"n\":-5";
    OpenSnoc([g], h);
  }
}
