/** What each verdict on a token means, in terms of what the control server issues with the loaded keys. */
module TokenVerdicts {
  import opened Text
  import opened Address
  import opened Token
  import TokenTheorems
  import Base64

  // ── Taking a token apart ───────────────────────────────────────────────────────

  /** `after` is what follows the first occurrence of `marker` in `raw`, and `before` what precedes it. */
  ghost predicate CutAt(raw: Bytes, marker: Bytes, before: Bytes, after: Bytes) {
    && raw == before + marker + after
    && forall j :: 0 <= j < |before| ==> !At(raw, marker, j)
  }

  ghost predicate Marked(raw: Bytes, marker: Bytes) {
    exists i :: At(raw, marker, i)
  }

  lemma SplitsExactly(raw: Bytes, marker: Bytes)
    ensures match SplitOnce(raw, marker)
            case None => !Marked(raw, marker)
            case Some(p) => Marked(raw, marker) && CutAt(raw, marker, p.0, p.1)
  {
    match SplitOnce(raw, marker)
    case None =>
    case Some(p) =>
      var i := Find(raw, marker, 0).value;
      assert At(raw, marker, i) && p.0 == raw[..i];
  }

  lemma CutUnique(raw: Bytes, marker: Bytes, before: Bytes, after: Bytes)
    requires CutAt(raw, marker, before, after)
    ensures SplitOnce(raw, marker) == Some((before, after))
  {
    var i := |before|;
    assert raw[i..i + |marker|] == marker && raw[..i] == before && raw[i + |marker|..] == after;
    SplitOnceAt(raw, marker, i);
  }

  /** A version 1 token: a UUID field, a time, and the rest. */
  predicate FieldsOfV1(raw: Bytes, uuid: Bytes, timestamp: Bytes, hmac: Bytes) {
    && raw == uuid + "_" + timestamp + "_" + hmac
    && |uuid| == 36 && '_' !in uuid
    && 1 <= |timestamp| <= 12 && ParseI64(timestamp).Some?
  }

  ghost predicate WellFormedV1(raw: Bytes) {
    exists uuid, timestamp, hmac :: FieldsOfV1(raw, uuid, timestamp, hmac)
  }

  ghost predicate WellFormedV2(v2: Bytes) {
    exists b: V2Bytes :: v2 == Base64.Encode(b)
  }

  lemma DecodesExactly(v2: Bytes)
    ensures DecodeV2(v2).Some? <==> WellFormedV2(v2)
    ensures DecodeV2(v2).Some? ==> v2 == Base64.Encode(DecodeV2(v2).value)
  {
    if DecodeV2(v2).Some? {
      Base64.EncodeDecode(v2);
    }
    if WellFormedV2(v2) {
      var b: V2Bytes :| v2 == Base64.Encode(b);
      Base64.DecodeEncode(b);
    }
  }

  lemma NumberHasNoUnderscore(s: Bytes)
    requires ParseI64(s).Some?
    ensures '_' !in s
  {
    forall i | 0 <= i < |s| ensures s[i] != '_' {
      if i > 0 || IsDigit(s[0]) {
        assert s[0] == '+' || s[0] == '-' ==> s[i] == s[1..][i - 1];
      }
    }
  }

  lemma FieldsSplit(raw: Bytes, uuid: Bytes, timestamp: Bytes, hmac: Bytes)
    requires FieldsOfV1(raw, uuid, timestamp, hmac)
    ensures SplitN(raw, 3, '_') == [uuid, timestamp, hmac]
  {
    NumberHasNoUnderscore(timestamp);
    assert raw == uuid + ['_'] + (timestamp + ['_'] + hmac);
    SplitNCons(uuid, timestamp + ['_'] + hmac, 3, '_');
    SplitNCons(timestamp, hmac, 2, '_');
    assert SplitN(hmac, 1, '_') == [hmac];
  }

  /** What the splitter yields are the fields. */
  lemma SplitIsFields(raw: Bytes)
    requires var parts := SplitN(raw, 3, '_');
             |parts| == 3 && |parts[0]| == 36 && 1 <= |parts[1]| <= 12 && ParseI64(parts[1]).Some?
    ensures var parts := SplitN(raw, 3, '_'); FieldsOfV1(raw, parts[0], parts[1], parts[2])
  {
    hide ParseI64, Find;
    var p := SplitOnce(raw, "_").value;
    var q := SplitOnce(p.1, "_").value;
    SplitsAtFirst(raw);
    assert SplitN(raw, 3, '_') == [p.0] + SplitN(p.1, 2, '_');
    assert SplitN(p.1, 2, '_') == [q.0, q.1];
    JoinFields(raw, p.0, p.1, q.0, q.1);
  }

  lemma SplitsAtFirst(raw: Bytes)
    requires SplitOnce(raw, "_").Some?
    ensures '_' !in SplitOnce(raw, "_").value.0
  {
    var p := SplitOnce(raw, "_").value;
    forall j | 0 <= j < |p.0| ensures p.0[j] != '_' {
      assert !At(raw, "_", j) && raw[j..j + 1] == [raw[j]];
    }
  }

  lemma JoinFields(raw: Bytes, a: Bytes, rest: Bytes, b: Bytes, c: Bytes)
    requires raw == a + "_" + rest && rest == b + "_" + c
    ensures raw == a + "_" + b + "_" + c
  {
  }

  // ── Who signed ─────────────────────────────────────────────────────────────────

  lemma FromBigEndianRoundTrip(b: Bytes)
    requires |b| == 4
    ensures BigEndian(FromBigEndian(b)) == b
  {
    var (w, x, y, z) := (b[0] as int, b[1] as int, b[2] as int, b[3] as int);
    var n := FromBigEndian(b);
    var (p, q) := (w * 0x100 + x, (w * 0x100 + x) * 0x100 + y);
    assert n == q * 0x100 + z;
    assert n / 0x100 == q && n % 0x100 == z;
    assert q / 0x100 == p && q % 0x100 == y;
    assert p / 0x100 == w && p % 0x100 == x;
    assert n / 0x1_0000 == p && n / 0x100_0000 == w;
  }

  /** The key issued a token for this time: it starts with the same time and time hash. */
  ghost predicate IssuedTime(c: Crypto, key: SecretKey, bytes: V2Bytes) {
    exists start, ip :: bytes[..12] == IssueV2Bytes(c, key.key, start, ip)[..12]
  }

  /** The key issued exactly this token for a client at `ip`. */
  ghost predicate IssuedFor(c: Crypto, key: SecretKey, bytes: V2Bytes, ip: IpAddr) {
    exists start :: bytes == IssueV2Bytes(c, key.key, start, ip)
  }

  lemma PartsOfV2(c: Crypto, key: Bytes, start: int, ip: IpAddr)
    ensures var (b, time) := (IssueV2Bytes(c, key, start, ip), BigEndian(start % PERIOD));
            && b[..4] == b[..12][..4] == time && b[4..12] == b[..12][4..] == c.hmacSha256(key, time)[..8]
            && b[12..] == c.hmacSha256(key, time + Mapped(ip))[..4]
  {
  }

  lemma PutTogether(c: Crypto, key: SecretKey, bytes: V2Bytes, start: int, ip: IpAddr)
    requires start % PERIOD == FromBigEndian(bytes[..4])
    ensures bytes[..12] == IssueV2Bytes(c, key.key, start, ip)[..12] <==> SignsTime(c, key, bytes)
    ensures bytes == IssueV2Bytes(c, key.key, start, ip)
       <==> SignsTime(c, key, bytes) && SignsAddress(c, key, bytes, Mapped(ip))
  {
    var b := IssueV2Bytes(c, key.key, start, ip);
    FromBigEndianRoundTrip(bytes[..4]);
    PartsOfV2(c, key.key, start, ip);
    Parts(bytes);
    Parts(b);
  }

  lemma Parts(b: V2Bytes)
    ensures b == b[..12] + b[12..16] && b[..12] == b[..4] + b[4..12]
    ensures b[12..] == b[12..16] && b[..12][..4] == b[..4] && b[..12][4..] == b[4..12]
  {
  }

  lemma TimeOfIssued(c: Crypto, key: Bytes, bytes: V2Bytes, start: int, ip: IpAddr)
    requires bytes[..12] == IssueV2Bytes(c, key, start, ip)[..12]
    ensures start % PERIOD == FromBigEndian(bytes[..4])
  {
    PartsOfV2(c, key, start, ip);
    assert bytes[..4] == bytes[..12][..4];
    BigEndianRoundTrip(start % PERIOD);
  }

  /** The time hash is right exactly if the key issued a token for this time. */
  lemma SignsTimeExactly(c: Crypto, key: SecretKey, bytes: V2Bytes)
    ensures SignsTime(c, key, bytes) <==> IssuedTime(c, key, bytes)
  {
    hide SignsTime, IssueV2Bytes, FromBigEndian;
    var (start, ip) := (FromBigEndian(bytes[..4]), V4(['\0', '\0', '\0', '\0']));
    PutTogether(c, key, bytes, start, ip);
    if IssuedTime(c, key, bytes) {
      var t, a :| bytes[..12] == IssueV2Bytes(c, key.key, t, a)[..12];
      TimeOfIssued(c, key.key, bytes, t, a);
      PutTogether(c, key, bytes, t, a);
    }
  }

  /** Both hashes are right exactly if the key issued this very token for the address. */
  lemma SignsAddressExactly(c: Crypto, key: SecretKey, bytes: V2Bytes, ip: IpAddr)
    ensures SignsTime(c, key, bytes) && SignsAddress(c, key, bytes, Mapped(ip)) <==> IssuedFor(c, key, bytes, ip)
  {
    hide SignsTime, SignsAddress, IssueV2Bytes, FromBigEndian;
    PutTogether(c, key, bytes, FromBigEndian(bytes[..4]), ip);
    if IssuedFor(c, key, bytes, ip) {
      var t :| bytes == IssueV2Bytes(c, key.key, t, ip);
      TimeOfIssued(c, key.key, bytes, t, ip);
      PutTogether(c, key, bytes, t, ip);
    }
  }

  // ── Version 2 ──────────────────────────────────────────────────────────────────

  /** Key number `i` is the first one that issued a token for the time in `bytes`. */
  ghost predicate FirstIssuer(c: Crypto, keys: seq<SecretKey>, bytes: V2Bytes, i: int) {
    && 0 <= i < |keys| && IssuedTime(c, keys[i], bytes)
    && forall j :: 0 <= j < i ==> !IssuedTime(c, keys[j], bytes)
  }

  /** What becomes of a well-formed version 2 token: the first key that issued a token for its time decides alone. */
  ghost predicate JudgedV2(c: Crypto, keys: seq<SecretKey>, bytes: V2Bytes, source: Option<IpAddr>, start: int,
                           now: int, r: TokenResult)
  {
    if source.None? then r == InvalidIp
    else if forall k :: k in keys ==> !IssuedTime(c, k, bytes) then r == InvalidHmac
    else exists i :: FirstIssuer(c, keys, bytes, i) &&
           if IssuedFor(c, keys[i], bytes, source.value) then ByWindow(start, now, keys[i].name, r) else r == InvalidIp
  }

  /** The verdict by the time alone, and for how long an early client has to wait. */
  predicate ByWindow(start: int, now: int, name: Bytes, r: TokenResult) {
    if start - now > 20 then r.TooEarly?
    else if now - start > 90 then r.TooLate?
    else r == Accepted(if start > now then start - now else 0, name)
  }

  lemma WindowDecides(start: int, now: int, name: Bytes)
    ensures ByWindow(start, now, name, TimeWindow(start, now, name))
  {
  }

  lemma FirstIssuerDecides(c: Crypto, keys: seq<SecretKey>, bytes: V2Bytes)
    ensures match IssuerV2(c, keys, bytes)
            case None => forall k :: k in keys ==> !IssuedTime(c, k, bytes)
            case Some(key) => exists i :: FirstIssuer(c, keys, bytes, i) && keys[i] == key
  {
    hide SignsTime, IssuedTime;
    forall k: SecretKey ensures SignsTime(c, k, bytes) <==> IssuedTime(c, k, bytes) {
      SignsTimeExactly(c, k, bytes);
    }
    if IssuerV2(c, keys, bytes).Some? {
      var i :| 0 <= i < |keys| && IssuerV2(c, keys, bytes).value == keys[i] && SignsTime(c, keys[i], bytes)
               && forall j :: 0 <= j < i ==> !SignsTime(c, keys[j], bytes);
      assert FirstIssuer(c, keys, bytes, i);
    }
  }

  lemma VerdictV2Exactly(c: Crypto, v2: Bytes, keys: seq<SecretKey>, source: Option<IpAddr>, now1: int, now2: int)
    ensures var r := VerdictV2(c, v2, keys, source, now1, now2);
            match DecodeV2(v2)
            case None => r == ParseError && !WellFormedV2(v2)
            case Some(b) =>
              v2 == Base64.Encode(b) && JudgedV2(c, keys, b, source, Reconstruct(FromBigEndian(b[..4]), now1), now2, r)
  {
    hide IssuerV2, SignsTime, SignsAddress, IssuedTime, IssuedFor, Reconstruct, FromBigEndian, TimeWindow;
    DecodesExactly(v2);
    if DecodeV2(v2).Some? && source.Some? {
      var b := DecodeV2(v2).value;
      FirstIssuerDecides(c, keys, b);
      if IssuerV2(c, keys, b).Some? {
        var key := IssuerV2(c, keys, b).value;
        var i :| FirstIssuer(c, keys, b, i) && keys[i] == key;
        SignsTimeOfFirst(c, keys, b, i);
        SignsAddressExactly(c, key, b, source.value);
        WindowDecides(Reconstruct(FromBigEndian(b[..4]), now1), now2, key.name);
      }
    }
  }

  lemma SignsTimeOfFirst(c: Crypto, keys: seq<SecretKey>, bytes: V2Bytes, i: int)
    requires FirstIssuer(c, keys, bytes, i)
    ensures 0 <= i < |keys| && keys[i] in keys && IssuedTime(c, keys[i], bytes) && SignsTime(c, keys[i], bytes)
  {
    hide IssuedTime, SignsTime;
    SignsTimeExactly(c, keys[i], bytes);
  }

  // ── Version 1 ──────────────────────────────────────────────────────────────────

  /** Key number `i` is the first one that makes the token of its message. */
  ghost predicate FirstSigner(c: Crypto, keys: seq<SecretKey>, raw: Bytes, uuid: Bytes, timestamp: Bytes, i: int) {
    && 0 <= i < |keys| && raw == SignedV1(c, keys[i].key, uuid, timestamp)
    && forall j :: 0 <= j < i ==> raw != SignedV1(c, keys[j].key, uuid, timestamp)
  }

  lemma SignsV1Exactly(c: Crypto, key: SecretKey, raw: Bytes, uuid: Bytes, timestamp: Bytes, hmac: Bytes)
    requires raw == uuid + "_" + timestamp + "_" + hmac
    ensures SignsV1(c, key, V1Message(uuid, timestamp), hmac) <==> raw == SignedV1(c, key.key, uuid, timestamp)
  {
    var n := |uuid + "_" + timestamp + "_"|;
    assert raw[n..] == hmac;
    assert SignedV1(c, key.key, uuid, timestamp)[n..] == Base64.Encode(c.hmacSha1(key.key, V1Message(uuid, timestamp)));
  }

  lemma FirstSignerDecides(c: Crypto, keys: seq<SecretKey>, raw: Bytes, uuid: Bytes, timestamp: Bytes, hmac: Bytes)
    requires raw == uuid + "_" + timestamp + "_" + hmac
    ensures match IssuerV1(c, keys, V1Message(uuid, timestamp), hmac)
            case None => forall k :: k in keys ==> raw != SignedV1(c, k.key, uuid, timestamp)
            case Some(key) => exists i :: FirstSigner(c, keys, raw, uuid, timestamp, i) && keys[i] == key
  {
    hide SignsV1, SignedV1;
    var message := V1Message(uuid, timestamp);
    forall k: SecretKey ensures SignsV1(c, k, message, hmac) <==> raw == SignedV1(c, k.key, uuid, timestamp) {
      SignsV1Exactly(c, k, raw, uuid, timestamp, hmac);
    }
    if IssuerV1(c, keys, message, hmac).Some? {
      var i :| 0 <= i < |keys| && IssuerV1(c, keys, message, hmac).value == keys[i]
        && SignsV1(c, keys[i], message, hmac)
               && forall j :: 0 <= j < i ==> !SignsV1(c, keys[j], message, hmac);
      assert FirstSigner(c, keys, raw, uuid, timestamp, i);
    }
  }

  /** What is made of a version 1 token: its fields, and the first key that makes it of them. */
  ghost predicate MatchedV1(c: Crypto, raw: Bytes, keys: seq<SecretKey>, r: Result<V1Match, TokenResult>) {
    if !WellFormedV1(raw) then r == Err(ParseError)
    else exists uuid, timestamp, hmac :: FieldsOfV1(raw, uuid, timestamp, hmac) &&
           if forall k :: k in keys ==> raw != SignedV1(c, k.key, uuid, timestamp) then r == Err(InvalidHmac)
           else exists i :: FirstSigner(c, keys, raw, uuid, timestamp, i)
                            && r == Ok(V1Match(uuid, ParseI64(timestamp).value, keys[i]))
  }

  lemma MatchV1Exactly(c: Crypto, raw: Bytes, keys: seq<SecretKey>)
    ensures MatchedV1(c, raw, keys, MatchV1(c, raw, keys))
  {
    hide IssuerV1, SignedV1, SplitN, ParseI64, FieldsOfV1;
    var parts := SplitN(raw, 3, '_');
    if |parts| == 3 && |parts[0]| == 36 && 1 <= |parts[1]| <= 12 && ParseI64(parts[1]).Some? {
      SplitIsFields(raw);
      RawOfFields(raw, parts[0], parts[1], parts[2]);
      FirstSignerDecides(c, keys, raw, parts[0], parts[1], parts[2]);
      assert FieldsOfV1(raw, parts[0], parts[1], parts[2]);
    } else if WellFormedV1(raw) {
      var uuid, timestamp, hmac :| FieldsOfV1(raw, uuid, timestamp, hmac);
      FieldsSplit(raw, uuid, timestamp, hmac);
      RawOfFields(raw, uuid, timestamp, hmac);
    }
  }

  lemma RawOfFields(raw: Bytes, uuid: Bytes, timestamp: Bytes, hmac: Bytes)
    requires FieldsOfV1(raw, uuid, timestamp, hmac)
    ensures raw == uuid + "_" + timestamp + "_" + hmac && |uuid| == 36 && 1 <= |timestamp| <= 12
    ensures ParseI64(timestamp).Some?
  {
  }

  // ── Every verdict ──────────────────────────────────────────────────────────────

  /** Each verdict of the measurement, and what it takes to get it. */
  ghost predicate Judged(c: Crypto, raw: Bytes, keys: seq<SecretKey>, source: Option<IpAddr>, v2Only: bool, now1: int,
                         now2: int, r: TokenResult)
  {
    if Marked(raw, "#v2#") then
      exists before, v2 :: CutAt(raw, "#v2#", before, v2) &&
        if !WellFormedV2(v2) then r == ParseError
        else exists b: V2Bytes :: v2 == Base64.Encode(b)
               && JudgedV2(c, keys, b, source, Reconstruct(FromBigEndian(b[..4]), now1), now2, r)
    else if v2Only then r == V2Required
    else exists m :: MatchedV1(c, raw, keys, m) &&
           match m case Err(e) => r == e case Ok(v1) => ByWindow(v1.start, now2, v1.key.name, r)
  }

  /** The verdict on every token, whoever made it. */
  lemma VerdictExactly(c: Crypto, raw: Bytes, keys: seq<SecretKey>, source: Option<IpAddr>, v2Only: bool, now1: int,
                       now2: int)
    ensures Judged(c, raw, keys, source, v2Only, now1, now2, Verdict(c, raw, keys, source, v2Only, now1, now2))
  {
    hide SplitOnce, VerdictV2, MatchV1, MatchedV1, JudgedV2, Reconstruct, FromBigEndian, TimeWindow, ByWindow;
    SplitsExactly(raw, "#v2#");
    match SplitOnce(raw, "#v2#")
    case Some(p) =>
      assert CutAt(raw, "#v2#", p.0, p.1);
      VerdictV2Exactly(c, p.1, keys, source, now1, now2);
    case None =>
      MatchV1Exactly(c, raw, keys);
      if MatchV1(c, raw, keys).Ok? {
        var m := MatchV1(c, raw, keys).value;
        WindowDecides(m.start, now2, m.key.name);
      }
  }

  /** The key made this token, for a client at `source` and with this start time. */
  ghost predicate Genuine(c: Crypto, raw: Bytes, key: SecretKey, source: Option<IpAddr>, start: int) {
    if Marked(raw, "#v2#") then
      && source.Some?
      && exists before, v2 :: CutAt(raw, "#v2#", before, v2)
                              && v2 == Base64.Encode(IssueV2Bytes(c, key.key, start, source.value))
    else exists uuid, timestamp :: raw == SignedV1(c, key.key, uuid, timestamp) && ParseI64(timestamp) == Some(start)
  }

  /** An accepted token was made by the loaded key that is named, for this client and a start time in the window. */
  lemma AcceptedIsGenuine(c: Crypto, raw: Bytes, keys: seq<SecretKey>, source: Option<IpAddr>, v2Only: bool, now1: int,
                          now2: int)
    requires Verdict(c, raw, keys, source, v2Only, now1, now2).Accepted?
    ensures var (name, start) := (Verdict(c, raw, keys, source, v2Only, now1, now2).keyName, StartTime(raw, now1));
            && (exists k :: k in keys && k.name == name && Genuine(c, raw, k, source, start))
            && InWindow(start, now2) && (v2Only ==> Marked(raw, "#v2#"))
  {
    SplitsExactly(raw, "#v2#");
    match SplitOnce(raw, "#v2#")
    case Some(p) => AcceptedV2IsGenuine(c, raw, p.0, p.1, keys, source, now1, now2);
    case None => AcceptedV1IsGenuine(c, raw, keys, source, now1, now2);
  }

  lemma AcceptedV2IsGenuine(c: Crypto, raw: Bytes, before: Bytes, v2: Bytes, keys: seq<SecretKey>,
                            source: Option<IpAddr>, now1: int, now2: int)
    requires CutAt(raw, "#v2#", before, v2) && VerdictV2(c, v2, keys, source, now1, now2).Accepted?
    requires Marked(raw, "#v2#")
    ensures DecodeV2(v2).Some?
    ensures var start := Reconstruct(FromBigEndian(DecodeV2(v2).value[..4]), now1);
            && InWindow(start, now2)
            && exists k :: k in keys && k.name == VerdictV2(c, v2, keys, source, now1, now2).keyName
                           && Genuine(c, raw, k, source, start)
  {
    hide SignsTime, SignsAddress, IssueV2Bytes, Reconstruct, FromBigEndian, CutAt, Marked;
    DecodesExactly(v2);
    var b := DecodeV2(v2).value;
    var start := Reconstruct(FromBigEndian(b[..4]), now1);
    var key := IssuerV2(c, keys, b).value;
    TokenTheorems.ReconstructIsNearest(FromBigEndian(b[..4]), now1);
    PutTogether(c, key, b, start, source.value);
    assert key in keys && Genuine(c, raw, key, source, start);
  }

  lemma AcceptedV1IsGenuine(c: Crypto, raw: Bytes, keys: seq<SecretKey>, source: Option<IpAddr>, now1: int, now2: int)
    requires !Marked(raw, "#v2#") && ExtractV2(raw).None? && ValidateV1(c, raw, keys, now2).Accepted?
    ensures InWindow(StartTime(raw, now1), now2)
    ensures exists k :: k in keys && k.name == ValidateV1(c, raw, keys, now2).keyName
                        && Genuine(c, raw, k, source, StartTime(raw, now1))
  {
    hide SignedV1, SplitN, ParseI64, Marked, IssuerV1;
    var parts := SplitN(raw, 3, '_');
    SplitIsFields(raw);
    FirstSignerDecides(c, keys, raw, parts[0], parts[1], parts[2]);
    var key := IssuerV1(c, keys, V1Message(parts[0], parts[1]), parts[2]).value;
    assert key in keys && raw == SignedV1(c, key.key, parts[0], parts[1]);
  }

  // ── The `/ip` check ────────────────────────────────────────────────────────────

  /** The version 1 part of a token sent to `/ip`, and the version 2 part, if there is one. */
  ghost predicate PartsForIp(raw: Bytes, v1: Bytes, v2: Option<Bytes>) {
    match v2
    case None => !Marked(raw, "_#v2#") && v1 == raw
    case Some(after) => CutAt(raw, "_#v2#", v1, after)
  }

  /**
   Each answer of the `/ip` check; the address matches exactly if the key that signs issued the version
   2 part for it.
   */
  ghost predicate JudgedForIp(c: Crypto, raw: Bytes, keys: seq<SecretKey>, source: IpAddr, now: int,
                              r: Result<IpToken, TokenResult>)
  {
    exists v1, v2, m :: PartsForIp(raw, v1, v2) && MatchedV1(c, v1, keys, m) &&
      match m
      case Err(e) => r == Err(e)
      case Ok(t) =>
        if t.start - now > 20 then r.Err? && r.error.TooEarly?
        else if now - t.start > 90 then r.Err? && r.error.TooLate?
        else r.Ok? && r.value.key == t.key && r.value.openTestUuid == t.uuid
             && (r.value.matchingIp <==> v2.Some? && IssuedForAddress(c, v2.value, t.key, source))
  }

  ghost predicate IssuedForAddress(c: Crypto, v2: Bytes, key: SecretKey, ip: IpAddr) {
    exists start :: v2 == Base64.Encode(IssueV2Bytes(c, key.key, start, ip))
  }

  lemma MatchesExactly(c: Crypto, v2: Bytes, key: SecretKey, source: IpAddr)
    ensures MatchesAddress(c, v2, key, source) <==> IssuedForAddress(c, v2, key, source)
  {
    hide SignsTime, SignsAddress, IssueV2Bytes;
    DecodesExactly(v2);
    if DecodeV2(v2).Some? {
      var b := DecodeV2(v2).value;
      SignsAddressExactly(c, key, b, source);
      if IssuedFor(c, key, b, source) {
        var t :| b == IssueV2Bytes(c, key.key, t, source);
      }
    }
    if IssuedForAddress(c, v2, key, source) {
      var t :| v2 == Base64.Encode(IssueV2Bytes(c, key.key, t, source));
      Base64.DecodeEncode(IssueV2Bytes(c, key.key, t, source));
    }
  }

  /** The answer of the `/ip` check to every token, whoever made it. */
  lemma CheckIpTokenExactly(c: Crypto, raw: Bytes, keys: seq<SecretKey>, source: IpAddr, now: int)
    ensures JudgedForIp(c, raw, keys, source, now, CheckIpToken(c, raw, keys, source, now))
  {
    hide SplitOnce, MatchV1, MatchedV1, MatchesAddress, IssuedForAddress, CutAt, Marked;
    SplitsExactly(raw, "_#v2#");
    var (v1, v2) := SplitIpToken(raw);
    MatchV1Exactly(c, v1, keys);
    if MatchV1(c, v1, keys).Ok? && v2.Some? {
      MatchesExactly(c, v2.value, MatchV1(c, v1, keys).value.key, source);
    }
    assert PartsForIp(raw, v1, v2);
  }
}
