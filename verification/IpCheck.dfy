/** The signed answer of `/ip`. */
module IpCheck {
  import opened Text
  import opened Address
  import opened Token
  import Base64
  import TokenTheorems
  import TokenVerdicts
  import Uuid

  /** The message `/ip` signs: the address as 16 bytes, then the test UUID as 16 bytes. */
  function SignatureInput(ip: IpAddr, uuid: Bytes): (m: Bytes)
    ensures |uuid| == 16 ==> |m| == 32
  {
    Mapped(ip) + uuid
  }

  /** The signed message tells exactly which client address and which test it was made for. */
  lemma SignatureInputDecodes(a: IpAddr, u: Bytes, b: IpAddr, v: Bytes)
    requires |u| == 16 && |v| == 16
    ensures SignatureInput(a, u) == SignatureInput(b, v) <==> ToCanonical(a) == ToCanonical(b) && u == v
  {
    MappedDeterminesAddress(a, b);
    assert SignatureInput(a, u)[..16] == Mapped(a) && SignatureInput(a, u)[16..] == u;
    assert SignatureInput(b, v)[..16] == Mapped(b) && SignatureInput(b, v)[16..] == v;
  }

  datatype Answer =
    | Unsigned
    | Signed(key: SecretKey, matchingIp: bool, signature: Bytes)
    | Refused(rejected: TokenResult)
    | MalformedUuid

  /** The token part of `ip_response`, for a client at `public`. */
  method AnswerToken(c: Crypto, token: Option<Bytes>, keys: seq<SecretKey>, public: IpAddr, now: int)
    returns (r: Answer)
    ensures r.Unsigned? <==> token.None?
    ensures token.Some? ==> r == SignedAnswer(c, token.value, keys, ToCanonical(public), now)
  {
    var canonical := ToCanonical(public);
    if token.None? {
      return Unsigned;
    }
    var checked := CheckIpToken(c, token.value, keys, canonical, now);
    if checked.Err? {
      return Refused(checked.error);
    }
    var uuid := Uuid.ParseUuid(checked.value.openTestUuid);
    if uuid.None? {
      return MalformedUuid;
    }
    var signature := c.hmacSha256(checked.value.key.key, SignatureInput(canonical, uuid.value));
    return Signed(checked.value.key, checked.value.matchingIp, Base64.Encode(signature));
  }

  function SignedAnswer(c: Crypto, token: Bytes, keys: seq<SecretKey>, public: IpAddr, now: int): Answer {
    match CheckIpToken(c, token, keys, public, now)
    case Err(rejected) => Refused(rejected)
    case Ok(t) =>
      match Uuid.Parse(t.openTestUuid)
      case None => MalformedUuid
      case Some(uuid) => Signed(t.key, t.matchingIp,
                                Base64.Encode(c.hmacSha256(t.key.key, SignatureInput(public, uuid))))
  }

  /**
   Each answer to a token, whoever made it: refused as the check says, or malformed if the UUID field is
   no UUID; otherwise the key that the check found signs the address and the UUID.
   */
  lemma SignedAnswerExactly(c: Crypto, token: Bytes, keys: seq<SecretKey>, public: IpAddr, now: int)
    ensures var r := SignedAnswer(c, token, keys, public, now);
            exists t :: TokenVerdicts.JudgedForIp(c, token, keys, public, now, t) &&
              match t
              case Err(e) => r == Refused(e)
              case Ok(ip) =>
                if !Uuid.IsUuid(ip.openTestUuid) then r == MalformedUuid
                else exists u :: |u| == 16 && Uuid.Print(u) == Uuid.LowerText(ip.openTestUuid)
                       && r == Signed(ip.key, ip.matchingIp,
                                      Base64.Encode(c.hmacSha256(ip.key.key, Mapped(public) + u)))
  {
    hide CheckIpToken, Uuid.Print, Uuid.LowerText, Base64.Encode;
    var t := CheckIpToken(c, token, keys, public, now);
    TokenVerdicts.CheckIpTokenExactly(c, token, keys, public, now);
    if t.Ok? && Uuid.IsUuid(t.value.openTestUuid) {
      Uuid.PrintParse(t.value.openTestUuid);
      var u := Uuid.Parse(t.value.openTestUuid).value;
      assert |u| == 16;
    }
  }

  /** The version 1 part of a token that passes is free of `#`, apart from its UUID field. */
  lemma MatchedV1HasNoMarker(c: Crypto, raw: Bytes, keys: seq<SecretKey>)
    requires MatchV1(c, raw, keys).Ok?
    requires '#' !in MatchV1(c, raw, keys).value.uuid
    ensures '#' !in raw
  {
    var parts := SplitN(raw, 3, '_');
    var rest := SplitOnce(raw, "_").value.1;
    assert SplitN(rest, 2, '_') == parts[1..];
    assert rest == parts[1] + "_" + parts[2] by {
      assert SplitOnce(rest, "_").value == (parts[1], parts[2]);
    }
    assert raw == parts[0] + "_" + (parts[1] + "_" + parts[2]);
    NumberHasNoMarker(parts[1]);
    assert '#' !in parts[2];
  }

  lemma NumberHasNoMarker(s: Bytes)
    requires ParseI64(s).Some?
    ensures '#' !in s
  {
    forall i | 0 <= i < |s| ensures s[i] != '#' {
      if i > 0 || IsDigit(s[0]) {
        assert s[0] == '+' || s[0] == '-' ==> s[i] == s[1..][i - 1];
      }
    }
  }

  /** Whenever `/ip` signs, both splitters see the same version 2 part. */
  lemma SplitsAgreeWhenSigned(c: Crypto, raw: Bytes, keys: seq<SecretKey>, public: IpAddr, now: int)
    requires SignedAnswer(c, raw, keys, public, now).Signed?
    ensures ExtractV2(raw) == SplitIpToken(raw).1
  {
    var (v1, v2) := SplitIpToken(raw);
    var uuid := MatchV1(c, v1, keys).value.uuid;
    UuidHasNoMarker(uuid);
    MatchedV1HasNoMarker(c, v1, keys);
    UseSplits(raw);
  }

  lemma UuidHasNoMarker(uuid: Bytes)
    requires Uuid.IsUuid(uuid)
    ensures '#' !in uuid
  {
    Uuid.DashedUndashed(uuid, Uuid.Undashed(uuid));
    assert uuid == Uuid.Dashed(Uuid.Undashed(uuid));
  }

  lemma UseSplits(raw: Bytes)
    requires '#' !in SplitIpToken(raw).0
    ensures ExtractV2(raw) == SplitIpToken(raw).1
  {
    match SplitOnce(raw, "_#v2#")
    case Some(p) => TokenTheorems.IssuedSplits(p.0, p.1);
    case None => TokenTheorems.NoMarkerNoV2(raw);
  }

  /** A signed answer verifies: the issuing key signed this address and the UUID of the token. */
  lemma IssueThenSign(c: Crypto, keys: seq<SecretKey>, key: SecretKey, uuid: Bytes, start: int, ip: IpAddr,
                      public: IpAddr, now: int)
    requires key in keys && |uuid| == 16 && |PrintInt(start)| <= 12 && I64_MIN <= start <= I64_MAX
    requires TokenTheorems.NoCollisionV1(c, keys, key, V1Message(Uuid.Print(uuid), PrintInt(start)))
    requires InWindow(start, now)
    ensures SignedAnswer(c, Issue(c, key.key, Uuid.Print(uuid), start, ip), keys, public, now)
         == Signed(key, TokenTheorems.SameAddressHash(c, key, start, public, ip),
                   Base64.Encode(c.hmacSha256(key.key, SignatureInput(public, uuid))))
  {
    var text := Uuid.Print(uuid);
    Uuid.ParsePrint(uuid);
    UuidHasNoMarker(text);
    UuidHasNoUnderscore(text);
    TokenTheorems.IssueThenCheckIp(c, keys, key, text, start, ip, public, now);
  }

  lemma UuidHasNoUnderscore(uuid: Bytes)
    requires Uuid.IsUuid(uuid)
    ensures '_' !in uuid
  {
    Uuid.DashedUndashed(uuid, Uuid.Undashed(uuid));
    assert uuid == Uuid.Dashed(Uuid.Undashed(uuid));
  }
}
