/** What the token checks guarantee: time reconstruction, round trip, agreement, key order. */
module TokenTheorems {
  import opened Text
  import opened Address
  import opened Token
  import Base64

  // ── Time reconstruction ────────────────────────────────────────────────────────

  lemma ModShift(n: int, d: int, m: int)
    requires m > 0
    ensures (n + d * m) % m == n % m
  {
    var (q, r) := (n / m, n % m);
    assert n + d * m == (q + d) * m + r;
    ModUnique(n + d * m, q + d, r, m);
  }

  lemma ModUnique(n: int, q: int, r: int, m: int)
    requires m > 0 && 0 <= r < m && n == q * m + r
    ensures n % m == r
  {
    var k := n / m - q;
    assert n % m == r - k * m;
    assert k >= 1 ==> k * m >= m;
    assert k <= -1 ==> k * m <= -m;
  }

  /** The result has the low 32 bits of the token and lies within half a period of `now`. */
  lemma ReconstructIsNearest(time: Time32, now: int)
    ensures Reconstruct(time, now) % PERIOD == time
    ensures -PERIOD / 2 <= Reconstruct(time, now) - now <= PERIOD / 2
  {
    var ahead := (time - now) % PERIOD;
    var q := (time - now) / PERIOD;
    assert now + ahead == time + (-q) * PERIOD;
    ModShift(time, -q, PERIOD);
    ModShift(time, -q - 1, PERIOD);
    assert now + ahead - PERIOD == time + (-q - 1) * PERIOD;
  }

  /** Every start time less than half a period away is recovered from its low 32 bits. */
  lemma ReconstructRecovers(start: int, now: int)
    requires -PERIOD / 2 < start - now < PERIOD / 2
    ensures Reconstruct(start % PERIOD, now) == start
  {
    var q := start / PERIOD;
    var d := start - now;
    assert start % PERIOD - now == d + (-q) * PERIOD;
    ModShift(d, -q, PERIOD);
    if d < 0 {
      ModUnique(d, -1, d + PERIOD, PERIOD);
    }
  }

  /** The window of version 2 in terms of the 32-bit field alone, across the wrap. */
  lemma WindowOfTimeField(time: Time32, now: int)
    ensures InWindow(Reconstruct(time, now), now)
       <==> (time - now) % PERIOD <= MAX_ACCEPT_EARLY || (time - now) % PERIOD >= PERIOD - MAX_ACCEPT_LATE
  {
  }

  /** For one start time and one clock value, both token versions give the same time verdict. */
  lemma SameTimeVerdict(start: int, now: int, keyName: Bytes)
    requires -PERIOD / 2 < start - now < PERIOD / 2
    ensures TimeWindow(Reconstruct(start % PERIOD, now), now, keyName) == TimeWindow(start, now, keyName)
  {
    ReconstructRecovers(start, now);
  }

  /** The time field is in network byte order: the most significant byte comes first. */
  lemma TimeFieldOrder(b: Bytes)
    requires |b| == 4
    ensures FromBigEndian(b) == ((b[0] as int * 0x100 + b[1] as int) * 0x100 + b[2] as int) * 0x100 + b[3] as int
  {
  }

  // ── Taking an issued token apart ───────────────────────────────────────────────

  /** A UUID field the control server puts into a token. */
  predicate UuidField(uuid: Bytes) {
    |uuid| == 36 && '_' !in uuid && '#' !in uuid
  }

  lemma IssuedV1Fields(c: Crypto, key: Bytes, uuid: Bytes, start: int)
    requires UuidField(uuid)
    ensures SplitN(IssueV1(c, key, uuid, start), 3, '_')
         == [uuid, PrintInt(start), Base64.Encode(c.hmacSha1(key, V1Message(uuid, PrintInt(start))))]
  {
    var ts := PrintInt(start);
    var hmac := Base64.Encode(c.hmacSha1(key, V1Message(uuid, ts)));
    assert IssueV1(c, key, uuid, start) == uuid + ['_'] + (ts + ['_'] + hmac);
    SplitNCons(uuid, ts + ['_'] + hmac, 3, '_');
    SplitNCons(ts, hmac, 2, '_');
  }

  lemma IssuedV1HasNoMarker(c: Crypto, key: Bytes, uuid: Bytes, start: int)
    requires UuidField(uuid)
    ensures '#' !in IssueV1(c, key, uuid, start)
    ensures ExtractV2(IssueV1(c, key, uuid, start)) == None
  {
    var raw := IssueV1(c, key, uuid, start);
    NoMarkerNoV2(raw);
  }

  lemma NoMarkerNoV2(raw: Bytes)
    requires '#' !in raw
    ensures ExtractV2(raw) == None
  {
    forall j | 0 <= j <= |raw| ensures !At(raw, "#v2#", j) {
      if j < |raw| {
        assert raw[j] != '#';
      }
    }
  }

  /** Both splitters cut an issued token at the same marker. */
  lemma IssuedSplits(v1: Bytes, v2: Bytes)
    requires '#' !in v1
    ensures ExtractV2(v1 + "_#v2#" + v2) == Some(v2)
    ensures SplitIpToken(v1 + "_#v2#" + v2) == (v1, Some(v2))
  {
    var raw := v1 + "_#v2#" + v2;
    assert raw[|v1| + 1..|v1| + 5] == "#v2#" && raw[|v1|..|v1| + 5] == "_#v2#";
    forall j | 0 <= j < |v1| + 1 ensures !At(raw, "#v2#", j) {
      assert raw[j] == if j < |v1| then v1[j] else '_';
      assert raw[j] != '#';
    }
    forall j | 0 <= j < |v1| ensures !At(raw, "_#v2#", j) {
      assert raw[j + 1] == if j + 1 < |v1| then v1[j + 1] else '_';
      assert raw[j + 1] != '#';
    }
    SplitOnceAt(raw, "#v2#", |v1| + 1);
    SplitOnceAt(raw, "_#v2#", |v1|);
    assert raw[|v1| + 5..] == v2 && raw[..|v1|] == v1;
  }

  lemma IssuedV2Fields(c: Crypto, key: Bytes, start: int, ip: IpAddr)
    ensures var b := IssueV2Bytes(c, key, start, ip);
            var time := BigEndian(start % PERIOD);
            && DecodeV2(Base64.Encode(b)) == Some(b)
            && b[..4] == time
            && FromBigEndian(b[..4]) == start % PERIOD
            && b[4..12] == c.hmacSha256(key, time)[..8]
            && b[12..16] == c.hmacSha256(key, time + Mapped(ip))[..4]
  {
    var b := IssueV2Bytes(c, key, start, ip);
    Base64.DecodeEncode(b);
    assert b[..4] == BigEndian(start % PERIOD);
    BigEndianRoundTrip(start % PERIOD);
  }

  // ── Issue, then check ──────────────────────────────────────────────────────────

  /** No other loaded key produces the same version 1 HMAC. */
  predicate NoCollisionV1(c: Crypto, keys: seq<SecretKey>, key: SecretKey, message: Bytes) {
    forall k :: k in keys && c.hmacSha1(k.key, message) == c.hmacSha1(key.key, message) ==> k == key
  }

  /** No other loaded key produces the same time hash. */
  predicate NoCollisionV2(c: Crypto, keys: seq<SecretKey>, key: SecretKey, time: Bytes) {
    forall k :: k in keys && c.hmacSha256(k.key, time)[..8] == c.hmacSha256(key.key, time)[..8] ==> k == key
  }

  /** The address hash does not tell the two addresses apart. */
  predicate SameAddressHash(c: Crypto, key: SecretKey, start: int, a: IpAddr, b: IpAddr) {
    var time := BigEndian(start % PERIOD);
    c.hmacSha256(key.key, time + Mapped(a))[..4] == c.hmacSha256(key.key, time + Mapped(b))[..4]
  }

  lemma IssuedV1Matches(c: Crypto, keys: seq<SecretKey>, key: SecretKey, uuid: Bytes, start: int)
    requires key in keys && UuidField(uuid) && |PrintInt(start)| <= 12 && I64_MIN <= start <= I64_MAX
    requires NoCollisionV1(c, keys, key, V1Message(uuid, PrintInt(start)))
    ensures MatchV1(c, IssueV1(c, key.key, uuid, start), keys) == Ok(V1Match(uuid, start, key))
  {
    IssuedV1Fields(c, key.key, uuid, start);
    ParsePrintInt(start);
    var message := V1Message(uuid, PrintInt(start));
    var hmac := Base64.Encode(c.hmacSha1(key.key, message));
    forall k | k in keys && SignsV1(c, k, message, hmac) ensures k == key {
      Base64.EncodeInjective(c.hmacSha1(k.key, message), c.hmacSha1(key.key, message));
    }
    assert SignsV1(c, key, message, hmac);
  }

  lemma IssuedV2Issuer(c: Crypto, keys: seq<SecretKey>, key: SecretKey, start: int, ip: IpAddr)
    requires key in keys && NoCollisionV2(c, keys, key, BigEndian(start % PERIOD))
    ensures IssuerV2(c, keys, IssueV2Bytes(c, key.key, start, ip)) == Some(key)
  {
    IssuedV2Fields(c, key.key, start, ip);
    var b := IssueV2Bytes(c, key.key, start, ip);
    assert SignsTime(c, key, b);
    forall k | k in keys && SignsTime(c, k, b) ensures k == key {
    }
  }

  /** `/ip`, given an issued token: the window decides, then the issuing key answers. */
  lemma IssueThenCheckIp(c: Crypto, keys: seq<SecretKey>, key: SecretKey, uuid: Bytes, start: int, ip: IpAddr,
                         source: IpAddr, now: int)
    requires key in keys && UuidField(uuid) && |PrintInt(start)| <= 12 && I64_MIN <= start <= I64_MAX
    requires NoCollisionV1(c, keys, key, V1Message(uuid, PrintInt(start)))
    ensures CheckIpToken(c, Issue(c, key.key, uuid, start, ip), keys, source, now)
         == match WindowCheck(start, now)
            case Err(rejected) => Err(rejected)
            case Ok(_) => Ok(IpToken(key, uuid, SameAddressHash(c, key, start, source, ip)))
  {
    IssuedV1HasNoMarker(c, key.key, uuid, start);
    IssuedSplits(IssueV1(c, key.key, uuid, start), Base64.Encode(IssueV2Bytes(c, key.key, start, ip)));
    IssuedV1Matches(c, keys, key, uuid, start);
    IssuedV2Fields(c, key.key, start, ip);
  }

  /** The measurement, given an issued token: the address decides, then the window around its start. */
  lemma IssueThenValidate(c: Crypto, keys: seq<SecretKey>, key: SecretKey, uuid: Bytes, start: int, ip: IpAddr,
                          source: IpAddr, v2Only: bool, now1: int, now2: int)
    requires key in keys && UuidField(uuid)
    requires NoCollisionV2(c, keys, key, BigEndian(start % PERIOD))
    requires -PERIOD / 2 < start - now1 < PERIOD / 2
    ensures Verdict(c, Issue(c, key.key, uuid, start, ip), keys, Some(source), v2Only, now1, now2)
         == if SameAddressHash(c, key, start, source, ip) then TimeWindow(start, now2, key.name) else InvalidIp
  {
    IssuedV1HasNoMarker(c, key.key, uuid, start);
    IssuedSplits(IssueV1(c, key.key, uuid, start), Base64.Encode(IssueV2Bytes(c, key.key, start, ip)));
    IssuedV2Fields(c, key.key, start, ip);
    IssuedV2Issuer(c, keys, key, start, ip);
    ReconstructRecovers(start, now1);
  }

  /** A legacy token, without the marker, is accepted in the window unless version 2 is demanded. */
  lemma IssueThenValidateV1(c: Crypto, keys: seq<SecretKey>, key: SecretKey, uuid: Bytes, start: int,
                            source: Option<IpAddr>, v2Only: bool, now1: int, now2: int)
    requires key in keys && UuidField(uuid) && |PrintInt(start)| <= 12 && I64_MIN <= start <= I64_MAX
    requires NoCollisionV1(c, keys, key, V1Message(uuid, PrintInt(start)))
    ensures Verdict(c, IssueV1(c, key.key, uuid, start), keys, source, v2Only, now1, now2)
         == if v2Only then V2Required else TimeWindow(start, now2, key.name)
  {
    IssuedV1HasNoMarker(c, key.key, uuid, start);
    IssuedV1Matches(c, keys, key, uuid, start);
  }

  /** The two checkers agree on an issued token, from the issued address or any other. */
  lemma CheckersAgree(c: Crypto, keys: seq<SecretKey>, key: SecretKey, uuid: Bytes, start: int, ip: IpAddr,
                      source: IpAddr, v2Only: bool, now: int)
    requires key in keys && UuidField(uuid) && |PrintInt(start)| <= 12 && I64_MIN <= start <= I64_MAX
    requires NoCollisionV1(c, keys, key, V1Message(uuid, PrintInt(start)))
    requires NoCollisionV2(c, keys, key, BigEndian(start % PERIOD))
    requires InWindow(start, now)
    ensures var raw := Issue(c, key.key, uuid, start, ip);
            var check := CheckIpToken(c, raw, keys, ToCanonical(source), now);
            var verdict := Verdict(c, raw, keys, Some(source), v2Only, now, now);
            && check.Ok? && check.value.key == key && check.value.openTestUuid == uuid
            && (check.value.matchingIp <==> verdict.Accepted?)
            && (!check.value.matchingIp <==> verdict == InvalidIp)
            && (ToCanonical(source) == ToCanonical(ip) ==> check.value.matchingIp && verdict.keyName == key.name)
  {
    IssueThenCheckIp(c, keys, key, uuid, start, ip, ToCanonical(source), now);
    IssueThenValidate(c, keys, key, uuid, start, ip, source, v2Only, now, now);
    MappedDeterminesAddress(source, ip);
  }

  // ── Key order ──────────────────────────────────────────────────────────────────

  /** All loaded keys that sign `message` as `hmac` are the same key. */
  predicate SoleSignerV1(c: Crypto, keys: seq<SecretKey>, message: Bytes, hmac: Bytes) {
    forall x, y :: x in keys && y in keys && SignsV1(c, x, message, hmac) && SignsV1(c, y, message, hmac) ==> x == y
  }

  /** All loaded keys that sign the time field are the same key. */
  predicate SoleSignerV2(c: Crypto, keys: seq<SecretKey>, bytes: V2Bytes) {
    forall x, y :: x in keys && y in keys && SignsTime(c, x, bytes) && SignsTime(c, y, bytes) ==> x == y
  }

  /** At most one loaded key signed the version 1 part of `raw`. */
  predicate SoleIssuerV1(c: Crypto, raw: Bytes, keys: seq<SecretKey>) {
    var parts := SplitN(raw, 3, '_');
    |parts| == 3 ==> SoleSignerV1(c, keys, V1Message(parts[0], parts[1]), parts[2])
  }

  /** At most one loaded key signed the time field of the version 2 part `v2`. */
  predicate SoleIssuerV2(c: Crypto, v2: Bytes, keys: seq<SecretKey>) {
    DecodeV2(v2).Some? ==> SoleSignerV2(c, keys, DecodeV2(v2).value)
  }

  lemma MatchV1Unordered(c: Crypto, raw: Bytes, keys: seq<SecretKey>, other: seq<SecretKey>)
    requires multiset(keys) == multiset(other) && SoleIssuerV1(c, raw, keys)
    ensures MatchV1(c, raw, keys) == MatchV1(c, raw, other)
  {
    var parts := SplitN(raw, 3, '_');
    if |parts| == 3 {
      IssuerV1Unordered(c, keys, other, V1Message(parts[0], parts[1]), parts[2]);
    }
  }

  lemma IssuerV1Unordered(c: Crypto, keys: seq<SecretKey>, other: seq<SecretKey>, message: Bytes, hmac: Bytes)
    requires multiset(keys) == multiset(other) && SoleSignerV1(c, keys, message, hmac)
    ensures IssuerV1(c, keys, message, hmac) == IssuerV1(c, other, message, hmac)
  {
    FirstUnordered(keys, other, (k: SecretKey) => SignsV1(c, k, message, hmac));
    assert forall x :: x in keys <==> x in multiset(keys);
    assert forall x :: x in other <==> x in multiset(other);
  }

  lemma IssuerV2Unordered(c: Crypto, keys: seq<SecretKey>, other: seq<SecretKey>, bytes: V2Bytes)
    requires multiset(keys) == multiset(other) && SoleSignerV2(c, keys, bytes)
    ensures IssuerV2(c, keys, bytes) == IssuerV2(c, other, bytes)
  {
    FirstUnordered(keys, other, (k: SecretKey) => SignsTime(c, k, bytes));
    assert forall x :: x in keys <==> x in multiset(keys);
    assert forall x :: x in other <==> x in multiset(other);
  }

  /** Reordering the key file changes no verdict and no label. */
  lemma VerdictUnordered(c: Crypto, raw: Bytes, keys: seq<SecretKey>, other: seq<SecretKey>, source: Option<IpAddr>,
                         v2Only: bool, now1: int, now2: int)
    requires multiset(keys) == multiset(other)
    requires ExtractV2(raw).None? ==> SoleIssuerV1(c, raw, keys)
    requires ExtractV2(raw).Some? ==> SoleIssuerV2(c, ExtractV2(raw).value, keys)
    ensures Verdict(c, raw, keys, source, v2Only, now1, now2) == Verdict(c, raw, other, source, v2Only, now1, now2)
  {
    match ExtractV2(raw)
    case None => MatchV1Unordered(c, raw, keys, other);
    case Some(v2) =>
      if DecodeV2(v2).Some? {
        IssuerV2Unordered(c, keys, other, DecodeV2(v2).value);
      }
  }

  /** Reordering the key file changes neither the answer of `/ip` nor the key that signs it. */
  lemma CheckIpTokenUnordered(c: Crypto, raw: Bytes, keys: seq<SecretKey>, other: seq<SecretKey>, source: IpAddr,
                              now: int)
    requires multiset(keys) == multiset(other)
    requires SoleIssuerV1(c, SplitIpToken(raw).0, keys)
    ensures CheckIpToken(c, raw, keys, source, now) == CheckIpToken(c, raw, other, source, now)
  {
    MatchV1Unordered(c, SplitIpToken(raw).0, keys, other);
  }
}
