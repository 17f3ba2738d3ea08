/** Tokens: how they are checked, and how the control server issues them. */
module Token {
  import opened Text
  import opened Address
  import opened Clocks
  import Base64

  type Digest20 = b: Bytes | |b| == 20 witness seq(20, _ => '\0')

  type Digest32 = b: Bytes | |b| == 32 witness seq(32, _ => '\0')

  /** HMAC-SHA1 and HMAC-SHA256 as arbitrary functions of key and message (section 2 of RFC 2104). */
  datatype Crypto = Crypto(hmacSha1: (Bytes, Bytes) -> Digest20, hmacSha256: (Bytes, Bytes) -> Digest32)

  datatype SecretKey = SecretKey(key: Bytes, name: Bytes)

  datatype TokenResult =
    | Accepted(sleepSecs: nat, keyName: Bytes)
    | InvalidHmac
    | InvalidIp
    | TooEarly(reason: Bytes)
    | TooLate(reason: Bytes)
    | ParseError
    | V2Required

  /** How many seconds early, and how many late, a client may connect. */
  const MAX_ACCEPT_EARLY: int := 20
  const MAX_ACCEPT_LATE: int := 90

  // ── The accept window ──────────────────────────────────────────────────────────

  predicate InWindow(start: int, now: int) {
    start - now <= MAX_ACCEPT_EARLY && now - start <= MAX_ACCEPT_LATE
  }

  /** How many seconds early the client is, or why it is refused. */
  function WindowCheck(start: int, now: int): (r: Result<int, TokenResult>)
    ensures r.Ok? <==> InWindow(start, now)
    ensures r.Err? ==> r.error.TooEarly? || r.error.TooLate?
  {
    if start - now > MAX_ACCEPT_EARLY then
      Err(TooEarly("token not valid yet: client is " + PrintInt(start - now) + "s early (max 20)"))
    else if now - start > MAX_ACCEPT_LATE then
      Err(TooLate("token expired: client is " + PrintInt(now - start) + "s late (max 90)"))
    else Ok(start - now)
  }

  function TimeWindow(start: int, now: int, keyName: Bytes): (r: TokenResult)
    ensures r.Accepted? <==> InWindow(start, now)
    ensures r.Accepted? ==> r.keyName == keyName && start <= now + r.sleepSecs && r.sleepSecs <= 20
  {
    match WindowCheck(start, now)
    case Err(rejected) => rejected
    case Ok(early) => Accepted(if early > 0 then early else 0, keyName)
  }

  // ── Version 1: UUID_TIMESTAMP_HMAC ─────────────────────────────────────────────

  datatype V1Match = V1Match(uuid: Bytes, start: int, key: SecretKey)

  predicate SignsV1(c: Crypto, key: SecretKey, message: Bytes, hmac: Bytes) {
    Base64.Encode(c.hmacSha1(key.key, message)) == hmac
  }

  /** The first loaded key that signs `message` as `hmac`. */
  function IssuerV1(c: Crypto, keys: seq<SecretKey>, message: Bytes, hmac: Bytes): Option<SecretKey> {
    First(keys, (k: SecretKey) => SignsV1(c, k, message, hmac))
  }

  /** The signed part of a version 1 token. */
  function V1Message(uuid: Bytes, timestamp: Bytes): Bytes {
    uuid + "_" + timestamp
  }

  function MatchV1(c: Crypto, raw: Bytes, keys: seq<SecretKey>): Result<V1Match, TokenResult> {
    var parts := SplitN(raw, 3, '_');
    if |parts| != 3 || |parts[0]| != 36 || parts[1] == [] || |parts[1]| > 12 then Err(ParseError)
    else match ParseI64(parts[1])
      case None => Err(ParseError)
      case Some(start) =>
        match IssuerV1(c, keys, V1Message(parts[0], parts[1]), parts[2])
        case None => Err(InvalidHmac)
        case Some(key) => Ok(V1Match(parts[0], start, key))
  }

  function ValidateV1(c: Crypto, raw: Bytes, keys: seq<SecretKey>, now: int): TokenResult {
    match MatchV1(c, raw, keys)
    case Err(rejected) => rejected
    case Ok(m) => TimeWindow(m.start, now, m.key.name)
  }

  // ── Version 2: base64 of time, time hash and address hash ──────────────────────

  const PERIOD: int := 0x1_0000_0000

  type Time32 = n: nat | n < 0x1_0000_0000

  type V2Bytes = b: Bytes | |b| == 16 witness seq(16, _ => '\0')

  /** A 32-bit number in network byte order. */
  function BigEndian(n: Time32): (b: Bytes)
    ensures |b| == 4
  {
    [(n / 0x100_0000) as char, (n / 0x1_0000 % 0x100) as char, (n / 0x100 % 0x100) as char, (n % 0x100) as char]
  }

  function FromBigEndian(b: Bytes): Time32
    requires |b| == 4
  {
    b[0] as int * 0x100_0000 + b[1] as int * 0x1_0000 + b[2] as int * 0x100 + b[3] as int
  }

  lemma BigEndianRoundTrip(n: Time32)
    ensures FromBigEndian(BigEndian(n)) == n
  {
    var (q1, q2, q3) := (n / 0x100, n / 0x1_0000, n / 0x100_0000);
    assert q2 == q1 / 0x100 && q3 == q2 / 0x100;
    assert n == q1 * 0x100 + n % 0x100 && q1 == q2 * 0x100 + q1 % 0x100 && q2 == q3 * 0x100 + q2 % 0x100;
  }

  predicate SignsTime(c: Crypto, key: SecretKey, bytes: V2Bytes) {
    c.hmacSha256(key.key, bytes[..4])[..8] == bytes[4..12]
  }

  predicate SignsAddress(c: Crypto, key: SecretKey, bytes: V2Bytes, ip16: Octets16) {
    c.hmacSha256(key.key, bytes[..4] + ip16)[..4] == bytes[12..16]
  }

  datatype V2Match = TimeMismatch | IpMismatch | Match

  function MatchV2(c: Crypto, bytes: V2Bytes, key: SecretKey, ip16: Octets16): V2Match {
    if !SignsTime(c, key, bytes) then TimeMismatch
    else if SignsAddress(c, key, bytes, ip16) then Match
    else IpMismatch
  }

  /** The first loaded key that signs the time field: it alone decides. */
  function IssuerV2(c: Crypto, keys: seq<SecretKey>, bytes: V2Bytes): Option<SecretKey> {
    First(keys, (k: SecretKey) => SignsTime(c, k, bytes))
  }

  /** The key at index `i` decides if it signs the time and no earlier one does. */
  lemma IssuerV2At(c: Crypto, keys: seq<SecretKey>, bytes: V2Bytes, i: nat)
    requires i < |keys| && SignsTime(c, keys[i], bytes)
    requires forall j :: 0 <= j < i ==> !SignsTime(c, keys[j], bytes)
    ensures IssuerV2(c, keys, bytes) == Some(keys[i])
  {
    assert keys[i] in keys;
  }

  /** The absolute time nearest to `now` with the low 32 bits `time`. */
  function Reconstruct(time: Time32, now: int): (t: int)
  {
    var ahead := (time - now) % PERIOD;
    if ahead < PERIOD / 2 || (ahead == PERIOD / 2 && now % PERIOD < PERIOD / 2) then now + ahead
    else now + ahead - PERIOD
  }

  /** `reconstruct_time`: start from the block of `now`, then move by one period if that is nearer. */
  method ReconstructTime(time: Time32, now: int) returns (t: int)
    ensures t == Reconstruct(time, now)
  {
    t := now - now % PERIOD + time;
    ReconstructBlock(time, now);
    if t - now > PERIOD / 2 {
      t := t - PERIOD;
    } else if now - t > PERIOD / 2 {
      t := t + PERIOD;
    }
  }

  lemma ReconstructBlock(time: Time32, now: int)
    ensures var d := time - now % PERIOD; (time - now) % PERIOD == if d >= 0 then d else d + PERIOD
  {
    var (d, q) := (time - now % PERIOD, now / PERIOD);
    assert time - now == d - q * PERIOD;
    if d >= 0 {
      assert time - now == -q * PERIOD + d;
    } else {
      assert time - now == (-q - 1) * PERIOD + (d + PERIOD);
    }
  }

  /** What is read from the text of a version 2 token. */
  function DecodeV2(raw: Bytes): Option<V2Bytes> {
    match Base64.Decode(raw)
    case Some(b) => if |b| == 16 then Some(b) else None
    case None => None
  }

  /** The verdict on a version 2 token, given the two clock readings the check makes. */
  function VerdictV2(c: Crypto, raw: Bytes, keys: seq<SecretKey>, source: Option<IpAddr>, now1: int,
                     now2: int): TokenResult {
    match DecodeV2(raw)
    case None => ParseError
    case Some(bytes) =>
      if source.None? then InvalidIp else
      match IssuerV2(c, keys, bytes)
      case None => InvalidHmac
      case Some(key) =>
        if !SignsAddress(c, key, bytes, Mapped(source.value)) then InvalidIp
        else TimeWindow(Reconstruct(FromBigEndian(bytes[..4]), now1), now2, key.name)
  }

  /** `validate_v2`: search the keys, then read the clock twice. */
  method ValidateV2(c: Crypto, raw: Bytes, keys: seq<SecretKey>, source: Option<IpAddr>, clock: Clock)
    returns (r: TokenResult, ghost now1: int, ghost now2: int)
    modifies clock
    ensures r == VerdictV2(c, raw, keys, source, now1, now2)
    ensures Seconds(old(clock.now)) <= now1 <= now2 == Seconds(clock.now)
    ensures old(clock.now) <= clock.now
  {
    now1, now2 := Seconds(clock.now), Seconds(clock.now);
    var decoded := DecodeV2(raw);
    if decoded.None? {
      return ParseError, now1, now2;
    }
    var bytes := decoded.value;
    if source.None? {
      return InvalidIp, now1, now2;
    }
    var ip16 := MappedIpv6(source.value);
    var matchedName, ipMismatch := SearchV2(c, bytes, keys, ip16[..]);
    if matchedName.None? {
      return if ipMismatch then InvalidIp else InvalidHmac, now1, now2;
    }
    var now := clock.NowSecs();
    var start := ReconstructTime(FromBigEndian(bytes[..4]), now);
    now1 := now;
    now := clock.NowSecs();
    now2 := now;
    r := TimeWindow(start, now, matchedName.value);
  }

  /** The key loop of `validate_v2`: it stops at the first key that signs the time. */
  method SearchV2(c: Crypto, bytes: V2Bytes, keys: seq<SecretKey>, ip16: Octets16)
    returns (matchedName: Option<Bytes>, ipMismatch: bool)
    ensures match IssuerV2(c, keys, bytes)
            case None => matchedName.None? && !ipMismatch
            case Some(key) =>
              if SignsAddress(c, key, bytes, ip16) then matchedName == Some(key.name)
              else matchedName.None? && ipMismatch
  {
    matchedName, ipMismatch := None, false;
    for i := 0 to |keys|
      invariant matchedName.None? && !ipMismatch
      invariant forall j :: 0 <= j < i ==> !SignsTime(c, keys[j], bytes)
    {
      match MatchV2(c, bytes, keys[i], ip16) {
        case TimeMismatch => continue;
        case IpMismatch => ipMismatch := true;
        case Match => matchedName := Some(keys[i].name);
      }
      IssuerV2At(c, keys, bytes, i);
      break;
    }
  }

  // ── Both versions ──────────────────────────────────────────────────────────────

  /** The part after the marker, which selects version 2. */
  function ExtractV2(raw: Bytes): Option<Bytes> {
    match SplitOnce(raw, "#v2#")
    case None => None
    case Some(p) => Some(p.1)
  }

  function Verdict(c: Crypto, raw: Bytes, keys: seq<SecretKey>, source: Option<IpAddr>, v2Only: bool, now1: int,
                   now2: int): TokenResult {
    match ExtractV2(raw)
    case Some(v2) => VerdictV2(c, v2, keys, source, now1, now2)
    case None => if v2Only then V2Required else ValidateV1(c, raw, keys, now2)
  }

  /** The start time an accepted token carries. */
  function StartTime(raw: Bytes, now1: int): int {
    match ExtractV2(raw)
    case Some(v2) => (match DecodeV2(v2) case Some(b) => Reconstruct(FromBigEndian(b[..4]), now1) case None => 0)
    case None =>
      var parts := SplitN(raw, 3, '_');
      if |parts| == 3 then (match ParseI64(parts[1]) case Some(t) => t case None => 0) else 0
  }

  /** `validate_token`. */
  method ValidateToken(c: Crypto, raw: Bytes, keys: seq<SecretKey>, source: Option<IpAddr>, v2Only: bool, clock: Clock)
    returns (r: TokenResult, ghost now1: int, ghost now2: int)
    modifies clock
    ensures r == Verdict(c, raw, keys, source, v2Only, now1, now2)
    ensures Seconds(old(clock.now)) <= now1 <= now2 == Seconds(clock.now)
    ensures old(clock.now) <= clock.now
  {
    var v2 := ExtractV2(raw);
    if v2.Some? {
      r, now1, now2 := ValidateV2(c, v2.value, keys, source, clock);
    } else if v2Only {
      r, now1, now2 := V2Required, Seconds(clock.now), Seconds(clock.now);
    } else {
      var now := clock.NowSecs();
      now1, now2 := now, now;
      r := ValidateV1(c, raw, keys, now);
    }
  }

  // ── The `/ip` check ────────────────────────────────────────────────────────────

  datatype IpToken = IpToken(key: SecretKey, openTestUuid: Bytes, matchingIp: bool)

  /** The version 1 part identifies the key; the version 2 part is checked with that key only. */
  function CheckIpToken(c: Crypto, raw: Bytes, keys: seq<SecretKey>, source: IpAddr,
                        now: int): Result<IpToken, TokenResult> {
    var (v1, v2) := SplitIpToken(raw);
    match MatchV1(c, v1, keys)
    case Err(rejected) => Err(rejected)
    case Ok(m) =>
      match WindowCheck(m.start, now)
      case Err(rejected) => Err(rejected)
      case Ok(_) => Ok(IpToken(m.key, m.uuid, v2.Some? && MatchesAddress(c, v2.value, m.key, source)))
  }

  function SplitIpToken(raw: Bytes): (Bytes, Option<Bytes>) {
    match SplitOnce(raw, "_#v2#")
    case None => (raw, None)
    case Some(p) => (p.0, Some(p.1))
  }

  predicate MatchesAddress(c: Crypto, v2: Bytes, key: SecretKey, source: IpAddr) {
    match DecodeV2(v2)
    case None => false
    case Some(bytes) => MatchV2(c, bytes, key, Mapped(source)) == Match
  }

  // ── Issuing ────────────────────────────────────────────────────────────────────

  /** A version 1 token: its message and what the key makes of it. */
  function SignedV1(c: Crypto, key: Bytes, uuid: Bytes, timestamp: Bytes): Bytes {
    V1Message(uuid, timestamp) + "_" + Base64.Encode(c.hmacSha1(key, V1Message(uuid, timestamp)))
  }

  function IssueV1(c: Crypto, key: Bytes, uuid: Bytes, start: int): Bytes {
    SignedV1(c, key, uuid, PrintInt(start))
  }

  function IssueV2Bytes(c: Crypto, key: Bytes, start: int, ip: IpAddr): V2Bytes {
    var time := BigEndian(start % PERIOD);
    time + c.hmacSha256(key, time)[..8] + c.hmacSha256(key, time + Mapped(ip))[..4]
  }

  /** The combined token of the control server. */
  function Issue(c: Crypto, key: Bytes, uuid: Bytes, start: int, ip: IpAddr): Bytes {
    IssueV1(c, key, uuid, start) + "_#v2#" + Base64.Encode(IssueV2Bytes(c, key, start, ip))
  }
}
