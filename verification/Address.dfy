/** Client addresses and their 16-byte form, in which tokens and signatures bind them. */
module Address {
  import opened Text

  type Octets4 = b: Bytes | |b| == 4 witness ['\0', '\0', '\0', '\0']

  type Octets16 = b: Bytes | |b| == 16
    witness ['\0', '\0', '\0', '\0', '\0', '\0', '\0', '\0', '\0', '\0', '\0', '\0', '\0', '\0', '\0', '\0']

  datatype IpAddr = V4(v4: Octets4) | V6(v6: Octets16)

  /** `::ffff:0:0/96`, the prefix of the IPv4-mapped addresses. */
  const MAPPED_PREFIX: Bytes :=
    ['\0', '\0', '\0', '\0', '\0', '\0', '\0', '\0', '\0', '\0', 0xFF as char, 0xFF as char]

  /** An IPv4 address as its IPv4-mapped IPv6 address, an IPv6 address as it is. */
  function Mapped(ip: IpAddr): Octets16 {
    match ip
    case V4(o) => MAPPED_PREFIX + o
    case V6(o) => o
  }

  /** Rust's `to_canonical`: an IPv4-mapped IPv6 address becomes the IPv4 address. */
  function ToCanonical(ip: IpAddr): IpAddr {
    match ip
    case V4(_) => ip
    case V6(o) => if o[..12] == MAPPED_PREFIX then V4(o[12..]) else ip
  }

  /** The layout of an IPv4-mapped address (section 2.5.5.2 of RFC 4291). */
  lemma MappedLayout(o: Octets4, i: nat)
    requires i < 16
    ensures Mapped(V4(o))[i] == if i < 10 then '\0' else if i < 12 then 0xFF as char else o[i - 12]
  {
  }

  /** The 16 bytes determine the address, and nothing but the canonical address. */
  lemma MappedDeterminesAddress(a: IpAddr, b: IpAddr)
    ensures Mapped(ToCanonical(a)) == Mapped(a)
    ensures Mapped(a) == Mapped(b) <==> ToCanonical(a) == ToCanonical(b)
    ensures ToCanonical(ToCanonical(a)) == ToCanonical(a)
  {
    CanonicalOfMapped(a);
    CanonicalOfMapped(b);
  }

  lemma CanonicalOfMapped(ip: IpAddr)
    ensures Mapped(ToCanonical(ip)) == Mapped(ip)
    ensures ToCanonical(V6(Mapped(ip))) == ToCanonical(ip)
  {
    match ip
    case V4(o) =>
      assert (MAPPED_PREFIX + o)[..12] == MAPPED_PREFIX;
      assert (MAPPED_PREFIX + o)[12..] == o;
    case V6(o) =>
      assert o == o[..12] + o[12..];
  }

  /** `mapped_ipv6` of the token check: the array is filled in place. */
  method MappedIpv6(ip: IpAddr) returns (m: array<Byte>)
    ensures fresh(m) && m[..] == Mapped(ip)
  {
    m := new Byte[16](_ => '\0');
    match ip {
      case V6(a) =>
        forall i | 0 <= i < 16 {
          m[i] := a[i];
        }
      case V4(o) =>
        m[10] := 0xFF as char;
        m[11] := 0xFF as char;
        m[12], m[13], m[14], m[15] := o[0], o[1], o[2], o[3];
    }
  }
}
