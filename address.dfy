/**
 * Platform-independent address values (IPv4 host:port, IPv6 host:port, UNIX-domain path),
 * their equality operators, the variant tag, and the two string renderings.
 */
module Address {
  import opened Common

  /** A host:port pair for an IPv4 address. */
  datatype Ipv4Address = Ipv4Address(host: Str, port: u16) {
    /** operator== compares host and port. */
    function Equals(other: Ipv4Address): (r: bool)
      ensures r <==> this == other
    {
      host == other.host && port == other.port
    }

    /** operator!= is the negation of operator==. */
    function NotEquals(other: Ipv4Address): (r: bool)
      ensures r <==> this != other
    {
      !Equals(other)
    }
  }

  /** A host:port pair for an IPv6 address. */
  datatype Ipv6Address = Ipv6Address(host: Str, port: u16) {
    function Equals(other: Ipv6Address): (r: bool)
      ensures r <==> this == other
    {
      host == other.host && port == other.port
    }

    function NotEquals(other: Ipv6Address): (r: bool)
      ensures r <==> this != other
    {
      !Equals(other)
    }
  }

  /** A file path for a UNIX-domain address. */
  datatype FileAddress = FileAddress(path: Str) {
    function Equals(other: FileAddress): (r: bool)
      ensures r <==> this == other
    {
      path == other.path
    }

    function NotEquals(other: FileAddress): (r: bool)
      ensures r <==> this != other
    {
      !Equals(other)
    }
  }

  /** The `address` variant; alternatives in the order ipv4, ipv6, file. */
  datatype Address =
    | Ipv4(v4: Ipv4Address)
    | Ipv6(v6: Ipv6Address)
    | File(file: FileAddress)

  /** `address_type`, whose enumerators match the variant's index(). */
  datatype AddressType = TypeIpv4 | TypeIpv6 | TypeFile

  /** The numeric value of an `address_type` enumerator. */
  function Ordinal(t: AddressType): nat
  {
    match t
    case TypeIpv4 => 0
    case TypeIpv6 => 1
    case TypeFile => 2
  }

  /** `std::variant::index()`: the position of the active alternative. */
  function VariantIndex(a: Address): nat
  {
    match a
    case Ipv4(_) => 0
    case Ipv6(_) => 1
    case File(_) => 2
  }

  /** `get_address_type`: the enumerator whose value is the variant's index. */
  function GetAddressType(a: Address): (t: AddressType)
    ensures Ordinal(t) == VariantIndex(a)
    ensures t == TypeIpv4 <==> a.Ipv4?
    ensures t == TypeIpv6 <==> a.Ipv6?
    ensures t == TypeFile <==> a.File?
  {
    var i := VariantIndex(a);
    if i == 0 then TypeIpv4 else if i == 1 then TypeIpv6 else TypeFile
  }

  // ---------------------------------------------------------------------------
  // Decimal text of a port, as std::format prints an unsigned integer

  predicate IsDigit(c: Char8)
  {
    '0' <= c <= '9'
  }

  predicate AllDigits(s: Str)
  {
    forall i :: 0 <= i < |s| ==> IsDigit(s[i])
  }

  function DigitChar(d: nat): (c: Char8)
    requires d < 10
    ensures IsDigit(c)
  {
    ('0' as int + d) as char
  }

  function DigitValue(c: Char8): (d: nat)
    requires IsDigit(c)
    ensures d < 10
  {
    c as int - '0' as int
  }

  /** Decimal digits of `n`, most significant first, without leading zeros. */
  function Decimal(n: nat): (s: Str)
    ensures |s| >= 1 && AllDigits(s)
    ensures |s| > 1 ==> s[0] != '0'
  {
    if n < 10 then [DigitChar(n)] else Decimal(n / 10) + [DigitChar(n % 10)]
  }

  /** The number a string of decimal digits denotes. */
  function DecimalValue(s: Str): nat
    requires AllDigits(s)
  {
    if s == [] then 0 else DecimalValue(s[..|s| - 1]) * 10 + DigitValue(s[|s| - 1])
  }

  lemma {:induction false} DecimalRoundTrip(n: nat)
    ensures DecimalValue(Decimal(n)) == n
  {
    if n >= 10 {
      DecimalRoundTrip(n / 10);
      var s := Decimal(n);
      assert s[..|s| - 1] == Decimal(n / 10);
    }
  }

  // ---------------------------------------------------------------------------
  // Plain rendering: "host:port" and the bare path

  /** `to_string(ipv4_address)`: `std::format("{}:{}", host, port)`. */
  function Ipv4ToString(a: Ipv4Address): (r: Str)
    ensures SplitHostPort(r) == Some((a.host, a.port))
  {
    HostPortRoundTrip(a.host, a.port);
    a.host + ":" + Decimal(a.port)
  }

  /** `to_string(ipv6_address)`: the same form, with no brackets around the host. */
  function Ipv6ToString(a: Ipv6Address): (r: Str)
    ensures SplitHostPort(r) == Some((a.host, a.port))
  {
    HostPortRoundTrip(a.host, a.port);
    a.host + ":" + Decimal(a.port)
  }

  /** `to_string(file_address)`: the path itself. */
  function FileToString(a: FileAddress): (r: Str)
    ensures FileAddress(r) == a
  {
    a.path
  }

  // ---------------------------------------------------------------------------
  // Scheme-prefixed rendering of the variant

  const IPV4_SCHEME: Str := "ipv4://"
  const IPV6_SCHEME: Str := "ipv6://"
  const FILE_SCHEME: Str := "file://"

  /** `to_string(address)`: the scheme of the active alternative, then its fields. */
  function ToString(a: Address): (r: Str)
    ensures a.Ipv4? ==> r == IPV4_SCHEME + Ipv4ToString(a.v4)
    ensures a.Ipv6? ==> r == IPV6_SCHEME + Ipv6ToString(a.v6)
    ensures a.File? ==> r == FILE_SCHEME + FileToString(a.file)
  {
    match a
    case Ipv4(Ipv4Address(host, port)) => "ipv4://" + host + ":" + Decimal(port)
    case Ipv6(Ipv6Address(host, port)) => "ipv6://" + host + ":" + Decimal(port)
    case File(FileAddress(path)) => "file://" + path
  }

  /** The scheme a rendering starts with names the variant that was rendered. */
  lemma SchemeDeterminesVariant(a: Address)
    ensures IPV4_SCHEME <= ToString(a) <==> a.Ipv4?
    ensures IPV6_SCHEME <= ToString(a) <==> a.Ipv6?
    ensures FILE_SCHEME <= ToString(a) <==> a.File?
  {
    var r := ToString(a);
    assert r[..7] == IPV4_SCHEME || r[..7] == IPV6_SCHEME || r[..7] == FILE_SCHEME;
    assert IPV4_SCHEME[3] != IPV6_SCHEME[3] && IPV4_SCHEME[0] != FILE_SCHEME[0];
  }

  // ---------------------------------------------------------------------------
  // The inverse of the renderings

  /** Position of the last ':' in `s`, if any. */
  function LastColon(s: Str): (r: Option<nat>)
    ensures r.Some? ==> r.value < |s| && s[r.value] == ':'
    ensures r.Some? ==> forall i :: r.value < i < |s| ==> s[i] != ':'
    ensures r.None? ==> forall i :: 0 <= i < |s| ==> s[i] != ':'
  {
    if s == [] then None
    else if s[|s| - 1] == ':' then Some(|s| - 1)
    else LastColon(s[..|s| - 1])
  }

  /** Splits "host:port" at its last ':'; the port must be decimal digits of a 16-bit value. */
  function SplitHostPort(s: Str): Option<(Str, u16)>
  {
    match LastColon(s)
    case None => None
    case Some(k) =>
      var digits := s[k + 1..];
      if |digits| > 0 && AllDigits(digits) && DecimalValue(digits) < 0x1_0000
      then Some((s[..k], DecimalValue(digits) as u16))
      else None
  }

  lemma HostPortRoundTrip(host: Str, port: u16)
    ensures SplitHostPort(host + ":" + Decimal(port)) == Some((host, port))
  {
    var s := host + ":" + Decimal(port);
    var k := |host|;
    assert s[k] == ':';
    assert forall i :: k < i < |s| ==> IsDigit(s[i]);
    assert LastColon(s) == Some(k);
    assert s[k + 1..] == Decimal(port);
    assert s[..k] == host;
    DecimalRoundTrip(port);
  }

  /** Reads back a scheme-prefixed rendering. */
  function ParseAddress(s: Str): Option<Address>
  {
    if |s| < 7 then None
    else if s[..7] == IPV4_SCHEME then
      match SplitHostPort(s[7..])
      case Some((host, port)) => Some(Ipv4(Ipv4Address(host, port)))
      case None => None
    else if s[..7] == IPV6_SCHEME then
      match SplitHostPort(s[7..])
      case Some((host, port)) => Some(Ipv6(Ipv6Address(host, port)))
      case None => None
    else if s[..7] == FILE_SCHEME then Some(File(FileAddress(s[7..])))
    else None
  }

  /** The scheme-prefixed rendering loses nothing: every address is recovered from its text. */
  lemma RenderingRoundTrip(a: Address)
    ensures ParseAddress(ToString(a)) == Some(a)
  {
    var s := ToString(a);
    match a
    case Ipv4(v) =>
      assert s[..7] == IPV4_SCHEME && s[7..] == Ipv4ToString(v);
    case Ipv6(v) =>
      assert s[..7] == IPV6_SCHEME && s[7..] == Ipv6ToString(v);
      assert IPV6_SCHEME != IPV4_SCHEME;
    case File(f) =>
      assert s[..7] == FILE_SCHEME && s[7..] == f.path;
      assert FILE_SCHEME != IPV4_SCHEME && FILE_SCHEME != IPV6_SCHEME;
  }

  /** Hence two addresses render alike only if they are the same address. */
  lemma RenderingInjective(a: Address, b: Address)
    ensures ToString(a) == ToString(b) <==> a == b
  {
    if ToString(a) == ToString(b) {
      RenderingRoundTrip(a);
      RenderingRoundTrip(b);
    }
  }
}
