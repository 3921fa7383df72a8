/**
 * The raw-address bridge: a generic Address encoded into, and decoded from, the fixed-capacity
 * native socket address buffer (`sockaddr_storage`) that bind/connect/accept use.
 *
 * The buffer follows the BSD layout, where every structure starts with a length byte and a
 * family byte (the source reads and writes `ss_len`, which only that layout has):
 *   sockaddr_in   len, family, port[2], in_addr[4], zero[8]
 *   sockaddr_in6  len, family, port[2], flowinfo[4], in6_addr[16], scope_id[4]
 *   sockaddr_un   len, family, sun_path[SUN_PATH_CAP]
 * Ports are stored in network byte order (most significant byte first).
 */
module RawAddress {
  import opened Common
  import opened Address

  // Sizes of the native structures (BSD / macOS values).
  const STORAGE_CAP: nat := 128  // sizeof(sockaddr_storage)
  const SIN_LEN: byte := 16      // sizeof(sockaddr_in)
  const SIN6_LEN: byte := 28     // sizeof(sockaddr_in6)
  const SUN_LEN: byte := 106     // sizeof(sockaddr_un)
  const SUN_PATH_CAP: nat := 104 // sizeof(sockaddr_un::sun_path)
  const IN4_ADDR_LEN: nat := 4
  const IN6_ADDR_LEN: nat := 16

  // Field offsets shared by the three structures.
  const LEN_OFFSET: nat := 0
  const FAMILY_OFFSET: nat := 1
  const PORT_OFFSET: nat := 2
  const IN4_ADDR_OFFSET: nat := 4
  const IN6_ADDR_OFFSET: nat := 8
  const SUN_PATH_OFFSET: nat := 2

  // Address family tags (macOS values).
  const AF_UNIX: byte := 1
  const AF_INET: byte := 2
  const AF_INET6: byte := 30

  /** The contents of a `sockaddr_storage`. */
  type Storage = s: seq<byte> | |s| == STORAGE_CAP witness Zeros(STORAGE_CAP)

  /** Packed binary hosts, as `inet_pton` writes them. */
  type In4Addr = s: seq<byte> | |s| == 4 witness [0, 0, 0, 0]
  type In6Addr = s: seq<byte> | |s| == 16 witness Zeros(16)

  function Zeros(n: nat): (s: seq<byte>)
    ensures |s| == n
    ensures forall i :: 0 <= i < n ==> s[i] == 0
  {
    if n == 0 then [] else Zeros(n - 1) + [0]
  }

  /** A `sockaddr_storage{0}`. */
  const ZEROS: Storage := Zeros(STORAGE_CAP)

  /**
   * The numeric host text codec of the C library (`inet_pton` and `inet_ntop` for AF_INET and
   * AF_INET6), which is outside this model: every operation that needs it takes it as a parameter.
   * A `None` is the call's failure (`inet_pton` returning 0, `inet_ntop` returning null).
   */
  datatype InetCodec = InetCodec(
    pton4: Str -> Option<In4Addr>,
    ntop4: In4Addr -> Option<Str>,
    pton6: Str -> Option<In6Addr>,
    ntop6: In6Addr -> Option<Str>)

  /** The std::runtime_error cases of the bridge. */
  datatype RawAddressError =
    | MalformedHost(kind: AddressType)      // the host is not a numeric address of its family
    | EmptyPath                             // the file path is empty
    | PathTooLong                           // the file path does not fit sun_path with its terminator
    | OversizedData                         // more bytes than a sockaddr_storage holds
    | MalformedData(kind: AddressType)      // a known family whose length byte is not its size
    | UnsupportedFamily(family: byte)       // a family tag that is none of the three
    | MalformedRawHost(kind: AddressType)   // inet_ntop could not print the stored host

  /** A `raw_address`: it owns one `sockaddr_storage`. */
  datatype RawAddress = RawAddress(data: Storage)

  function Len(r: RawAddress): byte
  {
    r.data[LEN_OFFSET]
  }

  function Family(r: RawAddress): byte
  {
    r.data[FAMILY_OFFSET]
  }

  /** The structure size that belongs to a family tag, if the family is one of the three. */
  function StructLen(family: byte): Option<byte>
  {
    if family == AF_INET then Some(SIN_LEN)
    else if family == AF_INET6 then Some(SIN6_LEN)
    else if family == AF_UNIX then Some(SUN_LEN)
    else None
  }

  /** The all-zero state of a default-constructed raw address. */
  predicate IsNull(r: RawAddress)
  {
    r.data == ZEROS
  }

  /** The class invariant: either null, or a known family whose length byte is its size. */
  predicate Valid(r: RawAddress)
  {
    IsNull(r) || (StructLen(Family(r)).Some? && Len(r) == StructLen(Family(r)).value)
  }

  // ---------------------------------------------------------------------------
  // Byte-level helpers

  /** `bs` written over `s` at `off`. */
  function Put(s: seq<byte>, off: nat, bs: seq<byte>): (t: seq<byte>)
    requires off + |bs| <= |s|
    ensures |t| == |s|
    ensures t[off..off + |bs|] == bs
    ensures forall i :: 0 <= i < |s| && !(off <= i < off + |bs|) ==> t[i] == s[i]
  {
    s[..off] + bs + s[off + |bs|..]
  }

  /** `htons`: the two bytes of a port in network byte order. */
  function PortBytes(port: u16): (bs: seq<byte>)
    ensures |bs| == 2
  {
    [port / 256, port % 256]
  }

  /** `ntohs`: the port that two network-order bytes hold. */
  function PortOf(bs: seq<byte>): u16
    requires |bs| == 2
  {
    (bs[0] as int * 256 + bs[1] as int) as u16
  }

  /** The htons/ntohs pair are inverse bijections between ports and byte pairs. */
  lemma PortByteOrder(port: u16, bs: seq<byte>)
    requires |bs| == 2
    ensures PortOf(PortBytes(port)) == port
    ensures PortBytes(PortOf(bs)) == bs
  {
  }

  /** What `strlen` sees: the bytes before the first NUL (all of them if there is none). */
  function CString(bs: seq<byte>): (s: seq<byte>)
    ensures s <= bs
    ensures forall i :: 0 <= i < |s| ==> s[i] != 0
    ensures |s| < |bs| ==> bs[|s|] == 0
  {
    if bs == [] || bs[0] == 0 then [] else [bs[0]] + CString(bs[1..])
  }

  // ---------------------------------------------------------------------------
  // Encoding: raw_address(const address&) and storage_from_address

  function Ipv4Storage(host: In4Addr, port: u16): (st: Storage)
    ensures st[FAMILY_OFFSET] == AF_INET && st[LEN_OFFSET] == SIN_LEN
  {
    var s := Put(ZEROS, IN4_ADDR_OFFSET, host);
    var s := s[FAMILY_OFFSET := AF_INET];
    var s := s[PORT_OFFSET := PortBytes(port)[0]][PORT_OFFSET + 1 := PortBytes(port)[1]];
    s[LEN_OFFSET := SIN_LEN]
  }

  function Ipv6Storage(host: In6Addr, port: u16): (st: Storage)
    ensures st[FAMILY_OFFSET] == AF_INET6 && st[LEN_OFFSET] == SIN6_LEN
  {
    var s := Put(ZEROS, IN6_ADDR_OFFSET, host);
    var s := s[FAMILY_OFFSET := AF_INET6];
    var s := s[PORT_OFFSET := PortBytes(port)[0]][PORT_OFFSET + 1 := PortBytes(port)[1]];
    s[LEN_OFFSET := SIN6_LEN]
  }

  function FileStorage(path: Str): (st: Storage)
    requires |path| <= SUN_PATH_CAP - 1
    ensures st[FAMILY_OFFSET] == AF_UNIX && st[LEN_OFFSET] == SUN_LEN
  {
    var s := Put(ZEROS, SUN_PATH_OFFSET, StrToBytes(path));
    var s := s[FAMILY_OFFSET := AF_UNIX];
    s[LEN_OFFSET := SUN_LEN]
  }

  /** The family tag that belongs to each kind of address. */
  function FamilyTag(t: AddressType): byte
  {
    match t
    case TypeIpv4 => AF_INET
    case TypeIpv6 => AF_INET6
    case TypeFile => AF_UNIX
  }

  /** `raw_address(const address&)`: the storage `storage_from_address` fills, or its error. */
  function FromAddress(a: Address, c: InetCodec): (r: Result<RawAddress, RawAddressError>)
    ensures r.Err? <==>
      || (a.Ipv4? && c.pton4(a.v4.host).None?)
      || (a.Ipv6? && c.pton6(a.v6.host).None?)
      || (a.File? && (|a.file.path| == 0 || |a.file.path| > SUN_PATH_CAP - 1))
    ensures r == Err(MalformedHost(TypeIpv4)) <==> a.Ipv4? && c.pton4(a.v4.host).None?
    ensures r == Err(MalformedHost(TypeIpv6)) <==> a.Ipv6? && c.pton6(a.v6.host).None?
    ensures r == Err(EmptyPath) <==> a.File? && |a.file.path| == 0
    ensures r == Err(PathTooLong) <==> a.File? && |a.file.path| > SUN_PATH_CAP - 1
    ensures r.Ok? ==> Valid(r.value) && !IsNull(r.value)
    ensures r.Ok? ==> Family(r.value) == FamilyTag(GetAddressType(a))
    ensures r.Ok? ==> Len(r.value) == StructLen(FamilyTag(GetAddressType(a))).value
  {
    match a
    case Ipv4(Ipv4Address(host, port)) =>
      (match c.pton4(host)
       case None => Err(MalformedHost(TypeIpv4))
       case Some(bin) => Ok(RawAddress(Ipv4Storage(bin, port))))
    case Ipv6(Ipv6Address(host, port)) =>
      (match c.pton6(host)
       case None => Err(MalformedHost(TypeIpv6))
       case Some(bin) => Ok(RawAddress(Ipv6Storage(bin, port))))
    case File(FileAddress(path)) =>
      if |path| == 0 then Err(EmptyPath)
      else if |path| > SUN_PATH_CAP - 1 then Err(PathTooLong)
      else Ok(RawAddress(FileStorage(path)))
  }

  /** memcpy of `bs` into `a` at `off`. */
  method CopyInto(a: array<byte>, off: nat, bs: seq<byte>)
    requires off + |bs| <= a.Length
    modifies a
    ensures a[..] == Put(old(a[..]), off, bs)
  {
    var i := 0;
    while i < |bs|
      invariant 0 <= i <= |bs|
      invariant forall k :: 0 <= k < a.Length && !(off <= k < off + i) ==> a[k] == old(a[k])
      invariant forall k :: 0 <= k < i ==> a[off + k] == bs[k]
    {
      a[off + i] := bs[i];
      i := i + 1;
    }
    assert a[..] == Put(old(a[..]), off, bs) by {
      var t := Put(old(a[..]), off, bs);
      forall k | 0 <= k < a.Length ensures a[k] == t[k] {
        if off <= k < off + |bs| {
          assert t[k] == t[off..off + |bs|][k - off];
        }
      }
    }
  }

  /**
   * storage_from_address: zero a storage, let inet_pton write the host, then set the family,
   * the port and the length; a file path is checked and copied into sun_path.
   */
  method StorageFromAddress(a: Address, c: InetCodec) returns (r: Result<RawAddress, RawAddressError>)
    ensures r == FromAddress(a, c)
  {
    var storage := new byte[STORAGE_CAP](_ => 0);
    assert storage[..] == ZEROS;
    match a {
      case Ipv4(Ipv4Address(host, port)) =>
        var parsed := c.pton4(host);
        if parsed.None? {
          return Err(MalformedHost(TypeIpv4));
        }
        CopyInto(storage, IN4_ADDR_OFFSET, parsed.value);
        storage[FAMILY_OFFSET] := AF_INET;
        var net := PortBytes(port);
        storage[PORT_OFFSET] := net[0];
        storage[PORT_OFFSET + 1] := net[1];
        storage[LEN_OFFSET] := SIN_LEN;
      case Ipv6(Ipv6Address(host, port)) =>
        var parsed := c.pton6(host);
        if parsed.None? {
          return Err(MalformedHost(TypeIpv6));
        }
        CopyInto(storage, IN6_ADDR_OFFSET, parsed.value);
        storage[FAMILY_OFFSET] := AF_INET6;
        var net := PortBytes(port);
        storage[PORT_OFFSET] := net[0];
        storage[PORT_OFFSET + 1] := net[1];
        storage[LEN_OFFSET] := SIN6_LEN;
      case File(FileAddress(path)) =>
        if |path| == 0 {
          return Err(EmptyPath);
        }
        if |path| > SUN_PATH_CAP - 1 {
          return Err(PathTooLong);
        }
        CopyInto(storage, SUN_PATH_OFFSET, StrToBytes(path));
        storage[FAMILY_OFFSET] := AF_UNIX;
        storage[LEN_OFFSET] := SUN_LEN;
    }
    r := Ok(RawAddress(storage[..]));
  }

  /** Where a successful encoding puts the port, the packed host and the path. */
  lemma EncodedLayout(a: Address, c: InetCodec)
    requires FromAddress(a, c).Ok?
    ensures var d := FromAddress(a, c).value.data;
      match a
      case Ipv4(v) =>
        && d[PORT_OFFSET..PORT_OFFSET + 2] == PortBytes(v.port)
        && d[IN4_ADDR_OFFSET..IN4_ADDR_OFFSET + IN4_ADDR_LEN] == c.pton4(v.host).value
        && (forall i :: IN4_ADDR_OFFSET + IN4_ADDR_LEN <= i < STORAGE_CAP ==> d[i] == 0)
      case Ipv6(v) =>
        && d[PORT_OFFSET..PORT_OFFSET + 2] == PortBytes(v.port)
        && d[IN6_ADDR_OFFSET..IN6_ADDR_OFFSET + IN6_ADDR_LEN] == c.pton6(v.host).value
        && (forall i :: PORT_OFFSET + 2 <= i < IN6_ADDR_OFFSET ==> d[i] == 0)
        && (forall i :: IN6_ADDR_OFFSET + IN6_ADDR_LEN <= i < STORAGE_CAP ==> d[i] == 0)
      case File(f) =>
        && d[SUN_PATH_OFFSET..SUN_PATH_OFFSET + |f.path|] == StrToBytes(f.path)
        && (forall i :: SUN_PATH_OFFSET + |f.path| <= i < STORAGE_CAP ==> d[i] == 0)
  {
    var d := FromAddress(a, c).value.data;
    match a
    case Ipv4(v) =>
      var bin := c.pton4(v.host).value;
      var s0 := Put(ZEROS, IN4_ADDR_OFFSET, bin);
      assert d == s0[FAMILY_OFFSET := AF_INET][PORT_OFFSET := PortBytes(v.port)[0]]
                    [PORT_OFFSET + 1 := PortBytes(v.port)[1]][LEN_OFFSET := SIN_LEN];
      assert d[IN4_ADDR_OFFSET..IN4_ADDR_OFFSET + IN4_ADDR_LEN] == s0[IN4_ADDR_OFFSET..IN4_ADDR_OFFSET + IN4_ADDR_LEN];
    case Ipv6(v) =>
      var bin := c.pton6(v.host).value;
      var s0 := Put(ZEROS, IN6_ADDR_OFFSET, bin);
      assert d == s0[FAMILY_OFFSET := AF_INET6][PORT_OFFSET := PortBytes(v.port)[0]]
                    [PORT_OFFSET + 1 := PortBytes(v.port)[1]][LEN_OFFSET := SIN6_LEN];
      assert d[IN6_ADDR_OFFSET..IN6_ADDR_OFFSET + IN6_ADDR_LEN] == s0[IN6_ADDR_OFFSET..IN6_ADDR_OFFSET + IN6_ADDR_LEN];
    case File(f) =>
      var bs := StrToBytes(f.path);
      var s0 := Put(ZEROS, SUN_PATH_OFFSET, bs);
      assert d == s0[FAMILY_OFFSET := AF_UNIX][LEN_OFFSET := SUN_LEN];
      assert d[SUN_PATH_OFFSET..SUN_PATH_OFFSET + |bs|] == s0[SUN_PATH_OFFSET..SUN_PATH_OFFSET + |bs|];
  }

  /** The only sequence with the three properties of `CString` is `CString` itself. */
  lemma CStringUnique(bs: seq<byte>, s: seq<byte>)
    requires s <= bs
    requires forall i :: 0 <= i < |s| ==> s[i] != 0
    requires |s| < |bs| ==> bs[|s|] == 0
    ensures s == CString(bs)
  {
  }

  // ---------------------------------------------------------------------------
  // Decoding from bytes: raw_address(std::span<const char>) and storage_from_raw_data

  /**
   * The buffer is what the span points at, read as a whole `sockaddr_storage`; `size` is the
   * span's length, which is only compared with the capacity.
   */
  function FromRawData(buffer: Storage, size: nat): (r: Result<RawAddress, RawAddressError>)
    ensures r.Ok? ==> r.value.data == buffer && Valid(r.value) && !IsNull(r.value)
  {
    var family := buffer[FAMILY_OFFSET];
    var len := buffer[LEN_OFFSET];
    if size > STORAGE_CAP then Err(OversizedData)
    else if family == AF_INET then
      if len != SIN_LEN then Err(MalformedData(TypeIpv4)) else Ok(RawAddress(buffer))
    else if family == AF_INET6 then
      if len != SIN6_LEN then Err(MalformedData(TypeIpv6)) else Ok(RawAddress(buffer))
    else if family == AF_UNIX then
      if len != SUN_LEN then Err(MalformedData(TypeFile)) else Ok(RawAddress(buffer))
    else Err(UnsupportedFamily(family))
  }

  /** The three ways decoding from bytes fails, and that it fails in no other way. */
  lemma FromRawDataErrors(buffer: Storage, size: nat)
    ensures FromRawData(buffer, size) == Err(OversizedData) <==> size > STORAGE_CAP
    ensures FromRawData(buffer, size).Err? && size <= STORAGE_CAP ==>
      (StructLen(buffer[FAMILY_OFFSET]).None? <==>
       FromRawData(buffer, size) == Err(UnsupportedFamily(buffer[FAMILY_OFFSET])))
    ensures size <= STORAGE_CAP && StructLen(buffer[FAMILY_OFFSET]).Some? ==>
      (FromRawData(buffer, size).Err? <==>
       buffer[LEN_OFFSET] != StructLen(buffer[FAMILY_OFFSET]).value)
  {
  }

  // ---------------------------------------------------------------------------
  // Reading a raw address

  /** `raw_address()`: all-zero storage. */
  function NullRawAddress(): (r: RawAddress)
    ensures Valid(r) && Len(r) == 0 && Family(r) == 0
  {
    RawAddress(ZEROS)
  }

  /** `get_data`: the first `ss_len` bytes of the storage, the size of the family's structure. */
  function GetData(r: RawAddress): (d: seq<byte>)
    requires Valid(r)
    ensures d <= r.data
    ensures IsNull(r) ==> d == []
    ensures !IsNull(r) ==> |d| == StructLen(Family(r)).value as nat
  {
    r.data[..Len(r)]
  }

  /** `get_address`: the generic address the storage holds, dispatched on the family tag. */
  function GetAddress(r: RawAddress, c: InetCodec): (res: Result<Address, RawAddressError>)
    requires Valid(r)
    ensures res.Ok? ==> StructLen(Family(r)).Some?
    ensures res.Ok? ==> (Family(r) == AF_INET <==> res.value.Ipv4?)
    ensures res.Ok? ==> (Family(r) == AF_INET6 <==> res.value.Ipv6?)
    ensures res.Ok? ==> (Family(r) == AF_UNIX <==> res.value.File?)
  {
    var family := Family(r);
    if family == AF_INET then
      match c.ntop4(r.data[IN4_ADDR_OFFSET..IN4_ADDR_OFFSET + IN4_ADDR_LEN])
      case None => Err(MalformedRawHost(TypeIpv4))
      case Some(host) =>
        Ok(Ipv4(Ipv4Address(host, PortOf(r.data[PORT_OFFSET..PORT_OFFSET + 2]))))
    else if family == AF_INET6 then
      match c.ntop6(r.data[IN6_ADDR_OFFSET..IN6_ADDR_OFFSET + IN6_ADDR_LEN])
      case None => Err(MalformedRawHost(TypeIpv6))
      case Some(host) =>
        Ok(Ipv6(Ipv6Address(host, PortOf(r.data[PORT_OFFSET..PORT_OFFSET + 2]))))
    else if family == AF_UNIX then
      Ok(File(FileAddress(BytesToStr(CString(r.data[SUN_PATH_OFFSET..])))))
    else
      Err(UnsupportedFamily(family))
  }

  /** `to_string(raw_address)`: the scheme-prefixed rendering of the decoded address. */
  function RawToString(r: RawAddress, c: InetCodec): (res: Result<Str, RawAddressError>)
    requires Valid(r)
    ensures res.Ok? <==> GetAddress(r, c).Ok?
    ensures res.Ok? ==> ParseAddress(res.value) == Some(GetAddress(r, c).value)
  {
    match GetAddress(r, c)
    case Err(e) => Err(e)
    case Ok(a) =>
      RenderingRoundTrip(a);
      Ok(ToString(a))
  }

  // ---------------------------------------------------------------------------
  // Round trips

  /**
   * Decoding an encoded address gives back the host as `inet_ntop` prints the binary host
   * `inet_pton` produced, the same port (htons then ntohs), and the path up to its first NUL.
   */
  lemma DecodeOfEncode(a: Address, c: InetCodec)
    requires FromAddress(a, c).Ok?
    ensures GetAddress(FromAddress(a, c).value, c) ==
      match a
      case Ipv4(v) =>
        (match c.ntop4(c.pton4(v.host).value)
         case None => Err(MalformedRawHost(TypeIpv4))
         case Some(h) => Ok(Ipv4(Ipv4Address(h, v.port))))
      case Ipv6(v) =>
        (match c.ntop6(c.pton6(v.host).value)
         case None => Err(MalformedRawHost(TypeIpv6))
         case Some(h) => Ok(Ipv6(Ipv6Address(h, v.port))))
      case File(f) =>
        Ok(File(FileAddress(BytesToStr(CString(StrToBytes(f.path))))))
  {
    EncodedLayout(a, c);
    var d := FromAddress(a, c).value.data;
    match a
    case Ipv4(v) =>
      PortByteOrder(v.port, PortBytes(v.port));
    case Ipv6(v) =>
      PortByteOrder(v.port, PortBytes(v.port));
    case File(f) =>
      var bs := StrToBytes(f.path);
      var tail := d[SUN_PATH_OFFSET..];
      var s := CString(bs);
      assert tail[..|bs|] == bs;
      assert s <= tail;
      assert |s| < |tail| ==> tail[|s|] == 0 by {
        if |s| < |bs| {
          assert tail[|s|] == bs[|s|];
        } else {
          assert tail[|bs|] == d[SUN_PATH_OFFSET + |bs|];
        }
      }
      CStringUnique(tail, s);
  }

  /** The text of an address survives encoding: its host is in the form inet_ntop prints, or its path has no NUL. */
  predicate SurvivesEncoding(a: Address, c: InetCodec)
  {
    match a
    case Ipv4(v) => c.pton4(v.host).Some? && c.ntop4(c.pton4(v.host).value) == Some(v.host)
    case Ipv6(v) => c.pton6(v.host).Some? && c.ntop6(c.pton6(v.host).value) == Some(v.host)
    case File(f) => forall i :: 0 <= i < |f.path| ==> f.path[i] != 0 as char
  }

  /** `get_address` inverts `raw_address(address)` exactly on the addresses whose text survives encoding. */
  lemma RoundTrip(a: Address, c: InetCodec)
    requires FromAddress(a, c).Ok?
    ensures GetAddress(FromAddress(a, c).value, c) == Ok(a) <==> SurvivesEncoding(a, c)
    ensures SurvivesEncoding(a, c) ==> RawToString(FromAddress(a, c).value, c) == Ok(ToString(a))
  {
    DecodeOfEncode(a, c);
    if a.File? {
      var p := a.file.path;
      var bs := StrToBytes(p);
      if SurvivesEncoding(a, c) {
        CStringUnique(bs, bs);
        StrBytesRoundTrip(p);
      }
    }
  }

  /** Re-decoding the bytes `get_data` exposes gives back the same raw address and the same bytes. */
  lemma ReDecodeData(r: RawAddress)
    requires Valid(r) && !IsNull(r)
    ensures FromRawData(r.data, |GetData(r)|) == Ok(r)
    ensures GetData(FromRawData(r.data, |GetData(r)|).value) == GetData(r)
  {
  }

  /** A default raw address holds no data, and neither decodes nor renders. */
  lemma NullRawAddressFails(c: InetCodec)
    ensures GetData(NullRawAddress()) == []
    ensures GetAddress(NullRawAddress(), c) == Err(UnsupportedFamily(0))
    ensures RawToString(NullRawAddress(), c) == Err(UnsupportedFamily(0))
    ensures FromRawData(NullRawAddress().data, STORAGE_CAP) == Err(UnsupportedFamily(0))
  {
  }
}
