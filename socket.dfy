/**
 * The socket handle: a move-only owner of one OS descriptor (or of none, `INVALID_SOCKET`),
 * with non-blocking open/close, the pass-through operations, and the classification of the
 * OS results of connect, accept, send and recv.
 *
 * Every OS call is an input: the method receives what the call returned (and `errno` where the
 * source reads it), and appends the call it made to the log of an `Os` object, so that which
 * descriptors are released, and which calls are made at all, is part of each contract.
 */
module Socket {
  import opened Common
  import opened Address
  import opened RawAddress

  datatype SocketDomain = DomainIpv4 | DomainIpv6 | DomainFile

  datatype SocketType = Stream

  datatype ShutdownType = ShutdownRead | ShutdownWrite | ShutdownReadWrite

  datatype ConnectStatus = Connected | Pending

  datatype TransferStatus = Success | Blocked | Disconnected

  /** The std::runtime_error cases of the socket operations. */
  datatype SocketError =
    | OpenError
    | OptionError
    | ShutdownError
    | BindError
    | ListenError
    | ConnectError
    | AcceptError
    | AcceptAddressError(cause: RawAddressError)  // the peer address the OS wrote does not decode
    | TransferError

  /** The values of `errno` the source tells apart. */
  datatype Errno = EINPROGRESS | EAGAIN | OtherErrno(code: int)

  // Constants of the socket API (POSIX values).
  const SOCK_STREAM: int := 1
  const SHUT_RD: int := 0
  const SHUT_WR: int := 1
  const SHUT_RDWR: int := 2

  /** The calls the library makes to the OS, as it makes them. */
  datatype SysCall =
    | SocketCall(family: byte, kind: int)
    | GetFlagsCall(fd: SocketId)
    | SetNonBlockingCall(fd: SocketId)   // F_SETFL with the flags read plus O_NONBLOCK
    | CloseCall(fd: SocketId)
    | SetReuseAddressCall(fd: SocketId, enable: bool)
    | ShutdownCall(fd: SocketId, how: int)
    | BindCall(fd: SocketId, addr: seq<byte>)
    | ListenCall(fd: SocketId, backlog: int)
    | ConnectCall(fd: SocketId, addr: seq<byte>)
    | AcceptCall(fd: SocketId, addrCap: nat)
    | SendCall(fd: SocketId, data: seq<byte>)
    | RecvCall(fd: SocketId, cap: nat)

  /** The operating system as the sockets see it: the log of the calls made to it. */
  class Os {
    var calls: seq<SysCall>

    constructor ()
      ensures calls == []
    {
      calls := [];
    }
  }

  /** `map_socket_domain`: the address family a socket of each domain is opened with. */
  function MapSocketDomain(d: SocketDomain): (family: byte)
    ensures d == DomainIpv4 <==> family == AF_INET
    ensures d == DomainIpv6 <==> family == AF_INET6
    ensures d == DomainFile <==> family == AF_UNIX
  {
    match d
    case DomainIpv4 => AF_INET
    case DomainIpv6 => AF_INET6
    case DomainFile => AF_UNIX
  }

  /** The socket domain that serves each kind of address. */
  function DomainOf(t: AddressType): SocketDomain
  {
    match t
    case TypeIpv4 => DomainIpv4
    case TypeIpv6 => DomainIpv6
    case TypeFile => DomainFile
  }

  /** A socket opened for an address's domain has the family the raw address of that address carries. */
  lemma DomainMatchesRawAddress(a: Address, c: InetCodec)
    requires FromAddress(a, c).Ok?
    ensures MapSocketDomain(DomainOf(GetAddressType(a))) == Family(FromAddress(a, c).value)
  {
  }

  /** `map_socket_type`. */
  function MapSocketType(t: SocketType): (kind: int)
    ensures kind == SOCK_STREAM
  {
    SOCK_STREAM
  }

  /** `map_shutdown_type`: a bijection onto SHUT_RD, SHUT_WR, SHUT_RDWR. */
  function MapShutdownType(t: ShutdownType): (how: int)
    ensures t == ShutdownRead <==> how == SHUT_RD
    ensures t == ShutdownWrite <==> how == SHUT_WR
    ensures t == ShutdownReadWrite <==> how == SHUT_RDWR
  {
    match t
    case ShutdownRead => SHUT_RD
    case ShutdownWrite => SHUT_WR
    case ShutdownReadWrite => SHUT_RDWR
  }

  /** `would_block`: the call failed only because it could not complete at once. */
  predicate WouldBlock(e: Errno)
  {
    e == EINPROGRESS || e == EAGAIN
  }

  /** The release of a descriptor, if there is one to release. */
  function ReleaseOf(fd: SocketId): seq<SysCall>
  {
    if fd != INVALID_SOCKET then [CloseCall(fd)] else []
  }

  /** How `connect` reads the OS result `ret` (-1 is failure) and `errno`. */
  function ClassifyConnect(ret: int, errno: Errno): (r: Result<ConnectStatus, SocketError>)
    ensures r == Ok(Connected) <==> ret != -1
    ensures r == Ok(Pending) <==> ret == -1 && WouldBlock(errno)
    ensures r.Err? <==> ret == -1 && !WouldBlock(errno)
    ensures r.Err? ==> r.error == ConnectError
  {
    if ret == -1 then
      if WouldBlock(errno) then Ok(Pending) else Err(ConnectError)
    else Ok(Connected)
  }

  /** How `accept` reads the new descriptor (`INVALID_SOCKET` is failure) and `errno`. */
  function ClassifyAccept(newFd: SocketId, errno: Errno): (r: Result<bool, SocketError>)
    ensures r == Ok(true) <==> newFd != INVALID_SOCKET
    ensures r == Ok(false) <==> newFd == INVALID_SOCKET && WouldBlock(errno)
    ensures r.Err? <==> newFd == INVALID_SOCKET && !WouldBlock(errno)
    ensures r.Err? ==> r.error == AcceptError
  {
    if newFd == INVALID_SOCKET then
      if WouldBlock(errno) then Ok(false) else Err(AcceptError)
    else Ok(true)
  }

  /**
   * How `send` and `recv` read the OS result for a buffer of `len` bytes: the OS moves at most
   * `len` bytes (from the front of the buffer) or returns -1; an empty buffer is not handed
   * to the OS at all.
   */
  function ClassifyTransfer(len: nat, ret: int, errno: Errno): (r: Result<(TransferStatus, nat), SocketError>)
    requires -1 <= ret && (len > 0 ==> ret <= len)
    ensures len == 0 ==> r == Ok((Success, 0))
    ensures r.Ok? ==> r.value.1 <= len
    ensures r.Ok? && r.value.0 != Success ==> r.value.1 == 0
    ensures len > 0 ==> (r == Ok((Blocked, 0)) <==> ret == -1 && WouldBlock(errno))
    ensures len > 0 ==> (r == Ok((Disconnected, 0)) <==> ret == 0)
    ensures len > 0 ==> (r.Ok? && r.value.0 == Success <==> ret > 0)
    ensures len > 0 && ret > 0 ==> r == Ok((Success, ret))
    ensures r.Err? <==> len > 0 && ret == -1 && !WouldBlock(errno)
    ensures r.Err? ==> r.error == TransferError
  {
    if len == 0 then Ok((Success, 0))
    else if ret == -1 then
      if WouldBlock(errno) then Ok((Blocked, 0)) else Err(TransferError)
    else if ret == 0 then Ok((Disconnected, 0))
    else Ok((Success, ret))
  }

  /** `socket`: owns the descriptor `id`, or nothing when `id` is `INVALID_SOCKET`. */
  class Socket {
    var id: SocketId

    /** `socket() = default`: holds no descriptor. */
    constructor ()
      ensures id == INVALID_SOCKET
    {
      id := INVALID_SOCKET;
    }

    /** The move constructor: takes the descriptor over and leaves `other` holding none. */
    constructor Move(other: Socket)
      modifies other
      ensures id == old(other.id)
      ensures other.id == INVALID_SOCKET
    {
      id := other.id;
      new;
      other.id := INVALID_SOCKET;
    }

    /** `get_id`: the held descriptor, or `k_invalid_socket` exactly when `operator bool` is false. */
    function GetId(): (r: SocketId)
      reads this
      ensures r == id
      ensures r != INVALID_SOCKET <==> IsOpen()
    {
      id
    }

    /** `operator bool`: whether a descriptor is held. */
    predicate IsOpen()
      reads this
    {
      id != INVALID_SOCKET
    }

    /** `close`: releases the descriptor if one is held; closing again releases nothing. */
    method Close(os: Os)
      modifies this, os
      ensures id == INVALID_SOCKET && !IsOpen()
      ensures os.calls == old(os.calls) + ReleaseOf(old(id))
    {
      if id != INVALID_SOCKET {
        os.calls := os.calls + [CloseCall(id)];
        id := INVALID_SOCKET;
      }
    }

    /** The destructor closes. */
    method Destroy(os: Os)
      modifies this, os
      ensures id == INVALID_SOCKET
      ensures os.calls == old(os.calls) + ReleaseOf(old(id))
    {
      Close(os);
    }

    /** Move assignment: release the own descriptor, then take `other`'s; assigning to itself changes nothing. */
    method MoveAssign(other: Socket, os: Os)
      modifies this, other, os
      ensures other == this ==> id == old(id) && os.calls == old(os.calls)
      ensures other != this ==> id == old(other.id) && other.id == INVALID_SOCKET
      ensures other != this ==> os.calls == old(os.calls) + ReleaseOf(old(id))
    {
      if other != this {
        Close(os);
        id, other.id := other.id, id;
      }
    }

    /**
     * `open`: close what is held, create a descriptor (`fd` is what socket() returned), then read
     * its flags (`getFlags`) and set O_NONBLOCK (`setFlags`); -1 is failure of either fcntl, and a
     * created descriptor is released again when one of them fails.
     */
    method Open(domain: SocketDomain, kind: SocketType, os: Os, fd: SocketId, getFlags: int, setFlags: int)
      returns (r: Result<(), SocketError>)
      modifies this, os
      ensures r.Ok? <==> fd != INVALID_SOCKET && getFlags != -1 && setFlags != -1
      ensures r.Ok? <==> IsOpen()
      ensures r.Ok? ==> id == fd
      ensures r.Err? ==> id == INVALID_SOCKET && r.error == OpenError
      ensures os.calls == old(os.calls) + ReleaseOf(old(id))
        + [SocketCall(MapSocketDomain(domain), MapSocketType(kind))]
        + (if fd == INVALID_SOCKET then []
           else if getFlags == -1 then [GetFlagsCall(fd), CloseCall(fd)]
           else if setFlags == -1 then [GetFlagsCall(fd), SetNonBlockingCall(fd), CloseCall(fd)]
           else [GetFlagsCall(fd), SetNonBlockingCall(fd)])
    {
      Close(os);
      os.calls := os.calls + [SocketCall(MapSocketDomain(domain), MapSocketType(kind))];
      var tmp := fd;
      if tmp == INVALID_SOCKET {
        return Err(OpenError);
      }
      os.calls := os.calls + [GetFlagsCall(tmp)];
      if getFlags == -1 {
        os.calls := os.calls + [CloseCall(tmp)];
        return Err(OpenError);
      }
      os.calls := os.calls + [SetNonBlockingCall(tmp)];
      if setFlags == -1 {
        os.calls := os.calls + [CloseCall(tmp)];
        return Err(OpenError);
      }
      id := tmp;
      r := Ok(());
    }

    /** `set_reuse_address_option`: one setsockopt call, which fails when it returns -1. */
    method SetReuseAddressOption(value: bool, os: Os, ret: int) returns (r: Result<(), SocketError>)
      requires IsOpen()
      modifies os
      ensures os.calls == old(os.calls) + [SetReuseAddressCall(id, value)]
      ensures r.Err? <==> ret == -1
      ensures r.Err? ==> r.error == OptionError
    {
      os.calls := os.calls + [SetReuseAddressCall(id, value)];
      if ret == -1 {
        return Err(OptionError);
      }
      r := Ok(());
    }

    /** `shutdown`. */
    method Shutdown(how: ShutdownType, os: Os, ret: int) returns (r: Result<(), SocketError>)
      requires IsOpen()
      modifies os
      ensures os.calls == old(os.calls) + [ShutdownCall(id, MapShutdownType(how))]
      ensures r.Err? <==> ret == -1
      ensures r.Err? ==> r.error == ShutdownError
    {
      os.calls := os.calls + [ShutdownCall(id, MapShutdownType(how))];
      if ret == -1 {
        return Err(ShutdownError);
      }
      r := Ok(());
    }

    /** `bind`: hands the OS exactly the bytes `get_data` exposes. */
    method Bind(addr: RawAddress, os: Os, ret: int) returns (r: Result<(), SocketError>)
      requires IsOpen() && Valid(addr)
      modifies os
      ensures os.calls == old(os.calls) + [BindCall(id, GetData(addr))]
      ensures r.Err? <==> ret == -1
      ensures r.Err? ==> r.error == BindError
    {
      os.calls := os.calls + [BindCall(id, GetData(addr))];
      if ret == -1 {
        return Err(BindError);
      }
      r := Ok(());
    }

    /** `listen`. */
    method Listen(backlog: int, os: Os, ret: int) returns (r: Result<(), SocketError>)
      requires IsOpen()
      modifies os
      ensures os.calls == old(os.calls) + [ListenCall(id, backlog)]
      ensures r.Err? <==> ret == -1
      ensures r.Err? ==> r.error == ListenError
    {
      os.calls := os.calls + [ListenCall(id, backlog)];
      if ret == -1 {
        return Err(ListenError);
      }
      r := Ok(());
    }

    /** `connect`: connected, pending (to be confirmed by the poller), or an error. */
    method Connect(addr: RawAddress, os: Os, ret: int, errno: Errno) returns (r: Result<ConnectStatus, SocketError>)
      requires IsOpen() && Valid(addr)
      modifies os
      ensures os.calls == old(os.calls) + [ConnectCall(id, GetData(addr))]
      ensures r == ClassifyConnect(ret, errno)
    {
      os.calls := os.calls + [ConnectCall(id, GetData(addr))];
      r := ClassifyConnect(ret, errno);
    }

    /**
     * `accept`: `newFd` is what accept() returned, and `peer`/`peerLen` the storage and length it
     * wrote. With no connection pending (or a hard error) neither output changes. Otherwise `sock`
     * releases its old descriptor and takes the new one, and then the peer address is decoded;
     * when that decoding fails `sock` already holds the new descriptor and `addr` is unchanged.
     */
    method Accept(sock: Socket, addr: RawAddress, os: Os, newFd: SocketId, errno: Errno, peer: Storage, peerLen: nat)
      returns (r: Result<bool, SocketError>, addrOut: RawAddress)
      requires IsOpen()
      modifies sock, os
      ensures newFd == INVALID_SOCKET ==>
        && r == ClassifyAccept(newFd, errno)
        && sock.id == old(sock.id) && addrOut == addr
        && os.calls == old(os.calls) + [AcceptCall(old(id), STORAGE_CAP)]
      ensures newFd != INVALID_SOCKET ==>
        && sock.id == newFd
        && os.calls == old(os.calls) + [AcceptCall(old(id), STORAGE_CAP)] + ReleaseOf(old(sock.id))
        && match FromRawData(peer, peerLen)
           case Ok(peerAddr) => r == Ok(true) && addrOut == peerAddr
           case Err(e) => r == Err(AcceptAddressError(e)) && addrOut == addr
    {
      os.calls := os.calls + [AcceptCall(id, STORAGE_CAP)];
      addrOut := addr;
      if newFd == INVALID_SOCKET {
        r := ClassifyAccept(newFd, errno);
        return;
      }
      sock.Close(os);
      sock.id := newFd;
      match FromRawData(peer, peerLen) {
        case Ok(peerAddr) =>
          addrOut := peerAddr;
          r := Ok(true);
        case Err(e) =>
          r := Err(AcceptAddressError(e));
      }
    }

    /** `send`: `ret` is what send() returned; an empty buffer is not handed to the OS. */
    method Send(data: seq<byte>, os: Os, ret: int, errno: Errno) returns (r: Result<(TransferStatus, nat), SocketError>)
      requires IsOpen()
      requires -1 <= ret && (|data| > 0 ==> ret <= |data|)
      modifies os
      ensures r == ClassifyTransfer(|data|, ret, errno)
      ensures os.calls == old(os.calls) + (if |data| == 0 then [] else [SendCall(id, data)])
    {
      if |data| == 0 {
        return Ok((Success, 0));
      }
      os.calls := os.calls + [SendCall(id, data)];
      r := ClassifyTransfer(|data|, ret, errno);
    }

    /**
     * `recv`: `ret` is what recv() returned and `incoming` the bytes it wrote to the front of
     * `buf`; an empty buffer is not handed to the OS.
     */
    method Recv(buf: array<byte>, os: Os, ret: int, errno: Errno, incoming: seq<byte>)
      returns (r: Result<(TransferStatus, nat), SocketError>)
      requires IsOpen()
      requires -1 <= ret && (buf.Length > 0 ==> ret <= buf.Length)
      requires ret > 0 ==> |incoming| == ret
      modifies os, buf
      ensures r == ClassifyTransfer(buf.Length, ret, errno)
      ensures os.calls == old(os.calls) + (if buf.Length == 0 then [] else [RecvCall(id, buf.Length)])
      ensures r.Ok? && r.value.0 == Success && r.value.1 > 0 ==>
        buf[..r.value.1] == incoming && buf[r.value.1..] == old(buf[r.value.1..])
      ensures !(r.Ok? && r.value.0 == Success && r.value.1 > 0) ==> buf[..] == old(buf[..])
    {
      if buf.Length == 0 {
        return Ok((Success, 0));
      }
      os.calls := os.calls + [RecvCall(id, buf.Length)];
      if ret > 0 {
        forall i | 0 <= i < ret {
          buf[i] := incoming[i];
        }
      }
      r := ClassifyTransfer(buf.Length, ret, errno);
    }
  }

  /** Closing twice releases the descriptor once. */
  method CloseTwice(s: Socket, os: Os)
    modifies s, os
    ensures s.id == INVALID_SOCKET
    ensures os.calls == old(os.calls) + ReleaseOf(old(s.id))
  {
    s.Close(os);
    s.Close(os);
  }
}
