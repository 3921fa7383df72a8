# async-socket-library core, modelled in Dafny

This project models the core of a small C++ non-blocking socket library (the substrate of a
single-threaded reactor) and proves properties of the model. The core has three parts:

- **Addresses** (`address.dfy`, module `Address`). The `address` variant of IPv4 host:port,
  IPv6 host:port and UNIX-domain path, with:
  - its equality operators;
  - `get_address_type`;
  - the two text renderings: plain `host:port` or path, and the scheme-prefixed
    `ipv4://…`, `ipv6://…`, `file://…`.
  A small parser reads a scheme-prefixed rendering back, which shows the rendering loses nothing.
- **The raw-address bridge** (`raw_address.dfy`, module `RawAddress`).
  - Encodes an address into a native `sockaddr_storage` byte buffer (BSD layout, with the
    `ss_len` length byte), both as a specification function and as the imperative routine
    that fills a zeroed array.
  - Decodes a buffer received from the OS, exposes the exact-length `get_data` slice, and reads
    the generic address back.
  - The numeric host codec of the C library (`inet_pton`/`inet_ntop`) is a parameter
    (`InetCodec`).
- **The socket** (`socket.dfy`, module `Socket`). A class owning one descriptor, with:
  - open, close, move construction and move assignment;
  - the pass-through option, bind, listen and shutdown calls;
  - connect, accept, send and recv, with the way each reads the OS result and `errno`.
  Every OS call is an input: the method receives what the call returned and appends the call to
  the log of an `Os` object. The contracts therefore say which descriptors get released and
  which calls are made at all.
- **The poller** (`poller.dfy`, module `Poller`). A class holding:
  - the interest set as two aligned vectors: the `pollfd` records and the poll type of each;
  - add, update and remove operations on it;
  - `poll`, which hands the OS wait a millisecond timeout and derives per-socket statuses from
    the readiness bits the wait reports (also an input).

`common.dfy` (module `Common`) holds the shared `Result`/`Option` types, bytes, 8-bit
characters, `uint16_t` and `k_invalid_socket`.

Errors that the C++ code throws as `std::runtime_error` are `Err` values of a `Result`. The
constants come from the BSD layout the code's use of `ss_len` implies:
- the address family tags are the macOS values `AF_UNIX` 1, `AF_INET` 2 and `AF_INET6` 30 (FreeBSD
  has `AF_INET6` 28, OpenBSD and NetBSD 24); the proofs rely only on the three tags being distinct
  and non-zero;
- structure sizes 16, 28 and 106 bytes, common to the BSD family;
- 128-byte storage;
- 104-byte `sun_path`.

## Model

| member | source | states |
|---|---|---|
| Address.Ipv4Address.Equals | include/jhoyt/asl/address.hpp:18-21 | `==` holds exactly when host and port are equal |
| Address.Ipv4Address.NotEquals | include/jhoyt/asl/address.hpp:23-26 | `!=` is the exact negation of value equality |
| Address.Ipv6Address.Equals | include/jhoyt/asl/address.hpp:35-38 | `==` holds exactly when host and port are equal |
| Address.Ipv6Address.NotEquals | include/jhoyt/asl/address.hpp:40-43 | `!=` is the exact negation of value equality |
| Address.FileAddress.Equals | include/jhoyt/asl/address.hpp:51-54 | `==` holds exactly when the paths are equal |
| Address.FileAddress.NotEquals | include/jhoyt/asl/address.hpp:56-59 | `!=` is the exact negation of value equality |
| Address.GetAddressType | include/jhoyt/asl/address.hpp:65-79 | the enumerator's value is the variant's index, and each enumerator names exactly its alternative |
| Address.Decimal | src/address.cpp:13 | a port prints as a nonempty run of decimal digits without a leading zero |
| Address.DecimalRoundTrip | src/address.cpp:13 | the printed digits denote the port again |
| Address.Ipv4ToString | src/address.cpp:11-14 | `host:port` splits at its last ':' back into the same host and port |
| Address.Ipv6ToString | src/address.cpp:16-19 | the same for IPv6, where the host is not bracketed |
| Address.FileToString | src/address.cpp:21-24 | the rendering is the path itself |
| Address.ToString | src/address.cpp:26-49 | each alternative renders as its scheme prefix followed by its plain rendering |
| Address.SchemeDeterminesVariant | include/jhoyt/asl/address.hpp:96-103 | a rendering starts with `ipv4://`, `ipv6://` or `file://` exactly when the address is of that kind |
| Address.HostPortRoundTrip | src/address.cpp:11-19 | splitting `host:port` recovers the host, even one containing ':', and the port |
| Address.RenderingRoundTrip | src/address.cpp:26-49 | every address is recovered from its scheme-prefixed rendering |
| Address.RenderingInjective | src/address.cpp:26-49 | two addresses render alike exactly when they are equal |
| RawAddress.PortByteOrder | src/raw_address.cpp:35-36 | htons and ntohs are inverse bijections between ports and network-order byte pairs |
| RawAddress.CString | src/raw_address.cpp:177-181 | what strlen reads is the prefix before the first NUL |
| RawAddress.Ipv4Storage | src/raw_address.cpp:26-39 | an encoded IPv4 storage carries family AF_INET and length 16 |
| RawAddress.Ipv6Storage | src/raw_address.cpp:42-55 | an encoded IPv6 storage carries family AF_INET6 and length 28 |
| RawAddress.FileStorage | src/raw_address.cpp:58-76 | an encoded UNIX storage carries family AF_UNIX and length 106 |
| RawAddress.FromAddress | src/raw_address.cpp:20-84 | encoding fails exactly when the host does not parse for its family, or the path is empty, or the path is longer than 103 bytes, each with its own error. Success gives a valid non-null storage whose family and length are the address kind's |
| RawAddress.CopyInto | src/raw_address.cpp:71 | memcpy leaves the array equal to the bytes written over the old contents at the offset |
| RawAddress.StorageFromAddress | src/raw_address.cpp:20-84 | filling a zeroed array step by step yields exactly the encoding `FromAddress` specifies, errors included |
| RawAddress.EncodedLayout | src/raw_address.cpp:22-75 | an encoding holds the port in network order, the packed host or the path bytes at their offsets, and zeros after them |
| RawAddress.FromRawData | src/raw_address.cpp:86-123 | a decoded buffer is kept as is and is valid and non-null |
| RawAddress.FromRawDataErrors | src/raw_address.cpp:86-123 | decoding fails exactly when the size exceeds 128, or the family is unknown, or a known family's length byte is wrong. Each case has its own error |
| RawAddress.NullRawAddress | src/raw_address.cpp:130-133 | a default raw address is valid, with length 0 and family 0 |
| RawAddress.GetData | src/raw_address.cpp:143-146 | get_data is the prefix of the storage whose length is the family's structure size, and is empty for a null address |
| RawAddress.GetAddress | src/raw_address.cpp:148-186 | a successful read yields the alternative that matches the family tag |
| RawAddress.RawToString | src/raw_address.cpp:188-191 | rendering succeeds exactly when reading succeeds, and its text parses back to the address read |
| RawAddress.DecodeOfEncode | src/raw_address.cpp:148-186 | reading an encoding gives the host as inet_ntop prints inet_pton's output, the same port, and the path up to its first NUL |
| RawAddress.RoundTrip | src/raw_address.cpp:148-186 | reading an encoding gives back the address exactly when its host is in printed form or its path has no NUL; its text then renders unchanged |
| RawAddress.ReDecodeData | src/raw_address.cpp:139-146 | decoding a valid address's get_data bytes gives back the same raw address and the same bytes |
| RawAddress.NullRawAddressFails | src/raw_address.cpp:130-133 | a default raw address has empty data, and reading, rendering and decoding it all fail as an unsupported family 0 |
| Socket.MapSocketDomain | src/socket.cpp:27-46 | the ipv4, ipv6 and file domains map one-to-one onto AF_INET, AF_INET6 and AF_UNIX |
| Socket.DomainMatchesRawAddress | src/socket.cpp:27-46 | a socket opened for an address's domain has the family its raw address carries |
| Socket.MapShutdownType | src/socket.cpp:62-80 | read, write and read_write map one-to-one onto SHUT_RD, SHUT_WR and SHUT_RDWR |
| Socket.WouldBlock | src/socket.cpp:82-87 | a failure counts as would-block exactly when errno is EINPROGRESS or EAGAIN (EWOULDBLOCK); the classifications below use it |
| Socket.ClassifyConnect | src/socket.cpp:202-218 | connect yields connected on OS success, pending exactly on -1 with EINPROGRESS/EAGAIN, and otherwise a connect error |
| Socket.ClassifyAccept | src/socket.cpp:220-235 | accept yields true for a new descriptor, false exactly on would-block, and otherwise an accept error |
| Socket.ClassifyTransfer | src/socket.cpp:245-270 | an empty buffer gives (success, 0). Otherwise -1 gives blocked on would-block and an error on anything else, 0 gives disconnected, and n gives (success, n). Blocked and disconnected move 0 bytes, and a count never exceeds the buffer |
| Socket.Socket.constructor | include/jhoyt/asl/socket.hpp:128 | a default socket holds no descriptor |
| Socket.Socket.Move | src/socket.cpp:99-102 | the new socket takes the descriptor and the source holds none |
| Socket.Socket.GetId | include/jhoyt/asl/socket.hpp:28-33 | get_id returns the held descriptor, which is k_invalid_socket exactly when `operator bool` is false |
| Socket.Socket.IsOpen | include/jhoyt/asl/socket.hpp:35-40 | `operator bool` holds exactly when a descriptor is held: a successful `open` leaves the socket open, `close` leaves it closed |
| Socket.Socket.Close | src/socket.cpp:146-158 | afterwards no descriptor is held and `operator bool` is false, and exactly the previously held one, if any, was released |
| Socket.Socket.Destroy | src/socket.cpp:94-97 | the destructor releases the held descriptor, if any |
| Socket.Socket.MoveAssign | src/socket.cpp:104-113 | self-assignment changes nothing. Otherwise the target releases its own descriptor and takes the source's, and the source holds none |
| Socket.Socket.Open | src/socket.cpp:115-144 | the held descriptor is released first. socket() is called with the mapped family (`MapSocketDomain`) and type (`MapSocketType`, SOCK_STREAM). Open succeeds exactly when socket(), F_GETFL and F_SETFL all succeed, which is exactly when the socket is open afterwards, and then holds the new descriptor. Otherwise it holds none, and a created descriptor is released again |
| Socket.Socket.SetReuseAddressOption | src/socket.cpp:160-169 | one setsockopt call, failing exactly when it returns -1 |
| Socket.Socket.Shutdown | src/socket.cpp:171-179 | one shutdown call with the mapped side, failing exactly when it returns -1 |
| Socket.Socket.Bind | src/socket.cpp:181-190 | bind is handed exactly the get_data bytes, and fails exactly when it returns -1 |
| Socket.Socket.Listen | src/socket.cpp:192-200 | one listen call with the backlog, failing exactly when it returns -1 |
| Socket.Socket.Connect | src/socket.cpp:202-218 | connect is handed exactly the get_data bytes, and its result is `ClassifyConnect` of the OS reply |
| Socket.Socket.Accept | src/socket.cpp:220-243 | with nothing accepted, neither output changes. Otherwise the output socket releases its old descriptor and takes the new one, and the peer address is decoded. A decoding failure leaves the address unchanged after the socket already changed |
| Socket.Socket.Send | src/socket.cpp:245-270 | the result is `ClassifyTransfer` of the OS reply, and an empty buffer makes no OS call |
| Socket.Socket.Recv | src/socket.cpp:272-297 | the result is `ClassifyTransfer` of the OS reply. Received bytes fill exactly the front of the buffer, the rest is unchanged, and an empty buffer makes no OS call |
| Socket.CloseTwice | src/socket.cpp:146-158 | closing twice releases the descriptor once |
| Poller.MapPollType | src/poller.cpp:23-41 | connect, read and read_write map to POLLOUT, POLLIN and POLLIN\|POLLOUT; a type watches reading exactly when it is not connect, and writing exactly when it is not read |
| Poller.FirstIndex | src/poller.cpp:85-98 | the position found is the first entry with the descriptor, or there is none |
| Poller.SwapRemove | src/poller.cpp:122-130 | removal shortens by one, moves the last element into the hole and keeps every other position |
| Poller.SwapRemoveMultiset | src/poller.cpp:122-130 | swap-with-last removal loses exactly the removed element |
| Poller.SwapRemoveInterests | src/poller.cpp:122-130 | removing one position from both vectors removes exactly that (descriptor, type) pair from the interest multiset |
| Poller.SwapRemoveAligned | src/poller.cpp:122-130 | removal keeps the two vectors aligned and each entry's events equal to its type's mapping |
| Poller.RemoveLeavesDuplicate | src/poller.cpp:113-134 | with a descriptor added twice, removing it leaves the other entry in place |
| Poller.EntryResults | src/poller.cpp:157-183 | an entry yields at most two results |
| Poller.ReportsOnlyRequested | src/poller.cpp:157-183 | a status is reported only for a readiness bit the entry's type asked for, and never connection_failed |
| Poller.EntryResultsMembership | src/poller.cpp:157-183 | an entry yields a result exactly when its descriptor matches and its type reports that status for its readiness bits |
| Poller.DeriveMembership | src/poller.cpp:154-185 | a result appears exactly when some entry for its descriptor reports its status |
| Poller.DeriveBound | src/poller.cpp:154-185 | there are at most two results per entry |
| Poller.NeverConnectionFailed | src/poller.cpp:159-165 | connection_failed is never derived |
| Poller.DeriveAppend | src/poller.cpp:154-185 | results follow entry order: a split interest set yields its parts' results, concatenated |
| Poller.DeriveSnoc | src/poller.cpp:154-185 | one more entry adds exactly that entry's results at the end |
| Poller.ReadWriteOrder | src/poller.cpp:167-179 | a read_write entry ready both ways reports write before read |
| Poller.WithRevents | src/poller.cpp:149 | the OS wait changes only the returned-events field of each entry |
| Poller.WithReventsAligned | src/poller.cpp:149 | the OS wait keeps the interest set aligned |
| Poller.CollectResults | src/poller.cpp:154-185 | the derivation loop produces exactly the results `Derive` specifies |
| Poller.TruncDiv | src/poller.cpp:147-148 | duration_cast truncates toward zero: the quotient's multiple lies between zero and the dividend, within one divisor |
| Poller.WrapInt32 | src/poller.cpp:147-148 | the cast to int lands in the 32-bit range, is congruent modulo 2^32, and is exact in range |
| Poller.TimeoutMillisAsWritten | src/poller.cpp:147-148 | the timeout as the code computes it: the truncated millisecond count reduced modulo 2^32 into int range |
| Poller.TimeoutMillis | src/poller.cpp:147-148 | the corrected timeout of the Findings row, which saturates where the code wraps: it is whole milliseconds within int range, never longer than requested, non-negative for a non-negative request, and exact whenever the count fits |
| Poller.TimeoutOverflow | src/poller.cpp:147-148 | the cast sends 2^31 ms to INT_MIN and 2^32 ms to 0, while the saturated timeout gives INT_MAX for both |
| Poller.TimeoutAgreesInRange | src/poller.cpp:147-148 | the saturated and the cast timeout agree whenever the millisecond count fits an int |
| Poller.Poller.constructor | src/poller.cpp:56-58 | a new poller is live and empty |
| Poller.Poller.Move | include/jhoyt/asl/poller.hpp:26 | the new poller takes the interest set and results, and the source becomes moved-from |
| Poller.Poller.MoveAssign | include/jhoyt/asl/poller.hpp:27 | self-assignment changes nothing. Otherwise the target takes the source's state and the source becomes moved-from |
| Poller.Poller.AddSocket | src/poller.cpp:62-76 | exactly one entry is appended to both vectors, with the mapped events and no returned events, duplicates included. A moved-from poller is unchanged |
| Poller.Poller.UpdateSocket | src/poller.cpp:78-104 | only the first entry for the descriptor gets the new events and type. Without a match nothing changes, and the length never changes |
| Poller.Poller.RemoveSocket | src/poller.cpp:106-135 | the first entry for the descriptor is removed by swap-with-last in both vectors, and the length drops by one exactly when there is one. The interest multiset loses exactly that pair |
| Poller.Poller.Poll | src/poller.cpp:137-192 | previous results are discarded, and the OS wait gets the corrected (saturated) millisecond timeout, which is the code's own value whenever the count fits an int. A failed wait gives an error with no results. Otherwise the returned bits are stored, and the results are exactly `Derive` of the entries. A moved-from poller returns nothing |

## Left out

- The text formats of numeric hosts (section 2.2 of RFC 4291, section 4 of RFC 5952, and dotted IPv4) that `inet_pton`/`inet_ntop` implement. They are the C library's, so they are the `InetCodec` parameter. No parse/print round trip is assumed: `RawAddress.RoundTrip` takes it as the hypothesis `SurvivesEncoding` and proves the exact condition under which reading an encoding returns the address.
- The `assert(status != -1)` after `inet_pton`: with the fixed families AF_INET/AF_INET6, the call cannot report an unsupported family.
- RawAddress.GetAddress: for AF_UNIX the C++ `strlen` over `sun_path` can run past the end of the storage when the 126 bytes after the family byte contain no NUL (undefined behaviour). The model stops at the end of the storage.
- RawAddress.FromRawData: the C++ reads a whole `sockaddr_storage` from the span's start even when the span is shorter. The model takes the full storage the span points at and compares only the span's length with 128.
- Platforms other than the BSD family are not modelled: the byte layout is the BSD one, and the family tags are the macOS ones. Linux has no `ss_len`, and there the source does not compile as written.
- Error message text (`make_socket_error_string`, `strerror`, the `std::format` messages) is not modelled. Errors are constructors of `RawAddressError`, `SocketError` and `PollError`.
- The OS primitives are not modelled themselves: `socket`, `fcntl`, `setsockopt`, `bind`, `listen`, `connect`, `accept`, `send`, `recv`, `shutdown`, `poll` and `close`. Their results, `errno` and the data they write are method parameters. `Socket.ClassifyTransfer` and the transfer methods require the OS contract that a reply is -1 or at most the buffer length.
- Socket.Socket.Accept: the initial `addr_len` is `sizeof(raw_address)`, taken to be 128 because the class holds only a `sockaddr_storage`.
- The private `socket(socket_id)` constructor is not modelled; the core never uses it.
- The `assert(sock_ != k_invalid_socket)` checks become `requires IsOpen()`.
- The `assert(false)` defaults of the mapping switches are not modelled; Dafny enumerations cannot hold other values.
- Blocking and timing of `poll` are not modelled, nor is the lifetime of the span it returns. The results are returned as a value equal to the `results` field.
- Poller.Poller.Poll: the OS wait is handed the corrected `Poller.TimeoutMillis`, not the wrapping cast of src/poller.cpp:147-148. The two agree whenever the millisecond count fits an int (`Poller.TimeoutAgreesInRange`). Beyond that the code passes `Poller.TimeoutMillisAsWritten` (INT_MIN at 2^31 ms, 0 at 2^32 ms), as the Findings row records.
- Poller.Poller.Poll: the loop that derives results runs over the entries as `Poller.CollectResults`. It builds the sequence that `poll` stores in `results`, instead of appending to the field in place.
- Windows branches are not modelled.
- The platform context token, the record/replay mocks and the system tests are not part of this model.
- Threading is not modelled: the library is single-threaded by design.

Two behaviours of the code are worth stating, and the model follows the code:
- `add_socket` (src/poller.cpp:62-76) appends without checking whether the descriptor is already there, so duplicates are possible. `remove_socket` then removes only the first entry (`Poller.RemoveLeavesDuplicate`).
- include/jhoyt/asl/poller.hpp:65-66 declares a `connection_failed` status that `poll` never produces (`Poller.NeverConnectionFailed`).

## Findings

| source | as written | input that shows it | evidently intended | confidence | as-written member | corrected member |
|---|---|---|---|---|---|---|
| src/poller.cpp:147-148 | the millisecond count of the 64-bit timeout is cast to `int`, which reduces it modulo 2^32 | a timeout of 2^31 ms (2147483648000000 ns) reaches `poll` as INT_MIN; what that does depends on the platform (Linux waits without limit, BSD and macOS accept only -1 as infinite and reject it, so `poll` throws). 2^32 ms reaches it as 0, which does not wait (`Poller.TimeoutOverflow`) | the timeout is a maximum wait: never longer than requested, never negative for a non-negative request, saturated at INT_MAX | not executed; medium | Poller.TimeoutMillisAsWritten | Poller.TimeoutMillis |
