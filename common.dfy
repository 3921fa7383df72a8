/** Types shared by the address, socket and poller models. */
module Common {

  /** Value or error: a C++ operation that either returns or throws std::runtime_error. */
  datatype Result<+T, +E> = Ok(value: T) | Err(error: E)

  datatype Option<+T> = None | Some(value: T)

  /** An octet of a native buffer. */
  type byte = b: int | 0 <= b < 256

  /** A C++ `char`: the characters of a std::string are single bytes. */
  type Char8 = c: char | c as int < 256

  /** A std::string. */
  type Str = seq<Char8>

  /** A 16-bit unsigned value, as `uint16_t`. */
  type u16 = p: int | 0 <= p < 0x1_0000

  /** The OS-level socket identifier (`socket_id` is `int` on POSIX). */
  type SocketId = int

  /** `k_invalid_socket`: the identifier of "no socket". */
  const INVALID_SOCKET: SocketId := -1

  /** Text of a byte sequence, one character per byte. */
  function BytesToStr(bs: seq<byte>): (s: Str)
    ensures |s| == |bs|
    ensures forall i :: 0 <= i < |bs| ==> s[i] as int == bs[i]
  {
    seq(|bs|, i requires 0 <= i < |bs| => bs[i] as char)
  }

  /** Bytes of a text, one byte per character. */
  function StrToBytes(s: Str): (bs: seq<byte>)
    ensures |bs| == |s|
    ensures forall i :: 0 <= i < |s| ==> bs[i] == s[i] as int
  {
    seq(|s|, i requires 0 <= i < |s| => s[i] as int)
  }

  lemma StrBytesRoundTrip(s: Str)
    ensures BytesToStr(StrToBytes(s)) == s
  {
    var t := BytesToStr(StrToBytes(s));
    assert |t| == |s|;
    forall i | 0 <= i < |s| ensures t[i] == s[i] {
      assert t[i] as int == s[i] as int;
    }
  }
}
