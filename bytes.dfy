/** Bytes, C strings and the integer return codes used by the socket wrapper. */
module Bytes {

  /** A C `char` as it travels over the socket. */
  newtype Byte = b: int | 0 <= b < 256

  /** The terminator of a C string. */
  const NUL: Byte := 0

  /** `strlen`: the number of bytes before the first NUL of a C string. */
  function StrLen(s: seq<Byte>): (k: nat)
    requires NUL in s
    ensures k < |s| && s[k] == NUL
    ensures NUL !in s[..k]
  {
    if s[0] == NUL then 0
    else
      assert NUL in s[1..] by {
        var i :| 0 <= i < |s| && s[i] == NUL;
        assert s[1..][i - 1] == NUL;
      }
      var k := 1 + StrLen(s[1..]);
      assert s[..k] == [s[0]] + s[1..][..k - 1];
      k
  }

  /** The contents of a C string: its bytes up to, not including, the first NUL. */
  function CStr(s: seq<Byte>): (r: seq<Byte>)
    requires NUL in s
    ensures NUL !in r
    ensures |r| < |s| && s[..|r| + 1] == r + [NUL]
  {
    s[..StrLen(s)]
  }

  /**
   * The outcome of a wrapper call. The C functions return it as an int,
   * given by Code(): -1 error, 0 disconnect, 1 done, 2 string too large.
   */
  datatype Status = Error | Disconnect | Ok | TooLong {
    function Code(): (c: int)
      ensures -1 <= c <= 2
      ensures c < 1 <==> this in {Error, Disconnect}
    {
      match this
      case Error => -1
      case Disconnect => 0
      case Ok => 1
      case TooLong => 2
    }
  }
}
