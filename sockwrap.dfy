/**
 * The buffered socket wrapper: a fixed-capacity receive buffer served one
 * byte at a time, a delimiter scanner built on it, and a send loop that
 * retries partial sends until everything is written.
 */
module SockWrap {
  import opened Bytes
  import opened Socket
  import opened Scanner

  function Max0(x: int): nat { if x < 0 then 0 else x }

  /** The copy loop of `recvstr`: `dest[at + i] = src[i]` for every `i < count`. */
  method CopyPending(dest: array<Byte>, at: nat, src: array<Byte>, count: nat)
    requires at + count <= dest.Length && count <= src.Length && dest != src
    modifies dest
    ensures dest[..at + count] == old(dest[..at]) + src[..count]
    ensures dest[at + count..] == old(dest[at + count..])
  {
    for i := 0 to count
      invariant dest[..at + i] == old(dest[..at]) + src[..i]
      invariant dest[at + i..] == old(dest[at + i..])
    {
      dest[at + i] := src[i];
    }
  }

  /** Dropping one more byte of a suffix of `input`. */
  lemma DropOne(input: seq<Byte>, rest: seq<Byte>, k: nat)
    requires k < |input| && rest == input[k..]
    ensures rest[1..] == input[k + 1..]
  {
  }

  /** Taking the first byte of a buffer window followed by more bytes. */
  lemma TakeFirst(b: array<Byte>, s: nat, k: nat, more: seq<Byte>)
    requires 0 < k && s + k <= b.Length
    ensures (b[s..s + k] + more)[0] == b[s]
    ensures (b[s..s + k] + more)[1..] == b[s + 1..s + k] + more
  {
  }

  /**
   * The wrapper around one connected socket. The socket behind `sockfd` is
   * `sock`; `Pending` and `Ending` describe what the reader will still
   * deliver, whether from its buffer or from the peer.
   */
  class SockWrap {
    const sock: Socket
    const sockfd: int
    const buffLen: nat
    const buff: array<Byte>
    /** Index in `buff` of the next unread byte. */
    var start: nat
    /** Number of unread bytes in `buff`, from `start` on. */
    var n: nat
    /** Every byte this reader will still hand out, in order. */
    ghost var Pending: seq<Byte>
    /** What a read reports once Pending is exhausted. */
    ghost var Ending: Status

    ghost predicate Valid()
      reads this, buff, sock`incoming
    {
      && sockfd == sock.fd
      && buff.Length == buffLen && start + n <= buffLen
      && Pending == buff[start..start + n] + (if buffLen == 0 then [] else StreamBytes(sock.incoming))
      && Ending == if buffLen == 0 then (if RecvCount(sock.incoming, 0) == -1 then Error else Disconnect)
                   else Terminal(sock.incoming)
    }

    /** `initsockwrap`: an empty reader on the socket `sock` with a buffer of `buffLen` bytes. */
    constructor (sock: Socket, buffLen: nat)
      ensures Valid() && fresh(buff)
      ensures this.sock == sock && sockfd == sock.fd && this.buffLen == buffLen
      ensures start == 0 && n == 0
      ensures Pending == (if buffLen == 0 then [] else StreamBytes(sock.incoming))
    {
      this.sock := sock;
      sockfd := sock.fd;
      this.buffLen := buffLen;
      start := 0;
      n := 0;
      buff := new Byte[buffLen];
      Pending := if buffLen == 0 then [] else StreamBytes(sock.incoming);
      Ending := if buffLen == 0 then (if RecvCount(sock.incoming, 0) == -1 then Error else Disconnect)
                else Terminal(sock.incoming);
    }

    /** `freesockwrap`: releases the wrapper and gives back its descriptor. */
    method Free() returns (fd: int)
      ensures fd == sockfd
    {
      fd := sockfd;
    }

    /**
     * The refill step of `recvchar`: one `recv` into the whole buffer. A
     * result of 0 or -1 leaves the reader as it was; otherwise the buffer
     * holds the bytes received, from index 0. Either way the bytes still to
     * be handed out are the same.
     */
    method Refill() returns (got: int)
      requires Valid() && n == 0
      modifies this, buff, sock`incoming
      ensures Valid() && Pending == old(Pending) && Ending == old(Ending)
      ensures got == RecvCount(old(sock.incoming), buffLen)
      ensures got <= 0 ==> start == old(start) && n == 0 && unchanged(buff, sock)
      ensures got > 0 ==> start == 0 && n == got && buff[..got] == old(sock.incoming)[0].bytes[..got]
      ensures got > 0 ==> sock.incoming == Consume(old(sock.incoming), got)
      ensures got <= 0 <==> Pending == []
      ensures got <= 0 ==> got == Ending.Code()
    {
      ghost var q := sock.incoming;
      got := sock.Recv(buff, buffLen);
      if got <= 0 {
        if buffLen > 0 {
          RecvEnds(q, buffLen);
        }
      } else {
        ConsumeStream(q, got);
        start := 0;
        n := got;
      }
    }

    /**
     * `recvchar`: hands out the next byte, refilling the buffer with one
     * `recv` only when it is empty. A `recv` result of 0 or -1 is passed
     * back as the status.
     */
    method RecvChar() returns (st: Status, c: Byte)
      requires Valid()
      modifies this, buff, sock`incoming
      ensures Valid() && Ending == old(Ending)
      ensures st in {Error, Disconnect, Ok}
      ensures st == Ok <==> old(Pending) != []
      ensures st == Ok ==> c == old(Pending)[0] && Pending == old(Pending)[1..]
      ensures st == Ok ==> 0 < start <= buffLen && c == buff[start - 1]
      ensures st == Ok && old(n) == 0 ==>
        start == 1 && n == RecvCount(old(sock.incoming), buffLen) - 1 &&
        sock.incoming == Consume(old(sock.incoming), n + 1)
      ensures st != Ok ==> st == Ending && Pending == []
      ensures st != Ok ==> old(n) == 0 && start == old(start) && n == 0 && unchanged(buff, sock)
      ensures old(n) > 0 ==> start == old(start) + 1 && n == old(n) - 1 && unchanged(buff, sock)
    {
      if n == 0 {
        ghost var q := sock.incoming;
        var got := Refill();
        if got <= 0 {
          st, c := if got == -1 then Error else Disconnect, 0;
        } else {
          c := Take();
          st := Ok;
          assert n + 1 == got && sock.incoming == Consume(q, got);
        }
      } else {
        c := Take();
        st := Ok;
      }
    }

    /** Hands out the byte at `start` from a buffer that holds unread bytes. */
    method Take() returns (c: Byte)
      requires Valid() && n > 0
      modifies this
      ensures Valid() && Ending == old(Ending)
      ensures old(Pending) != [] && c == old(Pending)[0] && Pending == old(Pending)[1..]
      ensures start == old(start) + 1 && n == old(n) - 1 && c == buff[old(start)]
    {
      TakeFirst(buff, start, n, if buffLen == 0 then [] else StreamBytes(sock.incoming));
      c := buff[start];
      start := start + 1;
      n := n - 1;
      Pending := Pending[1..];
    }

    /**
     * `recvstr`: reads until the delimiter `CStr(del)`, copying the content
     * before it into `dest` and terminating it with NUL. The outcome is the
     * scanner's on the bytes this reader will hand out.
     */
    method RecvStr(dest: array<Byte>, maxLen: int, del: seq<Byte>) returns (st: Status, ghost r: Scanned)
      requires Valid()
      requires dest != buff
      requires 0 <= maxLen < dest.Length
      requires NUL in del && StrLen(del) >= 1
      modifies this, buff, sock`incoming, dest
      ensures Valid() && Ending == old(Ending)
      ensures r == Scan(old(Pending), old(Ending), CStr(del), maxLen)
      ensures st == r.status
      ensures Pending == old(Pending)[r.consumed..]
      ensures dest[..|r.token|] == r.token
      ensures st == Ok ==> dest[|r.token|] == NUL && dest[|r.token| + 1..] == old(dest[..])[|r.token| + 1..]
      ensures st != Ok ==> dest[|r.token|..] == old(dest[..])[|r.token|..]
    {
      var partial := new Byte[StrLen(del)];
      st, r := ReadToken(dest, partial, maxLen, del, dest[..]);
    }

    /** The loop of `recvstr`, with `partial` as its scratch buffer for held delimiter bytes. */
    method ReadToken(dest: array<Byte>, partial: array<Byte>, maxLen: int, del: seq<Byte>, ghost orig: seq<Byte>)
      returns (st: Status, ghost r: Scanned)
      requires Valid() && dest[..] == orig
      requires dest != buff && partial != buff && partial != dest
      requires 0 <= maxLen < dest.Length
      requires NUL in del && StrLen(del) >= 1 && partial.Length == StrLen(del)
      modifies this, buff, sock`incoming, dest, partial
      ensures Valid() && Ending == old(Ending)
      ensures r == Scan(old(Pending), old(Ending), CStr(del), maxLen)
      ensures st == r.status
      ensures Pending == old(Pending)[r.consumed..]
      ensures dest[..|r.token|] == r.token
      ensures st == Ok ==> dest[|r.token|] == NUL && dest[|r.token| + 1..] == orig[|r.token| + 1..]
      ensures st != Ok ==> dest[|r.token|..] == orig[|r.token|..]
    {
      var dl := StrLen(del);
      var partialN: nat := 0;
      var strN: nat := 0;
      ghost var d := CStr(del);
      ghost var input := Pending;
      ghost var eos := Ending;
      ghost var total := Scan(input, eos, d, maxLen);
      ghost var k := 0;
      ghost var token := [];
      while true
        invariant Valid() && Ending == eos
        invariant partialN < dl && partial[..partialN] == d[..partialN]
        invariant strN == |token| <= maxLen && dest[..strN] == token && dest[strN..] == orig[strN..]
        invariant k <= |input| && Pending == input[k..]
        invariant Scanning(total, Pending, eos, d, maxLen, partialN, token, k)
        decreases |Pending|
      {
        var done;
        done, st, partialN, strN, token := Round(dest, partial, partialN, strN, del, maxLen, token, orig, total, input, k);
        if done {
          return st, total;
        }
        k := k + 1;
      }
    }

    /**
     * One round of the `recvstr` loop: `recvchar`, then the byte it delivered
     * fed to the scanner. The round either ends the scan with the outcome
     * `total`, or leaves the reader and the scanner one byte further on.
     */
    method Round(dest: array<Byte>, partial: array<Byte>, partialN: nat, strN: nat, del: seq<Byte>, maxLen: int,
                 ghost token: seq<Byte>, ghost orig: seq<Byte>, ghost total: Scanned, ghost input: seq<Byte>, ghost k: nat)
      returns (done: bool, st: Status, partialN': nat, strN': nat, ghost token': seq<Byte>)
      requires Valid() && dest != buff && partial != buff && partial != dest
      requires NUL in del && partial.Length == StrLen(del)
      requires partialN < partial.Length && partial[..partialN] == CStr(del)[..partialN]
      requires strN == |token| <= maxLen < dest.Length && dest[..strN] == token
      requires |orig| == dest.Length && dest[strN..] == orig[strN..]
      requires k <= |input| && Pending == input[k..]
      requires Scanning(total, Pending, Ending, CStr(del), maxLen, partialN, token, k)
      modifies this, buff, sock`incoming, dest, partial
      ensures Valid() && Ending == old(Ending)
      ensures done ==> st == total.status && Pending == input[total.consumed..] && dest[..|total.token|] == total.token
      ensures done && st == Ok ==> dest[|total.token|] == NUL && dest[|total.token| + 1..] == orig[|total.token| + 1..]
      ensures done && st != Ok ==> dest[|total.token|..] == orig[|total.token|..]
      ensures !done ==> partialN' < partial.Length && partial[..partialN'] == CStr(del)[..partialN']
      ensures !done ==> strN' == |token'| <= maxLen && dest[..strN'] == token' && dest[strN'..] == orig[strN'..]
      ensures !done ==> k + 1 <= |input| && Pending == input[k + 1..]
      ensures !done ==> Scanning(total, Pending, Ending, CStr(del), maxLen, partialN', token', k + 1)
    {
      ghost var rest := Pending;
      ghost var eos := Ending;
      var got, c := RecvChar();
      if got != Ok {
        ScanRunsOut(total, rest, eos, CStr(del), maxLen, partialN, token, k);
        done, st, partialN', strN', token' := true, got, partialN, strN, token;
      } else {
        DropOne(input, rest, k);
        ScanStep(total, rest, eos, CStr(del), maxLen, partialN, token, k);
        ghost var f;
        done, st, partialN', strN', f := Absorb(dest, partial, partialN, strN, c, del, maxLen, token, orig);
        token' := f.token;
      }
    }

    /**
     * The body of the `recvstr` loop after `recvchar` delivered `c`: store it
     * after the `partialN` held bytes, then finish on a complete delimiter,
     * give up when the flushed bytes would not fit, or flush them into `dest`.
     */
    static method Absorb(dest: array<Byte>, partial: array<Byte>, partialN: nat, strN: nat, c: Byte,
                         del: seq<Byte>, maxLen: int, ghost token: seq<Byte>, ghost orig: seq<Byte>)
      returns (done: bool, st: Status, partialN': nat, strN': nat, ghost f: Fed)
      requires NUL in del && partial.Length == StrLen(del) && partial != dest
      requires partialN < partial.Length && partial[..partialN] == CStr(del)[..partialN]
      requires strN == |token| <= maxLen < dest.Length && dest[..strN] == token
      requires |orig| == dest.Length && dest[strN..] == orig[strN..]
      modifies partial, dest
      ensures f == Feed(c, CStr(del), maxLen, partialN, token)
      ensures done == f.Stop? && (done ==> st == f.status)
      ensures !done ==> partialN' == f.m && partial[..partialN'] == CStr(del)[..partialN']
      ensures !done ==> strN' == |f.token|
      ensures dest[..|f.token|] == f.token
      ensures done && st == Ok ==> dest[|f.token|] == NUL && dest[|f.token| + 1..] == orig[|f.token| + 1..]
      ensures !(done && st == Ok) ==> dest[|f.token|..] == orig[|f.token|..]
    {
      ghost var d := CStr(del);
      f := Feed(c, d, maxLen, partialN, token);
      partial[partialN] := c;
      partialN' := partialN + 1;
      if partial[partialN' - 1] == del[partialN' - 1] {
        if partialN' == partial.Length {
          dest[strN] := NUL;
          done, st, strN' := true, Ok, strN + 1;
        } else {
          done, st, strN' := false, Ok, strN;
        }
      } else if strN + partialN' > maxLen {
        done, st, strN' := true, TooLong, strN;
      } else {
        assert partial[..partialN'] == d[..partialN' - 1] + [c];
        CopyPending(dest, strN, partial, partialN');
        done, st, partialN', strN' := false, Ok, 0, strN + partialN';
      }
    }

    /**
     * `sendarr`: keeps calling `send` on the unsent rest of `arr[0..len)`
     * until all of it is accepted, or gives up at the first failure.
     */
    method SendArr(arr: array<Byte>, len: int) returns (st: Status)
      requires len <= arr.Length
      modifies sock`replies, sock`sent
      ensures var d := Drain(old(sock.replies), arr[..Max0(len)]);
        && st in {Ok, Error}
        && (st == Ok <==> d.ok)
        && sock.sent == old(sock.sent) + d.accepted
        && sock.replies == d.rest
    {
      var start := 0;
      ghost var data := arr[..Max0(len)];
      ghost var total := Drain(sock.replies, data);
      st := Ok;
      while start < len && st == Ok
        invariant start <= |data| && data == arr[..Max0(len)]
        invariant st in {Ok, Error}
        invariant st == Ok ==> sock.sent == old(sock.sent) + data[..start] && SendingFrom(total, sock.replies, data, start)
        invariant st == Error ==> total == Drained(false, data[..start], sock.replies) && sock.sent == old(sock.sent) + data[..start]
        decreases |data| - start, if st == Ok then 1 else 0
      {
        var nsent := SendOnce(arr, len, start, data, total, old(sock.sent));
        if nsent == -1 {
          st := Error;
        } else {
          start := start + nsent;
        }
      }
      if st == Ok {
        SendDone(total, sock.replies, data, start);
      }
    }

    /**
     * One round of `sendarr`: a single `send` of the unsent `arr[start..len)`,
     * which either fails the transfer or moves `start` on by what it accepted.
     */
    method SendOnce(arr: array<Byte>, len: int, start: nat, ghost data: seq<Byte>, ghost total: Drained, ghost base: seq<Byte>)
      returns (nsent: int)
      requires start < len <= arr.Length && data == arr[..len]
      requires sock.sent == base + data[..start] && SendingFrom(total, sock.replies, data, start)
      modifies sock`replies, sock`sent
      ensures nsent == -1 ==> total == Drained(false, data[..start], sock.replies) && sock.sent == base + data[..start]
      ensures nsent != -1 ==> 0 < nsent && start + nsent <= |data|
      ensures nsent != -1 ==> sock.sent == base + data[..start + nsent] && SendingFrom(total, sock.replies, data, start + nsent)
    {
      ghost var before := sock.replies;
      nsent := sock.Send(arr, start, len - start);
      SendRound(total, before, data, start, nsent);
      if nsent != -1 {
        SentGrows(base, arr[..], data, start, nsent);
      }
    }

    /** `sendstr`: sends the contents of the C string `src`, `strlen(src)` bytes. */
    method SendStr(src: array<Byte>) returns (st: Status)
      requires NUL in src[..]
      modifies sock`replies, sock`sent
      ensures var d := Drain(old(sock.replies), CStr(src[..]));
        && st in {Ok, Error}
        && (st == Ok <==> d.ok)
        && sock.sent == old(sock.sent) + d.accepted
        && sock.replies == d.rest
    {
      st := SendArr(src, StrLen(src[..]));
    }
  }
}
