/**
 * The connected peer, seen only through the two system calls the wrapper
 * makes on it. `recv` is driven by a queue of what the peer will deliver;
 * `send` by a queue of how much the kernel will accept on each call.
 */
module Socket {
  import opened Bytes

  /** One thing the peer delivers: some bytes, an orderly shutdown, or a failure. */
  datatype Chunk = Data(bytes: seq<Byte>) | Closed | Broken

  type Positive = k: int | k >= 1 witness 1

  /** The kernel's answer to one `send` call: fail, or take at most `room` bytes. */
  datatype SendReply = Refuse | Accept(room: Positive)

  /** The value `recv(fd, buf, len, 0)` returns when `q` is what the peer has queued. */
  function RecvCount(q: seq<Chunk>, len: nat): (r: int)
    ensures -1 <= r <= len
    ensures r > 0 <==> len > 0 && q != [] && q[0].Data? && q[0].bytes != []
    ensures r > 0 ==> r == Min(len, |q[0].bytes|)
    ensures r == -1 <==> q != [] && q[0].Broken?
  {
    if q == [] then 0
    else match q[0]
      case Broken => -1
      case Closed => 0
      case Data(b) => Min(len, |b|)
  }

  function Min(a: int, b: int): int { if a < b then a else b }

  /** The queue after a `recv` took the first `k` bytes of the leading chunk. */
  function Consume(q: seq<Chunk>, k: nat): (r: seq<Chunk>)
    requires q != [] && q[0].Data? && 0 < k <= |q[0].bytes|
  {
    if k == |q[0].bytes| then q[1..] else [Data(q[0].bytes[k..])] + q[1..]
  }

  /** Every byte the peer will still deliver, in order, before it closes or fails. */
  function StreamBytes(q: seq<Chunk>): seq<Byte>
  {
    if q == [] || !q[0].Data? || q[0].bytes == [] then []
    else q[0].bytes + StreamBytes(q[1..])
  }

  /** What `recv` reports once every byte in StreamBytes(q) has been taken. */
  function Terminal(q: seq<Chunk>): (s: Status)
    ensures s in {Error, Disconnect}
  {
    if q == [] then Disconnect
    else match q[0]
      case Broken => Error
      case Closed => Disconnect
      case Data(b) => if b == [] then Disconnect else Terminal(q[1..])
  }

  /**
   * Taking the first `k` bytes of the leading chunk takes exactly the next `k`
   * bytes of the stream; the rest of the stream and its ending remain.
   */
  lemma ConsumeStream(q: seq<Chunk>, k: nat)
    requires q != [] && q[0].Data? && 0 < k <= |q[0].bytes|
    ensures StreamBytes(q) == q[0].bytes[..k] + StreamBytes(Consume(q, k))
    ensures Terminal(Consume(q, k)) == Terminal(q)
  {
    var b, tail := q[0].bytes, q[1..];
    assert StreamBytes(q) == b + StreamBytes(tail);
    if k < |b| {
      var q' := [Data(b[k..])] + tail;
      assert q'[0] == Data(b[k..]) && q'[1..] == tail;
      assert StreamBytes(q') == b[k..] + StreamBytes(tail);
      assert b[..k] + (b[k..] + StreamBytes(tail)) == b + StreamBytes(tail) by {
        assert b == b[..k] + b[k..];
      }
    } else {
      assert b[..k] == b;
    }
  }

  /** A `recv` that does not deliver bytes reports the stream's ending and there are no bytes left. */
  lemma RecvEnds(q: seq<Chunk>, len: nat)
    requires len > 0 && RecvCount(q, len) <= 0
    ensures StreamBytes(q) == []
    ensures Terminal(q) == if RecvCount(q, len) == -1 then Error else Disconnect
  {
  }

  /**
   * Outcome of the `sendarr` loop on `data`: each round offers what is still
   * unsent; an empty reply queue means the kernel takes everything offered.
   */
  datatype Drained = Drained(ok: bool, accepted: seq<Byte>, rest: seq<SendReply>)

  /** The reply the kernel gives to the next `send` call, and the queue after it. */
  function NextReply(replies: seq<SendReply>, count: nat): SendReply
  {
    if replies == [] then Accept(if count == 0 then 1 else count) else replies[0]
  }

  function AfterReply(replies: seq<SendReply>): seq<SendReply>
  {
    if replies == [] then [] else replies[1..]
  }

  /** The value `send(fd, buf, count, 0)` returns. */
  function SendCount(replies: seq<SendReply>, count: nat): (r: int)
    requires count > 0
    ensures r == -1 || 1 <= r <= count
  {
    match NextReply(replies, count)
    case Refuse => -1
    case Accept(room) => Min(room, count)
  }

  function Drain(replies: seq<SendReply>, data: seq<Byte>): Drained
    decreases |data|
  {
    if data == [] then Drained(true, [], replies)
    else
      var k := SendCount(replies, |data|);
      if k == -1 then Drained(false, [], AfterReply(replies))
      else
        var d := Drain(AfterReply(replies), data[k..]);
        assert data == data[..k] + data[k..];
        Drained(d.ok, data[..k] + d.accepted, d.rest)
  }

  /** One round of the send loop: the reply to the first call, then the rest. */
  lemma DrainStep(replies: seq<SendReply>, data: seq<Byte>)
    requires data != []
    ensures var k := SendCount(replies, |data|);
      && (k == -1 ==> Drain(replies, data) == Drained(false, [], AfterReply(replies)))
      && (k != -1 ==> var d := Drain(AfterReply(replies), data[k..]);
                      Drain(replies, data) == Drained(d.ok, data[..k] + d.accepted, d.rest))
  {
  }

  /** The send loop after `start` bytes of `data` are through, with `replies` still to come. */
  ghost predicate SendingFrom(total: Drained, replies: seq<SendReply>, data: seq<Byte>, start: nat)
  {
    start <= |data| &&
    var d := Drain(replies, data[start..]);
    total == Drained(d.ok, data[..start] + d.accepted, d.rest)
  }

  /** One round of the send loop: the reply either ends the transfer or moves `start` on. */
  lemma SendRound(total: Drained, replies: seq<SendReply>, data: seq<Byte>, start: nat, k: int)
    requires SendingFrom(total, replies, data, start) && start < |data|
    requires k == SendCount(replies, |data| - start)
    ensures k == -1 ==> total == Drained(false, data[..start], AfterReply(replies))
    ensures k != -1 ==> start + k <= |data| && SendingFrom(total, AfterReply(replies), data, start + k)
  {
    var rest := data[start..];
    DrainStep(replies, rest);
    if k == -1 {
      assert data[..start] + [] == data[..start];
    } else {
      var d := Drain(AfterReply(replies), rest[k..]);
      assert data[start + k..] == rest[k..];
      assert data[..start + k] == data[..start] + rest[..k];
      assert data[..start] + (rest[..k] + d.accepted) == data[..start + k] + d.accepted;
    }
  }

  /** The send loop has offered everything. */
  lemma SendDone(total: Drained, replies: seq<SendReply>, data: seq<Byte>, start: nat)
    requires SendingFrom(total, replies, data, start) && start >= |data|
    ensures total == Drained(true, data, replies)
  {
    assert data[start..] == [] && data[..start] == data;
  }

  /** Sending `k` more bytes from the array after `sent` extends the sent prefix of `data`. */
  lemma SentGrows(sent: seq<Byte>, a: seq<Byte>, data: seq<Byte>, start: nat, k: nat)
    requires start + k <= |data| <= |a| && data == a[..|data|]
    ensures sent + data[..start] + a[start..start + k] == sent + data[..start + k]
  {
    assert a[start..start + k] == data[start..start + k];
    assert data[..start + k] == data[..start] + data[start..start + k];
  }

  /**
   * The bytes the kernel accepted are a prefix of the data, and the transfer
   * succeeds exactly when that prefix is all of it.
   */
  lemma {:induction false} DrainAccepted(replies: seq<SendReply>, data: seq<Byte>)
    ensures var d := Drain(replies, data);
      |d.accepted| <= |data| && d.accepted == data[..|d.accepted|] &&
      (d.ok <==> |d.accepted| == |data|)
    decreases |data|
  {
    if data != [] {
      var k := SendCount(replies, |data|);
      if k != -1 {
        DrainAccepted(AfterReply(replies), data[k..]);
        var d := Drain(AfterReply(replies), data[k..]);
        assert data[..k + |d.accepted|] == data[..k] + data[k..][..|d.accepted|];
      }
    }
  }

  /** If the kernel never refuses, the whole array gets through. */
  lemma {:induction false} DrainWithoutRefusal(replies: seq<SendReply>, data: seq<Byte>)
    requires forall i | 0 <= i < |replies| :: replies[i] != Refuse
    ensures Drain(replies, data).ok
    decreases |data|
  {
    if data != [] {
      var k := SendCount(replies, |data|);
      assert k != -1;
      DrainWithoutRefusal(AfterReply(replies), data[k..]);
    }
  }

  /** A refusal on the first call fails the transfer with nothing sent. */
  lemma RefusedAtOnce(replies: seq<SendReply>, data: seq<Byte>)
    requires data != [] && replies != [] && replies[0] == Refuse
    ensures Drain(replies, data) == Drained(false, [], replies[1..])
  {
  }

  /** The peer: the bytes it will deliver, the kernel's send replies, and the bytes sent so far. */
  class Socket {
    const fd: int
    var incoming: seq<Chunk>
    var replies: seq<SendReply>
    var sent: seq<Byte>

    constructor (fd: int, incoming: seq<Chunk>, replies: seq<SendReply>)
      ensures this.fd == fd && this.incoming == incoming && this.replies == replies && sent == []
    {
      this.fd := fd;
      this.incoming := incoming;
      this.replies := replies;
      sent := [];
    }

    /** `recv(fd, buf, len, 0)`: writes the delivered bytes to `buf[0..r)`. */
    method Recv(buf: array<Byte>, len: nat) returns (r: int)
      requires len <= buf.Length
      modifies this`incoming, buf
      ensures r == RecvCount(old(incoming), len)
      ensures r <= 0 ==> unchanged(this, buf)
      ensures r > 0 ==> incoming == Consume(old(incoming), r)
      ensures r > 0 ==> buf[..r] == old(incoming)[0].bytes[..r]
      ensures r > 0 ==> buf[r..] == old(buf[r..])
    {
      r := RecvCount(incoming, len);
      if r > 0 {
        var b := incoming[0].bytes;
        var i := 0;
        while i < r
          invariant 0 <= i <= r
          invariant buf[..i] == b[..i]
          invariant buf[r..] == old(buf[r..])
          invariant incoming == old(incoming)
        {
          buf[i] := b[i];
          i := i + 1;
        }
        incoming := Consume(incoming, r);
      }
    }

    /** `send(fd, arr + from, count, 0)`. */
    method Send(arr: array<Byte>, from: nat, count: nat) returns (r: int)
      requires from + count <= arr.Length && count > 0
      modifies this`replies, this`sent
      ensures r == SendCount(old(replies), count)
      ensures replies == AfterReply(old(replies))
      ensures sent == old(sent) + if r == -1 then [] else arr[from..from + r]
    {
      r := SendCount(replies, count);
      replies := AfterReply(replies);
      if r != -1 {
        sent := sent + arr[from..from + r];
      }
    }
  }
}
