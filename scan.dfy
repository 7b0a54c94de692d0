/**
 * The delimiter scanner of `recvstr`, as a function of the bytes the reader
 * will deliver. It follows the C loop step by step: `m` is the number of
 * pending bytes held in the scratch buffer (`buff_n`), `token` the content
 * copied into `dest` so far (`dest[0..str_n)`).
 */
module Scanner {
  import opened Bytes

  /**
   * The result of one `recvstr` call: its status, the content in `dest`,
   * the bytes consumed but not copied (the delimiter, or the pending bytes
   * that did not fit, or a partial match cut off by the end of the stream),
   * and the number of bytes consumed.
   */
  datatype Scanned = Scanned(status: Status, token: seq<Byte>, held: seq<Byte>, consumed: nat)

  /** A scan result seen from `k` bytes earlier in the stream. */
  function Later(r: Scanned, k: nat): Scanned
  {
    r.(consumed := r.consumed + k)
  }

  /** What one byte does to the scan: it stops it, or leaves `m` held bytes and content `token`. */
  datatype Fed = Continue(m: nat, token: seq<Byte>) | Stop(status: Status, token: seq<Byte>, held: seq<Byte>)

  /**
   * One step of the scan loop: byte `c` arrives with the first `m` bytes of
   * `del` held. It completes the delimiter, extends the partial match, or
   * breaks it, and then the held bytes and `c` are flushed into the content
   * when they fit.
   */
  function Feed(c: Byte, del: seq<Byte>, limit: int, m: nat, token: seq<Byte>): (f: Fed)
    requires m < |del| && |token| <= limit
    ensures f.Continue? ==> f.m < |del| && |f.token| <= limit
    ensures f.Stop? ==> f.status in {Ok, TooLong} && f.token == token
  {
    if c == del[m] then
      if m + 1 == |del| then Stop(Ok, token, del) else Continue(m + 1, token)
    else
      var flushed := del[..m] + [c];
      if |token| + |flushed| > limit then Stop(TooLong, token, flushed)
      else Continue(0, token + flushed)
  }

  /**
   * A step loses no byte: the content and the held bytes before it, then `c`,
   * are the content and the held bytes after it. It stops on success holding
   * the whole delimiter, and on TooLong holding a broken partial match that
   * does not fit.
   */
  lemma FeedKeeps(c: Byte, del: seq<Byte>, limit: int, m: nat, token: seq<Byte>)
    requires m < |del| && |token| <= limit
    ensures var f := Feed(c, del, limit, m, token);
      && (f.Continue? ==> token + del[..m] + [c] == f.token + del[..f.m])
      && (f.Stop? ==> token + del[..m] + [c] == f.token + f.held)
      && (f.Stop? && f.status == Ok ==> f.held == del)
      && (f.Stop? && f.status == TooLong ==>
            |f.token| + |f.held| > limit && 0 < |f.held| <= |del| &&
            f.held[..|f.held| - 1] == del[..|f.held| - 1] && f.held[|f.held| - 1] != del[|f.held| - 1])
  {
    if c == del[m] {
      assert del[..m + 1] == del[..m] + [c];
    } else {
      var flushed := del[..m] + [c];
      assert flushed[..m] == del[..m];
      assert del[..0] == [];
    }
  }

  function ScanFrom(input: seq<Byte>, eos: Status, del: seq<Byte>, limit: int, m: nat, token: seq<Byte>): (r: Scanned)
    requires m < |del| && |token| <= limit
    requires eos in {Error, Disconnect}
    ensures r.consumed <= |input| && |r.token| <= limit
    ensures r.status in {Ok, TooLong} ==> r.consumed > 0
    ensures r.status in {Error, Disconnect} ==> r.status == eos && r.consumed == |input|
    decreases |input|
  {
    if input == [] then Scanned(eos, token, del[..m], 0)
    else match Feed(input[0], del, limit, m, token)
      case Stop(status, t, held) => Scanned(status, t, held, 1)
      case Continue(m', t) => Later(ScanFrom(input[1..], eos, del, limit, m', t), 1)
  }

  /** Every byte consumed ends up either in the token or among the held bytes, in order. */
  lemma {:induction false} ScanFromConcat(input: seq<Byte>, eos: Status, del: seq<Byte>, limit: int, m: nat, token: seq<Byte>)
    requires m < |del| && |token| <= limit && eos in {Error, Disconnect}
    ensures var r := ScanFrom(input, eos, del, limit, m, token);
      token + del[..m] + input[..r.consumed] == r.token + r.held
    decreases |input|
  {
    if input == [] {
      assert input[..0] == [];
    } else {
      FeedKeeps(input[0], del, limit, m, token);
      match Feed(input[0], del, limit, m, token)
      case Stop(_, _, _) =>
        assert input[..1] == [input[0]];
      case Continue(m', t) =>
        ScanFromConcat(input[1..], eos, del, limit, m', t);
        ConsumeOne(input, ScanFrom(input[1..], eos, del, limit, m', t).consumed, token + del[..m]);
    }
  }

  /** Moving the next input byte behind the bytes already seen keeps their concatenation. */
  lemma ConsumeOne(input: seq<Byte>, k: nat, seen: seq<Byte>)
    requires k < |input|
    ensures seen + input[..k + 1] == seen + [input[0]] + input[1..][..k]
  {
    assert input[..k + 1] == [input[0]] + input[1..][..k];
  }

  /**
   * What the held bytes are at the end: the delimiter on success, a broken
   * partial match that does not fit on TooLong, and an unfinished partial
   * match when the stream ends first.
   */
  lemma {:induction false} ScanFromHeld(input: seq<Byte>, eos: Status, del: seq<Byte>, limit: int, m: nat, token: seq<Byte>)
    requires m < |del| && |token| <= limit && eos in {Error, Disconnect}
    ensures var r := ScanFrom(input, eos, del, limit, m, token);
      && (r.status == Ok ==> r.held == del)
      && (r.status == TooLong ==>
            |r.token| + |r.held| > limit && 0 < |r.held| <= |del| &&
            r.held[..|r.held| - 1] == del[..|r.held| - 1] && r.held[|r.held| - 1] != del[|r.held| - 1])
      && (r.status in {Error, Disconnect} ==> |r.held| < |del| && r.held == del[..|r.held|])
    decreases |input|
  {
    if input != [] {
      FeedKeeps(input[0], del, limit, m, token);
      match Feed(input[0], del, limit, m, token)
      case Stop(_, _, _) =>
      case Continue(m', t) =>
        ScanFromHeld(input[1..], eos, del, limit, m', t);
    }
  }

  /**
   * The scan loop after `k` bytes: `total` is what scanning `rest` from
   * `m` held bytes and content `token` gives, seen from the start.
   */
  ghost predicate Scanning(total: Scanned, rest: seq<Byte>, eos: Status, del: seq<Byte>, limit: int, m: nat, token: seq<Byte>, k: nat)
  {
    m < |del| && |token| <= limit && eos in {Error, Disconnect} &&
    total == Later(ScanFrom(rest, eos, del, limit, m, token), k)
  }

  /** The stream ends before the delimiter. */
  lemma ScanRunsOut(total: Scanned, rest: seq<Byte>, eos: Status, del: seq<Byte>, limit: int, m: nat, token: seq<Byte>, k: nat)
    requires Scanning(total, rest, eos, del, limit, m, token, k) && rest == []
    ensures total == Scanned(eos, token, del[..m], k)
  {
  }

  /** One more byte either ends the scan with the outcome Feed gives or continues it. */
  lemma ScanStep(total: Scanned, rest: seq<Byte>, eos: Status, del: seq<Byte>, limit: int, m: nat, token: seq<Byte>, k: nat)
    requires Scanning(total, rest, eos, del, limit, m, token, k) && rest != []
    ensures var f := Feed(rest[0], del, limit, m, token);
      f.Stop? ==> total == Scanned(f.status, f.token, f.held, k + 1)
    ensures var f := Feed(rest[0], del, limit, m, token);
      f.Continue? ==> Scanning(total, rest[1..], eos, del, limit, f.m, f.token, k + 1)
  {
  }

  /**
   * `recvstr(sockw, dest, limit, del)` on a reader that will deliver `input`
   * and then report `eos`.
   */
  function Scan(input: seq<Byte>, eos: Status, del: seq<Byte>, limit: nat): (r: Scanned)
    requires |del| >= 1 && eos in {Error, Disconnect}
    ensures |r.token| <= limit && r.consumed <= |input|
    ensures input[..r.consumed] == r.token + r.held
    ensures r.status == Ok ==> r.held == del
    ensures r.status == TooLong ==> limit < r.consumed && 0 < |r.held| <= |del|
    ensures r.status == TooLong ==>
      r.held[..|r.held| - 1] == del[..|r.held| - 1] && r.held[|r.held| - 1] != del[|r.held| - 1]
    ensures r.status in {Error, Disconnect} ==>
      r.status == eos && r.consumed == |input| && |r.held| < |del| && r.held == del[..|r.held|]
  {
    var r := ScanFrom(input, eos, del, limit, 0, []);
    ScanFromConcat(input, eos, del, limit, 0, []);
    ScanFromHeld(input, eos, del, limit, 0, []);
    assert [] + del[..0] + input[..r.consumed] == input[..r.consumed];
    r
  }

  /** Index of the first `b` in `s`, or `|s|` when there is none. */
  function FirstIndex(s: seq<Byte>, b: Byte): (i: nat)
    ensures i <= |s| && b !in s[..i]
    ensures i < |s| ==> s[i] == b
  {
    if s == [] then 0
    else if s[0] == b then 0
    else
      var i := 1 + FirstIndex(s[1..], b);
      assert s[..i] == [s[0]] + s[1..][..i - 1];
      i
  }

  /**
   * Reading up to a one-byte delimiter `b` with room for `budget` bytes:
   * the bytes before the first `b` when they fit, otherwise the first
   * `budget` bytes and TooLong, or everything and the stream's ending.
   */
  function SplitAtByte(input: seq<Byte>, eos: Status, b: Byte, budget: nat): Scanned
  {
    var i := FirstIndex(input, b);
    if i < |input| && i <= budget then Scanned(Ok, input[..i], [b], i + 1)
    else if budget < |input| then Scanned(TooLong, input[..budget], [input[budget]], budget + 1)
    else Scanned(eos, input, [], |input|)
  }

  lemma {:induction false} ScanFromSingleByte(input: seq<Byte>, eos: Status, b: Byte, limit: int, token: seq<Byte>)
    requires |token| <= limit && eos in {Error, Disconnect}
    ensures var s := SplitAtByte(input, eos, b, limit - |token|);
      ScanFrom(input, eos, [b], limit, 0, token) == s.(token := token + s.token)
    decreases |input|
  {
    var budget := limit - |token|;
    if input == [] {
      assert [b][..0] == [] && token + [] == token;
    } else {
      var c := input[0];
      var f := Feed(c, [b], limit, 0, token);
      assert [b][..0] + [c] == [c] && token + [] == token;
      if c == b {
        assert f == Stop(Ok, token, [b]);
      } else if budget == 0 {
        assert f == Stop(TooLong, token, [c]);
        assert FirstIndex(input, b) > 0;
      } else {
        assert f == Continue(0, token + [c]);
        ScanFromSingleByte(input[1..], eos, b, limit, token + [c]);
        SplitAtByteStep(input, eos, b, budget);
        var s' := SplitAtByte(input[1..], eos, b, budget - 1);
        assert token + [c] + s'.token == token + ([c] + s'.token);
      }
    }
  }

  /** A byte that is not the delimiter, with room left, moves into the token. */
  lemma SplitAtByteStep(input: seq<Byte>, eos: Status, b: Byte, budget: nat)
    requires input != [] && input[0] != b && budget > 0
    ensures var s' := SplitAtByte(input[1..], eos, b, budget - 1);
      SplitAtByte(input, eos, b, budget) == Scanned(s'.status, [input[0]] + s'.token, s'.held, s'.consumed + 1)
  {
    var c, tail := input[0], input[1..];
    var i' := FirstIndex(tail, b);
    assert FirstIndex(input, b) == i' + 1;
    if i' < |tail| && i' <= budget - 1 {
      assert input[..i' + 1] == [c] + tail[..i'];
    } else if budget - 1 < |tail| {
      assert input[..budget] == [c] + tail[..budget - 1];
    } else {
      assert input == [c] + tail;
    }
  }

  /**
   * With a one-byte delimiter `recvstr` returns exactly the bytes before its
   * first occurrence, whenever they fit in `limit` bytes.
   */
  lemma SingleByteDelimiter(input: seq<Byte>, eos: Status, b: Byte, limit: nat)
    requires eos in {Error, Disconnect}
    ensures Scan(input, eos, [b], limit) == SplitAtByte(input, eos, b, limit)
  {
    ScanFromSingleByte(input, eos, b, limit, []);
  }

  /** The rest of a delimiter whose first `m` bytes are pending completes the match. */
  lemma {:induction false} FinishMatch(del: seq<Byte>, rest: seq<Byte>, eos: Status, limit: int, m: nat, token: seq<Byte>)
    requires m < |del| && |token| <= limit && eos in {Error, Disconnect}
    ensures ScanFrom(del[m..] + rest, eos, del, limit, m, token) == Scanned(Ok, token, del, |del| - m)
    decreases |del| - m
  {
    var input := del[m..] + rest;
    assert input[0] == del[m];
    if m + 1 < |del| {
      assert input[1..] == del[m + 1..] + rest;
      FinishMatch(del, rest, eos, limit, m + 1, token);
    }
  }

  /**
   * Content that never contains the delimiter's first byte is returned in
   * full when it fits, and the delimiter after it ends the token.
   */
  lemma {:induction false} FindsDelimiterAfterPlainContent(t: seq<Byte>, del: seq<Byte>, rest: seq<Byte>, eos: Status, limit: int, token: seq<Byte>)
    requires |del| >= 1 && del[0] !in t && |token| + |t| <= limit && eos in {Error, Disconnect}
    ensures ScanFrom(t + del + rest, eos, del, limit, 0, token) == Scanned(Ok, token + t, del, |t| + |del|)
    decreases |t|
  {
    if t == [] {
      assert t + del + rest == del[0..] + rest;
      FinishMatch(del, rest, eos, limit, 0, token);
    } else {
      assert (t + del + rest)[0] == t[0];
      assert (t + del + rest)[1..] == t[1..] + del + rest;
      assert del[..0] + [t[0]] == [t[0]];
      FindsDelimiterAfterPlainContent(t[1..], del, rest, eos, limit, token + [t[0]]);
      assert token + [t[0]] + t[1..] == token + t;
    }
  }

  /**
   * A byte that breaks a partial match is flushed with it and is not tried
   * again as the start of the delimiter: with delimiter CR LF the input
   * "x" CR CR LF is read to its end without the CR LF being recognised.
   */
  lemma CrLfAfterLoneCr()
    ensures Scan([120, 13, 13, 10], Disconnect, [13, 10], 16) == Scanned(Disconnect, [120, 13, 13, 10], [], 4)
  {
    var del: seq<Byte> := [13, 10];
    assert ScanFrom([], Disconnect, del, 16, 0, [120, 13, 13, 10]) == Scanned(Disconnect, [120, 13, 13, 10], [], 0);
    assert ScanFrom([10], Disconnect, del, 16, 0, [120, 13, 13]) == Scanned(Disconnect, [120, 13, 13, 10], [], 1);
    assert ScanFrom([13, 10], Disconnect, del, 16, 1, [120]) == Scanned(Disconnect, [120, 13, 13, 10], [], 2);
    assert ScanFrom([13, 13, 10], Disconnect, del, 16, 0, [120]) == Scanned(Disconnect, [120, 13, 13, 10], [], 3);
    assert Feed(120, del, 16, 0, []) == Continue(0, [120]);
    assert ScanFrom([120, 13, 13, 10], Disconnect, del, 16, 0, []) == Scanned(Disconnect, [120, 13, 13, 10], [], 4);
  }
}
