# Buffered socket wrapper

A Dafny model of the buffered socket wrapper of a small HTTP server. The model covers:

- `initsockwrap` and `freesockwrap`, which build and release the wrapper.
- `recvchar`, which hands out bytes one at a time from a fixed-size receive buffer.
- `recvstr`, which reads up to a (possibly multi-byte) delimiter with a pending-match scratch buffer.
- `sendarr` and `sendstr`, which keep calling `send` until the whole array has been accepted.

The modules are:

- `Bytes` (`bytes.dfy`): the `Byte` type and C strings. `StrLen` models `strlen` and `CStr` gives a string's contents. `Status` holds the return codes -1, 0, 1 and 2.
- `Socket` (`socket.dfy`): the connected peer, seen only through `recv` and `send`.
  - What `recv` returns is driven by a queue of chunks. `Data(bytes)` delivers at most `len` bytes per call and keeps the rest of the chunk. `Closed` makes `recv` return 0 and `Broken` makes it return -1.
  - What `send` returns is driven by a queue of replies. `Refuse` fails the call; `Accept(room)` takes at most `room` bytes.
  - `StreamBytes` and `Terminal` give everything the peer will still deliver and what `recv` reports afterwards. `Drain` gives the outcome of the whole send loop.
- `Scanner` (`scan.dfy`): the delimiter state machine of `recvstr` as a function of the bytes the reader will deliver. `Feed` is one loop step, `ScanFrom` runs it to the end, and `Scan` is a whole call.
- `SockWrap` (`sockwrap.dfy`): the `struct sockwrap` as a class.
  - The fields are the descriptor, the buffer length, the `buff` array and the mutable `start` and `n`.
  - Two ghost fields describe the reader abstractly. `Pending` holds the bytes it will still hand out: the unread buffer window followed by the peer's stream. `Ending` is the status a read reports once those bytes run out.
  - Each method is proved against those functions.

On a mismatch, `recvstr` flushes all pending bytes, including the byte that broke the match, into `dest` and starts matching afresh with the *next* byte. One might expect the breaking byte to be re-tested as the start of a new match; the code does not, and neither does the model:

- `Scanner.Feed` does not re-test.
- `Scanner.CrLfAfterLoneCr` shows that with delimiter CR LF the input `x` CR CR LF runs to the end of the stream without the CR LF being found.

## Model

| member | source | states |
|---|---|---|
| `SockWrap.SockWrap.constructor` | sockwrap.c:8-28 | `initsockwrap`: an empty reader (`start == 0`, `n == 0`) with a fresh buffer of `buff_len` bytes, the given descriptor and length stored; what it will hand out is exactly the peer's stream (nothing when `buff_len` is 0) |
| `SockWrap.SockWrap.Free` | sockwrap.c:30-35 | `freesockwrap` returns the stored descriptor |
| `SockWrap.SockWrap.Refill` | sockwrap.c:40-47 | one `recv` of up to `buff_len` bytes into the buffer; a result of 0 or -1 leaves `start`, `n`, the buffer and the peer untouched and is the reader's ending code; a positive result sets `start = 0`, `n` to the count and fills `buff[0..n)` with the next bytes of the stream; the bytes still to be handed out do not change |
| `SockWrap.SockWrap.RecvChar` | sockwrap.c:38-54 | succeeds exactly when bytes remain; then returns the next byte of the stream, which is `buff[start - 1]` afterwards, and the rest of the stream remains; with bytes in the buffer it calls no `recv` and moves `start` and `n` by one; on an empty buffer it makes one `recv`, which consumes the chunk's first bytes and leaves `start == 1` and `n` one less than the count received; otherwise it reports the stream's ending with `start`, `n` and the buffer unchanged; `start + n <= buff_len` is kept |
| `SockWrap.SockWrap.Take` | sockwrap.c:50-53 | serving from a non-empty buffer returns `buff[start]`, moves `start` up and `n` down by one and drops exactly the first pending byte |
| `SockWrap.SockWrap.RecvStr` | sockwrap.c:57-97 | `recvstr` returns the scanner's status on the bytes the reader will deliver, consumes exactly the bytes the scanner consumed, leaves the scanned content in `dest[0..k)`, writes NUL at `dest[k]` only on success and leaves every other cell of `dest` as it was |
| `SockWrap.SockWrap.ReadToken` | sockwrap.c:65-94 | the `while (1)` loop keeps `buff_n < strlen(del)` with the held bytes equal to the delimiter's first `buff_n` bytes, `str_n <= n` with `dest[0..str_n)` the content so far, and the rest of the scan equal to the whole call's outcome |
| `SockWrap.SockWrap.Round` | sockwrap.c:67-93 | one loop iteration: `recvchar`, then the byte fed to the scanner; a 0 or -1 from `recvchar`, a full delimiter or an overflow ends the call with the scan's outcome, and otherwise the loop invariant holds again one byte further on |
| `SockWrap.SockWrap.Absorb` | sockwrap.c:71-93 | storing the byte in the scratch buffer and then finishing on a full delimiter (NUL after the content), stopping with TooLong before writing anything when the flush would exceed `n`, or flushing the held bytes into `dest`, all as `Feed` prescribes |
| `SockWrap.CopyPending` | sockwrap.c:88-90 | the flush loop appends exactly `buff[0..buff_n)` to `dest` at `str_n` and changes nothing after it |
| `SockWrap.SockWrap.SendArr` | sockwrap.c:100-110 | `sendarr` succeeds exactly when the send loop drains; the bytes the peer received are the prefix of `arr[0..len)` accepted before the first refusal, each reply is used once, and a negative `len` sends nothing |
| `SockWrap.SockWrap.SendOnce` | sockwrap.c:103-107 | one `send` of the unsent rest either fails with the bytes sent so far or advances `start` by the count accepted, keeping the sent bytes a prefix of the array |
| `SockWrap.SockWrap.SendStr` | sockwrap.c:113-115 | `sendstr` sends exactly the `strlen(src)` bytes of the string, with the same outcome as `sendarr` on them |
| `SockWrap.SockWrap.Valid` | sockwrap.h:4-7 | the state of `struct sockwrap`: `buff` holds `buff_len` bytes and `start + n <= buff_len`; the bytes the reader will still hand out are the unread window `buff[start..start+n)` followed by the peer's stream, and its ending is the code `recv` will report once they run out |
| `Bytes.Status.Code` | sockwrap.c:56 | the integer codes of the wrapper's results: -1 error, 0 disconnect, 1 done, 2 string too large; the two below 1 are exactly the error and disconnect results that `recv` passes through |
| `Socket.Drain` | sockwrap.c:100-110 | the outcome of the `sendarr` loop on the data: each round offers the unsent rest, a refusal stops with what was accepted so far, and the loop succeeds once nothing is left; the replies not used remain |
| `Socket.RecvCount` | sockwrap.c:41 | what `recv` returns: -1 on a failed peer, 0 on close or an empty request, otherwise between 1 and the requested length |
| `Socket.ConsumeStream` | sockwrap.c:41-46 | receiving `k` bytes takes exactly the next `k` bytes of the stream and keeps its ending |
| `Socket.RecvEnds` | sockwrap.c:42-43 | a `recv` that returns 0 or -1 means no bytes are left, and which of the two it was is the stream's ending |
| `Socket.Socket.Recv` | sockwrap.c:41 | the `recv` call writes exactly the bytes it reports to the front of the buffer and consumes them from the peer |
| `Socket.Socket.Send` | sockwrap.c:103 | the `send` call passes `arr[from..from+r)` to the peer, or nothing on -1 |
| `Socket.SendCount` | sockwrap.c:103 | what `send` returns for a non-empty request: -1, or between 1 and the count offered |
| `Socket.SendRound` | sockwrap.c:102-107 | after `start` bytes are through, the next reply either ends the transfer with what was sent or moves `start` on by the count accepted |
| `Socket.SendDone` | sockwrap.c:102-109 | when `start` reaches `len` the transfer succeeded with every byte sent |
| `Socket.DrainAccepted` | sockwrap.c:100-110 | the accepted bytes are a prefix of the array, and the transfer succeeds exactly when that prefix is all of it |
| `Socket.DrainWithoutRefusal` | sockwrap.c:102-108 | when the kernel never refuses, partial sends still push the whole array |
| `Socket.RefusedAtOnce` | sockwrap.c:103-106 | a failed first `send` returns -1 with nothing sent |
| `Scanner.Feed` | sockwrap.c:71-92 | one step: with `m` held bytes a matching byte completes or extends the match; a mismatching byte stops with TooLong when the flush would exceed the bound, otherwise flushes and restarts at 0 |
| `Scanner.FeedKeeps` | sockwrap.c:73-92 | a step loses no byte: content and held bytes plus the new byte are the content and held bytes after it; success holds the whole delimiter; TooLong holds a broken partial match that does not fit |
| `Scanner.ScanFrom` | sockwrap.c:66-94 | the content never exceeds the bound; an ending status is the stream's own, after consuming everything |
| `Scanner.ScanFromConcat` | sockwrap.c:66-94 | every consumed byte ends up in the content or among the held bytes, in order |
| `Scanner.ScanFromHeld` | sockwrap.c:73-92 | held bytes are the delimiter on success, a broken partial match on TooLong, and an unfinished partial match when the stream ends first |
| `Scanner.ScanRunsOut` | sockwrap.c:67-70 | when the stream ends the call returns its 0 or -1 with the content so far |
| `Scanner.ScanStep` | sockwrap.c:67-93 | a byte either stops the scan with the outcome `Feed` gives or continues it from the state `Feed` gives |
| `Scanner.Scan` | sockwrap.c:57-97 | `recvstr`'s outcome: status 1 only when the consumed bytes are the content followed by the delimiter; 2 only when more than `n` bytes were consumed, ending on a broken partial match; 0 or -1 only at the end of the stream; the content is at most `n` bytes |
| `Scanner.ScanFromSingleByte` | sockwrap.c:73-92 | with a one-byte delimiter the scan is `SplitAtByte` |
| `Scanner.SingleByteDelimiter` | sockwrap.c:57-97 | with a one-byte delimiter the content is exactly the bytes before its first occurrence, when they fit |
| `Scanner.FinishMatch` | sockwrap.c:73-80 | the rest of a partially matched delimiter completes it |
| `Scanner.FindsDelimiterAfterPlainContent` | sockwrap.c:66-94 | content that never contains the delimiter's first byte, followed by the delimiter, is returned in full when it fits |
| `Scanner.CrLfAfterLoneCr` | sockwrap.c:81-92 | the byte that breaks a match is not re-tested: `x` CR CR LF is not terminated by its CR LF |
| `Bytes.StrLen` | sockwrap.c:59 | `strlen`: the index of the first NUL |

## Left out

- `sendfile`: it only reads a file with `fread` and passes each chunk to `sendarr`, which is modelled.
- `main.c`: address lookup and socket setup (`socket`, `bind`, `listen`, `accept`).
- `malloc` and `free`: allocation failures (the NULL results of `initsockwrap` and the -1 of `recvstr`) and memory ownership, including the scratch buffer that `recvstr` does not free when `recvchar` reports 0 or -1.
- The `recv` and `send` system calls are replaced by the `Socket` queues. Blocking, signals and concurrent readers are not modelled.
- `send` returning 0 is not modelled: a reply accepts at least one byte or fails. On a 0 result the C loop `while (start < len)` would never advance `start` and would spin forever. The termination of `SendArr` rests on the `Positive` room of an `Accept` reply ruling that out.
- The integer width of `start`, `n`, `str_n` and `len` is not modelled. Counters are unbounded, which is harmless because they never exceed the buffer, `dest` or array lengths.
- SockWrap.SockWrap.constructor: takes the `Socket` object for the descriptor, whose `fd` it stores as `sockfd`. A negative `buff_len` is excluded because `malloc` of it would fail.
- SockWrap.SockWrap.RecvStr: requires `0 <= n < dest.Length` and a non-empty delimiter.
  - With an empty delimiter the C code writes into a zero-size scratch buffer.
  - A negative `n` (which stops at the first mismatch) is not modelled.
  - `del` and the contents of `dest` are byte sequences rather than C pointers.
