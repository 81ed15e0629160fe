/** The parent's side of a child process: its output and error pipes are captured into
    growing blocks while its input is fed from memory, under any order of poll results. */
module ShellPump {

  type byte = x: int | 0 <= x < 256

  const BLOCK_SIZE: nat := 4096

  function Min(a: nat, b: nat): nat {
    if a < b then a else b
  }

  /** One `poll`: which descriptors were ready, and how the kernel then answered. It hands
      over at least one byte and `beyondFirst` more, or accepts `upTo`, as far as there are
      that many and they were asked for. */
  datatype Poll =
    | Interrupted
    | PollFailed
    | TimedOut
    | Ready(out: Ask, err: Ask, input: Offer)

  datatype Ask = NotReadable | Give(beyondFirst: nat) | ReadFailed
  datatype Offer = NotWritable | Accept(upTo: nat) | WriteFailed

  // ---------------------------------------------------------------- what the polls amount to

  /** How far one captured stream is, and how far the input. */
  datatype Side = Side(total: nat, eof: bool)
  datatype Fed = Fed(sent: nat, pending: bool)
  datatype Pump = Pump(out: Side, err: Side, fed: Fed, status: int)

  /** One read: to the end of the block at most; nothing left is the end. */
  function Captured(size: nat, s: Side, ask: Ask): (t: Side)
    requires s.total <= size
    ensures s.total <= t.total <= size
  {
    if s.eof || !ask.Give? then s else
      var n := Min(Min(ask.beyondFirst, BLOCK_SIZE - s.total % BLOCK_SIZE - 1) + 1, size - s.total);
      if n > 0 then Side(s.total + n, false) else Side(s.total, true)
  }

  /** One write; all that remained accepted is the end. */
  function Written(size: nat, f: Fed, offer: Offer): (g: Fed)
    requires f.sent <= size
    ensures f.sent <= g.sent <= size
  {
    if !f.pending || !offer.Accept? then f else
      var n := Min(offer.upTo, Min(4096, size - f.sent));
      Fed(f.sent + n, f.sent + n < size)
  }

  datatype Sizes = Sizes(out: nat, err: nat, input: nat)

  predicate Within(z: Sizes, p: Pump) {
    p.out.total <= z.out && p.err.total <= z.err && p.fed.sent <= z.input
  }

  predicate Over(p: Pump) {
    p.status != 0 || (p.out.eof && p.err.eof)
  }

  function PumpStep(z: Sizes, p: Pump, poll: Poll): (q: Pump)
    requires Within(z, p)
    ensures Within(z, q)
  {
    if Over(p) then p else
      match poll
      case Interrupted => p
      case TimedOut => p
      case PollFailed => p.(status := -1)
      case Ready(o, e, i) =>
        Pump(Captured(z.out, p.out, o), Captured(z.err, p.err, e), Written(z.input, p.fed, i), 0)
  }

  function PumpAll(z: Sizes, p: Pump, polls: seq<Poll>): (q: Pump)
    requires Within(z, p)
    ensures Within(z, q)
  {
    if polls == [] then p else PumpStep(z, PumpAll(z, p, polls[..|polls| - 1]), polls[|polls| - 1])
  }

  /** How often a stream was ready, and how many bytes were accepted at least. */
  function Gives(polls: seq<Poll>, out: bool): nat {
    if polls == [] then 0 else
      var p := polls[|polls| - 1];
      Gives(polls[..|polls| - 1], out) + if p.Ready? && (if out then p.out else p.err).Give? then 1 else 0
  }

  function Accepts(polls: seq<Poll>): nat {
    if polls == [] then 0 else
      var p := polls[|polls| - 1];
      Accepts(polls[..|polls| - 1]) + if p.Ready? && p.input.Accept? && p.input.upTo > 0 then 1 else 0
  }

  /** Progress: every readiness of an unfinished stream reads a byte or sees the end, and every
      accepted write sends a byte while there are some. */
  lemma {:induction false} PumpProgress(z: Sizes, p: Pump, polls: seq<Poll>)
    requires Within(z, p) && PollFailed !in polls && p.status == 0
    ensures var q := PumpAll(z, p, polls);
      && q.status == 0
      && (Over(q)
          || (&& (q.out.eof || q.out.total >= p.out.total + Gives(polls, true))
              && (q.err.eof || q.err.total >= p.err.total + Gives(polls, false))
              && (!q.fed.pending || q.fed.sent >= p.fed.sent + Accepts(polls) || q.fed.sent == z.input)))
    decreases |polls|
  {
    if polls != [] {
      PumpProgress(z, p, polls[..|polls| - 1]);
    }
  }

  /** So without a failed poll the pump is over once each stream was ready more often than it
      has bytes left. */
  lemma PumpEnds(z: Sizes, p: Pump, polls: seq<Poll>)
    requires Within(z, p) && PollFailed !in polls && p.status == 0
    requires p.out.total + Gives(polls, true) > z.out && p.err.total + Gives(polls, false) > z.err
    ensures var q := PumpAll(z, p, polls); Over(q) && q.status == 0 && q.out.eof && q.err.eof
  {
    PumpProgress(z, p, polls);
  }

  /** Once over, later polls change nothing. */
  lemma {:induction false} OverStays(z: Sizes, p: Pump, polls: seq<Poll>, more: seq<Poll>)
    requires Within(z, p) && Over(PumpAll(z, p, polls))
    ensures PumpAll(z, p, polls + more) == PumpAll(z, p, polls)
    decreases |more|
  {
    if more == [] {
      assert polls + more == polls;
    } else {
      assert (polls + more)[..|polls + more| - 1] == polls + more[..|more| - 1];
      OverStays(z, p, polls, more[..|more| - 1]);
    }
  }

  /** One read of an unfinished stream, on a block that is never filled past its end: all that the
      kernel hands over, unless the block or the stream ends first. */
  lemma ReadAmount(size: nat, s: Side, beyondFirst: nat)
    requires s.total <= size && !s.eof
    ensures var t := Captured(size, s, Give(beyondFirst));
      && t.eof == (s.total == size)
      && (s.total < size ==> s.total < t.total)
      && t.total <= s.total + beyondFirst + 1 && t.total <= (s.total / 4096 + 1) * 4096
      && (t.total == s.total + beyondFirst + 1 || t.total == (s.total / 4096 + 1) * 4096 || t.total == size)
  {
  }

  /** A stream that was not ready, failed or has ended stays as it is, and so does an input that
      cannot be written. */
  lemma NothingRead(size: nat, s: Side, ask: Ask, f: Fed, offer: Offer)
    requires s.total <= size && f.sent <= size
    ensures s.eof || ask.NotReadable? || ask.ReadFailed? ==> Captured(size, s, ask) == s
    ensures !f.pending || offer.NotWritable? || offer.WriteFailed? ==> Written(size, f, offer) == f
  {
  }

  /** One write: all that the kernel accepts, up to 4096 bytes and what is left; then, and only
      then, the input is done when nothing is left. */
  lemma WriteAmount(size: nat, f: Fed, upTo: nat)
    requires f.sent <= size && f.pending
    ensures var g := Written(size, f, Accept(upTo));
      && g.sent <= f.sent + upTo && g.sent <= f.sent + 4096
      && (g.sent == f.sent + upTo || g.sent == f.sent + 4096 || g.sent == size)
      && (g.pending <==> g.sent < size)
  {
  }

  /** A failed poll ends the pump with its error, unless it was over before. */
  lemma {:induction false} FailedPollEnds(z: Sizes, p: Pump, before: seq<Poll>, after: seq<Poll>)
    requires Within(z, p) && !Over(PumpAll(z, p, before))
    ensures PumpAll(z, p, before + [PollFailed] + after) == PumpAll(z, p, before).(status := -1)
  {
    var polls := before + [PollFailed];
    assert polls[..|polls| - 1] == before;
    OverStays(z, p, polls, after);
  }

  /** A poll that was interrupted or timed out changes nothing; one that was ready serves all
      three streams. */
  lemma PollServes(z: Sizes, p: Pump, poll: Poll)
    requires Within(z, p) && !Over(p)
    ensures poll.Interrupted? || poll.TimedOut? ==> PumpStep(z, p, poll) == p
    ensures poll.Ready? ==> var q := PumpStep(z, p, poll);
      && q.out == Captured(z.out, p.out, poll.out) && q.err == Captured(z.err, p.err, poll.err)
      && q.fed == Written(z.input, p.fed, poll.input) && q.status == 0
  {
  }

  // ---------------------------------------------------------------- the pump

  /** One captured stream. `source` is everything the child will ever write to it, after
      which it closes the pipe; `buf` is null before the first read. */
  class Capture {
    const source: seq<byte>
    var buf: array?<byte>
    var total: nat
    var eof: bool

    constructor (source: seq<byte>)
      ensures Valid() && this.source == source && total == 0 && !eof && buf == null
    {
      this.source := source;
      buf, total, eof := null, 0, false;
    }

    /** What is captured is exactly what was read so far. The capacity is always the next
        multiple of the block size above the total, so a terminator fits after the data;
        once the end was seen, the terminator is there and nothing was left out. */
    ghost predicate Valid()
      reads this, buf
    {
      && total <= |source|
      && (buf == null ==> total == 0 && !eof)
      && (buf != null ==>
            && buf.Length == BLOCK_SIZE * (total / BLOCK_SIZE + 1)
            && buf[..total] == source[..total])
      && (eof ==> buf != null && total == |source| && buf[total] == 0)
    }

    function Now(): Side
      reads this
    {
      Side(total, eof)
    }

    /** `read_child_pipe`: 1 after data, 0 at the end, -1 on an error. */
    method ReadChildPipe(ask: Ask) returns (res: int)
      requires Valid() && !eof && !ask.NotReadable?
      modifies this, buf
      ensures Valid() && buf != null && (buf == old(buf) || fresh(buf))
      ensures Now() == Captured(|source|, old(Now()), ask)
      ensures ask.ReadFailed? ==> res == -1 && total == old(total) && !eof
      ensures ask.Give? && old(total) == |source| ==> res == 0 && total == old(total) && eof
      ensures ask.Give? && old(total) < |source| ==>
                res == 1 && !eof && old(total) < total <= old(total) + ask.beyondFirst + 1
    {
      if buf == null {
        buf := new byte[BLOCK_SIZE];
        total := 0;
      }
      var numToRead := BLOCK_SIZE - total % BLOCK_SIZE;
      match ask {
        case ReadFailed =>
          res := -1;
        case Give(beyondFirst) =>
          var numRead := Min(Min(beyondFirst, numToRead - 1) + 1, |source| - total);
          if numRead > 0 {
            Fill(numRead);
            if numRead == numToRead {
              Grow();
            }
            res := 1;
          } else {
            buf[total] := 0;
            eof := true;
            res := 0;
          }
      }
    }

    /** The kernel writes `n` bytes after those already there. */
    method Fill(n: nat)
      requires buf != null && !eof && total + n <= |source| && total + n <= buf.Length
      requires buf[..total] == source[..total]
      modifies this`total, buf
      ensures total == old(total) + n && buf[..total] == source[..total]
    {
      forall i | total <= i < total + n {
        buf[i] := source[i];
      }
      assert forall i :: 0 <= i < total ==> buf[i] == old(buf[..total])[i] == source[..total][i];
      total := total + n;
    }

    /** `realloc` to one more block. */
    method Grow()
      requires buf != null && total <= |source| && total <= buf.Length && buf[..total] == source[..total]
      modifies this`buf
      ensures buf != null && fresh(buf) && buf.Length == total + BLOCK_SIZE && buf[..total] == source[..total]
    {
      var bigger := new byte[total + BLOCK_SIZE];
      forall i | 0 <= i < total {
        bigger[i] := buf[i];
      }
      assert bigger[..total] == buf[..total];
      buf := bigger;
    }
  }

  /** The child's input: `to_write` and `remaining_to_write`. */
  class Feed {
    const input: seq<byte>
    var pending: bool              // to_write is not null
    var written: nat               // to_write - in_str
    var remaining: nat
    ghost var sent: seq<byte>      // what write has accepted

    constructor (hasInput: bool, input: seq<byte>)
      requires !hasInput ==> input == []
      ensures Valid() && this.input == input && pending == hasInput && sent == []
    {
      this.input := input;
      pending, written, remaining, sent := hasInput, 0, |input|, [];
    }

    /** The child has been sent a prefix of the input, and all of it once it is dropped. */
    ghost predicate Valid() reads this {
      && written + remaining == |input|
      && (pending ==> sent == input[..written])
      && (!pending ==> sent == input)
    }

    ghost function Now(): Fed
      reads this
    {
      Fed(|sent|, pending)
    }

    method WriteSome(offer: Offer)
      requires Valid() && pending
      modifies this
      ensures Valid() && old(sent) <= sent
      ensures Now() == Written(|input|, old(Now()), offer)
      ensures !pending ==> sent == input
    {
      var amountToWrite := if remaining > 4096 then 4096 else remaining;
      match offer {
        case NotWritable =>
        case WriteFailed =>
        case Accept(upTo) =>
          var result := Min(upTo, amountToWrite);
          ghost var w := written;
          sent := sent + input[w..w + result];
          assert input[..w] + input[w..w + result] == input[..w + result];
          if result != remaining {
            written := written + result;
            remaining := remaining - result;
          } else {
            pending := false;
            assert input[..w + result] == input;
          }
      }
    }
  }

  ghost predicate Apart(out: Capture, err: Capture)
    reads out, err
  {
    out != err && (out.buf != null ==> out.buf != err.buf)
  }

  method ReadWhenReady(c: Capture, ask: Ask)
    requires c.Valid()
    modifies c, c.buf
    ensures c.Valid() && (c.buf == old(c.buf) || fresh(c.buf))
    ensures c.Now() == Captured(|c.source|, old(c.Now()), ask)
  {
    if !c.eof && !ask.NotReadable? {
      var res := c.ReadChildPipe(ask);
      assert res == 0 <==> c.eof;
    }
  }

  method WriteWhenReady(feed: Feed, offer: Offer)
    requires feed.Valid()
    modifies feed
    ensures feed.Valid() && feed.Now() == Written(|feed.input|, old(feed.Now()), offer)
    ensures old(feed.sent) <= feed.sent
  {
    if feed.pending {
      feed.WriteSome(offer);
    }
  }

  ghost function Pumping(out: Capture, err: Capture, feed: Feed, status: int): Pump
    reads out, err, feed
  {
    Pump(out.Now(), err.Now(), feed.Now(), status)
  }

  function SizesOf(out: Capture, err: Capture, feed: Feed): Sizes {
    Sizes(|out.source|, |err.source|, |feed.input|)
  }

  ghost predicate PumpReady(out: Capture, err: Capture, feed: Feed)
    reads out, out.buf, err, err.buf, feed
  {
    out.Valid() && err.Valid() && feed.Valid() && Apart(out, err)
  }

  method HandleReady(out: Capture, err: Capture, feed: Feed, o: Ask, e: Ask, i: Offer)
    requires PumpReady(out, err, feed)
    modifies out, err, feed, out.buf, err.buf
    ensures PumpReady(out, err, feed)
    ensures out.buf == old(out.buf) || fresh(out.buf)
    ensures err.buf == old(err.buf) || fresh(err.buf)
    ensures out.Now() == Captured(|out.source|, old(out.Now()), o)
    ensures err.Now() == Captured(|err.source|, old(err.Now()), e)
    ensures feed.Now() == Written(|feed.input|, old(feed.Now()), i) && old(feed.sent) <= feed.sent
  {
    hide Captured, Written;
    ReadWhenReady(out, o);
    ReadWhenReady(err, e);
    WriteWhenReady(feed, i);
  }

  lemma Withins(out: Capture, err: Capture, feed: Feed, status: int)
    requires PumpReady(out, err, feed)
    ensures Within(SizesOf(out, err, feed), Pumping(out, err, feed, status))
  {
  }

  /** `process_child_pipes`, as far as these polls take it: exactly what the polls amount to.
      When the loop ends by itself, the captured text is everything the child wrote to each
      stream, terminated; when `poll` fails (status -1), or while it is still going, it is a
      prefix, and only then may the terminator be missing. */
  method ProcessChildPipes(out: Capture, err: Capture, feed: Feed, polls: seq<Poll>)
    returns (status: int, done: bool)
    requires PumpReady(out, err, feed)
    modifies out, err, feed, out.buf, err.buf
    ensures PumpReady(out, err, feed)
    ensures Within(SizesOf(out, err, feed), old(Pumping(out, err, feed, 0)))
    ensures Pumping(out, err, feed, status) == PumpAll(SizesOf(out, err, feed), old(Pumping(out, err, feed, 0)), polls)
    ensures done <==> Over(Pumping(out, err, feed, status))
    ensures done && status == 0 ==>
      && out.buf != null && out.buf[..out.total] == out.source && out.buf[out.total] == 0
      && err.buf != null && err.buf[..err.total] == err.source && err.buf[err.total] == 0
    ensures feed.sent <= feed.input && (!feed.pending ==> feed.sent == feed.input)
  {
    hide Captured, Written;
    ghost var z, start := SizesOf(out, err, feed), Pumping(out, err, feed, 0);
    Withins(out, err, feed, 0);
    status, done := 0, out.eof && err.eof;
    var k := 0;
    while !done && k < |polls|
      invariant k <= |polls| && PumpReady(out, err, feed)
      invariant out.buf == old(out.buf) || fresh(out.buf)
      invariant err.buf == old(err.buf) || fresh(err.buf)
      invariant Pumping(out, err, feed, status) == PumpAll(z, start, polls[..k])
      invariant done <==> Over(Pumping(out, err, feed, status))
      invariant status == 0 || status == -1
      decreases |polls| - k
    {
      assert polls[..k + 1][..k] == polls[..k];
      match polls[k] {
        case Interrupted =>
        case TimedOut =>
        case PollFailed => status, done := -1, true;
        case Ready(o, e, i) =>
          HandleReady(out, err, feed, o, e, i);
          done := out.eof && err.eof;
      }
      k := k + 1;
    }
    assert polls[..k] + polls[k..] == polls;
    if done {
      OverStays(z, start, polls[..k], polls[k..]);
    } else {
      assert polls[..k] == polls;
    }
    WholeSlice(out.source);
    WholeSlice(err.source);
  }

  lemma WholeSlice(s: seq<byte>)
    ensures s[..|s|] == s
  {
  }
}
