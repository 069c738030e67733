/** Length-prefixed messages over a byte stream (tunnel/framing.go): the encoders, and the assembler that
    turns any chunking of the stream back into whole messages. */
module Framing {

  import opened Common

  const HEADER: nat := 4
  const MAX_MESSAGE: nat := 0x10_0000
  const MAX_INT: nat := 0x7FFF_FFFF_FFFF_FFFF
  const UINT32: nat := 0x1_0000_0000

  /** The longest message whose end, header included, fits the 32-bit index the assembler slices with. */
  const MAX_SLICED: nat := 0xFFFF_FFFB

  // ---- the format ----

  function Uint32Bytes(n: nat): (p: Bytes)
    requires n < UINT32
    ensures |p| == HEADER
  {
    [n / 256 / 256 / 256, n / 256 / 256 % 256, n / 256 % 256, n % 256]
  }

  function BytesUint32(p: Bytes): nat
    requires |p| >= HEADER
  {
    (p[0] as int) * 0x100_0000 + (p[1] as int) * 0x1_0000 + (p[2] as int) * 256 + p[3]
  }

  lemma Uint32RoundTrip(n: nat, rest: Bytes)
    requires n < UINT32
    ensures BytesUint32(Uint32Bytes(n) + rest) == n
  {
    var p := Uint32Bytes(n) + rest;
    var a, b := n / 256, n / 256 / 256;
    assert p[0] == b / 256 && p[1] == b % 256 && p[2] == a % 256 && p[3] == n % 256;
  }

  predicate Fits(msg: Bytes, limit: nat) { |msg| <= limit }

  predicate AllFit(msgs: seq<Bytes>, limit: nat) {
    forall i | 0 <= i < |msgs| :: Fits(msgs[i], limit)
  }

  function Frame(msg: Bytes): (p: Bytes)
    requires |msg| < UINT32
    ensures |p| == HEADER + |msg|
  {
    Uint32Bytes(|msg|) + msg
  }

  function EncodedSize(msgs: seq<Bytes>): nat {
    if msgs == [] then 0 else HEADER + |msgs[0]| + EncodedSize(msgs[1..])
  }

  function Frames(msgs: seq<Bytes>): Bytes
    requires AllFit(msgs, 0xFFFF_FFFF)
  {
    if msgs == [] then [] else Frame(msgs[0]) + Frames(msgs[1..])
  }

  // ---- encoders ----

  method EncodeMessage(msg: Bytes) returns (r: Option<Bytes>)
    ensures r == if Fits(msg, MAX_MESSAGE) then Some(Frame(msg)) else None
  {
    if |msg| > MAX_MESSAGE { return None; }
    return Some(Uint32Bytes(|msg|) + msg);
  }

  method EncodeMessages(msgs: seq<Bytes>) returns (r: Option<Bytes>)
    ensures r.Some? <==> AllFit(msgs, MAX_MESSAGE) && EncodedSize(msgs) <= MAX_INT
    ensures r.Some? ==> r.value == Frames(msgs) && |r.value| == EncodedSize(msgs)
  {
    var ok := Encodable(msgs);
    if !ok { return None; }
    var out: Bytes := [];
    var i := 0;
    while i < |msgs|
      invariant 0 <= i <= |msgs|
      invariant out + Frames(msgs[i..]) == Frames(msgs)
    {
      assert msgs[i..][0] == msgs[i] && msgs[i..][1..] == msgs[i + 1..];
      out := out + Uint32Bytes(|msgs[i]|) + msgs[i];
      i := i + 1;
    }
    EncodedSizeIsSize(msgs);
    return Some(out);
  }

  /** The sizing pass, with its guard against overflowing the total. */
  method Encodable(msgs: seq<Bytes>) returns (ok: bool)
    ensures ok <==> AllFit(msgs, MAX_MESSAGE) && EncodedSize(msgs) <= MAX_INT
  {
    var total, i := 0, 0;
    while i < |msgs|
      invariant 0 <= i <= |msgs|
      invariant forall j | 0 <= j < i :: Fits(msgs[j], MAX_MESSAGE)
      invariant total + EncodedSize(msgs[i..]) == EncodedSize(msgs)
      invariant 0 <= total <= MAX_INT
    {
      assert msgs[i..][1..] == msgs[i + 1..];
      if |msgs[i]| > MAX_MESSAGE {
        assert !Fits(msgs[i], MAX_MESSAGE);
        return false;
      }
      if |msgs[i]| > MAX_INT - total - HEADER { return false; }
      total := total + HEADER + |msgs[i]|;
      i := i + 1;
    }
    return true;
  }

  lemma {:induction false} EncodedSizeIsSize(msgs: seq<Bytes>)
    requires AllFit(msgs, 0xFFFF_FFFF)
    ensures |Frames(msgs)| == EncodedSize(msgs)
  {
    if msgs == [] {
    } else {
      EncodedSizeIsSize(msgs[1..]);
    }
  }

  // ---- what a buffered stream contains ----

  /** What comes after the complete messages: an unfinished one, a length over the limit, or a complete message too
      long to slice. */
  datatype Ending = Waiting | TooLarge | Wrapped

  /** The messages that are complete at the front of a buffer, what is left, and why it is left. */
  datatype Parsed = Parsed(msgs: seq<Bytes>, rest: Bytes, ending: Ending)

  predicate Oversized(buf: Bytes, limit: nat) { |buf| >= HEADER && BytesUint32(buf) > limit }

  predicate Arrived(buf: Bytes, limit: nat) {
    |buf| >= HEADER && BytesUint32(buf) <= limit && |buf| >= HEADER + BytesUint32(buf)
  }

  /** The first message has arrived, and its end does not wrap. */
  predicate Complete(buf: Bytes, limit: nat) { Arrived(buf, limit) && BytesUint32(buf) <= MAX_SLICED }

  predicate Wraps(buf: Bytes, limit: nat) { Arrived(buf, limit) && BytesUint32(buf) > MAX_SLICED }

  function FirstMessage(buf: Bytes): Bytes
    requires |buf| >= HEADER && |buf| >= HEADER + BytesUint32(buf)
  {
    buf[HEADER..HEADER + BytesUint32(buf)]
  }

  function AfterFirst(buf: Bytes): Bytes
    requires |buf| >= HEADER && |buf| >= HEADER + BytesUint32(buf)
  {
    buf[HEADER + BytesUint32(buf)..]
  }

  function EndingOf(buf: Bytes, limit: nat): Ending {
    if Oversized(buf, limit) then TooLarge else if Wraps(buf, limit) then Wrapped else Waiting
  }

  function Parse(buf: Bytes, limit: nat): Parsed
    decreases |buf|
  {
    if Complete(buf, limit) then
      var tail := Parse(AfterFirst(buf), limit);
      Then([FirstMessage(buf)], tail)
    else Parsed([], buf, EndingOf(buf, limit))
  }

  // ---- the assembler ----

  datatype Assembler = Assembler(buf: Bytes, limit: nat, broken: bool)

  /** An error return, or a run-time panic of the slice expression. */
  datatype Reply = Messages(msgs: seq<Bytes>) | Rejected | Panicked

  datatype Fed = Fed(next: Assembler, reply: Reply)

  function Feed(a: Assembler, chunk: Bytes): Fed {
    if a.broken then Fed(a, Rejected)
    else
      var p := Parse(a.buf + chunk, a.limit);
      match p.ending
      case Waiting => Fed(a.(buf := p.rest), Messages(p.msgs))
      case TooLarge => Fed(a.(buf := [], broken := true), Rejected)
      case Wrapped => Fed(a.(buf := p.rest), Panicked)
  }

  class MessageAssembler {
    var buf: Bytes
    const limit: nat
    var broken: bool

    function State(): Assembler
      reads this
    {
      Assembler(buf, limit, broken)
    }

    constructor (maxPayload: nat)
      requires maxPayload < UINT32
      ensures State() == Assembler([], if maxPayload == 0 then MAX_MESSAGE else maxPayload, false)
    {
      buf, broken := [], false;
      limit := if maxPayload == 0 then MAX_MESSAGE else maxPayload;
    }

    method FeedChunk(chunk: Bytes) returns (r: Reply)
      modifies this
      ensures Feed(old(State()), chunk) == Fed(State(), r)
    {
      if broken { return Rejected; }
      buf := buf + chunk;
      ghost var all := buf;
      assert old(buf) + chunk == all;
      var msgs: seq<Bytes> := [];
      while true
        invariant !broken && old(State()) == Assembler(old(buf), limit, false)
        invariant Parse(all, limit) == Then(msgs, Parse(buf, limit))
        decreases |buf|
      {
        if |buf| < HEADER { break; }
        var n := BytesUint32(buf);
        if n > limit {
          broken := true;
          buf := [];
          return Rejected;
        }
        if |buf| < HEADER + n { break; }
        var end := SliceEnd(n);
        if end < HEADER { return Panicked; }
        Advance(msgs, buf, limit);
        msgs := msgs + [buf[HEADER..end]];
        buf := buf[end..];
      }
      assert msgs + [] == msgs;
      return Messages(msgs);
    }

    method Reset()
      modifies this
      ensures State() == Assembler([], limit, false)
    {
      buf := [];
      broken := false;
    }
  }

  lemma Advance(msgs: seq<Bytes>, buf: Bytes, limit: nat)
    requires Complete(buf, limit)
    ensures Then(msgs, Parse(buf, limit)) == Then(msgs + [FirstMessage(buf)], Parse(AfterFirst(buf), limit))
  {
    ThenThen(msgs, [FirstMessage(buf)], Parse(AfterFirst(buf), limit));
  }

  /** Header plus length in 32 bits. */
  function SliceEnd(n: nat): (end: nat)
    requires n < UINT32
    ensures n <= MAX_SLICED ==> end == HEADER + n
    ensures n > MAX_SLICED ==> end < HEADER
  {
    if HEADER + n < UINT32 then HEADER + n else HEADER + n - UINT32
  }

  // ---- chunking does not matter ----

  /** What is complete stays complete, and stays at the front, when more bytes arrive. */
  lemma {:induction false} ParseMore(buf: Bytes, more: Bytes, limit: nat)
    requires Parse(buf, limit).ending.Waiting?
    ensures Parse(buf + more, limit) == Then(Parse(buf, limit).msgs, Parse(Parse(buf, limit).rest + more, limit))
    decreases |buf|
  {
    if Complete(buf, limit) {
      FirstStays(buf, more, limit);
      ParseMore(AfterFirst(buf), more, limit);
      var p := Parse(AfterFirst(buf), limit);
      ThenThen([FirstMessage(buf)], p.msgs, Parse(p.rest + more, limit));
    }
  }

  function Then(msgs: seq<Bytes>, p: Parsed): Parsed { Parsed(msgs + p.msgs, p.rest, p.ending) }

  lemma ThenThen(a: seq<Bytes>, b: seq<Bytes>, p: Parsed)
    ensures Then(a, Then(b, p)) == Then(a + b, p)
  {
    assert a + (b + p.msgs) == a + b + p.msgs;
  }

  lemma FirstStays(buf: Bytes, more: Bytes, limit: nat)
    requires Arrived(buf, limit)
    ensures Arrived(buf + more, limit) && BytesUint32(buf + more) == BytesUint32(buf)
    ensures FirstMessage(buf + more) == FirstMessage(buf)
    ensures AfterFirst(buf + more) == AfterFirst(buf) + more
  {
    assert BytesUint32(buf + more) == BytesUint32(buf);
  }

  /** All messages returned by feeding the chunks in order, up to the first call that does not return messages. */
  function FeedAll(a: Assembler, chunks: seq<Bytes>): Fed
    decreases |chunks|
  {
    if chunks == [] then Fed(a, Messages([]))
    else
      var first := Feed(a, chunks[0]);
      if !first.reply.Messages? then first
      else
        var later := FeedAll(first.next, chunks[1..]);
        if !later.reply.Messages? then later
        else Fed(later.next, Messages(first.reply.msgs + later.reply.msgs))
  }

  lemma {:induction false} FeedAllParses(a: Assembler, chunks: seq<Bytes>)
    requires !a.broken && Parse(a.buf + Flatten(chunks), a.limit).ending.Waiting?
    requires Parse(a.buf, a.limit) == Parsed([], a.buf, Waiting)
    ensures var p := Parse(a.buf + Flatten(chunks), a.limit);
            FeedAll(a, chunks) == Fed(a.(buf := p.rest), Messages(p.msgs))
    decreases |chunks|
  {
    if chunks == [] {
      assert a.buf + Flatten(chunks) == a.buf;
    } else {
      var rest := Flatten(chunks[1..]);
      var buf := a.buf + chunks[0];
      assert a.buf + Flatten(chunks) == buf + rest;
      EndingStays(buf, rest, a.limit);
      ParseMore(buf, rest, a.limit);
      var p := Parse(buf, a.limit);
      RestIsPartial(buf, a.limit);
      FeedAllParses(a.(buf := p.rest), chunks[1..]);
    }
  }

  /** A stream that cannot be parsed further stays that way. */
  lemma {:induction false} EndingStays(buf: Bytes, more: Bytes, limit: nat)
    ensures !Parse(buf, limit).ending.Waiting? ==> Parse(buf + more, limit).ending == Parse(buf, limit).ending
    decreases |buf|
  {
    if |buf| >= HEADER {
      assert BytesUint32(buf + more) == BytesUint32(buf);
      if Arrived(buf, limit) {
        FirstStays(buf, more, limit);
        if Complete(buf, limit) {
          EndingStays(AfterFirst(buf), more, limit);
        }
      }
    }
  }

  lemma {:induction false} RestIsPartial(buf: Bytes, limit: nat)
    requires Parse(buf, limit).ending.Waiting?
    ensures var rest := Parse(buf, limit).rest; Parse(rest, limit) == Parsed([], rest, Waiting)
    decreases |buf|
  {
    if Complete(buf, limit) {
      RestIsPartial(AfterFirst(buf), limit);
    }
  }

  /** A length over the limit, or too long to slice, anywhere in the stream stops the assembler however the stream is
      cut. */
  lemma {:induction false} FeedAllStops(a: Assembler, chunks: seq<Bytes>)
    requires !a.broken && !Parse(a.buf + Flatten(chunks), a.limit).ending.Waiting?
    requires Parse(a.buf, a.limit) == Parsed([], a.buf, Waiting)
    ensures var ending := Parse(a.buf + Flatten(chunks), a.limit).ending;
            && (ending.TooLarge? ==> FeedAll(a, chunks) == Fed(Assembler([], a.limit, true), Rejected))
            && (ending.Wrapped? ==> FeedAll(a, chunks).reply.Panicked?)
    decreases |chunks|
  {
    assert a.buf + [] == a.buf;
    if chunks == [] {
    } else {
      var buf := a.buf + chunks[0];
      assert a.buf + Flatten(chunks) == buf + Flatten(chunks[1..]);
      EndingStays(buf, Flatten(chunks[1..]), a.limit);
      if Parse(buf, a.limit).ending.Waiting? {
        ParseMore(buf, Flatten(chunks[1..]), a.limit);
        RestIsPartial(buf, a.limit);
        FeedAllStops(a.(buf := Parse(buf, a.limit).rest), chunks[1..]);
      }
    }
  }

  /** Feeding in pieces answers as one Feed of the whole stream would, and leaves the same assembler unless that is a
      panic. */
  lemma CutDoesNotMatter(limit: nat, chunks: seq<Bytes>)
    ensures var pieces, whole := FeedAll(Assembler([], limit, false), chunks),
                                 Feed(Assembler([], limit, false), Flatten(chunks));
            pieces.reply == whole.reply && (!whole.reply.Panicked? ==> pieces.next == whole.next)
  {
    var a := Assembler([], limit, false);
    assert a.buf + Flatten(chunks) == Flatten(chunks);
    if Parse(Flatten(chunks), limit).ending.Waiting? {
      FeedAllParses(a, chunks);
    } else {
      FeedAllStops(a, chunks);
    }
  }

  // ---- what a stop costs ----

  /** Every message any of the calls returned. */
  function Delivered(a: Assembler, chunks: seq<Bytes>): seq<Bytes>
    decreases |chunks|
  {
    if chunks == [] then []
    else
      var first := Feed(a, chunks[0]);
      (if first.reply.Messages? then first.reply.msgs else []) + Delivered(first.next, chunks[1..])
  }

  /** A broken assembler, or one whose first message cannot be sliced, returns nothing more. */
  lemma {:induction false} StuckDeliversNothing(a: Assembler, chunks: seq<Bytes>)
    requires a.broken || Wraps(a.buf, a.limit)
    ensures Delivered(a, chunks) == []
    decreases |chunks|
  {
    if chunks == [] {
    } else {
      if !a.broken {
        FirstStays(a.buf, chunks[0], a.limit);
      }
      StuckDeliversNothing(Feed(a, chunks[0]).next, chunks[1..]);
    }
  }

  lemma {:induction false} WrappedRest(buf: Bytes, limit: nat)
    requires Parse(buf, limit).ending.Wrapped?
    ensures Wraps(Parse(buf, limit).rest, limit)
    decreases |buf|
  {
    if Complete(buf, limit) {
      WrappedRest(AfterFirst(buf), limit);
    }
  }

  /** When chunk j is the one that stops the assembler, the messages delivered are those complete before that call:
      what the stopping call itself completed is lost. */
  lemma {:induction false} DeliveredBeforeBreak(a: Assembler, chunks: seq<Bytes>, j: nat)
    requires !a.broken && Parse(a.buf, a.limit) == Parsed([], a.buf, Waiting) && j < |chunks|
    requires Parse(a.buf + Flatten(chunks[..j]), a.limit).ending.Waiting?
    requires !Parse(a.buf + Flatten(chunks[..j + 1]), a.limit).ending.Waiting?
    ensures Delivered(a, chunks) == Parse(a.buf + Flatten(chunks[..j]), a.limit).msgs
    decreases j
  {
    var buf := a.buf + chunks[0];
    PrefixCons(a.buf, chunks, j + 1);
    if j == 0 {
      assert a.buf + [] == a.buf;
      assert buf + [] == buf;
      if Parse(buf, a.limit).ending.Wrapped? {
        WrappedRest(buf, a.limit);
      }
      StuckDeliversNothing(Feed(a, chunks[0]).next, chunks[1..]);
    } else {
      PrefixCons(a.buf, chunks, j);
      EndingStays(buf, Flatten(chunks[1..][..j - 1]), a.limit);
      ParseMore(buf, Flatten(chunks[1..][..j - 1]), a.limit);
      ParseMore(buf, Flatten(chunks[1..][..j]), a.limit);
      RestIsPartial(buf, a.limit);
      DeliveredBeforeBreak(Feed(a, chunks[0]).next, chunks[1..], j - 1);
    }
  }

  lemma PrefixCons(buf: Bytes, chunks: seq<Bytes>, j: nat)
    requires 0 < j <= |chunks|
    ensures buf + Flatten(chunks[..j]) == (buf + chunks[0]) + Flatten(chunks[1..][..j - 1])
  {
    assert chunks[..j][1..] == chunks[1..][..j - 1];
  }

  /** So the cut does matter for a stream that breaks: one message followed by an oversized prefix is delivered from
      two chunks and lost from one. */
  lemma BreakLosesMessages()
    ensures exists good: Bytes, bad: Bytes ::
              && Delivered(Assembler([], 1, false), [good, bad]) == [[7]]
              && Delivered(Assembler([], 1, false), [good + bad]) == []
  {
    var good: Bytes, bad: Bytes := Frame([7]), [0, 0, 0, 2];
    OneThenOversized(good, bad);
    TwoCalls(good, bad);
    OneBreakingCall(good + bad);
  }

  lemma OneThenOversized(good: Bytes, bad: Bytes)
    requires good == Frame([7]) && bad == [0, 0, 0, 2]
    ensures Parse(good, 1) == Parsed([[7]], [], Waiting)
    ensures Parse(bad, 1) == Parsed([], bad, TooLarge)
    ensures Parse(good + bad, 1).ending.TooLarge?
  {
    ParseFrame([7], [], 1);
    ParseFrame([7], bad, 1);
    assert good + [] == good;
  }

  lemma TwoCalls(good: Bytes, bad: Bytes)
    requires Parse(good, 1) == Parsed([[7]], [], Waiting) && Parse(bad, 1).ending.TooLarge?
    ensures Delivered(Assembler([], 1, false), [good, bad]) == [[7]]
  {
    var a := Assembler([], 1, false);
    assert [] + good == good;
    assert Feed(a, good) == Fed(a, Messages([[7]]));
    OneBreakingCall(bad);
    assert [good, bad][1..] == [bad];
  }

  lemma OneBreakingCall(bad: Bytes)
    requires Parse(bad, 1).ending.TooLarge?
    ensures Delivered(Assembler([], 1, false), [bad]) == []
  {
    assert [] + bad == bad;
    StuckDeliversNothing(Feed(Assembler([], 1, false), bad).next, [bad][1..]);
  }

  // ---- round trip ----

  lemma ParseFrame(msg: Bytes, more: Bytes, limit: nat)
    requires Fits(msg, limit) && Fits(msg, MAX_SLICED)
    ensures var buf := Frame(msg) + more;
            Complete(buf, limit) && Parse(buf, limit) == Then([msg], Parse(more, limit))
  {
    var buf := Frame(msg) + more;
    Uint32RoundTrip(|msg|, msg + more);
    assert buf == Uint32Bytes(|msg|) + (msg + more);
    assert FirstMessage(buf) == msg;
    assert AfterFirst(buf) == more;
  }

  /** The first k messages are complete in a prefix of the stream exactly up to the last whole frame. */
  function CompleteCount(msgs: seq<Bytes>, n: nat): (k: nat)
    requires AllFit(msgs, 0xFFFF_FFFF)
    ensures k <= |msgs|
  {
    if msgs == [] || n < HEADER + |msgs[0]| then 0 else 1 + CompleteCount(msgs[1..], n - HEADER - |msgs[0]|)
  }

  /** The bytes of the first n that belong to the incomplete frame. */
  function Leftover(msgs: seq<Bytes>, n: nat): Bytes
    requires AllFit(msgs, 0xFFFF_FFFF) && n <= |Frames(msgs)|
  {
    if CompleteCount(msgs, n) == 0 then Frames(msgs)[..n]
    else Leftover(msgs[1..], n - HEADER - |msgs[0]|)
  }

  lemma {:induction false} LeftoverIsRest(msgs: seq<Bytes>, n: nat)
    requires AllFit(msgs, 0xFFFF_FFFF) && n <= |Frames(msgs)|
    ensures Frames(msgs[..CompleteCount(msgs, n)]) + Leftover(msgs, n) == Frames(msgs)[..n]
    decreases |msgs|
  {
    var k := CompleteCount(msgs, n);
    if k == 0 {
      assert msgs[..0] == [];
    } else {
      var m := n - HEADER - |msgs[0]|;
      LeftoverIsRest(msgs[1..], m);
      FramesTake(msgs, k);
      CompletePrefix(msgs, n);
    }
  }

  lemma FramesTake(msgs: seq<Bytes>, k: nat)
    requires AllFit(msgs, 0xFFFF_FFFF) && 0 < k <= |msgs|
    ensures Frames(msgs[..k]) == Frame(msgs[0]) + Frames(msgs[1..][..k - 1])
  {
    assert msgs[..k][1..] == msgs[1..][..k - 1];
  }

  lemma {:induction false} ParsePrefix(msgs: seq<Bytes>, n: nat, limit: nat)
    requires limit < UINT32 && AllFit(msgs, limit)
    requires AllFit(msgs[..CompleteCount(msgs, n)], MAX_SLICED)
    requires n <= |Frames(msgs)|
    ensures Parse(Frames(msgs)[..n], limit) == Parsed(msgs[..CompleteCount(msgs, n)], Leftover(msgs, n), Waiting)
    decreases |msgs|
  {
    var k := CompleteCount(msgs, n);
    if k == 0 {
      NoneComplete(msgs, n, limit);
    } else {
      var m := n - HEADER - |msgs[0]|;
      assert msgs[..k][0] == msgs[0] && msgs[..k][1..] == msgs[1..][..k - 1];
      ParsePrefix(msgs[1..], m, limit);
      ParseFrame(msgs[0], Frames(msgs[1..])[..m], limit);
      CompletePrefix(msgs, n);
      TakeCons(msgs, k);
    }
  }

  lemma TakeCons(msgs: seq<Bytes>, k: nat)
    requires 0 < k <= |msgs|
    ensures [msgs[0]] + msgs[1..][..k - 1] == msgs[..k]
  {
  }

  lemma CompletePrefix(msgs: seq<Bytes>, n: nat)
    requires AllFit(msgs, 0xFFFF_FFFF) && n <= |Frames(msgs)| && CompleteCount(msgs, n) > 0
    ensures Frames(msgs)[..n] == Frame(msgs[0]) + Frames(msgs[1..])[..n - HEADER - |msgs[0]|]
  {
    assert Frames(msgs) == Frame(msgs[0]) + Frames(msgs[1..]);
  }

  lemma NoneComplete(msgs: seq<Bytes>, n: nat, limit: nat)
    requires limit < UINT32 && AllFit(msgs, limit)
    requires n <= |Frames(msgs)| && CompleteCount(msgs, n) == 0
    ensures Parse(Frames(msgs)[..n], limit) == Parsed(msgs[..0], Frames(msgs)[..n], Waiting)
  {
    var start := Frames(msgs)[..n];
    if n >= HEADER {
      var body := msgs[0] + Frames(msgs[1..]);
      Uint32RoundTrip(|msgs[0]|, body);
      assert Frames(msgs) == Uint32Bytes(|msgs[0]|) + body;
      assert BytesUint32(start) == |msgs[0]|;
    }
  }

  lemma {:induction false} CompleteAll(msgs: seq<Bytes>)
    requires AllFit(msgs, 0xFFFF_FFFF)
    ensures CompleteCount(msgs, |Frames(msgs)|) == |msgs|
  {
    if msgs == [] {
    } else {
      CompleteAll(msgs[1..]);
    }
  }

  /** For every list of messages within a 32-bit limit and every chunking of every prefix of its encoding: feeding
      the chunks yields exactly the messages complete so far, in order, and keeps exactly the bytes of the
      incomplete one, as long as those complete are short enough to slice. */
  lemma EveryChunkingOfPrefix(msgs: seq<Bytes>, limit: nat, chunks: seq<Bytes>, n: nat) returns (rest: Bytes)
    requires limit < UINT32 && AllFit(msgs, limit)
    requires AllFit(msgs[..CompleteCount(msgs, n)], MAX_SLICED)
    requires n <= |Frames(msgs)| && Flatten(chunks) == Frames(msgs)[..n]
    ensures Frames(msgs[..CompleteCount(msgs, n)]) + rest == Flatten(chunks)
    ensures FeedAll(Assembler([], limit, false), chunks)
            == Fed(Assembler(rest, limit, false), Messages(msgs[..CompleteCount(msgs, n)]))
  {
    ParsePrefix(msgs, n, limit);
    LeftoverIsRest(msgs, n);
    var a := Assembler([], limit, false);
    assert a.buf + Flatten(chunks) == Frames(msgs)[..n];
    FeedAllParses(a, chunks);
    rest := Leftover(msgs, n);
  }

  /** The whole encoding, however cut, gives back the whole list and an empty buffer. */
  lemma EveryChunking(msgs: seq<Bytes>, limit: nat, chunks: seq<Bytes>)
    requires limit < UINT32 && AllFit(msgs, limit) && AllFit(msgs, MAX_SLICED)
    requires Flatten(chunks) == Frames(msgs)
    ensures FeedAll(Assembler([], limit, false), chunks) == Fed(Assembler([], limit, false), Messages(msgs))
  {
    var stream := Frames(msgs);
    assert stream[..|stream|] == stream;
    CompleteAll(msgs);
    var rest := EveryChunkingOfPrefix(msgs, limit, chunks, |stream|);
    assert msgs[..|msgs|] == msgs;
    assert |Frames(msgs)| + |rest| == |stream|;
    assert rest == [];
  }

  // ---- messages too long to slice ----

  lemma {:induction false} ParseTooLong(msgs: seq<Bytes>, limit: nat)
    requires limit < UINT32 && AllFit(msgs, limit) && !AllFit(msgs, MAX_SLICED)
    ensures Parse(Frames(msgs), limit).ending.Wrapped?
    decreases |msgs|
  {
    var body := msgs[0] + Frames(msgs[1..]);
    if Fits(msgs[0], MAX_SLICED) {
      ParseFrame(msgs[0], Frames(msgs[1..]), limit);
      ParseTooLong(msgs[1..], limit);
    } else {
      Uint32RoundTrip(|msgs[0]|, body);
      assert Frames(msgs) == Uint32Bytes(|msgs[0]|) + body;
    }
  }

  /** Feeding the encoding of messages within a 32-bit limit, however cut, panics exactly when one of them is longer
      than 0xFFFFFFFB bytes. */
  lemma PanicsExactly(msgs: seq<Bytes>, limit: nat, chunks: seq<Bytes>)
    requires limit < UINT32 && AllFit(msgs, limit)
    requires Flatten(chunks) == Frames(msgs)
    ensures FeedAll(Assembler([], limit, false), chunks).reply.Panicked? <==> !AllFit(msgs, MAX_SLICED)
  {
    if AllFit(msgs, MAX_SLICED) {
      EveryChunking(msgs, limit, chunks);
    } else {
      var a := Assembler([], limit, false);
      ParseTooLong(msgs, limit);
      assert a.buf + Flatten(chunks) == Frames(msgs);
      FeedAllStops(a, chunks);
    }
  }

  lemma {:induction false} ShortNeverWraps(buf: Bytes, limit: nat)
    requires limit <= MAX_SLICED
    ensures !Parse(buf, limit).ending.Wrapped?
    decreases |buf|
  {
    if Complete(buf, limit) {
      ShortNeverWraps(AfterFirst(buf), limit);
    }
  }

  /** No stream makes an assembler panic exactly when its limit is at most 0xFFFFFFFB; above it, one message of
      0xFFFFFFFC bytes does. */
  lemma SafeLimitExactly(limit: nat)
    ensures (forall buf :: !Parse(buf, limit).ending.Wrapped?) <==> limit <= MAX_SLICED
  {
    if limit <= MAX_SLICED {
      forall buf ensures !Parse(buf, limit).ending.Wrapped? {
        ShortNeverWraps(buf, limit);
      }
    } else {
      var msg: Bytes := seq(MAX_SLICED + 1, _ => 0);
      var buf := Frame(msg);
      Uint32RoundTrip(|msg|, msg);
      assert Parse(buf, limit).ending.Wrapped?;
    }
  }
}
