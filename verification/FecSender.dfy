/** Forming parity blocks on the sending side (fecSender in tunnel/fec.go). The loss estimate, which decides how much
    parity is wanted, and the timer are inputs. */
module FecSender {

  import opened Common
  import opened FecFrame
  import opened FecShards

  const BOOTSTRAP: nat := 4

  datatype Source = Source(seqNo: nat, payload: Bytes)

  datatype Sender = Sender(pending: seq<Source>, gen: nat, closed: bool, blocks: nat, ext: bool)

  /** The sender afterwards and the blocks it detached, to be encoded outside the lock. */
  datatype Step = Step(next: Sender, detached: seq<seq<Source>>)

  predicate Breaks(pending: seq<Source>, seqNo: nat) {
    pending != [] && seqNo != pending[|pending| - 1].seqNo + 1
  }

  /** `clean` says that the loss estimate asks for no parity. */
  function Added(s: Sender, seqNo: nat, payload: Bytes, clean: bool): Step {
    if seqNo == 0 || payload == [] || s.closed then Step(s, [])
    else if s.pending == [] && s.blocks >= BOOTSTRAP && clean then Step(s, [])
    else
      var broken := Breaks(s.pending, seqNo);
      var pending := (if broken then [] else s.pending) + [Source(seqNo, payload)];
      var first := if broken then [s.pending] else [];
      var gen := if |pending| == 1 then s.gen + 1 else s.gen;
      if |pending| >= DATA_MAX then Step(s.(pending := [], gen := gen), first + [pending])
      else Step(s.(pending := pending, gen := gen), first)
  }

  function Flushed(s: Sender, gen: nat): Step {
    if s.closed || gen != s.gen || s.pending == [] then Step(s, []) else Step(s.(pending := []), [s.pending])
  }

  // ---- what a block is ----

  predicate Consecutive(block: seq<Source>) {
    forall i | 0 <= i < |block| :: block[i].seqNo == block[0].seqNo + i
  }

  /** Consecutive sources, each with the payload recorded for its number. */
  predicate BlockFrom(sent: map<nat, Bytes>, block: seq<Source>) {
    && Consecutive(block)
    && forall i | 0 <= i < |block| :: Holds(sent, block[i])
  }

  predicate Holds(sent: map<nat, Bytes>, source: Source) {
    && 1 <= source.seqNo <= MAX_SEQ
    && source.seqNo in sent && sent[source.seqNo] == source.payload != []
  }

  predicate SenderInv(sent: map<nat, Bytes>, s: Sender) {
    |s.pending| < DATA_MAX && BlockFrom(sent, s.pending)
  }

  predicate Detachable(sent: map<nat, Bytes>, blocks: seq<seq<Source>>) {
    forall i | 0 <= i < |blocks| :: 1 <= |blocks[i]| <= DATA_MAX && BlockFrom(sent, blocks[i])
  }

  /** Adding keeps the pending block short, consecutive and true; so are the blocks it detaches. */
  lemma AddedKeeps(sent: map<nat, Bytes>, s: Sender, seqNo: nat, payload: Bytes, clean: bool)
    requires SenderInv(sent, s)
    requires seqNo <= MAX_SEQ && (seqNo != 0 && payload != [] ==> seqNo in sent && sent[seqNo] == payload)
    ensures var step := Added(s, seqNo, payload, clean);
            SenderInv(sent, step.next) && Detachable(sent, step.detached)
  {
  }

  /** Nothing added is dropped: while open and not idling on a clean path, what was pending followed by the new
      record is exactly what the detached blocks hold followed by what is pending now. */
  lemma AddedConserves(s: Sender, seqNo: nat, payload: Bytes, clean: bool)
    requires seqNo != 0 && payload != [] && !s.closed
    requires s.pending != [] || s.blocks < BOOTSTRAP || !clean
    ensures var step := Added(s, seqNo, payload, clean);
            s.pending + [Source(seqNo, payload)] == Joined(step.detached) + step.next.pending
  {
    var step := Added(s, seqNo, payload, clean);
    var all := s.pending + [Source(seqNo, payload)];
    if |step.detached| == 1 {
      assert Joined(step.detached) == step.detached[0] + Joined([]);
    }
  }

  /** A block is detached exactly when a gap ends it or it reaches eight records, and a record starts a new timer
      generation exactly when it starts a block, so a timer flushes only the block it was armed for. */
  lemma AddedExactly(s: Sender, seqNo: nat, payload: Bytes, clean: bool)
    requires |s.pending| < 8
    ensures var step := Added(s, seqNo, payload, clean);
            if seqNo == 0 || payload == [] || s.closed || (s.pending == [] && s.blocks >= 4 && clean) then
              step == Step(s, [])
            else
              var gap := s.pending != [] && seqNo != s.pending[|s.pending| - 1].seqNo + 1;
              && step.detached == (if gap then [s.pending]
                                   else if |s.pending| == 7 then [s.pending + [Source(seqNo, payload)]] else [])
              && step.next.gen == s.gen + (if gap || s.pending == [] then 1 else 0)
              && step.next.blocks == s.blocks && !step.next.closed && step.next.ext == s.ext
  {
  }

  function Joined(blocks: seq<seq<Source>>): seq<Source> {
    if blocks == [] then [] else blocks[0] + Joined(blocks[1..])
  }

  // ---- parity ----

  /** How many parity shards block number `no` of k records gets when the estimate asks for `wanted`. */
  function ParityCount(wanted: nat, no: nat, k: nat, ext: bool): (m: nat)
    requires k >= 1
    ensures m <= k - 1 && m <= (if ext then 8 else 4)
    ensures m <= Max(wanted, 1) && (no > 4 ==> m <= wanted) && (no <= 4 && k >= 2 ==> m >= 1)
    ensures m == k - 1 || m == (if ext then 8 else 4) || m == wanted || (m == 1 && no <= 4 && wanted == 0)
  {
    var asked := if no <= BOOTSTRAP && wanted < 1 then 1 else wanted;
    Min(Min(asked, k - 1), ParityCap(ext))
  }

  function PayloadsOf(block: seq<Source>): (payloads: seq<Bytes>)
    ensures |payloads| == |block|
    ensures forall i | 0 <= i < |block| :: payloads[i] == block[i].payload
  {
    seq(|block|, i requires 0 <= i < |block| => block[i].payload)
  }

  /** The sender afterwards and the parity shards it sends. */
  datatype Emission = Emission(next: Sender, parity: seq<Parity>)

  function Emitted(codec: Codec, s: Sender, block: seq<Source>, wanted: nat): Emission
    requires |block| <= DATA_MAX
  {
    var payloads := PayloadsOf(block);
    var size := ShardSize(payloads);
    if block == [] || !Consecutive(block) || size > MAX_DATA || s.closed then Emission(s, [])
    else
      var m := ParityCount(wanted, s.blocks + 1, |block|, s.ext);
      var shards := codec.encode(DataShards(payloads, size), m);
      Emission(s.(blocks := s.blocks + 1), if m == 0 then [] else ParityOf(shards, block[0].seqNo, |block|, m, s.ext))
  }

  function ParityOf(shards: seq<Bytes>, base: nat, k: nat, m: nat, ext: bool): (r: seq<Parity>)
    ensures |shards| == m ==> |r| == m
    ensures forall i | 0 <= i < |r| :: i < |shards| && r[i] == Parity(base, k, m, i, shards[i], ext)
  {
    seq(Min(m, |shards|), i requires 0 <= i < Min(m, |shards|) => Parity(base, k, m, i, shards[i], ext))
  }

  /** Every parity shard sent is the encoding of recorded payloads, fits the frame, and reads back from it. */
  lemma EmittedGenuine(codec: Codec, sent: map<nat, Bytes>, s: Sender, block: seq<Source>, wanted: nat, i: nat)
    requires Encodes(codec) && |block| <= DATA_MAX && BlockFrom(sent, block)
    requires i < |Emitted(codec, s, block, wanted).parity|
    ensures var p := Emitted(codec, s, block, wanted).parity[i];
            Genuine(codec, sent, p) && Packable(p) && p.ext == s.ext && p.base + p.k - 1 <= MAX_SEQ
  {
    var payloads, k, base := PayloadsOf(block), |block|, block[0].seqNo;
    var size, m := ShardSize(payloads), ParityCount(wanted, s.blocks + 1, k, s.ext);
    BlockIsRecorded(sent, block);
    var data := DataShards(payloads, size);
    assert Shape(data, m, size);
    var p := Emitted(codec, s, block, wanted).parity[i];
    assert p == Parity(base, k, m, i, codec.encode(data, m)[i], s.ext);
    assert |p.data| == size;
  }

  /** A consecutive block that fits is counted while the sender is open, and every one of its parity shards is sent. */
  lemma EmittedExactly(codec: Codec, s: Sender, block: seq<Source>, wanted: nat)
    requires Encodes(codec) && 1 <= |block| <= DATA_MAX && Consecutive(block)
    ensures var e := Emitted(codec, s, block, wanted);
            if s.closed || (exists i | 0 <= i < |block| :: 2 + |block[i].payload| > 1394) then e == Emission(s, [])
            else
              && e.next == s.(blocks := s.blocks + 1)
              && |e.parity| == ParityCount(wanted, s.blocks + 1, |block|, s.ext)
              && forall i | 0 <= i < |e.parity| ::
                   && e.parity[i].index == i && e.parity[i].m == |e.parity| && e.parity[i].k == |block|
                   && e.parity[i].base == block[0].seqNo
  {
    var payloads := PayloadsOf(block);
    var size, m := ShardSize(payloads), ParityCount(wanted, s.blocks + 1, |block|, s.ext);
    LongestIsOne(payloads);
    assert forall i | 0 <= i < |block| :: payloads[i] == block[i].payload;
    if size <= MAX_DATA && m > 0 {
      assert Shape(DataShards(payloads, size), m, size);
    }
  }

  lemma {:induction false} LongestIsOne(payloads: seq<Bytes>)
    requires payloads != []
    ensures exists i | 0 <= i < |payloads| :: |payloads[i]| == Longest(payloads)
  {
    var n := |payloads| - 1;
    if n > 0 && Longest(payloads[..n]) > |payloads[n]| {
      LongestIsOne(payloads[..n]);
      var i :| 0 <= i < n && |payloads[..n][i]| == Longest(payloads[..n]);
      assert |payloads[i]| == Longest(payloads);
    } else {
      assert |payloads[n]| == Longest(payloads);
    }
  }

  lemma BlockIsRecorded(sent: map<nat, Bytes>, block: seq<Source>)
    requires BlockFrom(sent, block) && block != []
    ensures Recorded(sent, block[0].seqNo, |block|)
    ensures Payloads(sent, block[0].seqNo, |block|) == PayloadsOf(block)
    ensures 1 <= block[0].seqNo && block[0].seqNo + |block| - 1 <= MAX_SEQ
  {
    forall i | 0 <= i < |block|
      ensures Number(block[0].seqNo, i) in sent && sent[Number(block[0].seqNo, i)] == block[i].payload
    {
      assert Holds(sent, block[i]);
    }
    assert Holds(sent, block[0]) && Holds(sent, block[|block| - 1]);
  }

  // ---- the object ----

  class FecSender {
    var pending: seq<Source>
    var flushGen: nat
    var closed: bool
    var blocks: nat
    const extParity: bool
    const codec: Codec

    function State(): Sender
      reads this
    {
      Sender(pending, flushGen, closed, blocks, extParity)
    }

    constructor (c: Codec, ext: bool)
      ensures State() == Sender([], 0, false, 0, ext) && codec == c
    {
      pending, flushGen, closed, blocks, extParity, codec := [], 0, false, 0, ext, c;
    }

    method Add(seqNo: nat, payload: Bytes, clean: bool) returns (detached: seq<seq<Source>>)
      modifies this
      ensures Added(old(State()), seqNo, payload, clean) == Step(State(), detached)
    {
      detached := [];
      if seqNo == 0 || payload == [] { return; }
      if closed { return; }
      if pending == [] && blocks >= BOOTSTRAP && clean { return; }
      var n := |pending|;
      if n > 0 && seqNo != pending[n - 1].seqNo + 1 {
        var block := Detach();
        detached := detached + [block];
      }
      pending := pending + [Source(seqNo, payload)];
      if |pending| == 1 { flushGen := flushGen + 1; }
      if |pending| >= DATA_MAX {
        var block := Detach();
        detached := detached + [block];
      }
    }

    method Detach() returns (block: seq<Source>)
      modifies this
      ensures block == old(pending) && State() == old(State()).(pending := [])
    {
      block := pending;
      pending := [];
    }

    method FlushTimer(gen: nat) returns (detached: seq<seq<Source>>)
      modifies this
      ensures Flushed(old(State()), gen) == Step(State(), detached)
      ensures !old(closed) && gen == old(flushGen) && old(pending) != [] ==> detached == [old(pending)] && pending == []
      ensures old(closed) || gen != old(flushGen) || old(pending) == [] ==> detached == [] && State() == old(State())
    {
      if closed || gen != flushGen { return []; }
      var block := Detach();
      return if block == [] then [] else [block];
    }

    method EmitBlock(block: seq<Source>, wanted: nat) returns (parity: seq<Parity>)
      requires |block| <= DATA_MAX
      modifies this
      ensures Emitted(codec, old(State()), block, wanted) == Emission(State(), parity)
    {
      if block == [] { return []; }
      var consecutive := InOrder(block);
      if !consecutive { return []; }
      var longest := LongestPayload(block);
      var size := PREFIX + longest;
      if size > MAX_DATA { return []; }
      if closed { return []; }
      blocks := blocks + 1;
      var m := CountParity(wanted, blocks, |block|, extParity);
      if m <= 0 { return []; }
      var data := FillShards(block, size);
      parity := Tagged(codec.encode(data, m), block[0].seqNo, |block|, m, extParity);
    }

    method Close()
      modifies this
      ensures State() == old(State()).(closed := true, pending := if old(closed) then old(pending) else [])
    {
      if !closed {
        closed := true;
        pending := [];
      }
    }
  }

  method CountParity(wanted: nat, no: nat, k: nat, ext: bool) returns (m: nat)
    requires k >= 1
    ensures m == ParityCount(wanted, no, k, ext)
  {
    m := wanted;
    if no <= BOOTSTRAP && m < 1 { m := 1; }
    if m > k - 1 { m := k - 1; }
    if m <= 0 { return; }
    var maxParity := PARITY_MAX;
    if ext { maxParity := PARITY_EXT_MAX; }
    if m > maxParity { m := maxParity; }
  }

  method InOrder(block: seq<Source>) returns (ok: bool)
    requires block != []
    ensures ok <==> Consecutive(block)
  {
    var i := 1;
    while i < |block|
      invariant 1 <= i <= |block|
      invariant forall j | 0 <= j < i :: block[j].seqNo == block[0].seqNo + j
    {
      if block[i].seqNo != block[0].seqNo + i { return false; }
      i := i + 1;
    }
    return true;
  }

  method LongestPayload(block: seq<Source>) returns (n: nat)
    ensures n == Longest(PayloadsOf(block))
  {
    n := 0;
    var i := 0;
    ghost var payloads := PayloadsOf(block);
    while i < |block|
      invariant 0 <= i <= |block|
      invariant n == Longest(payloads[..i])
    {
      assert payloads[..i + 1][..i] == payloads[..i];
      if |block[i].payload| > n { n := |block[i].payload|; }
      i := i + 1;
    }
    assert payloads[..i] == payloads;
  }

  method FillShards(block: seq<Source>, size: nat) returns (data: seq<Bytes>)
    requires size <= MAX_DATA && forall i | 0 <= i < |block| :: PREFIX + |block[i].payload| <= size
    ensures data == DataShards(PayloadsOf(block), size)
  {
    data := [];
    var i := 0;
    while i < |block|
      invariant 0 <= i <= |block| && |data| == i
      invariant forall j | 0 <= j < i :: data[j] == DataShard(block[j].payload, size)
    {
      var shard := FillShard(block[i].payload, size);
      data := data + [shard];
      i := i + 1;
    }
  }

  method Tagged(shards: seq<Bytes>, base: nat, k: nat, m: nat, ext: bool) returns (parity: seq<Parity>)
    ensures parity == ParityOf(shards, base, k, m, ext)
  {
    parity := [];
    var i := 0;
    while i < m && i < |shards|
      invariant 0 <= i <= m && i <= |shards| && |parity| == i
      invariant forall j | 0 <= j < i :: parity[j] == Parity(base, k, m, j, shards[j], ext)
    {
      parity := parity + [Parity(base, k, m, i, shards[i], ext)];
      i := i + 1;
    }
  }
}
